/** The rate limit in nanoseconds and 32-bit sums. */
module RateLaws {
  import opened RateGovernor
  import opened RateOverflow

  /** A record leaves exactly when it and all before it are more than 60 seconds old. */
  lemma PrunedByAge(w: seq<Record>, now: int, i: nat)
    requires i < |w|
    ensures i < |w| - |Prune(w, now)| <==> forall k :: 0 <= k <= i ==> now - w[k].at > 60_000_000_000
  {
    var r := Prune(w, now);
    hide Prune;
    if i >= |w| - |r| {
      assert r[0] == w[|w| - |r|];
    }
  }

  /** The token test is made on sums modulo 2^32. */
  lemma GrantedIn32Bits(l: Limits, w: seq<Record>, amount: nat)
    ensures Granted(l, w, amount) <==> |w| < l.rpm && (Sum(w) + amount) % 0x1_0000_0000 <= l.tpm
  {
    WrapAdd(Sum(w), amount);
  }

  /** The wait is the least number of milliseconds after which the oldest record is at least 60 seconds old. */
  lemma WaitIsLeast(w: seq<Record>, now: int, ms: nat)
    requires w != [] ==> w[0].at <= now
    ensures w == [] ==> WaitMs(w, now) == 0
    ensures w != [] ==> (WaitMs(w, now) <= ms <==> now + ms * 1_000_000 - w[0].at >= 60_000_000_000)
  {
    if w != [] {
      LeastMilliseconds(now - w[0].at, ms);
    }
  }

  lemma LeastMilliseconds(age: int, ms: nat)
    requires age >= 0
    ensures 60_000 - age / 1_000_000 <= ms <==> age + ms * 1_000_000 >= 60_000_000_000
  {
  }

  /** A stretch of the history that lies within a closed minute is part of what that minute counts. */
  lemma {:induction false} StretchCounted(h: seq<Record>, i: nat, j: nat, x: int)
    requires i <= j <= |h| && forall k :: i <= k < j ==> x <= h[k].at <= x + 60_000_000_000
    ensures j - i <= |Within(h, x)| && Sum(h[i..j]) <= Sum(Within(h, x))
    decreases |h|
  {
    hide Within, Sum;
    if i == j {
      assert h[i..j] == [];
      EmptySum();
    }
    if i < j {
      var pre, last := h[..|h| - 1], h[|h| - 1];
      WithinLast(h, x);
      if j == |h| {
        StretchCounted(pre, i, j - 1, x);
        assert h[i..j] == pre[i..j - 1] + [last];
        SumLast(pre[i..j - 1], last);
      } else {
        StretchCounted(pre, i, j, x);
        assert h[i..j] == pre[i..j];
      }
    }
  }

  lemma EmptySum()
    ensures Sum([]) == 0
  {
  }

  lemma WithinLast(h: seq<Record>, x: int)
    requires h != []
    ensures var pre, last := h[..|h| - 1], h[|h| - 1];
      if x <= last.at <= x + 60_000_000_000 then
        |Within(h, x)| == |Within(pre, x)| + 1 && Sum(Within(h, x)) == Sum(Within(pre, x)) + last.tokens
      else Within(h, x) == Within(pre, x)
  {
    hide Sum;
    var pre, last := h[..|h| - 1], h[|h| - 1];
    SumLast(Within(pre, x), last);
    assert Within(pre, x) + [] == Within(pre, x);
  }

  /**
   Over every run, with any amounts: more than `rpm` requests one after the other always take more than
   60 seconds.
   */
  lemma RequestsPerMinute(l: Limits, run: seq<Event>, most: nat, i: nat, j: nat)
    requires IsRun(l, run, most) && i <= j < |After(l, run).history|
    ensures var h := After(l, run).history;
      h[j].at - h[i].at <= 60_000_000_000 ==> j - i + 1 <= l.rpm
  {
    hide IsRun, After, Within, Sum;
    var h := After(l, run).history;
    RunKeepsCount(l, run, most);
    if h[j].at - h[i].at <= 60_000_000_000 {
      StretchCounted(h, i, j + 1, h[i].at);
    }
  }

  /** The same for tokens, when no sum of 32 bits can wrap. */
  lemma TokensPerMinute(l: Limits, run: seq<Event>, most: nat, i: nat, j: nat)
    requires IsRun(l, run, most) && l.tpm < 0x1_0000_0000 && i <= j < |After(l, run).history|
    requires l.tpm + most < 0x1_0000_0000 || l.rpm * most < 0x1_0000_0000
    ensures var h := After(l, run).history;
      h[j].at - h[i].at <= 60_000_000_000 ==> Sum(h[i..j + 1]) <= l.tpm
  {
    hide IsRun, After, Within, Sum;
    var h := After(l, run).history;
    RunKeepsBound(l, run, most);
    if h[j].at - h[i].at <= 60_000_000_000 {
      StretchCounted(h, i, j + 1, h[i].at);
    }
  }

  /** The rate bound holds over all runs with amounts up to `most` exactly when no 32-bit sum can wrap. */
  lemma BoundIffNoWrap(l: Limits, most: nat)
    requires l.tpm < WORD && most < WORD
    ensures AlwaysBounded(l, most) <==> NoWrap(l, most)
  {
    hide NoWrap;
    if NoWrap(l, most) {
      forall run | IsRun(l, run, most) ensures BoundHolds(l, After(l, run).history) {
        RunKeepsBound(l, run, most);
      }
    } else {
      WrapBreaksBound(l, most);
    }
  }
}
