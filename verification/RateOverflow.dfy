/**
 How 32-bit sums break the token bound of the rate governor.

 When neither the token limit nor the request limit keeps every sum below 2^32, a burst at one moment
 does it: requests of the largest amount and one smaller request fill the window to exactly 2^32 minus
 the largest amount, and one more request then finds a sum of 0.  `FullRequests` counts the requests that
 fit, `FullBurst` builds the run, and `WrapBreaksBound` puts both together.
 */
module RateOverflow {
  import opened RateGovernor

  ghost predicate AlwaysBounded(l: Limits, most: nat) {
    forall run :: IsRun(l, run, most) ==> BoundHolds(l, After(l, run).history)
  }

  /** Everything so far happened at time 0: `total` tokens in `count` records. */
  ghost predicate BurstState(s: System, total: nat, count: nat) {
    && s.clock == 0 && s.window == s.history && |s.history| == count && Sum(s.history) == total
    && forall i :: 0 <= i < |s.history| ==> s.history[i].at == 0
  }

  /** The run ends in state s, a burst of `count` records at time 0. */
  ghost predicate Burst(l: Limits, run: seq<Event>, s: System, most: nat, total: nat, count: nat) {
    IsRun(l, run, most) && After(l, run) == s && BurstState(s, total, count)
  }

  lemma RunExtends(l: Limits, run: seq<Event>, e: Event, most: nat)
    requires IsRun(l, run, most) && Enabled(After(l, run), e, most)
    ensures IsRun(l, run + [e], most) && After(l, run + [e]) == Apply(l, After(l, run), e)
  {
    hide Apply, Enabled;
    assert (run + [e])[..|run|] == run;
  }

  lemma AskAtZero(l: Limits, s: System, total: nat, count: nat, amount: nat)
    requires BurstState(s, total, count) && count < l.rpm
    requires total + amount <= l.tpm < WORD || total + amount == WORD
    ensures Apply(l, s, Ask(0, amount)) == s.(granted := s.granted + {amount})
  {
    hide Sum, Wrap;
    WrapBelow(total + amount);
    WrapAdd(total, amount);
    assert Prune(s.window, 0) == s.window;
    assert Granted(l, s.window, amount);
  }

  lemma UseAtZero(l: Limits, s: System, total: nat, count: nat, amount: nat)
    requires BurstState(s, total, count)
    ensures BurstState(Apply(l, s, Use(0, amount)), total + amount, count + 1)
  {
    SumLast(s.history, Record(0, amount));
  }

  /** The state after a granted question. */
  function Asked(s: System, amount: nat): System {
    s.(granted := s.granted + {amount})
  }

  /** The state after a request at time 0 was recorded. */
  function Recorded(s: System, amount: nat): System {
    System(s.window + [Record(0, amount)], s.history + [Record(0, amount)], 0, {})
  }

  lemma BurstAsk(l: Limits, run: seq<Event>, s: System, most: nat, total: nat, count: nat, amount: nat)
    requires Burst(l, run, s, most, total, count) && amount <= most && count < l.rpm
    requires total + amount <= l.tpm < WORD || total + amount == WORD
    ensures Burst(l, run + [Ask(0, amount)], Asked(s, amount), most, total, count)
  {
    hide Apply, IsRun, After;
    AskAtZero(l, s, total, count, amount);
    RunExtends(l, run, Ask(0, amount), most);
  }

  lemma BurstUse(l: Limits, run: seq<Event>, s: System, most: nat, total: nat, count: nat, amount: nat)
    requires Burst(l, run, s, most, total, count) && amount <= most && amount in s.granted
    ensures Burst(l, run + [Use(0, amount)], Recorded(s, amount), most, total + amount, count + 1)
  {
    hide Sum, IsRun, After;
    RunExtends(l, run, Use(0, amount), most);
    UseAtZero(l, s, total, count, amount);
  }

  /** A granted and recorded request. */
  lemma BurstRequest(l: Limits, run: seq<Event>, s: System, most: nat, total: nat, count: nat, amount: nat)
    returns (run': seq<Event>, s': System)
    requires Burst(l, run, s, most, total, count) && amount <= most && count < l.rpm
    requires total + amount <= l.tpm < WORD || total + amount == WORD
    ensures Burst(l, run', s', most, total + amount, count + 1)
  {
    hide Burst;
    BurstAsk(l, run, s, most, total, count, amount);
    BurstUse(l, run + [Ask(0, amount)], Asked(s, amount), most, total, count, amount);
    run', s' := run + [Ask(0, amount)] + [Use(0, amount)], Recorded(Asked(s, amount), amount);
  }

  lemma MulPred(k: nat, m: nat)
    requires k >= 1
    ensures k * m == (k - 1) * m + m
  {
  }

  /** k requests of the largest amount. */
  lemma {:induction false} FullBurst(l: Limits, most: nat, k: nat, total: nat) returns (run: seq<Event>, s: System)
    requires k <= l.rpm && total == k * most && total <= l.tpm < WORD
    ensures Burst(l, run, s, most, total, k)
    decreases k
  {
    if k == 0 {
      run, s := [], START;
    } else {
      hide Burst;
      MulPred(k, most);
      run, s := FullBurst(l, most, k - 1, total - most);
      run, s := BurstRequest(l, run, s, most, total - most, k - 1, most);
    }
  }

  /** How many full requests go into `total`; the count limit leaves room for them and one more. */
  lemma {:induction false} FullRequests(total: nat, most: nat, rpm: nat) returns (k: nat, full: nat)
    requires most > 0 && total + most <= rpm * most
    ensures full == k * most && full <= total < full + most
    ensures if full == total then k < rpm else k + 1 < rpm
    decreases total
  {
    if total < most {
      k, full := 0, 0;
      if rpm <= 1 {
        FactorMonotone(rpm, 1, most);
      }
    } else {
      if rpm == 0 {
        assert false;
      }
      MulPred(rpm, most);
      k, full := FullRequests(total - most, most, rpm - 1);
      MulPred(k + 1, most);
      k, full := k + 1, full + most;
    }
  }

  lemma FactorMonotone(a: nat, b: nat, m: nat)
    requires a <= b
    ensures a * m <= b * m
  {
  }

  /** A window that holds 2^32 - most tokens lets one more request through: the sum wraps to 0. */
  lemma WrappingRequest(l: Limits, most: nat, run: seq<Event>, s: System, count: nat)
    requires l.tpm < WORD && 0 < most < WORD && count < l.rpm && Burst(l, run, s, most, WORD - most, count)
    ensures !AlwaysBounded(l, most)
  {
    hide Sum, Within, Apply;
    var run', s' := BurstRequest(l, run, s, most, WORD - most, count, most);
    var h := s'.history;
    WithinAll(h, 0, 0);
    assert h[0..] == h;
    assert !BoundHolds(l, h) by {
      assert Sum(Within(h, 0)) == WORD;
    }
  }

  /** k full requests and a smaller one bring the window there. */
  lemma WrapAfter(l: Limits, most: nat, k: nat, full: nat)
    requires l.tpm < WORD && 0 < most < WORD && WORD - most <= l.tpm
    requires full == k * most && full <= WORD - most < full + most
    requires if full == WORD - most then k < l.rpm else k + 1 < l.rpm
    ensures !AlwaysBounded(l, most)
  {
    hide Burst, AlwaysBounded;
    var run, s := FullBurst(l, most, k, full);
    var rest := WORD - most - full;
    if rest > 0 {
      run, s := BurstRequest(l, run, s, most, full, k, rest);
      WrappingRequest(l, most, run, s, k + 1);
    } else {
      WrappingRequest(l, most, run, s, k);
    }
  }

  /** When sums can wrap, a burst gets more than `tpm` tokens through. */
  lemma WrapBreaksBound(l: Limits, most: nat)
    requires !NoWrap(l, most) && l.tpm < WORD && most < WORD
    ensures !AlwaysBounded(l, most)
  {
    hide AlwaysBounded;
    var k, full := FullRequests(WORD - most, most, l.rpm);
    WrapAfter(l, most, k, full);
  }
}
