/** The sliding-window rate governor: at most `rpm` requests and `tpm` tokens in any 60 seconds. */
module RateGovernor {

  /** The steady clock counts nanoseconds. */
  const MINUTE: int := 60_000_000_000
  const MILLISECOND: int := 1_000_000
  /** Token sums are 32-bit. */
  const WORD: nat := 0x1_0000_0000

  datatype Limits = Limits(rpm: nat, tpm: nat)
  datatype Record = Record(at: int, tokens: nat)

  function Sum(w: seq<Record>): nat {
    if w == [] then 0 else Sum(w[..|w| - 1]) + w[|w| - 1].tokens
  }

  /** Records older than a minute leave from the front. */
  function Prune(w: seq<Record>, now: int): (r: seq<Record>)
    ensures |r| <= |w| && r == w[|w| - |r|..]
    ensures forall i :: 0 <= i < |w| - |r| ==> w[i].at < now - MINUTE
    ensures r != [] ==> r[0].at >= now - MINUTE
  {
    if w != [] && w[0].at < now - MINUTE then Prune(w[1..], now) else w
  }

  function Wrap(x: nat): (r: nat)
    ensures r < WORD && (x < WORD ==> r == x)
  {
    x % WORD
  }

  /** The admission test on a pruned window, with the sum taken modulo 2^32 as the code does. */
  predicate Granted(l: Limits, w: seq<Record>, amount: nat) {
    |w| < l.rpm && Wrap(Wrap(Sum(w)) + amount) <= l.tpm
  }

  /** Milliseconds until the oldest record is a minute old. */
  function WaitMs(w: seq<Record>, now: int): nat
    requires w != [] ==> w[0].at <= now
  {
    if w == [] then 0
    else
      var wait := MINUTE / MILLISECOND - (now - w[0].at) / MILLISECOND;
      if wait < 0 then 0 else wait
  }

  lemma WrapAdd(a: nat, b: nat)
    ensures Wrap(Wrap(a) + b) == Wrap(a + b)
  {
  }

  lemma WrapBelow(x: nat)
    ensures x < WORD ==> Wrap(x) == x
    ensures Wrap(WORD) == 0
  {
  }

  /** The token sum, accumulated in 32 bits. */
  method SumTokens(w: seq<Record>) returns (current: nat)
    ensures current == Wrap(Sum(w))
  {
    current := 0;
    var i := 0;
    while i < |w|
      invariant i <= |w| && current == Wrap(Sum(w[..i]))
    {
      assert w[..i + 1][..i] == w[..i];
      WrapAdd(Sum(w[..i]), w[i].tokens);
      current := Wrap(current + w[i].tokens);
      i := i + 1;
    }
    assert w[..i] == w;
  }

  class Governor {
    const limits: Limits
    var window: seq<Record>

    constructor (limits: Limits)
      ensures this.limits == limits && window == []
    {
      this.limits := limits;
      window := [];
    }

    method PruneOldest(now: int)
      modifies this`window
      ensures window == Prune(old(window), now)
    {
      var cutoff := now - MINUTE;
      while window != [] && window[0].at < cutoff
        invariant Prune(window, now) == Prune(old(window), now)
        decreases |window|
      {
        window := window[1..];
      }
    }

    method IsAllowed(amount: nat, now: int) returns (allowed: bool)
      requires amount < WORD && limits.tpm < WORD
      modifies this`window
      ensures window == Prune(old(window), now)
      ensures allowed == Granted(limits, window, amount)
    {
      hide Wrap, Prune;
      PruneOldest(now);
      if |window| >= limits.rpm {
        return false;
      }
      var current := SumTokens(window);
      return Wrap(current + amount) <= limits.tpm;
    }

    method WaitTimeMs(now: int) returns (ms: nat)
      requires window != [] ==> window[0].at <= now
      ensures ms == WaitMs(window, now)
    {
      if window == [] {
        return 0;
      }
      var elapsed := (now - window[0].at) / MILLISECOND;
      var wait := MINUTE / MILLISECOND - elapsed;
      ms := if wait < 0 then 0 else wait;
    }

    method RecordUse(tokens: nat, now: int)
      modifies this`window
      ensures window == old(window) + [Record(now, tokens)]
    {
      window := window + [Record(now, tokens)];
    }
  }

  // ---------------------------------------------------------------------------------------------
  // Runs
  // ---------------------------------------------------------------------------------------------

  datatype Event = Ask(now: int, amount: nat) | Use(now: int, amount: nat)

  /** `history` keeps every record; `granted` the amounts allowed since the last record. */
  datatype System = System(window: seq<Record>, history: seq<Record>, clock: int, granted: set<nat>)

  const START: System := System([], [], 0, {})

  /** The clock never goes back, and a use follows a granted question about the same amount. */
  predicate Enabled(s: System, e: Event, most: nat) {
    e.now >= s.clock && e.amount <= most && (e.Use? ==> e.amount in s.granted)
  }

  function Apply(l: Limits, s: System, e: Event): System {
    match e
    case Ask(now, amount) =>
      var w := Prune(s.window, now);
      System(w, s.history, now, if Granted(l, w, amount) then s.granted + {amount} else s.granted)
    case Use(now, amount) =>
      System(s.window + [Record(now, amount)], s.history + [Record(now, amount)], now, {})
  }

  /** A run in which no amount exceeds `most`. */
  ghost predicate IsRun(l: Limits, run: seq<Event>, most: nat)
    decreases |run|
  {
    run == [] ||
    (IsRun(l, run[..|run| - 1], most) && Enabled(After(l, run[..|run| - 1]), run[|run| - 1], most))
  }

  ghost function After(l: Limits, run: seq<Event>): System
    decreases |run|
  {
    if run == [] then START else Apply(l, After(l, run[..|run| - 1]), run[|run| - 1])
  }

  /** The records of the full history that fall into the closed minute starting at x. */
  function Within(h: seq<Record>, x: int): seq<Record> {
    if h == [] then []
    else
      var last := h[|h| - 1];
      Within(h[..|h| - 1], x) + (if x <= last.at <= x + MINUTE then [last] else [])
  }

  ghost predicate BoundHolds(l: Limits, h: seq<Record>) {
    forall x: int :: |Within(h, x)| <= l.rpm && Sum(Within(h, x)) <= l.tpm
  }

  // ---------------------------------------------------------------------------------------------
  // The bound
  // ---------------------------------------------------------------------------------------------

  lemma {:induction false} SumConcat(a: seq<Record>, b: seq<Record>)
    ensures Sum(a + b) == Sum(a) + Sum(b)
  {
    if b == [] {
      assert a + b == a;
    } else {
      assert (a + b)[..|a + b| - 1] == a + b[..|b| - 1];
      SumConcat(a, b[..|b| - 1]);
    }
  }

  ghost predicate Sorted(h: seq<Record>, clock: int) {
    && (forall i, j :: 0 <= i < j < |h| ==> h[i].at <= h[j].at)
    && (forall i :: 0 <= i < |h| ==> h[i].at <= clock)
  }

  lemma SumLast(w: seq<Record>, r: Record)
    ensures Sum(w + [r]) == Sum(w) + r.tokens
  {
    assert (w + [r])[..|w|] == w;
  }

  /** If only the first k records are older than a minute, later minutes see nothing but the rest. */
  lemma {:induction false} WithinRecent(h: seq<Record>, k: nat, x: int)
    requires k <= |h| && forall i :: 0 <= i < k ==> h[i].at < x
    ensures |Within(h, x)| <= |h| - k && Sum(Within(h, x)) <= Sum(h[k..])
    decreases |h|
  {
    if |h| > k {
      var pre, last := h[..|h| - 1], h[|h| - 1];
      WithinRecent(pre, k, x);
      assert h[k..] == pre[k..] + [last];
      SumLast(pre[k..], last);
      SumLast(Within(pre, x), last);
      assert Within(pre, x) + [] == Within(pre, x);
    } else {
      WithinNone(h, x);
    }
  }

  lemma {:induction false} WithinNone(h: seq<Record>, x: int)
    requires forall i :: 0 <= i < |h| ==> h[i].at < x
    ensures Within(h, x) == []
  {
    if h != [] {
      WithinNone(h[..|h| - 1], x);
    }
  }

  /** Everything in the window is recent: its sum is the sum of one closed minute. */
  lemma {:induction false} WithinAll(h: seq<Record>, k: nat, x: int)
    requires k <= |h| && forall i :: 0 <= i < k ==> h[i].at < x
    requires forall i :: k <= i < |h| ==> x <= h[i].at <= x + MINUTE
    ensures Within(h, x) == h[k..]
    decreases |h|
  {
    if |h| > k {
      WithinAll(h[..|h| - 1], k, x);
      assert h[k..] == h[..|h| - 1][k..] + [h[|h| - 1]];
    } else {
      WithinNone(h, x);
    }
  }

  /** No 32-bit sum wraps: amounts are small against the word, either by the limit or by the count. */
  predicate NoWrap(l: Limits, most: nat) {
    l.tpm + most < WORD || l.rpm * most < WORD
  }

  ghost predicate AmountsAtMost(h: seq<Record>, most: nat) {
    forall i :: 0 <= i < |h| ==> h[i].tokens <= most
  }

  /** How many records of h at its front are no longer in the window. */
  ghost predicate WindowIsSuffix(s: System) {
    && IsSuffix(s.window, s.history)
    && forall i :: 0 <= i < |s.history| - |s.window| ==> s.history[i].at < s.clock - MINUTE
  }

  /** A granted amount still fits beside everything recorded in the last minute. */
  ghost predicate Fits(l: Limits, s: System, amount: nat) {
    forall x: int :: x >= s.clock - MINUTE ==>
      |Within(s.history, x)| < l.rpm && Sum(Within(s.history, x)) + amount <= l.tpm
  }

  ghost predicate Inv(l: Limits, s: System, most: nat) {
    && Sorted(s.history, s.clock)
    && WindowIsSuffix(s)
    && AmountsAtMost(s.history, most)
    && BoundHolds(l, s.history)
    && forall a :: a in s.granted ==> Fits(l, s, a)
  }

  lemma {:induction false} SumAtMost(w: seq<Record>, most: nat)
    requires AmountsAtMost(w, most)
    ensures Sum(w) <= |w| * most
  {
    if w != [] {
      SumAtMost(w[..|w| - 1], most);
    }
  }

  lemma CountTimesMost(n: nat, m: nat, most: nat)
    requires n < m
    ensures n * most + most <= m * most
  {
    assert (n + 1) * most <= m * most;
  }

  /** The window holds no record older than a minute. */
  ghost predicate Pruned(s: System) {
    s.window != [] ==> s.clock - MINUTE <= s.window[0].at
  }

  /** A pruned window is one closed minute of the history. */
  lemma PrunedWindowIsMinute(s: System)
    requires Sorted(s.history, s.clock) && WindowIsSuffix(s)
    requires Pruned(s)
    ensures Within(s.history, s.clock - MINUTE) == s.window
    ensures s.window != [] ==> s.window[0].at <= s.clock
  {
    var k := |s.history| - |s.window|;
    if s.window != [] {
      assert s.window[0] == s.history[k];
    }
    WithinAll(s.history, k, s.clock - MINUTE);
  }

  lemma PrunedWindow(l: Limits, s: System, most: nat)
    requires Inv(l, s, most) && Pruned(s)
    ensures |s.window| <= l.rpm && Sum(s.window) <= l.tpm && AmountsAtMost(s.window, most)
    ensures s.window != [] ==> s.clock - MINUTE <= s.window[0].at <= s.clock
  {
    PrunedWindowIsMinute(s);
    BoundAt(l, s.history, s.clock - MINUTE);
    SuffixAmounts(s, most);
  }

  lemma BoundAt(l: Limits, h: seq<Record>, x: int)
    requires BoundHolds(l, h)
    ensures |Within(h, x)| <= l.rpm && Sum(Within(h, x)) <= l.tpm
  {
  }

  lemma SuffixAmounts(s: System, most: nat)
    requires WindowIsSuffix(s) && AmountsAtMost(s.history, most)
    ensures AmountsAtMost(s.window, most)
  {
  }

  /** On a pruned window of a state that meets the bound, the test decides what it should. */
  lemma GrantedIsExact(l: Limits, s: System, amount: nat, most: nat)
    requires Inv(l, s, most) && NoWrap(l, most) && l.tpm < WORD && amount <= most
    requires Pruned(s)
    ensures Granted(l, s.window, amount) <==> |s.window| < l.rpm && Sum(s.window) + amount <= l.tpm
  {
    PrunedWindow(l, s, most);
    if |s.window| < l.rpm {
      SumAtMost(s.window, most);
      CountTimesMost(|s.window|, l.rpm, most);
      assert Sum(s.window) + amount < WORD;
    }
  }

  lemma PruneTwice(w: seq<Record>, now: int)
    ensures Prune(Prune(w, now), now) == Prune(w, now)
  {
  }

  ghost predicate IsSuffix(w: seq<Record>, h: seq<Record>) {
    |w| <= |h| && w == h[|h| - |w|..]
  }

  lemma SuffixOfSuffix(h: seq<Record>, w: seq<Record>, v: seq<Record>)
    requires IsSuffix(w, h) && IsSuffix(v, w)
    ensures IsSuffix(v, h)
  {
  }

  lemma PruneIsSuffix(w: seq<Record>, now: int)
    ensures IsSuffix(Prune(w, now), w)
  {
    hide Prune;
  }

  lemma SuffixAt(w: seq<Record>, h: seq<Record>, i: nat)
    requires IsSuffix(w, h) && i < |h|
    ensures |w| <= |h| && (i >= |h| - |w| ==> h[i] == w[i - (|h| - |w|)])
  {
  }

  lemma PruneKeepsSuffix(s: System, now: int)
    requires WindowIsSuffix(s) && now >= s.clock
    ensures WindowIsSuffix(System(Prune(s.window, now), s.history, now, s.granted))
    ensures Prune(Prune(s.window, now), now) == Prune(s.window, now)
  {
    hide Prune, IsSuffix;
    var w := Prune(s.window, now);
    PruneTwice(s.window, now);
    PruneIsSuffix(s.window, now);
    SuffixOfSuffix(s.history, s.window, w);
    forall i | 0 <= i < |s.history| - |w| ensures s.history[i].at < now - MINUTE {
      SuffixAt(s.window, s.history, i);
    }
  }

  /** Time may pass, records may leave the window, and amounts that fit may be granted. */
  lemma InvMoves(l: Limits, s: System, s': System, most: nat)
    requires Inv(l, s, most) && WindowIsSuffix(s') && s'.history == s.history && s'.clock >= s.clock
    requires forall a :: a in s'.granted ==> a in s.granted || Fits(l, s', a)
    ensures Inv(l, s', most)
  {
    hide WindowIsSuffix, Sorted, AmountsAtMost, BoundHolds, Fits;
    SortedLater(s.history, s.clock, s'.clock);
    forall a | a in s'.granted ensures Fits(l, s', a) {
      if a in s.granted {
        FitsLater(l, s, s', a);
      }
    }
  }

  lemma SortedLater(h: seq<Record>, clock: int, later: int)
    requires Sorted(h, clock) && clock <= later
    ensures Sorted(h, later)
  {
  }

  lemma FitsLater(l: Limits, s: System, s': System, amount: nat)
    requires Fits(l, s, amount) && s'.history == s.history && s'.clock >= s.clock
    ensures Fits(l, s', amount)
  {
    hide Within, Sum;
  }

  /** What the exact test allows fits beside the last minute. */
  lemma ExactGrantFits(l: Limits, s: System, amount: nat)
    requires WindowIsSuffix(s) && |s.window| < l.rpm && Sum(s.window) + amount <= l.tpm
    ensures Fits(l, s, amount)
  {
    forall x: int | x >= s.clock - MINUTE
      ensures |Within(s.history, x)| < l.rpm && Sum(Within(s.history, x)) + amount <= l.tpm
    {
      WithinRecent(s.history, |s.history| - |s.window|, x);
    }
  }

  lemma AskInv(l: Limits, s: System, e: Event, most: nat)
    requires Inv(l, s, most) && NoWrap(l, most) && l.tpm < WORD && e.Ask? && Enabled(s, e, most)
    ensures Inv(l, Apply(l, s, e), most)
  {
    hide NoWrap, Wrap, Prune, Inv, Fits, Granted, WindowIsSuffix, Pruned;
    InvParts(l, s, most);
    PruneKeepsSuffix(s, e.now);
    PrunedByPrune(s, e.now);
    var mid := System(Prune(s.window, e.now), s.history, e.now, s.granted);
    InvMoves(l, s, mid, most);
    GrantedIsExact(l, mid, e.amount, most);
    if Granted(l, mid.window, e.amount) {
      ExactGrantFits(l, mid, e.amount);
      var after := mid.(granted := mid.granted + {e.amount});
      FitsHere(l, mid, after, e.amount);
      InvMoves(l, mid, after, most);
    }
  }

  lemma PrunedByPrune(s: System, now: int)
    ensures Pruned(System(Prune(s.window, now), s.history, now, s.granted))
  {
    hide Prune;
  }

  lemma InvParts(l: Limits, s: System, most: nat)
    requires Inv(l, s, most)
    ensures WindowIsSuffix(s)
  {
  }

  lemma FitsHere(l: Limits, s: System, s': System, amount: nat)
    requires Fits(l, s, amount) && WindowIsSuffix(s)
    requires s'.history == s.history && s'.clock == s.clock && s'.window == s.window
    ensures Fits(l, s', amount) && WindowIsSuffix(s')
  {
  }

  lemma UseInv(l: Limits, s: System, e: Event, most: nat)
    requires Inv(l, s, most) && e.Use? && Enabled(s, e, most)
    ensures Inv(l, Apply(l, s, e), most)
  {
    var s' := Apply(l, s, e);
    var r := Record(e.now, e.amount);
    assert s'.history[..|s.history|] == s.history;
    forall x: int ensures |Within(s'.history, x)| <= l.rpm && Sum(Within(s'.history, x)) <= l.tpm {
      if x <= e.now <= x + MINUTE {
        assert Fits(l, s, e.amount);
        SumConcat(Within(s.history, x), [r]);
        assert [r][..0] == [];
      } else {
        assert Within(s'.history, x) == Within(s.history, x);
      }
    }
  }

  lemma StartInv(l: Limits, most: nat)
    ensures Inv(l, START, most)
  {
  }

  /** Over every run, every closed minute of the full history meets both limits. */
  lemma {:induction false} RunKeepsBound(l: Limits, run: seq<Event>, most: nat)
    requires NoWrap(l, most) && l.tpm < WORD && IsRun(l, run, most)
    ensures Inv(l, After(l, run), most)
    decreases |run|
  {
    if run == [] {
      StartInv(l, most);
    } else {
      hide NoWrap, Inv, Apply, Enabled;
      var pre, e := run[..|run| - 1], run[|run| - 1];
      RunKeepsBound(l, pre, most);
      if e.Ask? {
        AskInv(l, After(l, pre), e, most);
      } else {
        UseInv(l, After(l, pre), e, most);
      }
    }
  }

  // ---------------------------------------------------------------------------------------------
  // Waiting
  // ---------------------------------------------------------------------------------------------

  /** How far the reported time carries a window whose oldest record is `age` nanoseconds old. */
  lemma WaitReaches(age: int)
    requires 0 <= age <= MINUTE
    ensures var w := MINUTE / MILLISECOND - age / MILLISECOND;
      w >= 0 && age + w * MILLISECOND >= MINUTE && (age + w * MILLISECOND > MINUTE <==> age % MILLISECOND != 0)
  {
  }

  lemma PruneShortens(w: seq<Record>, later: int)
    requires w != []
    ensures |Prune(w, later)| < |w| <==> w[0].at < later - MINUTE
  {
  }

  /**
   What holds in every run, whether sums wrap or not: the window never holds more than `rpm` records, fewer
   while an amount is granted, and every closed minute of the full history holds at most `rpm`.
   */
  ghost predicate CountInv(l: Limits, s: System) {
    && Sorted(s.history, s.clock)
    && WindowIsSuffix(s)
    && |s.window| <= l.rpm && (s.granted != {} ==> |s.window| < l.rpm)
    && forall x: int :: |Within(s.history, x)| <= l.rpm
  }

  /** Time may pass and records may leave the window. */
  lemma CountMoves(l: Limits, s: System, s': System)
    requires CountInv(l, s) && WindowIsSuffix(s') && s'.history == s.history && s'.clock >= s.clock
    requires |s'.window| <= |s.window| && (s'.granted != {} ==> |s'.window| < l.rpm)
    ensures CountInv(l, s')
  {
    hide WindowIsSuffix, Sorted, Within;
    SortedLater(s.history, s.clock, s'.clock);
  }

  lemma AskKeepsCount(l: Limits, s: System, now: int, amount: nat)
    requires CountInv(l, s) && now >= s.clock
    ensures CountInv(l, Apply(l, s, Ask(now, amount)))
  {
    hide Wrap, Prune, WindowIsSuffix, Sorted, Sum, Within;
    PruneKeepsSuffix(s, now);
    var mid := System(Prune(s.window, now), s.history, now, s.granted);
    var s' := Apply(l, s, Ask(now, amount));
    SuffixOfSame(mid, s');
    assert s'.granted != {} ==> |s'.window| < l.rpm;
    hide CountInv, Apply;
    CountMoves(l, s, s');
  }

  lemma SuffixOfSame(s: System, s': System)
    requires WindowIsSuffix(s) && s'.window == s.window && s'.history == s.history && s'.clock == s.clock
    ensures WindowIsSuffix(s')
  {
  }

  lemma UseKeepsCount(l: Limits, s: System, now: int, amount: nat)
    requires CountInv(l, s) && now >= s.clock && amount in s.granted
    ensures CountInv(l, Apply(l, s, Use(now, amount)))
  {
    hide Sum;
    var r := Record(now, amount);
    var s' := Apply(l, s, Use(now, amount));
    UseKeepsSuffix(s, now, r, s');
    forall x: int ensures |Within(s'.history, x)| <= l.rpm {
      assert s'.history[..|s.history|] == s.history;
      if x <= now <= x + MINUTE {
        WithinRecent(s.history, |s.history| - |s.window|, x);
      }
    }
  }

  lemma UseKeepsSuffix(s: System, now: int, r: Record, s': System)
    requires Sorted(s.history, s.clock) && WindowIsSuffix(s) && now >= s.clock && r.at == now
    requires s' == System(s.window + [r], s.history + [r], now, {})
    ensures Sorted(s'.history, s'.clock) && WindowIsSuffix(s')
  {
  }

  /** Over every run, with any amounts: the request limit holds for every closed minute of the full history. */
  lemma {:induction false} RunKeepsCount(l: Limits, run: seq<Event>, most: nat)
    requires IsRun(l, run, most)
    ensures CountInv(l, After(l, run))
    decreases |run|
  {
    if run != [] {
      hide CountInv, Apply;
      var pre, e := run[..|run| - 1], run[|run| - 1];
      RunKeepsCount(l, pre, most);
      match e
      case Ask(now, amount) => AskKeepsCount(l, After(l, pre), now, amount);
      case Use(now, amount) => UseKeepsCount(l, After(l, pre), now, amount);
    }
  }

  /** The oldest record of a full window leaves exactly when it is more than a minute old. */
  lemma ClearsWhenOldestLeaves(l: Limits, s: System, later: int)
    requires CountInv(l, s) && |s.window| >= l.rpm > 0
    ensures s.window[0].at <= s.clock
    ensures |Prune(s.window, later)| < l.rpm <==> s.window[0].at < later - MINUTE
  {
    hide Within, Prune;
    assert s.window[0] == s.history[|s.history| - |s.window|];
    PruneShortens(s.window, later);
  }

  /**
   After a denial by count at `s.clock`, the caller asks for the time to wait at any `now` from then on;
   waiting longer than that clears the count.
   */
  lemma WaitingLongerClears(l: Limits, s: System, now: int, later: int)
    requires CountInv(l, s) && |s.window| >= l.rpm > 0 && now >= s.clock
    ensures s.window[0].at <= now
    ensures later > now + WaitMs(s.window, now) * MILLISECOND ==> |Prune(s.window, later)| < l.rpm
  {
    hide CountInv, Prune;
    ClearsWhenOldestLeaves(l, s, later);
    WaitBoundary(s.window, now);
  }

  /** How far the reported time carries the oldest record. */
  lemma WaitBoundary(w: seq<Record>, now: int)
    requires w != [] && w[0].at <= now
    ensures var reached := now + WaitMs(w, now) * MILLISECOND - MINUTE;
      var age := now - w[0].at;
      w[0].at <= reached && (w[0].at < reached <==> age > MINUTE || age % MILLISECOND != 0)
  {
    var age := now - w[0].at;
    if age <= MINUTE {
      WaitReaches(age);
    }
  }

  /**
   Waiting exactly the reported time is enough unless the oldest record's age, when the time was read,
   was at most a minute and a whole number of milliseconds.
   */
  lemma WaitingExactlyClearsIff(l: Limits, s: System, now: int)
    requires CountInv(l, s) && |s.window| >= l.rpm > 0 && now >= s.clock
    ensures s.window[0].at <= now
    ensures |Prune(s.window, now + WaitMs(s.window, now) * MILLISECOND)| < l.rpm
       <==> now - s.window[0].at > MINUTE || (now - s.window[0].at) % MILLISECOND != 0
  {
    hide CountInv, Prune;
    ClearsWhenOldestLeaves(l, s, now);
    ClearsWhenOldestLeaves(l, s, now + WaitMs(s.window, now) * MILLISECOND);
    WaitBoundary(s.window, now);
  }
}
