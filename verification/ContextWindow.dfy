/** The token-budgeted message window and its importance-based eviction. */
module ContextWindow {
  import opened ByteText
  import Pruner

  datatype Role = System | User | Assistant | Tool

  datatype Message = Message(role: Role, content: Bytes, tokens: nat, importance: real)

  /** Four bytes a token, rounded up. */
  function EstimateTokens(text: Bytes): (n: nat)
    ensures |text| <= 4 * n < |text| + 4
  {
    (|text| + 3) / 4
  }

  function MakeMessage(role: Role, content: Bytes, importance: real): Message {
    Message(role, content, EstimateTokens(content), importance)
  }

  function Total(w: seq<Message>): nat {
    if w == [] then 0 else w[0].tokens + Total(w[1..])
  }

  lemma {:induction false} TotalConcat(a: seq<Message>, b: seq<Message>)
    ensures Total(a + b) == Total(a) + Total(b)
  {
    if a == [] {
      assert a + b == b;
    } else {
      TotalConcat(a[1..], b);
      assert (a + b)[1..] == a[1..] + b;
    }
  }

  function Without(w: seq<Message>, p: nat): seq<Message>
    requires p < |w|
  {
    w[..p] + w[p + 1..]
  }

  lemma TotalWithout(w: seq<Message>, p: nat)
    requires p < |w|
    ensures Total(w) == Total(Without(w, p)) + w[p].tokens
  {
    TotalConcat(w[..p], w[p..]);
    TotalConcat(w[..p], w[p + 1..]);
    assert w == w[..p] + w[p..];
  }

  // ---------------------------------------------------------------------------------------------
  // Which message goes
  // ---------------------------------------------------------------------------------------------

  function Min(a: nat, b: nat): nat {
    if a < b then a else b
  }

  /**
   The first least important message among those after slot 0, before the last, and at positions below
   `chunkSize`; position 1 when there are none.
   */
  ghost predicate IsPick(w: seq<Message>, chunkSize: nat, p: nat) {
    && 1 <= p < |w| && (p == 1 || (p < chunkSize && p < |w| - 1))
    && (forall k :: 1 <= k < |w| - 1 && k < chunkSize ==> w[p].importance <= w[k].importance)
    && (forall k :: 1 <= k < p ==> w[p].importance < w[k].importance)
  }

  /** The first least important message among positions 1 .. upTo-1. */
  function PickUpTo(w: seq<Message>, upTo: nat): (p: nat)
    requires |w| > 1 && upTo <= |w|
    ensures 1 <= p < |w| && (p < upTo || p == 1)
    ensures forall k :: 1 <= k < upTo ==> w[p].importance <= w[k].importance
    ensures forall k :: 1 <= k < p ==> w[p].importance < w[k].importance
  {
    if upTo <= 2 then 1
    else
      var p := PickUpTo(w, upTo - 1);
      if w[upTo - 1].importance < w[p].importance then upTo - 1 else p
  }

  function Pick(w: seq<Message>, chunkSize: nat): (p: nat)
    requires |w| > 1
    ensures IsPick(w, chunkSize, p)
  {
    PickUpTo(w, Min(chunkSize, |w| - 1))
  }

  method FindPick(w: seq<Message>, chunkSize: nat) returns (pick: nat)
    requires |w| > 1
    ensures IsPick(w, chunkSize, pick) && pick == Pick(w, chunkSize)
  {
    var scan := Min(chunkSize, |w| - 1);
    pick := 1;
    var k := 1;
    while k < scan
      invariant 1 <= k && (k <= scan || k == 1) && pick == PickUpTo(w, k)
    {
      if w[k].importance < w[pick].importance {
        pick := k;
      }
      k := k + 1;
    }
  }

  // ---------------------------------------------------------------------------------------------
  // Eviction
  // ---------------------------------------------------------------------------------------------

  datatype Outcome = Outcome(kept: seq<Message>, evicted: seq<Message>)

  /** Picking and removing until the total is within the target or only the first message is left. */
  ghost function Evict(w: seq<Message>, target: nat, chunkSize: nat): Outcome
    decreases |w|
  {
    if Total(w) <= target || |w| <= 1 then Outcome(w, [])
    else
      var p := Pick(w, chunkSize);
      var rest := Evict(Without(w, p), target, chunkSize);
      Outcome(rest.kept, [w[p]] + rest.evicted)
  }

  lemma EvictStep(w: seq<Message>, target: nat, chunkSize: nat)
    requires Total(w) > target && |w| > 1
    ensures var p := Pick(w, chunkSize);
      var rest := Evict(Without(w, p), target, chunkSize);
      Evict(w, target, chunkSize) == Outcome(rest.kept, [w[p]] + rest.evicted)
  {
    hide Pick, Without, Total;
  }

  /** Over the target the pick goes first, and the rest is settled without it. */
  lemma LeastImportantGoesFirst(w: seq<Message>, target: nat, chunkSize: nat) returns (p: nat)
    requires Total(w) > target && |w| > 1
    ensures IsPick(w, chunkSize, p)
    ensures var rest := Evict(w[..p] + w[p + 1..], target, chunkSize);
      Evict(w, target, chunkSize) == Outcome(rest.kept, [w[p]] + rest.evicted)
  {
    hide Total, PickUpTo;
    p := Pick(w, chunkSize);
  }

  lemma EvictDone(w: seq<Message>, target: nat, chunkSize: nat)
    requires Total(w) <= target || |w| <= 1
    ensures Evict(w, target, chunkSize) == Outcome(w, [])
  {
  }

  /** `at` gives the old positions of the survivors, in order. */
  ghost predicate SurvivorsAt(w: seq<Message>, kept: seq<Message>, at: seq<nat>) {
    && |at| == |kept|
    && (forall k :: 0 <= k < |at| ==> at[k] < |w| && kept[k] == w[at[k]])
    && (forall k, l :: 0 <= k < l < |at| ==> at[k] < at[l])
  }

  lemma BagWithout(w: seq<Message>, p: nat)
    requires p < |w|
    ensures multiset(w) == multiset(Without(w, p)) + multiset{w[p]}
  {
    assert w == w[..p] + [w[p]] + w[p + 1..];
  }

  /** Nothing is lost or invented, and the target is reached unless only slot 0 is left. */
  lemma {:induction false} EvictionConserves(w: seq<Message>, target: nat, chunkSize: nat)
    requires |w| >= 1
    ensures var o := Evict(w, target, chunkSize);
      && multiset(o.kept) + multiset(o.evicted) == multiset(w)
      && |o.kept| >= 1 && o.kept[0] == w[0]
      && (Total(o.kept) <= target || |o.kept| == 1)
    decreases |w|
  {
    if Total(w) > target && |w| > 1 {
      var p := Pick(w, chunkSize);
      EvictionConserves(Without(w, p), target, chunkSize);
      BagWithout(w, p);
      var rest := Evict(Without(w, p), target, chunkSize).evicted;
      assert multiset([w[p]] + rest) == multiset{w[p]} + multiset(rest);
    }
  }

  /** What `evict_if_needed` makes of a window: nothing happens at or below the trigger. */
  ghost function Settle(w: seq<Message>, trigger: nat, target: nat, chunkSize: nat): Outcome {
    if Total(w) > trigger then Evict(w, target, chunkSize) else Outcome(w, [])
  }

  lemma SettleConserves(w: seq<Message>, trigger: nat, target: nat, chunkSize: nat)
    requires |w| >= 1
    ensures var o := Settle(w, trigger, target, chunkSize);
      multiset(o.kept) + multiset(o.evicted) == multiset(w)
  {
    EvictionConserves(w, target, chunkSize);
  }

  lemma SettleKeepsBudget(w: seq<Message>, trigger: nat, target: nat, chunkSize: nat)
    requires |w| >= 1 && target <= trigger
    ensures var o := Settle(w, trigger, target, chunkSize);
      && |o.kept| >= 1 && o.kept[0] == w[0]
      && (Total(o.kept) <= trigger || |o.kept| == 1)
      && o == if |w| <= 1 || Total(w) <= trigger then Outcome(w, []) else Evict(w, target, chunkSize)
  {
    EvictionConserves(w, target, chunkSize);
  }

  /** Positions after removing p, read as positions before. */
  function Unshift(at: seq<nat>, p: nat): (r: seq<nat>)
    ensures |r| == |at| && forall k :: 0 <= k < |at| ==> r[k] == if at[k] < p then at[k] else at[k] + 1
  {
    if at == [] then [] else [if at[0] < p then at[0] else at[0] + 1] + Unshift(at[1..], p)
  }

  /** With any scores the newest message goes last: only after every other message besides slot 0. */
  lemma {:induction false} NewestGoesLast(w: seq<Message>, target: nat, chunkSize: nat)
    requires |w| >= 2 && |Evict(w, target, chunkSize).kept| == 1
    ensures var out := Evict(w, target, chunkSize).evicted;
      |out| == |w| - 1 && out[|out| - 1] == w[|w| - 1]
    decreases |w|
  {
    hide Evict, Total;
    if Total(w) <= target {
      EvictDone(w, target, chunkSize);
      assert false;
    } else {
      var p := Pick(w, chunkSize);
      var w1 := Without(w, p);
      EvictStep(w, target, chunkSize);
      if |w| == 2 {
        EvictDone(w1, target, chunkSize);
      } else {
        assert w1[|w1| - 1] == w[|w| - 1];
        NewestGoesLast(w1, target, chunkSize);
      }
    }
  }

  /** The survivors' old positions, with slot 0 first and the newest last. */
  lemma {:induction false} SurvivorPositions(w: seq<Message>, target: nat, chunkSize: nat) returns (at: seq<nat>)
    requires |w| >= 1
    ensures SurvivorsAt(w, Evict(w, target, chunkSize).kept, at) && |at| >= 1 && at[0] == 0
    ensures |at| >= 2 ==> at[|at| - 1] == |w| - 1
    decreases |w|
  {
    hide Evict, Total, Without, Unshift, PickUpTo;
    if Total(w) <= target || |w| <= 1 {
      EvictDone(w, target, chunkSize);
      at := Positions(|w|);
    } else {
      hide SurvivorsAt;
      var p := Pick(w, chunkSize);
      EvictStep(w, target, chunkSize);
      WithoutAt(w, p, 0);
      var at1 := SurvivorPositions(Without(w, p), target, chunkSize);
      at := Unshift(at1, p);
      SurvivorsOfWithout(w, p, Evict(Without(w, p), target, chunkSize).kept, at1);
    }
  }

  /**
   Survivors keep their order.  When anything besides slot 0 survives the newest message does, as the last
   one; otherwise it was evicted last, after everything else.
   */
  lemma EvictionKeepsOrder(w: seq<Message>, target: nat, chunkSize: nat) returns (at: seq<nat>)
    requires |w| >= 1
    ensures SurvivorsAt(w, Evict(w, target, chunkSize).kept, at) && |at| >= 1 && at[0] == 0
    ensures |at| >= 2 ==> at[|at| - 1] == |w| - 1
    ensures |w| >= 2 && |at| == 1 ==>
      var out := Evict(w, target, chunkSize).evicted;
      |out| == |w| - 1 && out[|out| - 1] == w[|w| - 1]
  {
    hide Evict;
    at := SurvivorPositions(w, target, chunkSize);
    if |w| >= 2 && |at| == 1 {
      NewestGoesLast(w, target, chunkSize);
    }
  }

  lemma WithoutAt(w: seq<Message>, p: nat, k: nat)
    requires p < |w| && k < |w| - 1
    ensures |Without(w, p)| == |w| - 1 && Without(w, p)[k] == w[if k < p then k else k + 1]
  {
  }

  lemma SurvivorsOfWithout(w: seq<Message>, p: nat, kept: seq<Message>, at: seq<nat>)
    requires 1 <= p < |w| && (p < |w| - 1 || |w| == 2)
    requires SurvivorsAt(Without(w, p), kept, at) && |at| >= 1 && at[0] == 0
    requires |at| >= 2 ==> at[|at| - 1] == |w| - 2
    ensures SurvivorsAt(w, kept, Unshift(at, p)) && Unshift(at, p)[0] == 0
    ensures |at| >= 2 ==> Unshift(at, p)[|at| - 1] == |w| - 1
  {
    hide Without, Unshift;
    var up := Unshift(at, p);
    WithoutAt(w, p, 0);
    forall k | 0 <= k < |up| ensures up[k] < |w| && kept[k] == w[up[k]] {
      WithoutAt(w, p, at[k]);
    }
    forall k, l | 0 <= k < l < |up| ensures up[k] < up[l] {
      assert at[k] < at[l];
    }
    if |at| >= 2 {
      assert at[0] < at[|at| - 1];
    }
  }

  function Positions(n: nat): (r: seq<nat>)
    ensures |r| == n && forall k :: 0 <= k < n ==> r[k] == k
  {
    if n == 0 then [] else Positions(n - 1) + [n - 1]
  }

  /** With any scores: the newest message survives exactly when it fits beside the system prompt. */
  lemma {:induction false} NewestSurvivesIffItFits(w: seq<Message>, target: nat, chunkSize: nat)
    requires |w| >= 2
    ensures |Evict(w, target, chunkSize).kept| >= 2 <==> w[0].tokens + w[|w| - 1].tokens <= target
    decreases |w|
  {
    EndsWithinTotal(w);
    if Total(w) > target {
      var w1 := Without(w, Pick(w, chunkSize));
      if |w| == 2 {
        assert w == [w[0]] + [w[1]];
        TotalConcat([w[0]], [w[1]]);
      } else {
        assert w1[|w1| - 1] == w[|w| - 1] && w1[0] == w[0];
        NewestSurvivesIffItFits(w1, target, chunkSize);
      }
    }
  }

  lemma EndsWithinTotal(w: seq<Message>)
    requires |w| >= 2
    ensures w[0].tokens + w[|w| - 1].tokens <= Total(w)
  {
    var n := |w| - 1;
    assert w == [w[0]] + w[1..n] + [w[n]];
    TotalConcat([w[0]] + w[1..n], [w[n]]);
    TotalConcat([w[0]], w[1..n]);
  }

  ghost predicate EqualScores(w: seq<Message>) {
    forall i, j :: 1 <= i < |w| && 1 <= j < |w| ==> w[i].importance == w[j].importance
  }

  /** The window that keeps the system prompt and the messages from position k on. */
  function Suffix(w: seq<Message>, k: nat): seq<Message>
    requires 1 <= k <= |w|
  {
    [w[0]] + w[k..]
  }

  /** With equal scores the oldest message goes first. */
  lemma EqualScoresEvictOldest(w: seq<Message>, target: nat, chunkSize: nat)
    requires |w| > 1 && EqualScores(w) && Total(w) > target
    ensures EqualScores(Suffix(w, 2))
    ensures var rest := Evict(Suffix(w, 2), target, chunkSize);
      Evict(w, target, chunkSize) == Outcome(rest.kept, [w[1]] + rest.evicted)
  {
    assert Pick(w, chunkSize) == 1;
    assert Without(w, 1) == Suffix(w, 2);
  }

  lemma SuffixOfSuffix(w: seq<Message>, j: nat)
    requires |w| > 1 && 1 <= j <= |w| - 1
    ensures |Suffix(w, 2)| == |w| - 1
    ensures Suffix(Suffix(w, 2), j) == Suffix(w, j + 1) && [w[1]] + Suffix(w, 2)[1..j] == w[1..j + 1]
  {
    assert Suffix(w, 2)[j..] == w[j + 1..];
  }

  lemma LongerSuffixes(w: seq<Message>, target: nat, k: nat)
    requires |w| > 1 && 1 <= k <= |w| - 1 && Total(w) > target && |Suffix(w, 2)| == |w| - 1
    requires forall j :: 1 <= j < k ==> Total(Suffix(Suffix(w, 2), j)) > target
    ensures forall j :: 1 <= j < k + 1 ==> Total(Suffix(w, j)) > target
  {
    assert Suffix(w, 1) == w;
    hide Total, Suffix;
    forall j | 1 <= j < k + 1 ensures Total(Suffix(w, j)) > target {
      if j > 1 {
        SuffixOfSuffix(w, j - 1);
      }
    }
  }

  /** With equal scores the system prompt and the longest fitting suffix stay, and the rest goes in order. */
  lemma {:induction false} EqualScoresKeepLongestSuffix(w: seq<Message>, target: nat, chunkSize: nat) returns (k: nat)
    requires |w| >= 1 && EqualScores(w)
    ensures 1 <= k <= |w|
    ensures Evict(w, target, chunkSize) == Outcome(Suffix(w, k), w[1..k])
    ensures k < |w| ==> Total(Suffix(w, k)) <= target
    ensures forall j :: 1 <= j < k ==> Total(Suffix(w, j)) > target
    decreases |w|
  {
    assert Suffix(w, 1) == w;
    if Total(w) <= target || |w| <= 1 {
      k := 1;
    } else {
      hide Evict, Total, Suffix, EqualScores;
      EqualScoresEvictOldest(w, target, chunkSize);
      var w1 := Suffix(w, 2);
      SuffixOfSuffix(w, 1);
      var k1 := EqualScoresKeepLongestSuffix(w1, target, chunkSize);
      k := k1 + 1;
      SuffixOfSuffix(w, k1);
      assert Evict(w, target, chunkSize) == Outcome(Suffix(w1, k1), [w[1]] + w1[1..k1]);
      LongerSuffixes(w, target, k1);
    }
  }

  // ---------------------------------------------------------------------------------------------
  // The manager
  // ---------------------------------------------------------------------------------------------

  function Tag(role: Role): Bytes {
    match role
    case System => Ascii("[system] ")
    case User => Ascii("[user] ")
    case Assistant => Ascii("[assistant] ")
    case Tool => Ascii("[tool] ")
  }

  function Transcript(ms: seq<Message>): Bytes {
    if ms == [] then [] else Transcript(ms[..|ms| - 1]) + Tag(ms[|ms| - 1].role) + ms[|ms| - 1].content + [NEWLINE]
  }

  method RenderTranscript(evicted: seq<Message>) returns (text: Bytes)
    ensures text == Transcript(evicted)
  {
    text := [];
    var i := 0;
    while i < |evicted|
      invariant i <= |evicted| && text == Transcript(evicted[..i])
    {
      assert evicted[..i + 1][..i] == evicted[..i];
      text := text + Tag(evicted[i].role) + evicted[i].content + [NEWLINE];
      i := i + 1;
    }
    assert evicted[..i] == evicted;
  }

  class ContextManager {
    const trigger: nat
    const target: nat
    const chunkSize: nat
    var systemPrompt: Bytes
    var window: seq<Message>
    var activeTokens: nat
    /** Chunks handed to the background writer. */
    var chunks: seq<Bytes>
    var evictedMessages: nat

    function Prompt(): Message
      reads this
    {
      MakeMessage(System, systemPrompt, 1.0)
    }

    ghost predicate Valid()
      reads this
    {
      && target <= trigger
      && |window| >= 1 && window[0] == Prompt()
      && activeTokens == Total(window)
      && (activeTokens <= trigger || |window| == 1)
    }

    /** The constructor followed by `init`; the prompt comes already compressed. */
    constructor (trigger: nat, target: nat, chunkSize: nat, prompt: Bytes)
      requires target <= trigger
      ensures Valid() && window == [Message(System, prompt, EstimateTokens(prompt), 1.0)]
      ensures chunks == [] && systemPrompt == prompt
      ensures this.trigger == trigger && this.target == target && this.chunkSize == chunkSize
    {
      this.trigger, this.target, this.chunkSize := trigger, target, chunkSize;
      systemPrompt := prompt;
      window := [MakeMessage(System, prompt, 1.0)];
      activeTokens := EstimateTokens(prompt);
      chunks := [];
      evictedMessages := 0;
    }

    /** The eviction loop. */
    method EvictToTarget() returns (evicted: seq<Message>)
      requires |window| >= 1 && activeTokens == Total(window)
      modifies this`window, this`activeTokens
      ensures Outcome(window, evicted) == Evict(old(window), target, chunkSize)
      ensures activeTokens == Total(window)
    {
      hide Evict, Total, Pick;
      evicted := [];
      ghost var all := Evict(window, target, chunkSize);
      assert [] + all.evicted == all.evicted;
      while activeTokens > target && |window| > 1
        invariant |window| >= 1 && activeTokens == Total(window)
        invariant Evict(window, target, chunkSize).kept == all.kept
        invariant evicted + Evict(window, target, chunkSize).evicted == all.evicted
        decreases |window|
      {
        var pick := FindPick(window, chunkSize);
        EvictStep(window, target, chunkSize);
        TotalWithout(window, pick);
        Assoc(evicted, [window[pick]], Evict(Without(window, pick), target, chunkSize).evicted);
        activeTokens := activeTokens - window[pick].tokens;
        evicted := evicted + [window[pick]];
        window := window[..pick] + window[pick + 1..];
      }
      EvictDone(window, target, chunkSize);
      assert evicted + [] == evicted;
    }

    /** `evict_if_needed`, on a window that may have just outgrown the trigger. */
    method EvictIfNeeded()
      requires target <= trigger && |window| >= 1 && window[0] == Prompt() && activeTokens == Total(window)
      modifies this`window, this`activeTokens, this`chunks, this`evictedMessages
      ensures Valid()
      ensures var o := Settle(old(window), trigger, target, chunkSize);
        && window == o.kept
        && chunks == (if o.evicted == [] then old(chunks) else old(chunks) + [Pruner.Compressed(Transcript(o.evicted))])
        && evictedMessages == old(evictedMessages) + |o.evicted|
    {
      hide Settle, Evict, Total;
      ghost var o := Settle(window, trigger, target, chunkSize);
      SettleKeepsBudget(window, trigger, target, chunkSize);
      if |window| > 1 && activeTokens > trigger {
        var evicted := EvictToTarget();
        assert Outcome(window, evicted) == o;
        HandOver(evicted);
      }
    }

    /** Joins the evicted messages into one compressed chunk for the writer. */
    method HandOver(evicted: seq<Message>)
      modifies this`chunks, this`evictedMessages
      ensures chunks == if evicted == [] then old(chunks) else old(chunks) + [Pruner.Compressed(Transcript(evicted))]
      ensures evictedMessages == old(evictedMessages) + |evicted|
    {
      if evicted == [] {
        return;
      }
      var text := RenderTranscript(evicted);
      text := Pruner.CompressContext(text);
      chunks := chunks + [text];
      evictedMessages := evictedMessages + |evicted|;
    }

    method AddMessage(role: Role, content: Bytes, importance: real)
      requires Valid()
      modifies this`window, this`activeTokens, this`chunks, this`evictedMessages
      ensures Valid()
      ensures var grown := old(window) + [Message(role, content, EstimateTokens(content), importance)];
        var o := Settle(grown, trigger, target, chunkSize);
        && window == o.kept
        && chunks == (if o.evicted == [] then old(chunks) else old(chunks) + [Pruner.Compressed(Transcript(o.evicted))])
        && evictedMessages == old(evictedMessages) + |o.evicted|
    {
      var msg := MakeMessage(role, content, importance);
      TotalConcat(window, [msg]);
      activeTokens := activeTokens + msg.tokens;
      window := window + [msg];
      EvictIfNeeded();
    }

    method Clear()
      requires Valid()
      modifies this`window, this`activeTokens
      ensures Valid() && window == [Message(System, systemPrompt, EstimateTokens(systemPrompt), 1.0)]
    {
      window := [MakeMessage(System, systemPrompt, 1.0)];
      activeTokens := window[0].tokens;
    }
  }

  /** One call of the client, and the window it leaves. */
  datatype Op = Add(message: Message) | Clear

  ghost function Apply(w: seq<Message>, prompt: Message, op: Op, trigger: nat, target: nat, chunkSize: nat)
    : seq<Message>
  {
    match op
    case Clear => [prompt]
    case Add(m) => Settle(w + [m], trigger, target, chunkSize).kept
  }

  ghost function ApplyAll(prompt: Message, ops: seq<Op>, trigger: nat, target: nat, chunkSize: nat): seq<Message>
    decreases |ops|
  {
    if ops == [] then [prompt]
    else
      var w := ApplyAll(prompt, ops[..|ops| - 1], trigger, target, chunkSize);
      Apply(w, prompt, ops[|ops| - 1], trigger, target, chunkSize)
  }

  /** After any sequence of calls slot 0 is the prompt and the budget holds unless only slot 0 is left. */
  lemma {:induction false} BudgetHoldsAfterAnyRun(prompt: Message, ops: seq<Op>,
                                                  trigger: nat, target: nat, chunkSize: nat)
    requires target <= trigger
    ensures var w := ApplyAll(prompt, ops, trigger, target, chunkSize);
      |w| >= 1 && w[0] == prompt && (Total(w) <= trigger || |w| == 1)
    decreases |ops|
  {
    if ops != [] {
      BudgetHoldsAfterAnyRun(prompt, ops[..|ops| - 1], trigger, target, chunkSize);
      var w := ApplyAll(prompt, ops[..|ops| - 1], trigger, target, chunkSize);
      if ops[|ops| - 1].Add? {
        SettleKeepsBudget(w + [ops[|ops| - 1].message], trigger, target, chunkSize);
      }
    }
  }

  /** The messages added since the last clear. */
  ghost function Added(ops: seq<Op>): multiset<Message>
    decreases |ops|
  {
    if ops == [] then multiset{}
    else match ops[|ops| - 1] case Clear => multiset{} case Add(m) => Added(ops[..|ops| - 1]) + multiset{m}
  }

  /** The messages evicted since the last clear. */
  ghost function Gone(prompt: Message, ops: seq<Op>, trigger: nat, target: nat, chunkSize: nat): multiset<Message>
    decreases |ops|
  {
    if ops == [] then multiset{}
    else
      var pre := ops[..|ops| - 1];
      match ops[|ops| - 1]
      case Clear => multiset{}
      case Add(m) =>
        Gone(prompt, pre, trigger, target, chunkSize)
        + multiset(Settle(ApplyAll(prompt, pre, trigger, target, chunkSize) + [m], trigger, target, chunkSize).evicted)
  }

  lemma AddConserves(w: seq<Message>, gone: multiset<Message>, all: multiset<Message>, m: Message, o: Outcome)
    requires multiset(w) + gone == all && multiset(o.kept) + multiset(o.evicted) == multiset(w + [m])
    ensures multiset(o.kept) + (gone + multiset(o.evicted)) == all + multiset{m}
  {
    assert multiset(w + [m]) == multiset(w) + multiset{m};
    assert multiset(o.kept) + (gone + multiset(o.evicted)) == (multiset(o.kept) + multiset(o.evicted)) + gone;
    assert (multiset(w) + multiset{m}) + gone == (multiset(w) + gone) + multiset{m};
  }

  /** Over any run the messages added since the last clear are exactly those in the window and those evicted. */
  lemma {:induction false} MessagesConserved(prompt: Message, ops: seq<Op>, trigger: nat, target: nat, chunkSize: nat)
    requires target <= trigger
    ensures multiset(ApplyAll(prompt, ops, trigger, target, chunkSize)) + Gone(prompt, ops, trigger, target, chunkSize)
         == multiset{prompt} + Added(ops)
    decreases |ops|
  {
    if ops != [] && ops[|ops| - 1].Add? {
      var pre, m := ops[..|ops| - 1], ops[|ops| - 1].message;
      MessagesConserved(prompt, pre, trigger, target, chunkSize);
      BudgetHoldsAfterAnyRun(prompt, pre, trigger, target, chunkSize);
      var w := ApplyAll(prompt, pre, trigger, target, chunkSize);
      SettleConserves(w + [m], trigger, target, chunkSize);
      AddConserves(w, Gone(prompt, pre, trigger, target, chunkSize), multiset{prompt} + Added(pre), m,
                   Settle(w + [m], trigger, target, chunkSize));
      assert multiset{prompt} + Added(pre) + multiset{m} == multiset{prompt} + (Added(pre) + multiset{m});
    }
  }

  lemma ApplyAddOverTrigger(w: seq<Message>, prompt: Message, m: Message, trigger: nat, target: nat, chunkSize: nat)
    requires Total(w + [m]) > trigger
    ensures Apply(w, prompt, Add(m), trigger, target, chunkSize) == Evict(w + [m], target, chunkSize).kept
  {
    hide Evict, Total;
  }

  /** A message that fits beside the prompt is in the window right after it was added. */
  lemma NewMessageStaysIffItFits(w: seq<Message>, prompt: Message, m: Message,
                                 trigger: nat, target: nat, chunkSize: nat)
    requires target <= trigger && |w| >= 1 && w[0] == prompt && Total(w + [m]) > trigger
    ensures var w' := Apply(w, prompt, Add(m), trigger, target, chunkSize);
      |w'| >= 2 && w'[|w'| - 1] == m <==> prompt.tokens + m.tokens <= target
  {
    hide Evict, Total, Apply;
    var grown := w + [m];
    var kept := Evict(grown, target, chunkSize).kept;
    ApplyAddOverTrigger(w, prompt, m, trigger, target, chunkSize);
    NewestSurvivesIffItFits(grown, target, chunkSize);
    var at := EvictionKeepsOrder(grown, target, chunkSize);
    if |kept| >= 2 {
      assert kept[|kept| - 1] == grown[at[|at| - 1]];
    }
  }
}
