/** Window and writer together: every eviction reaches the database. */
module EvictionStore {
  import opened ByteText
  import Pruner
  import Window = ContextWindow
  import Writer = ChunkWriter

  datatype Settings = Settings(prompt: Window.Message, trigger: nat, target: nat, chunkSize: nat)

  /** `ops` records the calls that changed the window. */
  datatype State = State(window: seq<Window.Message>, ops: seq<Window.Op>, writer: Writer.State)

  datatype Action =
    | Manage(op: Window.Op)
    | CallFlush
    | CallDestroy
    | Inside(action: Writer.Action)

  // ---------------------------------------------------------------------------------------------
  // What the calls evict
  // ---------------------------------------------------------------------------------------------

  ghost function Evicted(c: Settings, w: seq<Window.Message>, op: Window.Op): seq<Window.Message> {
    match op
    case Clear => []
    case Add(m) => Window.Settle(w + [m], c.trigger, c.target, c.chunkSize).evicted
  }

  ghost function WindowAfter(c: Settings, ops: seq<Window.Op>): seq<Window.Message> {
    Window.ApplyAll(c.prompt, ops, c.trigger, c.target, c.chunkSize)
  }

  /** The evictions of a sequence of calls, oldest first; each is the list of its messages. */
  ghost function Evictions(c: Settings, ops: seq<Window.Op>): seq<seq<Window.Message>>
    decreases |ops|
  {
    if ops == [] then []
    else
      var pre := ops[..|ops| - 1];
      var out := Evicted(c, WindowAfter(c, pre), ops[|ops| - 1]);
      Evictions(c, pre) + (if out == [] then [] else [out])
  }

  /** What is stored of an eviction: the compressed transcript of its messages. */
  function Chunk(out: seq<Window.Message>): Bytes {
    Pruner.Compressed(Window.Transcript(out))
  }

  function Chunks(evictions: seq<seq<Window.Message>>): (r: seq<Bytes>)
    ensures |r| == |evictions| && forall i :: 0 <= i < |evictions| ==> r[i] == Chunk(evictions[i])
  {
    seq(|evictions|, i requires 0 <= i < |evictions| => Chunk(evictions[i]))
  }

  lemma ChunksLast(evictions: seq<seq<Window.Message>>, out: seq<Window.Message>)
    ensures Chunks(evictions + [out]) == Chunks(evictions) + [Chunk(out)]
  {
  }

  // ---------------------------------------------------------------------------------------------
  // Steps
  // ---------------------------------------------------------------------------------------------

  predicate ClientIdle(s: State) {
    |s.writer.clients| == 1 && s.writer.clients[0].Idle?
  }

  ghost predicate Enabled(s: State, a: Action) {
    match a
    case Manage(_) => ClientIdle(s)
    case CallFlush => ClientIdle(s)
    case CallDestroy => ClientIdle(s)
    case Inside(b) => !b.ClientCall? && Writer.Enabled(s.writer, b)
  }

  ghost function Apply(c: Settings, s: State, a: Action): State
    requires Enabled(s, a)
  {
    match a
    case Manage(op) =>
      var out := Evicted(c, s.window, op);
      var writer :=
        if out == [] then s.writer
        else Writer.Apply(s.writer, Writer.ClientCall(0, Writer.Enqueue(Chunk(out))));
      State(Window.Apply(s.window, c.prompt, op, c.trigger, c.target, c.chunkSize), s.ops + [op], writer)
    case CallFlush => s.(writer := Writer.Apply(s.writer, Writer.ClientCall(0, Writer.Flush)))
    case CallDestroy => s.(writer := Writer.Apply(s.writer, Writer.ClientCall(0, Writer.Destroy)))
    case Inside(b) => s.(writer := Writer.Apply(s.writer, b))
  }

  ghost predicate Init(c: Settings, s: State) {
    c.target <= c.trigger && s.window == [c.prompt] && s.ops == [] && Writer.Init(s.writer, 1)
  }

  ghost predicate Follows(c: Settings, s: State, schedule: seq<Action>)
    decreases |schedule|, 0
  {
    schedule == [] ||
    (Follows(c, s, schedule[..|schedule| - 1]) &&
     Enabled(Replay(c, s, schedule[..|schedule| - 1]), schedule[|schedule| - 1]))
  }

  ghost function Replay(c: Settings, s: State, schedule: seq<Action>): State
    requires Follows(c, s, schedule)
    decreases |schedule|, 1
  {
    if schedule == [] then s
    else Apply(c, Replay(c, s, schedule[..|schedule| - 1]), schedule[|schedule| - 1])
  }

  // ---------------------------------------------------------------------------------------------
  // Every eviction is on its way to the database
  // ---------------------------------------------------------------------------------------------

  /** The chunk that the client is about to push. */
  function AtHand(w: Writer.State): seq<Bytes> {
    if w.clients != [] && w.clients[0].Pushing? then [w.clients[0].chunk] else []
  }

  ghost predicate Inv(c: Settings, s: State) {
    && s.window == WindowAfter(c, s.ops)
    && Writer.OneClient(s.writer)
    && s.writer.enqueued + AtHand(s.writer) == Chunks(Evictions(c, s.ops))
  }

  /** A writer action other than a call keeps what was enqueued together with what is at hand. */
  lemma InsideKeepsChunks(w: Writer.State, b: Writer.Action)
    requires Writer.OneClient(w) && Writer.Enabled(w, b) && !b.ClientCall?
    ensures Writer.Apply(w, b).enqueued + AtHand(Writer.Apply(w, b)) == w.enqueued + AtHand(w)
  {
    if b.ClientStep? && w.clients[0].Pushing? {
      assert w.enqueued + [w.clients[0].chunk] + [] == w.enqueued + [w.clients[0].chunk];
    }
  }

  /** A call puts its chunk, if it has one, at hand. */
  lemma CallTakesChunk(w: Writer.State, call: Writer.Call)
    requires Writer.OneClient(w) && w.clients[0].Idle?
    ensures Writer.OneClient(Writer.Apply(w, Writer.ClientCall(0, call)))
    ensures Writer.Apply(w, Writer.ClientCall(0, call)).enqueued == w.enqueued
    ensures AtHand(Writer.Apply(w, Writer.ClientCall(0, call))) == if call.Enqueue? then [call.chunk] else []
  {
    Writer.OneClientStep(w, Writer.ClientCall(0, call));
  }

  lemma ManageInv(c: Settings, s: State, op: Window.Op)
    requires Inv(c, s) && ClientIdle(s)
    ensures Inv(c, Apply(c, s, Manage(op)))
  {
    hide Writer.OneClient, Window.Apply, Window.Settle, Chunks, Writer.Apply, Chunk;
    var ops := s.ops + [op];
    assert ops[..|s.ops|] == s.ops;
    var out := Evicted(c, s.window, op);
    if out == [] {
      assert Evictions(c, s.ops) + [] == Evictions(c, s.ops);
    } else {
      CallTakesChunk(s.writer, Writer.Enqueue(Chunk(out)));
      ChunksLast(Evictions(c, s.ops), out);
      assert s.writer.enqueued + [] == s.writer.enqueued;
    }
  }

  lemma ApplyInv(c: Settings, s: State, a: Action)
    requires Inv(c, s) && Enabled(s, a)
    ensures Inv(c, Apply(c, s, a))
  {
    hide Writer.OneClient, Writer.Apply, Chunks, Evictions, WindowAfter;
    match a
    case Manage(op) => ManageInv(c, s, op);
    case CallFlush => CallTakesChunk(s.writer, Writer.Flush);
    case CallDestroy => CallTakesChunk(s.writer, Writer.Destroy);
    case Inside(b) =>
      Writer.OneClientStep(s.writer, b);
      InsideKeepsChunks(s.writer, b);
  }

  lemma {:induction false} ReplayInv(c: Settings, s: State, schedule: seq<Action>)
    requires Init(c, s) && Follows(c, s, schedule)
    ensures Inv(c, Replay(c, s, schedule))
    decreases |schedule|
  {
    if schedule == [] {
      assert s.writer.enqueued + AtHand(s.writer) == [];
    } else {
      hide Inv, Apply, Enabled;
      var pre := schedule[..|schedule| - 1];
      ReplayInv(c, s, pre);
      ApplyInv(c, Replay(c, s, pre), schedule[|schedule| - 1]);
    }
  }

  /** At every moment: stored ++ being stored ++ queued ++ at hand are the chunks of all evictions, in order. */
  lemma ChunksAccountedFor(c: Settings, s: State)
    requires Inv(c, s)
    ensures s.writer.finished + Writer.InFlight(s.writer) + s.writer.queue + AtHand(s.writer)
         == Chunks(Evictions(c, s.ops))
  {
    hide Chunks, Evictions, WindowAfter;
  }

  /** When a flush reports success, exactly the compressed transcripts of all evictions so far are stored, in order. */
  lemma FlushStoresEvictions(c: Settings, s: State)
    requires Inv(c, s) && Writer.FlushCanSucceed(s.writer)
    ensures s.writer.finished == Chunks(Evictions(c, s.ops))
  {
    hide Chunks, Evictions, WindowAfter;
    assert s.writer.finished + [] + [] + [] == s.writer.finished;
  }

  /** The same when the destructor has joined a worker that became ready. */
  lemma DestroyStoresEvictions(c: Settings, s: State)
    requires Inv(c, s) && s.writer.clients[0].Destroyed? && s.writer.ready
    ensures s.writer.finished == Chunks(Evictions(c, s.ops))
  {
    hide Chunks, Evictions, WindowAfter;
    assert s.writer.finished + [] + [] + [] == s.writer.finished;
  }

  /** A blocked flush comes back with success after the worker's backlog. */
  lemma FlushComesBack(c: Settings, s: State)
    requires Inv(c, s) && s.writer.clients[0].FlushAsleep?
    ensures Writer.WorkerReaches(s.writer, Writer.FlushCanSucceed, Writer.Backlog(s.writer) + 1)
  {
    Writer.BlockedFlushComesBack(s.writer);
  }

  // ---------------------------------------------------------------------------------------------
  // No message is lost but by a clear
  // ---------------------------------------------------------------------------------------------

  ghost function Bag(evictions: seq<seq<Window.Message>>): multiset<Window.Message>
    decreases |evictions|
  {
    if evictions == [] then multiset{}
    else Bag(evictions[..|evictions| - 1]) + multiset(evictions[|evictions| - 1])
  }

  /** Every message ever added. */
  ghost function Added(ops: seq<Window.Op>): multiset<Window.Message>
    decreases |ops|
  {
    if ops == [] then multiset{}
    else
      match ops[|ops| - 1]
      case Clear => Added(ops[..|ops| - 1])
      case Add(m) => Added(ops[..|ops| - 1]) + multiset{m}
  }

  function BehindPrompt(w: seq<Window.Message>): seq<Window.Message> {
    if w == [] then [] else w[1..]
  }

  /** The messages that were in the window, behind slot 0, when it was cleared. */
  ghost function Cleared(c: Settings, ops: seq<Window.Op>): multiset<Window.Message>
    decreases |ops|
  {
    if ops == [] then multiset{}
    else
      var pre := ops[..|ops| - 1];
      var w := WindowAfter(c, pre);
      match ops[|ops| - 1]
      case Clear => Cleared(c, pre) + multiset(BehindPrompt(w))
      case Add(_) => Cleared(c, pre)
  }

  lemma ClearConserves(w: seq<Window.Message>, prompt: Window.Message, gone: multiset<Window.Message>,
                       cleared: multiset<Window.Message>)
    requires w != [] && w[0] == prompt
    ensures multiset([prompt]) + gone + (cleared + multiset(w[1..])) == multiset(w) + gone + cleared
  {
    assert w == [prompt] + w[1..];
    assert multiset(w) == multiset([prompt]) + multiset(w[1..]);
  }

  lemma AddConserves(w: seq<Window.Message>, m: Window.Message, o: Window.Outcome, gone: multiset<Window.Message>,
                     cleared: multiset<Window.Message>, all: multiset<Window.Message>)
    requires multiset(w) + gone + cleared == all && multiset(o.kept) + multiset(o.evicted) == multiset(w + [m])
    ensures multiset(o.kept) + (gone + multiset(o.evicted)) + cleared == all + multiset{m}
  {
    assert multiset(w + [m]) == multiset(w) + multiset{m};
    assert multiset(o.kept) + (gone + multiset(o.evicted)) + cleared
        == (multiset(o.kept) + multiset(o.evicted)) + gone + cleared;
  }

  lemma AfterClear(c: Settings, pre: seq<Window.Op>)
    ensures var ops := pre + [Window.Clear];
      && WindowAfter(c, ops) == [c.prompt] && Bag(Evictions(c, ops)) == Bag(Evictions(c, pre))
      && Added(ops) == Added(pre)
      && Cleared(c, ops) == Cleared(c, pre) + multiset(BehindPrompt(WindowAfter(c, pre)))
  {
    hide Bag;
    assert (pre + [Window.Clear])[..|pre|] == pre;
    assert Evictions(c, pre) + [] == Evictions(c, pre);
  }

  lemma AfterAdd(c: Settings, pre: seq<Window.Op>, m: Window.Message)
    ensures var ops := pre + [Window.Add(m)];
      var o := Window.Settle(WindowAfter(c, pre) + [m], c.trigger, c.target, c.chunkSize);
      && WindowAfter(c, ops) == o.kept && Bag(Evictions(c, ops)) == Bag(Evictions(c, pre)) + multiset(o.evicted)
      && Added(ops) == Added(pre) + multiset{m} && Cleared(c, ops) == Cleared(c, pre)
  {
    hide Window.Settle;
    assert (pre + [Window.Add(m)])[..|pre|] == pre;
    var out := Window.Settle(WindowAfter(c, pre) + [m], c.trigger, c.target, c.chunkSize).evicted;
    if out == [] {
      assert Evictions(c, pre) + [] == Evictions(c, pre);
    } else {
      assert (Evictions(c, pre) + [out])[..|Evictions(c, pre)|] == Evictions(c, pre);
    }
  }

  /**
   Over any calls: the prompt and all messages ever added are the window, the evicted messages (whose
   transcripts are stored) and those that a clear dropped.
   */
  lemma {:induction false} MessagesAccountedFor(c: Settings, ops: seq<Window.Op>)
    requires c.target <= c.trigger
    ensures multiset(WindowAfter(c, ops)) + Bag(Evictions(c, ops)) + Cleared(c, ops) == multiset{c.prompt} + Added(ops)
    decreases |ops|
  {
    if ops != [] {
      var pre, op := ops[..|ops| - 1], ops[|ops| - 1];
      assert ops == pre + [op];
      MessagesAccountedFor(c, pre);
      match op
      case Clear => ClearAccounted(c, pre);
      case Add(m) => AddAccounted(c, pre, m);
    }
  }

  lemma ClearAccounted(c: Settings, pre: seq<Window.Op>)
    requires c.target <= c.trigger
    requires multiset(WindowAfter(c, pre)) + Bag(Evictions(c, pre)) + Cleared(c, pre) == multiset{c.prompt} + Added(pre)
    ensures var ops := pre + [Window.Clear];
      multiset(WindowAfter(c, ops)) + Bag(Evictions(c, ops)) + Cleared(c, ops) == multiset{c.prompt} + Added(ops)
  {
    hide Bag, Evictions, Cleared, Added, Window.ApplyAll;
    AfterClear(c, pre);
    Window.BudgetHoldsAfterAnyRun(c.prompt, pre, c.trigger, c.target, c.chunkSize);
    ClearConserves(WindowAfter(c, pre), c.prompt, Bag(Evictions(c, pre)), Cleared(c, pre));
  }

  lemma AddAccounted(c: Settings, pre: seq<Window.Op>, m: Window.Message)
    requires c.target <= c.trigger
    requires multiset(WindowAfter(c, pre)) + Bag(Evictions(c, pre)) + Cleared(c, pre) == multiset{c.prompt} + Added(pre)
    ensures var ops := pre + [Window.Add(m)];
      multiset(WindowAfter(c, ops)) + Bag(Evictions(c, ops)) + Cleared(c, ops) == multiset{c.prompt} + Added(ops)
  {
    hide Bag, Evictions, Cleared, Added, Window.ApplyAll, Window.Settle;
    AfterAdd(c, pre, m);
    var w := WindowAfter(c, pre);
    Window.BudgetHoldsAfterAnyRun(c.prompt, pre, c.trigger, c.target, c.chunkSize);
    var o := Window.Settle(w + [m], c.trigger, c.target, c.chunkSize);
    Window.SettleConserves(w + [m], c.trigger, c.target, c.chunkSize);
    AddConserves(w, m, o, Bag(Evictions(c, pre)), Cleared(c, pre), multiset{c.prompt} + Added(pre));
    assert multiset{c.prompt} + Added(pre) + multiset{m} == multiset{c.prompt} + (Added(pre) + multiset{m});
  }
}
