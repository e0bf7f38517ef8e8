/**
 Runs of the ring, thread by thread.

 `TakeWhole` leads one thread through a whole `try_dequeue` that takes the head, while another thread
 waits inside its own call; `FillTwo` leads one thread through two whole `enqueue` calls.  In both the
 thread's program counter says how far it is, and each step brings it nearer to the end.  `InCallStep` and
 `UndisturbedStep` say what a call can see of the dequeue position, with and without other threads.
 */
module RingWalks {
  import opened TicketRing

  /** The head of the queue can be taken. */
  ghost predicate HeadReady(s: State) {
    && WellFormed(s)
    && s.mem.dequeuePos < s.mem.enqueuePos
    && s.hist.tickets[s.mem.dequeuePos].phase.Published?
  }

  /** Thread w stays inside one call, and at every moment the head can be taken. */
  ghost predicate HeadReadyThroughout(s: State, schedule: seq<Action>, w: nat)
    decreases |schedule|
  {
    && Follows(s, schedule)
    && HeadReady(Replay(s, schedule))
    && w < |Replay(s, schedule).pcs| && !Replay(s, schedule).pcs[w].Idle?
    && (schedule == [] || HeadReadyThroughout(s, schedule[..|schedule| - 1], w))
  }

  lemma OneMore(s: State, schedule: seq<Action>, w: nat, e: State, a: Action)
    requires HeadReadyThroughout(s, schedule, w) && Replay(s, schedule) == e && Enabled(e, a)
    requires HeadReady(Apply(e, a)) && w < |Apply(e, a).pcs| && !Apply(e, a).pcs[w].Idle?
    ensures HeadReadyThroughout(s, schedule + [a], w) && Replay(s, schedule + [a]) == Apply(e, a)
  {
    hide Apply, Enabled, HeadReady;
    assert (schedule + [a])[..|schedule|] == schedule;
  }

  /** Tickets d and d + 1 are published and thread v is about to take ticket d, or has just won it. */
  ghost predicate Taking(s: State, w: nat, v: nat, d: nat) {
    && Inv(s) && FewThreads(s)
    && w < |s.pcs| && v < |s.pcs| && w != v && !s.pcs[w].Idle?
    && d + 1 < s.mem.enqueuePos && s.hist.tickets[d + 1].phase.Published?
    && match s.pcs[v]
       case Idle => s.mem.dequeuePos == d && HeadReady(s)
       case DeqLoad => s.mem.dequeuePos == d && HeadReady(s)
       case DeqTest(pos) => pos == s.mem.dequeuePos == d && HeadReady(s)
       case DeqCas(pos) => pos == s.mem.dequeuePos == d && HeadReady(s)
       case DeqRead(pos) => pos == d && s.mem.dequeuePos == d + 1
       case DeqRelease(pos, _) => pos == d && s.mem.dequeuePos == d + 1
       case _ => false
  }

  /** How many actions until thread v has released the slot. */
  function ToRelease(pc: Pc): nat {
    match pc
    case Idle => 6
    case DeqLoad => 5
    case DeqTest(_) => 4
    case DeqCas(_) => 3
    case DeqRead(_) => 2
    case _ => 1
  }

  lemma TakingStep(s: State, w: nat, v: nat, d: nat)
    requires Taking(s, w, v, d)
    ensures Enabled(s, Action(v, false, DeqLoad))
    ensures var s' := Apply(s, Action(v, false, DeqLoad));
      && HeadReady(s') && |s'.pcs| == |s.pcs| && s'.pcs[w] == s.pcs[w] && Inv(s') && FewThreads(s')
      && s'.mem.enqueuePos == s.mem.enqueuePos
      && if s.pcs[v].DeqRelease? then
           s'.mem.dequeuePos == d + 1 && s'.mem.slots[SlotOf(d)].sequence == Truncate(d + RING_SLOTS)
         else Taking(s', w, v, d) && ToRelease(s'.pcs[v]) < ToRelease(s.pcs[v])
  {
    hide Truncate;
    ApplyInv(s, Action(v, false, DeqLoad));
    if s.pcs[v].DeqTest? {
      ConsumerTestExact(s, d);
    }
  }

  /** Thread v goes on alone until it has released the slot of ticket d. */
  lemma {:induction false} TakeWhole(s: State, schedule: seq<Action>, w: nat, v: nat, d: nat, e: State)
    returns (longer: seq<Action>, e': State)
    requires HeadReadyThroughout(s, schedule, w) && Replay(s, schedule) == e && Taking(e, w, v, d)
    ensures HeadReadyThroughout(s, longer, w) && Replay(s, longer) == e' && HeadReady(e') && Inv(e') && FewThreads(e')
    ensures |e'.pcs| == |e.pcs| && e'.pcs[w] == e.pcs[w] && e'.mem.dequeuePos == d + 1
    ensures e'.mem.enqueuePos == e.mem.enqueuePos
    ensures e'.mem.slots[SlotOf(d)].sequence == Truncate(d + RING_SLOTS)
    decreases ToRelease(e.pcs[v])
  {
    hide Apply, Replay, Follows, Truncate, HeadReadyThroughout;
    var a := Action(v, false, DeqLoad);
    TakingStep(e, w, v, d);
    OneMore(s, schedule, w, e, a);
    longer, e' := schedule + [a], Apply(e, a);
    if !e.pcs[v].DeqRelease? {
      longer, e' := TakeWhole(s, longer, w, v, d, e');
    }
  }

  lemma Begin(s: State, w: nat)
    requires HeadReady(s) && w < |s.pcs| && !s.pcs[w].Idle?
    ensures HeadReadyThroughout(s, [], w) && Replay(s, []) == s
  {
  }

  lemma LapApart(d: nat)
    ensures Truncate(d + RING_SLOTS) != Truncate(d + 1)
  {
  }

  /** Tickets below d are published, nothing was taken, and only thread v moves, enqueuing ticket d. */
  ghost predicate Filling(s: State, v: nat, d: nat) {
    && Inv(s) && FewThreads(s) && v < |s.pcs| && s.mem.dequeuePos == 0
    && (forall u :: 0 <= u < |s.pcs| && u != v ==> s.pcs[u].Idle?)
    && (forall t: nat :: t < d ==> t < s.mem.enqueuePos && s.hist.tickets[t].phase.Published?)
    && match s.pcs[v]
       case Idle => s.mem.enqueuePos == d
       case EnqTicket(_) => s.mem.enqueuePos == d
       case EnqWait(pos, _) => pos == d && s.mem.enqueuePos == d + 1
       case EnqStore(pos, _) => pos == d && s.mem.enqueuePos == d + 1
       case EnqPublish(pos, _) => pos == d && s.mem.enqueuePos == d + 1
       case EnqReturn => s.mem.enqueuePos == d + 1 && s.hist.tickets[d].phase.Published?
       case _ => false
  }

  function ToReturn(pc: Pc): nat {
    match pc
    case Idle => 6
    case EnqTicket(_) => 5
    case EnqWait(_, _) => 4
    case EnqStore(_, _) => 3
    case EnqPublish(_, _) => 2
    case _ => 1
  }

  lemma FillingStep(s: State, v: nat, d: nat)
    requires Filling(s, v, d) && d < RING_SLOTS
    ensures Enabled(s, Action(v, false, EnqTicket(0)))
    ensures var s' := Apply(s, Action(v, false, EnqTicket(0)));
      |s'.pcs| == |s.pcs|
      && if s.pcs[v].EnqReturn? then Filling(s', v, d + 1) && s'.pcs[v].Idle?
         else Filling(s', v, d) && ToReturn(s'.pcs[v]) < ToReturn(s.pcs[v])
  {
    hide Truncate;
    ApplyInv(s, Action(v, false, EnqTicket(0)));
    if s.pcs[v].EnqWait? {
      ProducerTestExact(s, v);
      assert ThreadOk(s, v) && TicketOk(s, d) && SlotOk(s, SlotOf(d));
    }
  }

  /** Thread v fills the ring until two tickets are published. */
  lemma {:induction false} FillTwo(s: State, schedule: seq<Action>, v: nat, d: nat, e: State)
    returns (longer: seq<Action>, e': State)
    requires Follows(s, schedule) && Replay(s, schedule) == e && Filling(e, v, d) && d <= 2
    requires d == 2 ==> e.pcs[v].Idle?
    ensures Follows(s, longer) && Replay(s, longer) == e' && Filling(e', v, 2) && e'.pcs[v].Idle? && |e'.pcs| == |e.pcs|
    decreases 2 - d, ToReturn(e.pcs[v])
  {
    hide Apply, Enabled, Inv;
    if d == 2 {
      longer, e' := schedule, e;
    } else {
      var a := Action(v, false, EnqTicket(0));
      FillingStep(e, v, d);
      assert (schedule + [a])[..|schedule|] == schedule;
      longer, e' := FillTwo(s, schedule + [a], v, if e.pcs[v].EnqReturn? then d + 1 else d, Apply(e, a));
    }
  }

  /** A call that began with `from` tickets won: it never looks below that, and gives up only when more were won. */
  predicate InCall(pc: Pc, dequeuePos: nat, from: nat) {
    && from <= dequeuePos
    && match pc
       case DeqLoad => true
       case DeqTest(pos) => from <= pos <= dequeuePos
       case DeqCas(pos) => from <= pos <= dequeuePos
       case DeqRead(_) => true
       case DeqRelease(_, _) => true
       case DeqReturn(_, _) => true
       case DeqEmpty => from < dequeuePos
       case _ => false
  }

  lemma InCallStep(s: State, a: Action, w: nat, from: nat)
    requires Inv(s) && FewThreads(s) && Enabled(s, a) && HeadReady(s)
    requires w < |s.pcs| && InCall(s.pcs[w], s.mem.dequeuePos, from)
    ensures |Apply(s, a).pcs| == |s.pcs|
    ensures Apply(s, a).pcs[w].Idle? || InCall(Apply(s, a).pcs[w], Apply(s, a).mem.dequeuePos, from)
  {
    hide Truncate, SlotOf;
    assert ThreadOk(s, a.thread);
    if s.pcs[a.thread].DeqTest? {
      DequeueTestMeans(s, a.thread);
    }
  }

  /** The only thread: whatever it looks at is the head, until it has won it. */
  predicate Undisturbed(pc: Pc, dequeuePos: nat) {
    match pc
    case DeqLoad => true
    case DeqTest(pos) => pos == dequeuePos
    case DeqCas(pos) => pos == dequeuePos
    case DeqRead(_) => true
    case DeqRelease(_, _) => true
    case DeqReturn(_, _) => true
    case _ => false
  }

  lemma UndisturbedStep(s: State, a: Action)
    requires Inv(s) && FewThreads(s) && Enabled(s, a) && HeadReady(s)
    requires |s.pcs| == 1 && Undisturbed(s.pcs[0], s.mem.dequeuePos)
    ensures |Apply(s, a).pcs| == 1
    ensures Apply(s, a).pcs[0].Idle? || Undisturbed(Apply(s, a).pcs[0], Apply(s, a).mem.dequeuePos)
  {
    hide Truncate, SlotOf;
    if s.pcs[0].DeqTest? {
      DequeueTestMeans(s, 0);
    }
  }

  /** With one thread a call that starts with the head ready takes it. */
  lemma {:induction false} AloneNeverMisses(s: State, schedule: seq<Action>)
    requires Inv(s) && FewThreads(s) && |s.pcs| == 1 && s.pcs[0].DeqLoad? && HeadReadyThroughout(s, schedule, 0)
    ensures var e := Replay(s, schedule);
      Inv(e) && FewThreads(e) && |e.pcs| == 1 && Undisturbed(e.pcs[0], e.mem.dequeuePos) && !e.pcs[0].DeqEmpty?
    decreases |schedule|
  {
    if schedule != [] {
      hide Apply, Inv;
      var pre, last := schedule[..|schedule| - 1], schedule[|schedule| - 1];
      AloneNeverMisses(s, pre);
      ApplyInv(Replay(s, pre), last);
      UndisturbedStep(Replay(s, pre), last);
    }
  }

  lemma {:induction false} ReplayThreads(s: State, schedule: seq<Action>)
    requires Follows(s, schedule)
    ensures |Replay(s, schedule).pcs| == |s.pcs|
    decreases |schedule|
  {
    if schedule != [] {
      ReplayThreads(s, schedule[..|schedule| - 1]);
    }
  }
}
