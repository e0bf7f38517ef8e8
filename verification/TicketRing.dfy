/** The ticketed multi-producer multi-consumer ring of the DAG executor, one atomic action a step. */
module TicketRing {
  // Any number of threads call `enqueue` and `try_dequeue` in any order.  One step is one atomic load,
  // store, fetch-add or compare-exchange of one thread, and the steps are sequentially consistent.
  //
  // Only `Memory` and `Pc` are real.  `History` is an auxiliary record: no step reads it to decide what
  // to do (see `Exec`), it only gives names to facts about the past.

  const RING_SLOTS: nat := 128
  /** Sequence words are 32 bits wide. */
  const WORD: nat := 0x1_0000_0000

  datatype Slot = Slot(token: nat, sequence: nat)

  datatype Memory = Memory(slots: seq<Slot>, enqueuePos: nat, dequeuePos: nat)

  /** Where a thread stands; the constructor names the atomic action the thread takes next. */
  datatype Pc =
    | Idle
    | EnqTicket(token: nat)
    | EnqWait(pos: nat, token: nat)
    | EnqStore(pos: nat, token: nat)
    | EnqPublish(pos: nat, token: nat)
    | EnqReturn
    | DeqLoad
    | DeqTest(pos: nat)
    | DeqCas(pos: nat)
    | DeqRead(pos: nat)
    | DeqRelease(pos: nat, token: nat)
    | DeqReturn(pos: nat, token: nat)
    | DeqEmpty
  {
    /** Holds a ticket that it has not published yet. */
    predicate HoldsTicket(t: nat, tok: nat) {
      this == EnqWait(t, tok) || this == EnqStore(t, tok) || this == EnqPublish(t, tok)
    }

    predicate Returns() {
      EnqReturn? || DeqReturn? || DeqEmpty?
    }

    predicate Internal() {
      !Idle? && !Returns()
    }
  }

  datatype Phase = Claimed(producer: nat) | Published | Won(consumer: nat) | Released(consumer: nat) | Delivered
  datatype Ticket = Ticket(token: nat, phase: Phase)

  /** `tickets[t]` is what became of ticket t; `full[k]` is the sequence word of slot k before truncation. */
  datatype History = History(tickets: seq<Ticket>, full: seq<nat>)

  datatype State = State(mem: Memory, pcs: seq<Pc>, hist: History)

  function SlotOf(pos: nat): (k: nat)
    ensures k < RING_SLOTS
  {
    pos % RING_SLOTS
  }

  function Truncate(x: nat): (r: nat)
    ensures r < WORD
  {
    x % WORD
  }

  // ---------------------------------------------------------------------------------------------
  // Steps
  // ---------------------------------------------------------------------------------------------

  /** One atomic action.  `spurious` lets the weak compare-exchange fail although the value matches. */
  function Exec(m: Memory, pc: Pc, spurious: bool): (Memory, Pc)
    requires |m.slots| == RING_SLOTS && pc.Internal()
  {
    match pc
    case EnqTicket(token) =>
      (m.(enqueuePos := m.enqueuePos + 1), EnqWait(m.enqueuePos, token))
    case EnqWait(pos, token) =>
      if m.slots[SlotOf(pos)].sequence == Truncate(pos) then (m, EnqStore(pos, token)) else (m, pc)
    case EnqStore(pos, token) =>
      var k := SlotOf(pos);
      (m.(slots := m.slots[k := m.slots[k].(token := token)]), EnqPublish(pos, token))
    case EnqPublish(pos, token) =>
      var k := SlotOf(pos);
      (m.(slots := m.slots[k := m.slots[k].(sequence := Truncate(pos + 1))]), EnqReturn)
    case DeqLoad =>
      (m, DeqTest(m.dequeuePos))
    case DeqTest(pos) =>
      if m.slots[SlotOf(pos)].sequence == Truncate(pos + 1) then (m, DeqCas(pos)) else (m, DeqEmpty)
    case DeqCas(pos) =>
      if m.dequeuePos == pos && !spurious then (m.(dequeuePos := pos + 1), DeqRead(pos))
      else (m, DeqTest(m.dequeuePos))
    case DeqRead(pos) =>
      (m, DeqRelease(pos, m.slots[SlotOf(pos)].token))
    case DeqRelease(pos, token) =>
      var k := SlotOf(pos);
      (m.(slots := m.slots[k := m.slots[k].(sequence := Truncate(pos + RING_SLOTS))]), DeqReturn(pos, token))
  }

  function SetPhase(h: History, t: nat, p: Phase): History {
    if t < |h.tickets| then h.(tickets := h.tickets[t := h.tickets[t].(phase := p)]) else h
  }

  function SetFull(h: History, k: nat, q: nat): History {
    if k < |h.full| then h.(full := h.full[k := q]) else h
  }

  /** The auxiliary record of the same action, taken by thread w. */
  function Record(m: Memory, pc: Pc, spurious: bool, w: nat, h: History): History {
    match pc
    case EnqTicket(token) => h.(tickets := h.tickets + [Ticket(token, Claimed(w))])
    case EnqPublish(pos, _) => SetFull(SetPhase(h, pos, Published), SlotOf(pos), pos + 1)
    case DeqCas(pos) => if m.dequeuePos == pos && !spurious then SetPhase(h, pos, Won(w)) else h
    case DeqRelease(pos, _) => SetFull(SetPhase(h, pos, Released(w)), SlotOf(pos), pos + RING_SLOTS)
    case _ => h
  }

  ghost predicate WellFormed(s: State) {
    && |s.mem.slots| == RING_SLOTS
    && |s.hist.full| == RING_SLOTS
    && |s.hist.tickets| == s.mem.enqueuePos
  }

  /** Thread w takes its next atomic action. */
  function Advance(s: State, w: nat, spurious: bool): State
    requires |s.mem.slots| == RING_SLOTS && w < |s.pcs| && s.pcs[w].Internal()
  {
    var (m, pc) := Exec(s.mem, s.pcs[w], spurious);
    State(m, s.pcs[w := pc], Record(s.mem, s.pcs[w], spurious, w, s.hist))
  }

  /** Thread w, between calls, starts an `enqueue(token)` or a `try_dequeue`. */
  function Call(s: State, w: nat, pc: Pc): State
    requires w < |s.pcs| && s.pcs[w].Idle? && (pc.EnqTicket? || pc.DeqLoad?)
  {
    s.(pcs := s.pcs[w := pc])
  }

  /** Thread w takes the result of its call. */
  function Return(s: State, w: nat): State
    requires w < |s.pcs| && s.pcs[w].Returns()
  {
    var h := if s.pcs[w].DeqReturn? then SetPhase(s.hist, s.pcs[w].pos, Delivered) else s.hist;
    State(s.mem, s.pcs[w := Idle], h)
  }

  ghost predicate Init(s: State) {
    && WellFormed(s)
    && s.mem.enqueuePos == s.mem.dequeuePos == 0
    && (forall w :: 0 <= w < |s.pcs| ==> s.pcs[w].Idle?)
    && (forall k :: 0 <= k < RING_SLOTS ==> s.mem.slots[k].sequence == k && s.hist.full[k] == k)
  }

  /** Thread `thread` moves; `call` matters only when it starts a call. */
  datatype Action = Action(thread: nat, spurious: bool, call: Pc)

  predicate Enabled(s: State, a: Action) {
    && |s.mem.slots| == RING_SLOTS
    && a.thread < |s.pcs|
    && (s.pcs[a.thread].Idle? ==> a.call.EnqTicket? || a.call.DeqLoad?)
  }

  function Apply(s: State, a: Action): State
    requires Enabled(s, a)
  {
    if s.pcs[a.thread].Idle? then Call(s, a.thread, a.call)
    else if s.pcs[a.thread].Returns() then Return(s, a.thread)
    else Advance(s, a.thread, a.spurious)
  }

  /** The schedule can be followed from s. */
  ghost predicate Follows(s: State, schedule: seq<Action>)
    decreases |schedule|, 0
  {
    schedule == [] ||
    (Follows(s, schedule[..|schedule| - 1]) &&
     Enabled(Replay(s, schedule[..|schedule| - 1]), schedule[|schedule| - 1]))
  }

  ghost function Replay(s: State, schedule: seq<Action>): State
    requires Follows(s, schedule)
    decreases |schedule|, 1
  {
    if schedule == [] then s
    else Apply(Replay(s, schedule[..|schedule| - 1]), schedule[|schedule| - 1])
  }

  // ---------------------------------------------------------------------------------------------
  // Invariant
  // ---------------------------------------------------------------------------------------------

  ghost predicate TicketOk(s: State, t: nat)
    requires WellFormed(s) && t < s.mem.enqueuePos
  {
    var k := SlotOf(t);
    var q := s.hist.full[k];
    var tok := s.hist.tickets[t].token;
    match s.hist.tickets[t].phase
    case Claimed(w) =>
      && s.mem.dequeuePos <= t
      && w < |s.pcs| && s.pcs[w].HoldsTicket(t, tok)
      && q <= t
      && (!s.pcs[w].EnqWait? ==> q == t)
      && (s.pcs[w].EnqPublish? ==> s.mem.slots[k].token == tok)
    case Published =>
      s.mem.dequeuePos <= t && q == t + 1 && s.mem.slots[k].token == tok
    case Won(w) =>
      && t < s.mem.dequeuePos && q == t + 1 && s.mem.slots[k].token == tok
      && w < |s.pcs| && (s.pcs[w] == DeqRead(t) || s.pcs[w] == DeqRelease(t, tok))
    case Released(w) =>
      t < s.mem.dequeuePos && q >= t + RING_SLOTS && w < |s.pcs| && s.pcs[w] == DeqReturn(t, tok)
    case Delivered =>
      t < s.mem.dequeuePos && q >= t + RING_SLOTS
  }

  ghost predicate ThreadOk(s: State, w: nat)
    requires WellFormed(s) && w < |s.pcs|
  {
    match s.pcs[w]
    case EnqWait(p, tok) => p < s.mem.enqueuePos && s.hist.tickets[p] == Ticket(tok, Claimed(w))
    case EnqStore(p, tok) => p < s.mem.enqueuePos && s.hist.tickets[p] == Ticket(tok, Claimed(w))
    case EnqPublish(p, tok) => p < s.mem.enqueuePos && s.hist.tickets[p] == Ticket(tok, Claimed(w))
    case DeqTest(p) => p <= s.mem.dequeuePos
    case DeqCas(p) =>
      && p <= s.mem.dequeuePos
      && (p == s.mem.dequeuePos ==> p < s.mem.enqueuePos && s.hist.tickets[p].phase.Published?)
    case DeqRead(p) => p < s.mem.enqueuePos && s.hist.tickets[p].phase == Won(w)
    case DeqRelease(p, tok) => p < s.mem.enqueuePos && s.hist.tickets[p] == Ticket(tok, Won(w))
    case DeqReturn(p, tok) => p < s.mem.enqueuePos && s.hist.tickets[p] == Ticket(tok, Released(w))
    case _ => true
  }

  /** The slot waits for the producer of ticket `full[k]`, or holds the token of ticket `full[k] - 1`. */
  ghost predicate SlotOk(s: State, k: nat)
    requires WellFormed(s) && k < RING_SLOTS
  {
    var q := s.hist.full[k];
    && s.mem.slots[k].sequence == Truncate(q)
    && (|| (SlotOf(q) == k && (q < RING_SLOTS || q - RING_SLOTS < s.mem.dequeuePos))
        || (1 <= q <= s.mem.enqueuePos && SlotOf(q - 1) == k
            && (q <= RING_SLOTS || q - 1 - RING_SLOTS < s.mem.dequeuePos)))
  }

  ghost predicate Inv(s: State) {
    && WellFormed(s)
    && s.mem.dequeuePos <= s.mem.enqueuePos
    && (forall t: nat :: t < s.mem.enqueuePos ==> TicketOk(s, t))
    && (forall w: nat :: w < |s.pcs| ==> ThreadOk(s, w))
    && (forall k: nat :: k < RING_SLOTS ==> SlotOk(s, k))
  }

  ghost predicate FewThreads(s: State) {
    |s.pcs| + RING_SLOTS <= WORD
  }

  // ---------------------------------------------------------------------------------------------
  // The invariant holds in every reachable state
  // ---------------------------------------------------------------------------------------------

  lemma {:induction false} ReplayInv(s: State, schedule: seq<Action>)
    requires Init(s) && FewThreads(s) && Follows(s, schedule)
    ensures Inv(Replay(s, schedule)) && FewThreads(Replay(s, schedule))
    decreases |schedule|
  {
    if schedule == [] {
      InitInv(s);
    } else {
      ReplayInv(s, schedule[..|schedule| - 1]);
      ApplyInv(Replay(s, schedule[..|schedule| - 1]), schedule[|schedule| - 1]);
    }
  }

  // ---------------------------------------------------------------------------------------------
  // Refinement of a FIFO queue
  // ---------------------------------------------------------------------------------------------

  ghost function Tokens(ts: seq<Ticket>): (r: seq<nat>)
    ensures |r| == |ts| && forall i :: 0 <= i < |ts| ==> r[i] == ts[i].token
  {
    if ts == [] then [] else [ts[0].token] + Tokens(ts[1..])
  }

  /** The abstract queue: tokens whose ticket is issued and not yet won, oldest first. */
  ghost function Queue(s: State): seq<nat>
    requires WellFormed(s) && s.mem.dequeuePos <= s.mem.enqueuePos
  {
    Tokens(s.hist.tickets[s.mem.dequeuePos..])
  }

  ghost predicate TakesTicket(s: State, a: Action)
    requires Enabled(s, a)
  {
    s.pcs[a.thread].EnqTicket?
  }

  ghost predicate WinsTicket(s: State, a: Action)
    requires Enabled(s, a)
  {
    s.pcs[a.thread].DeqCas? && s.pcs[a.thread].pos == s.mem.dequeuePos && !a.spurious
  }

  /** Tickets keep their tokens; only the two queue operations move the positions. */
  lemma TokensOnlyGrow(s: State, a: Action)
    requires Inv(s) && FewThreads(s) && Enabled(s, a)
    ensures Inv(Apply(s, a))
    ensures forall t: nat :: t < s.mem.enqueuePos ==> Apply(s, a).hist.tickets[t].token == s.hist.tickets[t].token
    ensures Apply(s, a).mem.enqueuePos == s.mem.enqueuePos + (if TakesTicket(s, a) then 1 else 0)
    ensures Apply(s, a).mem.dequeuePos == s.mem.dequeuePos + (if WinsTicket(s, a) then 1 else 0)
    ensures TakesTicket(s, a) ==> Apply(s, a).hist.tickets[s.mem.enqueuePos].token == s.pcs[a.thread].token
  {
    ApplyInv(s, a);
  }

  /** The test that makes a `try_dequeue` return false. */
  ghost predicate FindsNothing(s: State, a: Action)
    requires Enabled(s, a)
  {
    s.pcs[a.thread].DeqTest? && s.mem.slots[SlotOf(s.pcs[a.thread].pos)].sequence != Truncate(s.pcs[a.thread].pos + 1)
  }

  /**
   Taking a ticket is Enqueue, winning the exchange is Dequeue of the head; nothing else touches the queue.
   A `try_dequeue` gives up only at a stale position, or when the queue is empty or its head unpublished.
   */
  lemma StepRefinesQueue(s: State, a: Action)
    requires Inv(s) && FewThreads(s) && Enabled(s, a)
    ensures Inv(Apply(s, a))
    ensures TakesTicket(s, a) ==> Queue(Apply(s, a)) == Queue(s) + [s.pcs[a.thread].token]
    ensures WinsTicket(s, a) ==>
      && s.mem.dequeuePos < s.mem.enqueuePos
      && Queue(s) == [s.hist.tickets[s.mem.dequeuePos].token] + Queue(Apply(s, a))
      && Apply(s, a).pcs[a.thread] == DeqRead(s.mem.dequeuePos)
    ensures !TakesTicket(s, a) && !WinsTicket(s, a) ==> Queue(Apply(s, a)) == Queue(s)
    ensures FindsNothing(s, a) <==> s.pcs[a.thread].DeqTest? && Apply(s, a).pcs[a.thread].DeqEmpty?
    ensures FindsNothing(s, a) ==>
      s.pcs[a.thread].pos < s.mem.dequeuePos || Queue(s) == [] || s.hist.tickets[s.mem.dequeuePos].phase.Claimed?
    ensures forall w: nat :: w < |s.pcs| && !s.pcs[w].DeqEmpty? && Apply(s, a).pcs[w].DeqEmpty? ==>
      w == a.thread && FindsNothing(s, a)
    ensures s.pcs[a.thread].DeqCas? && !WinsTicket(s, a) ==>
      Apply(s, a) == s.(pcs := s.pcs[a.thread := DeqTest(s.mem.dequeuePos)])
  {
    TokensOnlyGrow(s, a);
    GivesUp(s, a);
    LosesExchange(s, a);
    var q, q' := Queue(s), Queue(Apply(s, a));
    if TakesTicket(s, a) {
      assert q' == q + [s.pcs[a.thread].token];
    } else if WinsTicket(s, a) {
      assert ThreadOk(s, a.thread);
      assert q == [s.hist.tickets[s.mem.dequeuePos].token] + q';
    } else {
      assert q' == q;
    }
  }

  /**
   Only the test ends a call with false.  A lost or spuriously failed exchange changes nothing but the
   thread's position: it goes on testing at the reloaded head.
   */
  lemma LosesExchange(s: State, a: Action)
    requires Enabled(s, a)
    ensures |Apply(s, a).pcs| == |s.pcs|
    ensures forall w: nat :: w < |s.pcs| && !s.pcs[w].DeqEmpty? && Apply(s, a).pcs[w].DeqEmpty? ==>
      w == a.thread && FindsNothing(s, a)
    ensures s.pcs[a.thread].DeqCas? && !WinsTicket(s, a) ==>
      Apply(s, a) == s.(pcs := s.pcs[a.thread := DeqTest(s.mem.dequeuePos)])
  {
    hide Truncate, SlotOf;
  }

  lemma GivesUp(s: State, a: Action)
    requires Inv(s) && FewThreads(s) && Enabled(s, a)
    ensures FindsNothing(s, a) <==> s.pcs[a.thread].DeqTest? && Apply(s, a).pcs[a.thread].DeqEmpty?
    ensures FindsNothing(s, a) ==>
      s.pcs[a.thread].pos < s.mem.dequeuePos || Queue(s) == [] || s.hist.tickets[s.mem.dequeuePos].phase.Claimed?
  {
    hide Truncate;
    if FindsNothing(s, a) {
      DequeueTestMeans(s, a.thread);
      if s.mem.dequeuePos < s.mem.enqueuePos {
        assert TicketOk(s, s.mem.dequeuePos);
      } else {
        assert s.hist.tickets[s.mem.dequeuePos..] == [];
      }
    }
  }

  /** From publication to the winning consumer's read, nothing overwrites the token of a ticket. */
  lemma TokenStableUntilRead(s: State, a: Action, t: nat)
    requires Inv(s) && FewThreads(s) && Enabled(s, a) && t < s.mem.enqueuePos
    requires s.hist.tickets[t].phase.Published? || s.hist.tickets[t].phase.Won?
    ensures t < |Apply(s, a).hist.tickets| && |Apply(s, a).mem.slots| == RING_SLOTS
    ensures Apply(s, a).hist.tickets[t].phase.Released?
         || Apply(s, a).mem.slots[SlotOf(t)].token == s.mem.slots[SlotOf(t)].token == s.hist.tickets[t].token
  {
    ApplyInv(s, a);
    assert TicketOk(s, t) && TicketOk(Apply(s, a), t) && ThreadOk(s, a.thread);
  }

  /** Tokens handed to `enqueue`, in the order their tickets were taken. */
  ghost function Issued(s: State, schedule: seq<Action>): seq<nat>
    requires Follows(s, schedule)
    decreases |schedule|
  {
    if schedule == [] then [] else
    var pre := schedule[..|schedule| - 1];
    var pc := Replay(s, pre).pcs[schedule[|schedule| - 1].thread];
    Issued(s, pre) + (if pc.EnqTicket? then [pc.token] else [])
  }

  /** What the successful `try_dequeue` calls returned: the ticket won and the token read from memory. */
  ghost function Returned(s: State, schedule: seq<Action>): seq<(nat, nat)>
    requires Follows(s, schedule)
    decreases |schedule|
  {
    if schedule == [] then [] else
    var pre := schedule[..|schedule| - 1];
    var pc := Replay(s, pre).pcs[schedule[|schedule| - 1].thread];
    Returned(s, pre) + (if pc.DeqReturn? then [(pc.pos, pc.token)] else [])
  }

  ghost predicate Delivers(s: State, issued: seq<nat>, returned: seq<(nat, nat)>)
  {
    && Inv(s)
    && |issued| == s.mem.enqueuePos
    && (forall t :: 0 <= t < |issued| ==> issued[t] == s.hist.tickets[t].token)
    && (forall i :: 0 <= i < |returned| ==>
          returned[i].0 < s.mem.enqueuePos && s.hist.tickets[returned[i].0] == Ticket(returned[i].1, Delivered))
    && (forall i, j :: 0 <= i < j < |returned| ==> returned[i].0 != returned[j].0)
    && (forall t: nat :: t < s.mem.enqueuePos && s.hist.tickets[t].phase.Delivered? ==>
          (t, s.hist.tickets[t].token) in returned)
  }

  lemma DeliversStep(s: State, a: Action, issued: seq<nat>, returned: seq<(nat, nat)>)
    requires FewThreads(s) && Enabled(s, a) && Delivers(s, issued, returned)
    ensures var pc := s.pcs[a.thread];
      Delivers(Apply(s, a),
               issued + (if pc.EnqTicket? then [pc.token] else []),
               returned + (if pc.DeqReturn? then [(pc.pos, pc.token)] else []))
  {
    hide Truncate, SlotOf, TicketOk, SlotOk;
    ApplyInv(s, a);
    assert ThreadOk(s, a.thread);
    var s' := Apply(s, a);
    var pc := s.pcs[a.thread];
    var returned' := returned + (if pc.DeqReturn? then [(pc.pos, pc.token)] else []);
    forall t: nat | t < s'.mem.enqueuePos && s'.hist.tickets[t].phase.Delivered?
      ensures (t, s'.hist.tickets[t].token) in returned'
    {
      if pc.DeqReturn? && t == pc.pos {
        assert returned'[|returned|] == (t, s'.hist.tickets[t].token);
      } else {
        assert (t, s.hist.tickets[t].token) in returned;
      }
    }
  }

  /**
   Every run delivers first in, first out: the tickets won are exactly 0 .. dequeuePos, each
   successful call returns the token that its ticket was issued for, no ticket is returned twice,
   and a won ticket that was not returned yet is in the hands of the thread that won it.
   */
  lemma {:induction false} FifoDelivery(s: State, schedule: seq<Action>)
    requires Init(s) && FewThreads(s) && Follows(s, schedule)
    ensures Delivers(Replay(s, schedule), Issued(s, schedule), Returned(s, schedule))
    ensures FewThreads(Replay(s, schedule))
    decreases |schedule|
  {
    if schedule == [] {
      InitInv(s);
    } else {
      var pre := schedule[..|schedule| - 1];
      FifoDelivery(s, pre);
      DeliversStep(Replay(s, pre), schedule[|schedule| - 1], Issued(s, pre), Returned(s, pre));
      ApplyInv(Replay(s, pre), schedule[|schedule| - 1]);
    }
  }

  lemma ExactlyOnceInTicketOrder(s: State, schedule: seq<Action>)
    requires Init(s) && FewThreads(s) && Follows(s, schedule)
    ensures var e := Replay(s, schedule);
      && e.mem.enqueuePos == |Issued(s, schedule)|
      && e.mem.dequeuePos <= e.mem.enqueuePos
      && (forall i :: 0 <= i < |Returned(s, schedule)| ==>
            var (t, token) := Returned(s, schedule)[i];
            t < e.mem.dequeuePos && token == Issued(s, schedule)[t])
      && (forall i, j :: 0 <= i < j < |Returned(s, schedule)| ==>
            Returned(s, schedule)[i].0 != Returned(s, schedule)[j].0)
      && (forall t: nat :: t < e.mem.dequeuePos ==>
            || (t, Issued(s, schedule)[t]) in Returned(s, schedule)
            || (exists w :: 0 <= w < |e.pcs| && (e.pcs[w] == DeqRead(t)
                                                 || e.pcs[w] == DeqRelease(t, Issued(s, schedule)[t])
                                                 || e.pcs[w] == DeqReturn(t, Issued(s, schedule)[t]))))
  {
    FifoDelivery(s, schedule);
    var e := Replay(s, schedule);
    forall i | 0 <= i < |Returned(s, schedule)|
      ensures Returned(s, schedule)[i].0 < e.mem.dequeuePos
    {
      assert TicketOk(e, Returned(s, schedule)[i].0);
    }
    forall t: nat | t < e.mem.dequeuePos
      ensures (t, Issued(s, schedule)[t]) in Returned(s, schedule)
           || (exists w :: 0 <= w < |e.pcs| && (e.pcs[w] == DeqRead(t)
                                                 || e.pcs[w] == DeqRelease(t, Issued(s, schedule)[t])
                                                 || e.pcs[w] == DeqReturn(t, Issued(s, schedule)[t])))
    {
      assert TicketOk(e, t);
    }
  }

  // ---------------------------------------------------------------------------------------------
  // Exactness of the truncated sequence test
  // ---------------------------------------------------------------------------------------------

  lemma SameSlot(t: nat, u: nat)
    requires SlotOf(t) == SlotOf(u) && t < u
    ensures t + RING_SLOTS <= u
  {
  }

  lemma TruncationExact(a: nat, b: nat)
    requires Truncate(a) == Truncate(b) && a <= b < a + WORD
    ensures a == b
  {
  }

  /** Distinct naturals below n: there are at most n of them. */
  lemma {:induction false} Pigeonhole(xs: seq<nat>, n: nat)
    requires forall i, j :: 0 <= i < j < |xs| ==> xs[i] != xs[j]
    requires forall i :: 0 <= i < |xs| ==> xs[i] < n
    ensures |xs| <= n
    decreases n
  {
    if |xs| > 0 {
      assert xs[0] < n;
      if k :| 0 <= k < |xs| && xs[k] == n - 1 {
        Pigeonhole(xs[..k] + xs[k + 1..], n - 1);
      } else {
        Pigeonhole(xs, n - 1);
      }
    }
  }

  /** While ticket u is unpublished, every ticket a full lap behind it is unpublished too. */
  lemma LapBehindIsClaimed(s: State, u: nat, v: nat)
    requires Inv(s) && u < s.mem.enqueuePos && s.hist.tickets[u].phase.Claimed?
    requires u + RING_SLOTS <= v < s.mem.enqueuePos
    ensures s.hist.tickets[v].phase.Claimed?
  {
    assert TicketOk(s, u) && TicketOk(s, v) && SlotOk(s, SlotOf(v));
  }

  /** With n threads the tickets never run further than n + 128 ahead of an unpublished one. */
  lemma BacklogBound(s: State, u: nat)
    requires Inv(s) && u < s.mem.enqueuePos && s.hist.tickets[u].phase.Claimed?
    ensures s.mem.enqueuePos <= u + RING_SLOTS + |s.pcs|
  {
    if s.mem.enqueuePos > u + RING_SLOTS {
      var lo := u + RING_SLOTS;
      forall v: nat | lo <= v < s.mem.enqueuePos
        ensures s.hist.tickets[v].phase.Claimed?
      {
        LapBehindIsClaimed(s, u, v);
      }
      var n := s.mem.enqueuePos - lo;
      var xs := seq(n, i requires 0 <= i < n => s.hist.tickets[lo + i].phase.producer);
      forall i, j | 0 <= i < j < |xs|
        ensures xs[i] != xs[j]
      {
        assert TicketOk(s, lo + i) && TicketOk(s, lo + j);
      }
      forall i | 0 <= i < |xs|
        ensures xs[i] < |s.pcs|
      {
        assert TicketOk(s, lo + i);
      }
      Pigeonhole(xs, |s.pcs|);
    }
  }

  /** A waiting producer's 32-bit test passes exactly when the slot has come round to its ticket. */
  lemma ProducerTestExact(s: State, w: nat)
    requires Inv(s) && FewThreads(s) && w < |s.pcs| && s.pcs[w].EnqWait?
    ensures s.mem.slots[SlotOf(s.pcs[w].pos)].sequence == Truncate(s.pcs[w].pos)
        <==> s.hist.full[SlotOf(s.pcs[w].pos)] == s.pcs[w].pos
  {
    var t := s.pcs[w].pos;
    var k := SlotOf(t);
    var q := s.hist.full[k];
    assert ThreadOk(s, w) && TicketOk(s, t) && SlotOk(s, k);
    if Truncate(q) == Truncate(t) && q != t {
      assert SlotOf(q) == k;
      assert TicketOk(s, q);
      BacklogBound(s, q);
      TruncationExact(q, t);
    }
  }

  /**
   The 128 slots and the 32-bit words: the wait loop of `enqueue` lets ticket t pass exactly when ticket
   t - 128, if there is one, has been read and released.
   */
  lemma ProducerWaitsOneLap(s: State, w: nat)
    requires Inv(s) && FewThreads(s) && w < |s.pcs| && s.pcs[w].EnqWait?
    ensures var t := s.pcs[w].pos;
      |s.mem.slots| == 128 && t < s.mem.enqueuePos == |s.hist.tickets|
      && (s.mem.slots[t % 128].sequence == t % 0x1_0000_0000 <==>
            t < 128 || s.hist.tickets[t - 128].phase.Released? || s.hist.tickets[t - 128].phase.Delivered?)
  {
    hide Truncate;
    var t := s.pcs[w].pos;
    assert ThreadOk(s, w) && TicketOk(s, t) && SlotOk(s, SlotOf(t));
    ProducerTestExact(s, w);
    TruncatesTo32Bits(t);
    if t >= 128 {
      assert SlotOf(t - 128) == SlotOf(t);
      assert TicketOk(s, t - 128);
    }
  }

  lemma TruncatesTo32Bits(x: nat)
    ensures Truncate(x) == x % 0x1_0000_0000
  {
  }

  /** The slot of the next ticket to be won is less than a lap away from it. */
  lemma HeadSlotIsNear(s: State, pos: nat)
    requires Inv(s) && pos == s.mem.dequeuePos
    ensures s.hist.full[SlotOf(pos)] <= pos + 1 <= s.hist.full[SlotOf(pos)] + RING_SLOTS
    ensures s.hist.full[SlotOf(pos)] == pos + 1
        <==> pos < s.mem.enqueuePos && s.hist.tickets[pos].phase.Published?
  {
    hide Truncate, ThreadOk;
    assert SlotOk(s, SlotOf(pos));
    if pos >= RING_SLOTS {
      assert SlotOf(pos - RING_SLOTS) == SlotOf(pos);
      assert TicketOk(s, pos - RING_SLOTS);
    }
    if pos < s.mem.enqueuePos {
      assert TicketOk(s, pos);
    } else {
      assert s.hist.full[SlotOf(pos)] <= pos;
    }
  }

  /** A consumer that is not behind sees "published" exactly when the ticket is published. */
  lemma ConsumerTestExact(s: State, pos: nat)
    requires Inv(s) && pos == s.mem.dequeuePos
    ensures s.mem.slots[SlotOf(pos)].sequence == Truncate(pos + 1)
        <==> pos < s.mem.enqueuePos && s.hist.tickets[pos].phase.Published?
  {
    HeadSlotIsNear(s, pos);
    assert SlotOk(s, SlotOf(pos));
    if Truncate(s.hist.full[SlotOf(pos)]) == Truncate(pos + 1) {
      TruncationExact(s.hist.full[SlotOf(pos)], pos + 1);
    }
  }

  /**
   What the test of `try_dequeue` at a position tells.  At the head it passes exactly when the head is
   published.  At a stale position it passes, until positions have moved on by almost 2^32, exactly while
   the thread that won that ticket has not released the slot.
   */
  lemma DequeueTestMeans(s: State, w: nat)
    requires Inv(s) && FewThreads(s) && w < |s.pcs| && s.pcs[w].DeqTest?
    ensures s.pcs[w].pos <= s.mem.dequeuePos <= s.mem.enqueuePos
    ensures var pos := s.pcs[w].pos;
      var passes := s.mem.slots[SlotOf(pos)].sequence == Truncate(pos + 1);
      && (pos == s.mem.dequeuePos ==> (passes <==> pos < s.mem.enqueuePos && s.hist.tickets[pos].phase.Published?))
      && (pos < s.mem.dequeuePos && s.mem.enqueuePos + RING_SLOTS <= pos + WORD ==>
            (passes <==> s.hist.tickets[pos].phase.Won?))
  {
    var pos := s.pcs[w].pos;
    assert ThreadOk(s, w);
    if pos == s.mem.dequeuePos {
      ConsumerTestExact(s, pos);
    } else if s.mem.enqueuePos + RING_SLOTS <= pos + WORD {
      StaleTestExact(s, pos);
    }
  }

  lemma StaleTestExact(s: State, pos: nat)
    requires Inv(s) && pos < s.mem.dequeuePos && s.mem.enqueuePos + RING_SLOTS <= pos + WORD
    ensures s.mem.slots[SlotOf(pos)].sequence == Truncate(pos + 1) <==> s.hist.tickets[pos].phase.Won?
  {
    var q := s.hist.full[SlotOf(pos)];
    assert TicketOk(s, pos) && SlotOk(s, SlotOf(pos));
    assert q < pos + WORD;
    if Truncate(q) == Truncate(pos + 1) {
      TruncationExact(pos + 1, q);
    }
  }

  // ---------------------------------------------------------------------------------------------
  // The invariant survives every action
  // ---------------------------------------------------------------------------------------------

  lemma InitInv(s: State)
    requires Init(s)
    ensures Inv(s)
  {
  }

  lemma TakeTicketInv(s: State, w: nat)
    requires Inv(s) && w < |s.pcs| && s.pcs[w].EnqTicket?
    ensures Inv(Advance(s, w, false))
  {
    hide Truncate;
    var s' := Advance(s, w, false);
    var n := s.mem.enqueuePos;
    assert SlotOk(s, SlotOf(n));
    forall t: nat | t < s'.mem.enqueuePos
      ensures TicketOk(s', t)
    {
      if t < n {
        assert TicketOk(s, t);
      }
    }
    forall v: nat | v < |s.pcs|
      ensures ThreadOk(s', v)
    {
      assert ThreadOk(s, v);
    }
    forall k: nat | k < RING_SLOTS
      ensures SlotOk(s', k)
    {
      assert SlotOk(s, k);
    }
  }

  lemma PublishInv(s: State, w: nat)
    requires Inv(s) && w < |s.pcs| && s.pcs[w].EnqPublish?
    ensures Inv(Advance(s, w, false))
  {
    var s' := Advance(s, w, false);
    var pos := s.pcs[w].pos;
    assert ThreadOk(s, w) && TicketOk(s, pos);
    forall t: nat | t < s'.mem.enqueuePos
      ensures TicketOk(s', t)
    {
      assert TicketOk(s, t);
    }
    forall v: nat | v < |s.pcs|
      ensures ThreadOk(s', v)
    {
      assert ThreadOk(s, v);
    }
    forall k: nat | k < RING_SLOTS
      ensures SlotOk(s', k)
    {
      assert SlotOk(s, k);
    }
  }

  lemma WinInv(s: State, w: nat)
    requires Inv(s) && w < |s.pcs| && s.pcs[w].DeqCas? && s.pcs[w].pos == s.mem.dequeuePos
    ensures Inv(Advance(s, w, false))
  {
    var s' := Advance(s, w, false);
    var pos := s.pcs[w].pos;
    assert ThreadOk(s, w) && TicketOk(s, pos);
    forall t: nat | t < s'.mem.enqueuePos
      ensures TicketOk(s', t)
    {
      assert TicketOk(s, t);
    }
    forall v: nat | v < |s.pcs|
      ensures ThreadOk(s', v)
    {
      assert ThreadOk(s, v);
    }
    forall k: nat | k < RING_SLOTS
      ensures SlotOk(s', k)
    {
      assert SlotOk(s, k);
    }
  }

  lemma ReleaseTicketOk(s: State, w: nat, t: nat)
    requires Inv(s) && w < |s.pcs| && s.pcs[w].DeqRelease? && t < s.mem.enqueuePos
    ensures WellFormed(Advance(s, w, false)) && TicketOk(Advance(s, w, false), t)
  {
    hide SlotOf, Truncate, SlotOk;
    var pos := s.pcs[w].pos;
    assert ThreadOk(s, w) && TicketOk(s, pos) && TicketOk(s, t);
    if SlotOf(t) == SlotOf(pos) && pos < t {
      SameSlot(pos, t);
    }
  }

  lemma ReleaseInv(s: State, w: nat)
    requires Inv(s) && w < |s.pcs| && s.pcs[w].DeqRelease?
    ensures Inv(Advance(s, w, false))
  {
    hide Truncate;
    var s' := Advance(s, w, false);
    assert ThreadOk(s, w) && TicketOk(s, s.pcs[w].pos);
    forall t: nat | t < s'.mem.enqueuePos
      ensures TicketOk(s', t)
    {
      ReleaseTicketOk(s, w, t);
    }
    forall v: nat | v < |s.pcs|
      ensures ThreadOk(s', v)
    {
      assert ThreadOk(s, v);
    }
    forall k: nat | k < RING_SLOTS
      ensures SlotOk(s', k)
    {
      assert SlotOk(s, k);
    }
  }

  /** The remaining actions: the tests, the token store, the token load, a failed exchange. */
  lemma LocalStepInv(s: State, w: nat, spurious: bool)
    requires Inv(s) && FewThreads(s) && w < |s.pcs| && s.pcs[w].Internal()
    requires !s.pcs[w].EnqTicket? && !s.pcs[w].EnqPublish? && !s.pcs[w].DeqRelease?
    requires s.pcs[w].DeqCas? ==> spurious || s.pcs[w].pos != s.mem.dequeuePos
    ensures Inv(Advance(s, w, spurious))
  {
    hide Truncate;
    var s' := Advance(s, w, spurious);
    assert ThreadOk(s, w);
    if s.pcs[w].EnqWait? {
      ProducerTestExact(s, w);
    }
    if s.pcs[w].DeqTest? && s.pcs[w].pos == s.mem.dequeuePos {
      ConsumerTestExact(s, s.pcs[w].pos);
    }
    if s.pcs[w].EnqStore? || s.pcs[w].DeqRead? {
      assert TicketOk(s, s.pcs[w].pos);
    }
    forall t: nat | t < s'.mem.enqueuePos
      ensures TicketOk(s', t)
    {
      assert TicketOk(s, t);
    }
    forall v: nat | v < |s.pcs|
      ensures ThreadOk(s', v)
    {
      assert ThreadOk(s, v);
    }
    forall k: nat | k < RING_SLOTS
      ensures SlotOk(s', k)
    {
      assert SlotOk(s, k);
    }
  }

  lemma AdvanceInv(s: State, w: nat, spurious: bool)
    requires Inv(s) && FewThreads(s) && w < |s.pcs| && s.pcs[w].Internal()
    ensures Inv(Advance(s, w, spurious))
  {
    match s.pcs[w]
    case EnqTicket(_) => TakeTicketInv(s, w);
    case EnqPublish(_, _) => PublishInv(s, w);
    case DeqRelease(_, _) => ReleaseInv(s, w);
    case DeqCas(pos) =>
      if pos == s.mem.dequeuePos && !spurious {
        WinInv(s, w);
      } else {
        LocalStepInv(s, w, spurious);
      }
    case _ => LocalStepInv(s, w, spurious);
  }

  lemma CallInv(s: State, w: nat, pc: Pc)
    requires Inv(s) && w < |s.pcs| && s.pcs[w].Idle? && (pc.EnqTicket? || pc.DeqLoad?)
    ensures Inv(Call(s, w, pc))
  {
    var s' := Call(s, w, pc);
    forall t: nat | t < s'.mem.enqueuePos
      ensures TicketOk(s', t)
    {
      assert TicketOk(s, t);
    }
    forall v: nat | v < |s.pcs|
      ensures ThreadOk(s', v)
    {
      assert ThreadOk(s, v);
    }
    forall k: nat | k < RING_SLOTS
      ensures SlotOk(s', k)
    {
      assert SlotOk(s, k);
    }
  }

  lemma ReturnInv(s: State, w: nat)
    requires Inv(s) && w < |s.pcs| && s.pcs[w].Returns()
    ensures Inv(Return(s, w))
  {
    var s' := Return(s, w);
    assert ThreadOk(s, w);
    forall t: nat | t < s'.mem.enqueuePos
      ensures TicketOk(s', t)
    {
      assert TicketOk(s, t);
    }
    forall v: nat | v < |s.pcs|
      ensures ThreadOk(s', v)
    {
      assert ThreadOk(s, v);
    }
    forall k: nat | k < RING_SLOTS
      ensures SlotOk(s', k)
    {
      assert SlotOk(s, k);
    }
  }

  lemma ApplyInv(s: State, a: Action)
    requires Inv(s) && FewThreads(s) && Enabled(s, a)
    ensures Inv(Apply(s, a)) && FewThreads(Apply(s, a))
  {
    var w := a.thread;
    if s.pcs[w].Idle? {
      CallInv(s, w, a.call);
    } else if s.pcs[w].Returns() {
      ReturnInv(s, w);
    } else {
      AdvanceInv(s, w, a.spurious);
    }
  }
}
