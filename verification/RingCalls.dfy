/** Whole calls on the ring: what a thread that runs alone gets from `enqueue` and `try_dequeue`. */
module RingCalls {
  import opened TicketRing
  import opened RingWalks

  /** Thread w takes up to n further actions of the call it is in, alone and without spurious failures. */
  ghost function Alone(s: State, w: nat, n: nat): State
    requires |s.mem.slots| == RING_SLOTS && w < |s.pcs|
    decreases n
  {
    if n == 0 || !s.pcs[w].Internal() then s else Alone(Apply(s, Action(w, false, DeqLoad)), w, n - 1)
  }

  lemma AloneStep(s: State, w: nat, n: nat)
    requires Inv(s) && FewThreads(s) && w < |s.pcs| && s.pcs[w].Internal() && n > 0
    ensures var s' := Apply(s, Action(w, false, DeqLoad));
      && Inv(s') && FewThreads(s') && |s'.pcs| == |s.pcs| && |s'.mem.slots| == RING_SLOTS
      && Alone(s, w, n) == Alone(s', w, n - 1)
  {
    hide Truncate, SlotOf;
    ApplyInv(s, Action(w, false, DeqLoad));
  }

  /** About to take the head: at the load, at the test of the head, at any exchange, or past a won one. */
  ghost predicate OnTheWay(s: State, w: nat, d: nat) {
    && Inv(s) && FewThreads(s) && w < |s.pcs| && d < s.mem.enqueuePos
    && match s.pcs[w]
       case DeqLoad => s.mem.dequeuePos == d && HeadReady(s)
       case DeqTest(pos) => pos == s.mem.dequeuePos == d && HeadReady(s)
       case DeqCas(_) => s.mem.dequeuePos == d && HeadReady(s)
       case DeqRead(pos) => pos == d && s.mem.dequeuePos == d + 1
       case DeqRelease(pos, token) => pos == d && s.mem.dequeuePos == d + 1 && token == s.hist.tickets[d].token
       case _ => false
  }

  /** How many actions are left; a stale exchange first comes back to the test. */
  ghost function StepsLeft(s: State, w: nat): nat
    requires w < |s.pcs|
  {
    match s.pcs[w]
    case DeqLoad => 5
    case DeqTest(_) => 4
    case DeqCas(pos) => if pos == s.mem.dequeuePos then 3 else 5
    case DeqRead(_) => 2
    case _ => 1
  }

  lemma OnTheWayStep(s: State, w: nat, d: nat)
    requires OnTheWay(s, w, d)
    ensures s.pcs[w].Internal()
    ensures var s' := Apply(s, Action(w, false, DeqLoad));
      && w < |s'.pcs| && d < |s'.hist.tickets| && s'.hist.tickets[d].token == s.hist.tickets[d].token
      && if s.pcs[w].DeqRelease? then
           s'.pcs[w] == DeqReturn(d, s.hist.tickets[d].token) && s'.mem.dequeuePos == d + 1
         else OnTheWay(s', w, d) && StepsLeft(s', w) < StepsLeft(s, w)
  {
    hide Truncate;
    ApplyInv(s, Action(w, false, DeqLoad));
    assert ThreadOk(s, w) && TicketOk(s, d);
    if s.pcs[w].DeqTest? {
      ConsumerTestExact(s, d);
    }
  }

  /**
   With ticket d at the head and published, a thread at the start of `try_dequeue`, at the test of the
   head, or at any exchange however stale, takes d in at most five actions of its own and returns it with
   the token that was issued for it; so does a thread that has won d already.
   */
  lemma {:induction false} TakesHeadAlone(s: State, w: nat, d: nat, n: nat)
    requires OnTheWay(s, w, d) && n >= StepsLeft(s, w)
    ensures d < |s.hist.tickets| && |s.mem.slots| == RING_SLOTS && w < |Alone(s, w, n).pcs|
    ensures Alone(s, w, n).pcs[w] == DeqReturn(d, s.hist.tickets[d].token) && Alone(s, w, n).mem.dequeuePos == d + 1
    decreases StepsLeft(s, w)
  {
    hide Apply;
    OnTheWayStep(s, w, d);
    AloneStep(s, w, n);
    var s' := Apply(s, Action(w, false, DeqLoad));
    if !s.pcs[w].DeqRelease? {
      TakesHeadAlone(s', w, d, n - 1);
    }
  }

  /** A lost exchange does not end the call: run on alone with the head published, it returns the head. */
  lemma LostExchangeReturnsHead(s: State, schedule: seq<Action>, w: nat)
    requires Init(s) && FewThreads(s) && Follows(s, schedule)
    requires var e := Replay(s, schedule);
      HeadReady(e) && w < |e.pcs| && e.pcs[w].DeqCas? && e.pcs[w].pos < e.mem.dequeuePos
    ensures var e := Replay(s, schedule);
      && |e.mem.slots| == RING_SLOTS && w < |Alone(e, w, 5).pcs| && e.mem.dequeuePos < |e.hist.tickets|
      && Alone(e, w, 5).pcs[w] == DeqReturn(e.mem.dequeuePos, e.hist.tickets[e.mem.dequeuePos].token)
  {
    ReplayInv(s, schedule);
    TakesHeadAlone(Replay(s, schedule), w, Replay(s, schedule).mem.dequeuePos, 5);
  }

  /** A call that runs alone returns the head if it is published, and otherwise false without a change. */
  lemma DequeueAlone(s: State, w: nat)
    requires Inv(s) && FewThreads(s) && w < |s.pcs| && s.pcs[w].DeqLoad?
    ensures w < |Alone(s, w, 5).pcs|
    ensures if HeadReady(s) then
        Alone(s, w, 5).pcs[w] == DeqReturn(s.mem.dequeuePos, s.hist.tickets[s.mem.dequeuePos].token)
      else Alone(s, w, 5) == s.(pcs := s.pcs[w := DeqEmpty])
  {
    if HeadReady(s) {
      TakesHeadAlone(s, w, s.mem.dequeuePos, 5);
    } else {
      hide Truncate, SlotOf;
      AloneStep(s, w, 5);
      var s' := Apply(s, Action(w, false, DeqLoad));
      assert s' == s.(pcs := s.pcs[w := DeqTest(s.mem.dequeuePos)]);
      ConsumerTestExact(s', s.mem.dequeuePos);
      AloneStep(s', w, 4);
      var s2 := Apply(s', Action(w, false, DeqLoad));
      assert s2.pcs == s.pcs[w := DeqEmpty];
      assert Alone(s2, w, 3) == s2;
    }
  }
}
