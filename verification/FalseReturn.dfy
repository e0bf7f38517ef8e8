/** When `try_dequeue` misses a token that is there. */
module FalseReturn {
  import opened TicketRing
  import opened RingWalks

  /**
   A `try_dequeue` can return false although the head could be taken at every moment of the call: it does
   when, between its load and its test, another thread takes the head and the next ticket is published.
   */
  lemma StaleTestMisses(s: State, w: nat, v: nat) returns (schedule: seq<Action>)
    requires Inv(s) && FewThreads(s) && w < |s.pcs| && v < |s.pcs| && w != v
    requires s.pcs[w].DeqLoad? && s.pcs[v].Idle? && HeadReady(s)
    requires s.mem.dequeuePos + 1 < s.mem.enqueuePos && s.hist.tickets[s.mem.dequeuePos + 1].phase.Published?
    ensures HeadReadyThroughout(s, schedule, w) && Replay(s, schedule).pcs[w].DeqEmpty?
  {
    hide Inv, Replay, Follows, HeadReadyThroughout, Truncate, SlotOf;
    var d := s.mem.dequeuePos;
    var go := Action(w, false, DeqLoad);
    Begin(s, w);
    ApplyInv(s, go);
    var e := Apply(s, go);
    OneMore(s, [], w, s, go);
    schedule := [] + [go];
    schedule, e := TakeWhole(s, schedule, w, v, d, e);
    LapApart(d);
    OneMore(s, schedule, w, e, go);
    schedule := schedule + [go];
  }

  /**
   After the actions `before`, thread w is at the start of a `try_dequeue`; the actions `during` lead that
   same call to return false, and from its start on the head can be taken at every moment.
   */
  ghost predicate MissesHead(s: State, before: seq<Action>, during: seq<Action>, w: nat) {
    && Follows(s, before)
    && w < |Replay(s, before).pcs| && Replay(s, before).pcs[w].DeqLoad?
    && HeadReadyThroughout(Replay(s, before), during, w)
    && Replay(Replay(s, before), during).pcs[w].DeqEmpty?
  }

  /** Such a false return happens in a run from the start, with any two threads. */
  lemma FalseReturnHappens(s: State, w: nat, v: nat) returns (before: seq<Action>, during: seq<Action>)
    requires Init(s) && FewThreads(s) && w < |s.pcs| && v < |s.pcs| && w != v
    ensures MissesHead(s, before, during, w)
  {
    InitInv(s);
    var e: State;
    before, e := FillTwo(s, [], v, 0, s);
    var a := Action(w, false, DeqLoad);
    ApplyInv(e, a);
    assert (before + [a])[..|before|] == before;
    before := before + [a];
    during := StaleTestMisses(Apply(e, a), w, v);
  }

  // ---------------------------------------------------------------------------------------------
  // Exactly when it can happen
  // ---------------------------------------------------------------------------------------------

  /** While the head can be taken, a test fails exactly when its position is stale and the slot released. */
  lemma TestMissesIffStale(s: State, a: Action)
    requires Inv(s) && FewThreads(s) && Enabled(s, a) && HeadReady(s) && s.pcs[a.thread].DeqTest?
    requires s.mem.enqueuePos + RING_SLOTS <= s.pcs[a.thread].pos + WORD
    ensures s.pcs[a.thread].pos <= s.mem.dequeuePos < s.mem.enqueuePos
    ensures FindsNothing(s, a) <==>
      s.pcs[a.thread].pos < s.mem.dequeuePos && !s.hist.tickets[s.pcs[a.thread].pos].phase.Won?
  {
    hide Truncate, SlotOf;
    DequeueTestMeans(s, a.thread);
  }

  /** When a call misses the head, another thread has won a ticket since the call began. */
  lemma {:induction false} MissMeansOvertaken(s: State, schedule: seq<Action>, w: nat)
    requires Inv(s) && FewThreads(s) && w < |s.pcs| && s.pcs[w].DeqLoad? && HeadReadyThroughout(s, schedule, w)
    ensures var e := Replay(s, schedule);
      && Inv(e) && FewThreads(e) && |e.pcs| == |s.pcs| && InCall(e.pcs[w], e.mem.dequeuePos, s.mem.dequeuePos)
      && (e.pcs[w].DeqEmpty? ==> s.mem.dequeuePos < e.mem.dequeuePos)
    decreases |schedule|
  {
    if schedule != [] {
      hide Apply, Inv;
      var pre, last := schedule[..|schedule| - 1], schedule[|schedule| - 1];
      MissMeansOvertaken(s, pre, w);
      ApplyInv(Replay(s, pre), last);
      InCallStep(Replay(s, pre), last, w, s.mem.dequeuePos);
    }
  }

  ghost predicate CanMiss(threads: nat) {
    exists s, before, during, w :: Init(s) && |s.pcs| == threads && MissesHead(s, before, during, w)
  }

  /** The fresh ring with idle threads. */
  function Fresh(threads: nat): State {
    State(
      Memory(seq(RING_SLOTS, k requires 0 <= k => Slot(0, k)), 0, 0),
      seq(threads, _ => Idle),
      History([], seq(RING_SLOTS, k requires 0 <= k => k)))
  }

  /** A `try_dequeue` can return false with the head ready throughout exactly when there are two or more threads. */
  lemma MissIffSeveralThreads(threads: nat)
    requires threads + RING_SLOTS <= WORD
    ensures CanMiss(threads) <==> threads >= 2
  {
    hide Inv, Apply, HeadReadyThroughout;
    if threads >= 2 {
      var s := Fresh(threads);
      var before, during := FalseReturnHappens(s, 0, 1);
      assert Init(s) && MissesHead(s, before, during, 0);
    } else if CanMiss(threads) {
      var s, before, during, w :| Init(s) && |s.pcs| == threads && MissesHead(s, before, during, w);
      ReplayInv(s, before);
      ReplayThreads(s, before);
      AloneNeverMisses(Replay(s, before), during);
      assert false;
    }
  }
}
