/**
 What a worker achieves that runs alone, while all others stand still.

 As long as the run is unfinished and everybody who was started only looks for work, the head of the
 ring is published (`SearchersFindHead`): otherwise some node or ticket would be in the hands of a worker
 that is not searching.  A searching worker then comes nearer to winning the head with every step of its
 own (`SearchStep`).  Once all nodes are counted, it comes nearer to leaving instead (`LeavingStep`).
 */
module DagProgress {
  import opened TaskGraph
  import opened ParallelDag
  import opened DagInvariant
  import opened DagSteps
  import opened DagMeasure
  import opened DagTheorems
  import Ring = TicketRing

  // ---------------------------------------------------------------------------------------------
  // No deadlock
  // ---------------------------------------------------------------------------------------------

  /** Within `steps` steps of its own, worker w running alone lowers the measure. */
  ghost predicate ProgressAlone(job: Job, s: State, w: nat, steps: nat)
    decreases steps
  {
    && steps > 0
    && CanStep(job, s, w)
    && var s' := Step(job, s, w, false);
       || (|s.control| == |s.ring.pcs| && |s'.control| == |s'.ring.pcs| && Measure(job, s') < Measure(job, s))
       || ProgressAlone(job, s', w, steps - 1)
  }

  predicate Searching(s: State, v: nat)
    requires v < |s.control| && v < |s.ring.pcs|
  {
    || s.control[v].Check?
    || (s.control[v].Polling?
        && (s.ring.pcs[v].DeqLoad? || s.ring.pcs[v].DeqTest? || s.ring.pcs[v].DeqCas? || s.ring.pcs[v].DeqEmpty?))
  }

  /** Everybody looks for work, and the head of the ring is published. */
  ghost predicate HeadWaits(job: Job, s: State) {
    && Inv(job, s)
    && s.completed < |job.deps|
    && s.ring.mem.dequeuePos < s.ring.mem.enqueuePos
    && s.ring.hist.tickets[s.ring.mem.dequeuePos].phase.Published?
  }

  /** How many of its own steps a searching worker needs to win the head ticket. */
  function Distance(s: State, w: nat): nat
    requires w < |s.control| && w < |s.ring.pcs|
  {
    if s.control[w].Check? then 4
    else
      match s.ring.pcs[w]
      case DeqCas(pos) => if pos == s.ring.mem.dequeuePos then 1 else 3
      case DeqTest(pos) => if pos == s.ring.mem.dequeuePos then 2 else 6
      case DeqLoad => 3
      case _ => 5
  }

  lemma SearchStep(job: Job, s: State, w: nat)
    requires HeadWaits(job, s) && w < |s.control| && Searching(s, w) && Spins(job, s, w, false)
    ensures CanStep(job, s, w)
    ensures var s' := Step(job, s, w, false);
      HeadWaits(job, s') && w < |s'.control| && Searching(s', w) && Distance(s', w) < Distance(s, w)
  {
    ReachableWorkersCanStep(job, s, w);
    StepInv(job, s, w, false);
    Ring.ConsumerTestExact(s.ring, s.ring.mem.dequeuePos);
    assert WorkerOk(job, s, w) && Ring.ThreadOk(s.ring, w);
  }

  lemma {:induction false} WinAlone(job: Job, s: State, w: nat)
    requires HeadWaits(job, s) && w < |s.control| && Searching(s, w)
    ensures ProgressAlone(job, s, w, 1 + Distance(s, w))
    decreases Distance(s, w)
  {
    ReachableWorkersCanStep(job, s, w);
    MeasureDrops(job, s, w, false);
    if Spins(job, s, w, false) {
      SearchStep(job, s, w);
      WinAlone(job, Step(job, s, w, false), w);
      MoreSteps(job, Step(job, s, w, false), w, 1 + Distance(Step(job, s, w, false), w), Distance(s, w));
    }
  }

  lemma {:induction false} MoreSteps(job: Job, s: State, w: nat, steps: nat, more: nat)
    requires ProgressAlone(job, s, w, steps) && steps <= more
    ensures ProgressAlone(job, s, w, more)
    decreases steps
  {
    var s' := Step(job, s, w, false);
    if !(|s.control| == |s.ring.pcs| && |s'.control| == |s'.ring.pcs| && Measure(job, s') < Measure(job, s)) {
      MoreSteps(job, s', w, steps - 1, more - 1);
    }
  }

  /** A worker that carries a node is not searching. */
  lemma CarrierIsBusy(job: Job, s: State, j: nat)
    requires Inv(job, s) && j < |s.place|
    requires s.place[j].Ready? || s.place[j].Enqueuing? || s.place[j].Held? || s.place[j].Notifying?
    ensures var w := s.place[j].worker;
      w < |s.control| == |s.ring.pcs| && CanStep(job, s, w) && !Searching(s, w)
  {
    assert NodeOk(job, s, j) && WorkerOk(job, s, s.place[j].worker);
    ReachableWorkersCanStep(job, s, s.place[j].worker);
  }

  /** Nor is one that is between taking and publishing a ticket, or between winning and delivering it. */
  lemma TicketHolderIsBusy(job: Job, s: State, t: nat)
    requires Inv(job, s) && t < s.ring.mem.enqueuePos
    requires !s.ring.hist.tickets[t].phase.Published? && !s.ring.hist.tickets[t].phase.Delivered?
    ensures exists w: nat :: w < |s.control| == |s.ring.pcs| && CanStep(job, s, w) && !Searching(s, w)
  {
    assert Ring.TicketOk(s.ring, t);
    var p := s.ring.hist.tickets[t].phase;
    var w := if p.Claimed? then p.producer else p.consumer;
    assert WorkerOk(job, s, w);
    ReachableWorkersCanStep(job, s, w);
  }

  /** If everybody who started only searches, the unfinished work sits published at the head of the ring. */
  lemma SearchersFindHead(job: Job, s: State)
    requires Inv(job, s) && s.completed < |job.deps|
    requires forall v: nat :: v < |s.control| && CanStep(job, s, v) ==> Searching(s, v)
    ensures HeadWaits(job, s)
  {
    ReachableWorkersCanStep(job, s, 0);
    assert WorkerOk(job, s, 0);
    CountAll(s.place);
    var j := SomeNodeIsOnItsWay(job, s);
    assert NodeOk(job, s, j);
    if s.place[j].Ready? || s.place[j].Enqueuing? || s.place[j].Held? || s.place[j].Notifying? {
      CarrierIsBusy(job, s, j);
      assert false;
    }
    var t := s.place[j].ticket;
    TicketOfSearchers(job, s, t);
    TicketOfSearchers(job, s, s.ring.mem.dequeuePos);
  }

  lemma TicketOfSearchers(job: Job, s: State, t: nat)
    requires Inv(job, s) && t < s.ring.mem.enqueuePos
    requires forall v: nat :: v < |s.control| && CanStep(job, s, v) ==> Searching(s, v)
    ensures s.ring.hist.tickets[t].phase.Published? || s.ring.hist.tickets[t].phase.Delivered?
    ensures s.ring.hist.tickets[t].phase.Published? <==> s.ring.mem.dequeuePos <= t
  {
    assert Ring.TicketOk(s.ring, t);
    var p := s.ring.hist.tickets[t].phase;
    if !p.Published? && !p.Delivered? {
      TicketHolderIsBusy(job, s, t);
      assert false;
    }
  }

  // ---------------------------------------------------------------------------------------------
  // Leaving
  // ---------------------------------------------------------------------------------------------

  /** Every node is counted: from here on the ring stays empty. */
  ghost predicate AllCounted(job: Job, s: State) {
    Inv(job, s) && s.completed == |job.deps|
  }

  lemma NothingPublished(job: Job, s: State, t: nat)
    requires AllCounted(job, s) && t < s.ring.mem.enqueuePos
    ensures !s.ring.hist.tickets[t].phase.Published?
  {
    assert TokenOk(job, s, t);
    CountAll(s.place);
    assert s.place[s.ring.hist.tickets[t].token].Finished?;
  }

  /** How many of its own steps a searching worker needs to leave. */
  function StepsToLeave(s: State, w: nat): nat
    requires w < |s.control| && w < |s.ring.pcs|
  {
    if s.control[w].Check? then 1
    else
      match s.ring.pcs[w]
      case DeqEmpty => 2
      case DeqTest(pos) => if pos == s.ring.mem.dequeuePos then 3 else 5
      case _ => 4
  }

  lemma LeavingStep(job: Job, s: State, w: nat)
    requires AllCounted(job, s) && w < |s.control| && Searching(s, w)
    ensures CanStep(job, s, w)
    ensures var s' := Step(job, s, w, false);
      && AllCounted(job, s') && w < |s'.control|
      && if s.control[w].Check? then s'.control[w].Exited?
         else Searching(s', w) && StepsToLeave(s', w) < StepsToLeave(s, w)
  {
    ReachableWorkersCanStep(job, s, w);
    StepInv(job, s, w, false);
    Ring.ConsumerTestExact(s.ring, s.ring.mem.dequeuePos);
    assert WorkerOk(job, s, w) && Ring.ThreadOk(s.ring, w);
    if s.ring.mem.dequeuePos < s.ring.mem.enqueuePos {
      NothingPublished(job, s, s.ring.mem.dequeuePos);
    }
  }

  /** Within `steps` steps of its own, worker w running alone leaves. */
  ghost predicate LeavesAlone(job: Job, s: State, w: nat, steps: nat)
    decreases steps
  {
    && w < |s.control|
    && (s.control[w].Exited? ||
        (steps > 0 && CanStep(job, s, w) && LeavesAlone(job, Step(job, s, w, false), w, steps - 1)))
  }

  lemma {:induction false} LeavesWithMore(job: Job, s: State, w: nat, steps: nat, more: nat)
    requires LeavesAlone(job, s, w, steps) && steps <= more
    ensures LeavesAlone(job, s, w, more)
    decreases steps
  {
    if !s.control[w].Exited? {
      LeavesWithMore(job, Step(job, s, w, false), w, steps - 1, more - 1);
    }
  }
}
