/** Safety, confluence, and the measure of progress. */
module DagTheorems {
  import opened TaskGraph
  import opened ParallelDag
  import opened DagInvariant
  import opened DagSteps
  import opened DagMeasure
  import Ring = TicketRing

  // ---------------------------------------------------------------------------------------------
  // Safety
  // ---------------------------------------------------------------------------------------------

  /** No started worker is ever stuck in the middle of something it cannot do. */
  lemma ReachableWorkersCanStep(job: Job, s: State, w: nat)
    requires Inv(job, s) && w < |s.control|
    ensures CanStep(job, s, w) <==> !s.control[w].NotStarted? && !s.control[w].Exited?
  {
    assert WorkerOk(job, s, w);
    if s.control[w].Spawn? && s.control[w].next < |s.control| {
      assert WorkerOk(job, s, s.control[w].next);
    }
  }

  function Rank(st: NodeState): nat {
    match st case Pending => 0 case Runnable => 1 case Running => 2 case Done => 3
  }

  /** Node states only move forward, a done node keeps its output, and only `Invoke` runs a task. */
  lemma StepForward(job: Job, s: State, w: nat, spurious: bool, j: nat)
    requires Inv(job, s) && CanStep(job, s, w) && j < |s.nodes|
    ensures var s' := Step(job, s, w, spurious);
      && |s'.nodes| == |s.nodes|
      && Rank(s.nodes[j].state) <= Rank(s'.nodes[j].state) <= Rank(s.nodes[j].state) + 1
      && (s.nodes[j].state.Done? ==> s'.nodes[j].output == s.nodes[j].output)
      && s'.nodes[j].runs == s.nodes[j].runs + (if s.control[w] == Invoke(j) then 1 else 0)
  {
    hide Ring.Inv, Ring.FewThreads, RingStep, SeenOk, TokenOk, TellsOk, Told, OnlyMain;
    hide TokensDistinct, FinishedCount, Value, Consumers, DepOutputs;
    assert WorkerOk(job, s, w) && NodeOk(job, s, j);
    if InRingCall(s.control[w]) {
      RingStepFrame(s, w, spurious);
      RingStepFrame(s, w, false);
    }
    if s.control[w].Claim? || s.control[w].Invoke? || s.control[w].InTask? || s.control[w].Finish? {
      assert NodeOk(job, s, s.control[w].node);
    }
  }

  /** The nodes whose tasks were called, in the order of the calls. */
  ghost function Invocations(job: Job, s: State, schedule: seq<Pick>): seq<nat>
    requires Follows(job, s, schedule)
    decreases |schedule|
  {
    if schedule == [] then []
    else
      var pre, last := schedule[..|schedule| - 1], schedule[|schedule| - 1];
      var c := Replay(job, s, pre).control[last.worker];
      Invocations(job, s, pre) + (if c.Invoke? then [c.node] else [])
  }

  /** Distinct node indices, each after all its dependencies. */
  ghost predicate TopologicalOrder(job: Job, order: seq<nat>) {
    && (forall p :: 0 <= p < |order| ==> order[p] < |job.deps|)
    && (forall p, q :: 0 <= p < q < |order| ==> order[p] != order[q])
    && (forall p, d :: 0 <= p < |order| && d in job.deps[order[p]] ==> d in order[..p])
  }

  ghost predicate RunsMatch(s: State, order: seq<nat>) {
    forall j: nat :: j < |s.nodes| ==> s.nodes[j].runs == (if j in order then 1 else 0)
  }

  lemma InvocationsStep(job: Job, s: State, w: nat, spurious: bool, order: seq<nat>)
    requires Inv(job, s) && CanStep(job, s, w) && TopologicalOrder(job, order) && RunsMatch(s, order)
    ensures var order' := order + (if s.control[w].Invoke? then [s.control[w].node] else []);
      TopologicalOrder(job, order') && RunsMatch(Step(job, s, w, spurious), order')
  {
    hide Ring.Inv, Ring.Apply, TokenOk, FinishedCount;
    var c := s.control[w];
    var order' := order + (if c.Invoke? then [c.node] else []);
    forall j: nat | j < |s.nodes|
      ensures Step(job, s, w, spurious).nodes[j].runs == (if j in order' then 1 else 0)
    {
      StepForward(job, s, w, spurious, j);
      assert WorkerOk(job, s, w);
      if c == Invoke(j) {
        assert NodeOk(job, s, j);
      }
    }
    if c.Invoke? {
      assert WorkerOk(job, s, w) && NodeOk(job, s, c.node);
      SeenMeansDone(job, s, c.node);
      forall p, d | 0 <= p < |order'| && d in job.deps[order'[p]]
        ensures d in order'[..p]
      {
        if p == |order| {
          assert order'[..p] == order;
        } else {
          assert order'[..p] == order[..p];
        }
      }
    } else {
      assert order' == order;
    }
  }

  /** In every run each task is called at most once, and only after all its dependencies were. */
  lemma {:induction false} InvocationOrder(job: Job, s: State, workers: nat, schedule: seq<Pick>)
    requires Valid(job) && Init(job, s, workers) && Follows(job, s, schedule)
    ensures TopologicalOrder(job, Invocations(job, s, schedule))
    ensures RunsMatch(Replay(job, s, schedule), Invocations(job, s, schedule))
    decreases |schedule|
  {
    if schedule != [] {
      var pre, last := schedule[..|schedule| - 1], schedule[|schedule| - 1];
      InvocationOrder(job, s, workers, pre);
      ReplayInv(job, s, workers, pre);
      InvocationsStep(job, Replay(job, s, pre), last.worker, last.spurious, Invocations(job, s, pre));
    }
  }

  /** While a task runs, each of its dependencies has returned, is done and holds its final output. */
  lemma TaskSeesFinalOutputs(job: Job, s: State, w: nat)
    requires Inv(job, s) && w < |s.control| && (s.control[w].Invoke? || s.control[w].InTask?)
    ensures s.control[w].node < |s.nodes|
    ensures forall d :: d in job.deps[s.control[w].node] ==>
      d < |s.nodes| && s.nodes[d].state.Done? && s.nodes[d].runs == 1 && s.nodes[d].output == Value(job, d)
  {
    assert WorkerOk(job, s, w) && NodeOk(job, s, s.control[w].node);
    SeenMeansDone(job, s, s.control[w].node);
  }

  // ---------------------------------------------------------------------------------------------
  // Tickets
  // ---------------------------------------------------------------------------------------------

  /** Each node gets at most one ticket. */
  lemma TicketsBounded(job: Job, s: State)
    requires Inv(job, s)
    ensures s.ring.mem.enqueuePos <= |job.deps|
  {
    var xs := Ring.Tokens(s.ring.hist.tickets);
    forall t | 0 <= t < |xs| ensures xs[t] < |job.deps| {
      assert TokenOk(job, s, t);
    }
    Ring.Pigeonhole(xs, |job.deps|);
  }

  /** The wait loop of `enqueue` passes on its first test. */
  lemma EnqueueNeverBlocks(job: Job, s: State, w: nat)
    requires Inv(job, s) && w < |s.control| && s.ring.pcs[w].EnqWait?
    ensures s.ring.mem.slots[Ring.SlotOf(s.ring.pcs[w].pos)].sequence == Ring.Truncate(s.ring.pcs[w].pos)
  {
    var t := s.ring.pcs[w].pos;
    TicketsBounded(job, s);
    assert Ring.ThreadOk(s.ring, w) && Ring.TicketOk(s.ring, t) && Ring.SlotOk(s.ring, Ring.SlotOf(t));
  }

  // ---------------------------------------------------------------------------------------------
  // The end of a run
  // ---------------------------------------------------------------------------------------------

  /** When any worker has left, every node has run exactly once and holds the value the graph defines. */
  lemma ExitMeansFinished(job: Job, s: State, w: nat)
    requires Inv(job, s) && w < |s.control| && s.control[w].Exited?
    ensures forall j: nat :: j < |s.nodes| ==>
      s.nodes[j].state.Done? && s.nodes[j].runs == 1 && s.nodes[j].output == Value(job, j)
  {
    assert WorkerOk(job, s, w);
    forall j: nat | j < |s.nodes|
      ensures s.nodes[j].state.Done? && s.nodes[j].runs == 1 && s.nodes[j].output == Value(job, j)
    {
      assert NodeOk(job, s, j);
    }
  }

  /** A run with n workers, from a fresh start, that worker w has left. */
  ghost predicate FinishedRun(job: Job, s: State, n: nat, schedule: seq<Pick>, w: nat) {
    && Init(job, s, n) && Follows(job, s, schedule)
    && w < |Replay(job, s, schedule).control| && Replay(job, s, schedule).control[w].Exited?
  }

  lemma FinishedRunOutputs(job: Job, s: State, n: nat, schedule: seq<Pick>, w: nat)
    requires Valid(job) && FinishedRun(job, s, n, schedule, w)
    ensures |Replay(job, s, schedule).nodes| == |job.deps|
    ensures forall j :: 0 <= j < |job.deps| ==> Replay(job, s, schedule).nodes[j].output == Value(job, j)
  {
    ReplayInv(job, s, n, schedule);
    ExitMeansFinished(job, Replay(job, s, schedule), w);
  }

  /** Any two finished runs, with any numbers of workers and any schedules, leave the same outputs. */
  lemma Confluence(job: Job, s: State, n: nat, schedule: seq<Pick>, w: nat,
                   s2: State, n2: nat, schedule2: seq<Pick>, w2: nat)
    requires Valid(job) && FinishedRun(job, s, n, schedule, w) && FinishedRun(job, s2, n2, schedule2, w2)
    ensures |Replay(job, s, schedule).nodes| == |Replay(job, s2, schedule2).nodes| == |job.deps|
    ensures forall j :: 0 <= j < |job.deps| ==>
      Replay(job, s, schedule).nodes[j].output == Replay(job, s2, schedule2).nodes[j].output
  {
    FinishedRunOutputs(job, s, n, schedule, w);
    FinishedRunOutputs(job, s2, n2, schedule2, w2);
  }

  // ---------------------------------------------------------------------------------------------
  // Progress
  // ---------------------------------------------------------------------------------------------

  /** The lowest unfinished node: everything below it is finished. */
  lemma {:induction false} LowestUnfinished(place: seq<Place>) returns (j: nat)
    requires FinishedCount(place) < |place|
    ensures j < |place| && !place[j].Finished? && forall i :: 0 <= i < j ==> place[i].Finished?
    decreases |place|
  {
    var pre := place[..|place| - 1];
    if FinishedCount(pre) < |pre| {
      j := LowestUnfinished(pre);
    } else {
      CountAll(pre);
      j := |place| - 1;
      assert forall i :: 0 <= i < j ==> pre[i] == place[i];
    }
  }

  /**
   No lost node: while the run is unfinished some node is being scheduled, is in the ring or is with
   a worker, or the caller has still to seed it.
   */
  lemma SomeNodeIsOnItsWay(job: Job, s: State) returns (j: nat)
    requires Inv(job, s) && s.completed < |job.deps|
    ensures j < |s.place| && !s.place[j].Finished?
    ensures s.place[j].Waiting? ==> SeedsLater(s.control[0], j)
  {
    j := LowestUnfinished(s.place);
    assert NodeOk(job, s, j) && SeenOk(job, s, j);
    forall d: nat | d in job.deps[j] ensures d in s.nodes[j].seen {
      assert Told(s, d, j);
    }
  }

  lemma DequeuePosMoves(job: Job, s: State, w: nat, spurious: bool)
    requires Inv(job, s) && CanStep(job, s, w)
    ensures Step(job, s, w, spurious).ring.mem.dequeuePos == s.ring.mem.dequeuePos
      + (if s.control[w].Polling? && s.ring.pcs[w].DeqCas? && !Spins(job, s, w, spurious) then 1 else 0)
    ensures Step(job, s, w, spurious).ring.mem.dequeuePos <= |job.deps|
  {
    assert WorkerOk(job, s, w);
    StepInv(job, s, w, spurious);
    TicketsBounded(job, Step(job, s, w, spurious));
  }

  lemma WeightInEnqueue(job: Job, s: State, w: nat, spurious: bool)
    requires Inv(job, s) && CanStep(job, s, w) && (s.control[w].SeedEnqueue? || s.control[w].NotifyEnqueue?)
    ensures var s' := Step(job, s, w, spurious);
      && |s'.control| == |s.control| == |s'.ring.pcs|
      && Weight(|job.deps|, |s.control|, s'.control[w], s'.ring.pcs[w])
         < Weight(|job.deps|, |s.control|, s.control[w], s.ring.pcs[w])
  {
    if !s.ring.pcs[w].EnqReturn? {
      if s.ring.pcs[w].EnqWait? {
        EnqueueNeverBlocks(job, s, w);
      }
      EnqueueAdvances(s.ring, w, spurious);
    }
  }

  /** Every step that is not idle spinning lowers the measure; spinning leaves it as it is. */
  lemma MeasureDrops(job: Job, s: State, w: nat, spurious: bool)
    requires Inv(job, s) && CanStep(job, s, w)
    ensures |Step(job, s, w, spurious).control| == |Step(job, s, w, spurious).ring.pcs|
    ensures if Spins(job, s, w, spurious) then Measure(job, Step(job, s, w, spurious)) == Measure(job, s)
            else Measure(job, Step(job, s, w, spurious)) < Measure(job, s)
  {
    hide Inv, Step, Weight, WeightSum;
    var s' := Step(job, s, w, spurious);
    if s.control[w].Spawn? && s.control[w].next < |s.control| {
      SpawnDrops(job, s, w, spurious);
    } else {
      if s.control[w].Polling? {
        WeightInDequeue(job, s, w, spurious);
      } else if InRingCall(s.control[w]) {
        WeightInEnqueue(job, s, w, spurious);
      } else if s.control[w].Notify? {
        WeightOfNotify(job, s, w, spurious);
      } else if Seeding(s.control[w]) {
        WeightOfSeeding(job, s, w, spurious);
      } else {
        WeightOfWorking(job, s, w, spurious);
      }
      DequeuePosMoves(job, s, w, spurious);
      forall v | 0 <= v < |s.control| && v != w
        ensures s'.control[v] == s.control[v] && s'.ring.pcs[v] == s.ring.pcs[v]
      {
        OnlyOneMoves(job, s, w, spurious, v);
      }
      WeightSumChange(|job.deps|, s.control, s.ring.pcs, s'.control, s'.ring.pcs, w, |s.control|);
      MeasureArithmetic(|job.deps|, s.ring.mem.dequeuePos);
    }
  }

  /** The picks of a schedule that were not idle spinning. */
  ghost function ProductivePicks(job: Job, s: State, schedule: seq<Pick>): nat
    requires Follows(job, s, schedule)
    decreases |schedule|
  {
    if schedule == [] then 0
    else
      var pre, last := schedule[..|schedule| - 1], schedule[|schedule| - 1];
      ProductivePicks(job, s, pre) + (if Spins(job, Replay(job, s, pre), last.worker, last.spurious) then 0 else 1)
  }

  /** However long it is, no schedule has more productive picks than the measure it starts with. */
  lemma {:induction false} ProductivePicksBounded(job: Job, s: State, workers: nat, schedule: seq<Pick>)
    requires Valid(job) && Init(job, s, workers) && Follows(job, s, schedule)
    ensures var e := Replay(job, s, schedule);
      |e.control| == |e.ring.pcs| && ProductivePicks(job, s, schedule) + Measure(job, e) <= Measure(job, s)
    decreases |schedule|
  {
    if schedule != [] {
      var pre, last := schedule[..|schedule| - 1], schedule[|schedule| - 1];
      ProductivePicksBounded(job, s, workers, pre);
      ReplayInv(job, s, workers, pre);
      MeasureDrops(job, Replay(job, s, pre), last.worker, last.spurious);
    }
  }
}
