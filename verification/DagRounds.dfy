/**
 Rounds.  A round is a stretch of a run in which every worker that can move at its start is picked at
 least once and no compare-exchange fails spuriously.

 The lemmas here lead up to the termination theorems: what a searching worker does while nothing
 happens around it, how long it stays patient, and that seven rounds lower the measure unless nobody
 can move; then that only workers that have left cannot move, and that rounds exist.
 */
module DagRounds {
  import opened ByteText
  import opened TaskGraph
  import opened ParallelDag
  import opened DagInvariant
  import opened DagSteps
  import opened DagMeasure
  import opened DagTheorems
  import opened DagProgress
  import Ring = TicketRing

  // ---------------------------------------------------------------------------------------------
  // Runs from any state that satisfies the invariant
  // ---------------------------------------------------------------------------------------------

  lemma SameWorkers(job: Job, s: State, w: nat, spurious: bool)
    requires CanStep(job, s, w)
    ensures |Step(job, s, w, spurious).control| == |Step(job, s, w, spurious).ring.pcs| == |s.control| == |s.ring.pcs|
    ensures !Step(job, s, w, spurious).control[w].NotStarted?
  {
    hide RingStep, DepOutputs, Consumers;
    if InRingCall(s.control[w]) {
      RingStepFrame(s, w, spurious);
      RingStepFrame(s, w, false);
    }
  }

  lemma {:induction false} RunFrom(job: Job, s: State, picks: seq<Pick>)
    requires Inv(job, s) && Follows(job, s, picks)
    ensures var e := Replay(job, s, picks);
      && Inv(job, e) && |e.control| == |e.ring.pcs| == |s.control| == |s.ring.pcs|
      && Measure(job, e) <= Measure(job, s)
    decreases |picks|
  {
    hide Step, Measure;
    if picks != [] {
      var pre, last := picks[..|picks| - 1], picks[|picks| - 1];
      RunFrom(job, s, pre);
      var e := Replay(job, s, pre);
      StepInv(job, e, last.worker, last.spurious);
      SameWorkers(job, e, last.worker, last.spurious);
      MeasureDrops(job, e, last.worker, last.spurious);
    }
  }

  lemma {:induction false} FollowsConcat(job: Job, s: State, a: seq<Pick>, b: seq<Pick>)
    requires Follows(job, s, a) && Follows(job, Replay(job, s, a), b)
    ensures Follows(job, s, a + b) && Replay(job, s, a + b) == Replay(job, Replay(job, s, a), b)
    decreases |b|
  {
    hide Step, CanStep;
    if b == [] {
      assert a + b == a;
    } else {
      var pre := b[..|b| - 1];
      FollowsConcat(job, s, a, pre);
      assert (a + b)[..|a + b| - 1] == a + pre;
    }
  }

  // ---------------------------------------------------------------------------------------------
  // Idle steps
  // ---------------------------------------------------------------------------------------------

  /** An idle step touches nothing that is shared. */
  lemma SpinFrame(job: Job, s: State, w: nat)
    requires CanStep(job, s, w) && Spins(job, s, w, false)
    ensures Searching(s, w)
    ensures var s' := Step(job, s, w, false);
      s'.completed == s.completed && s'.ring.mem == s.ring.mem && s'.ring.hist == s.ring.hist
  {
  }

  /** Either the head of the ring waits for a searching worker, or there is nothing left but to leave. */
  ghost predicate Hungry(job: Job, s: State) {
    Inv(job, s) && (HeadWaits(job, s) || AllCounted(job, s))
  }

  /** How many idle steps of its own a searching worker has left. */
  function Patience(job: Job, s: State, w: nat): (n: nat)
    requires w < |s.control| && w < |s.ring.pcs|
    ensures n <= 6
  {
    if s.completed == |job.deps| then StepsToLeave(s, w) else Distance(s, w)
  }

  lemma HungrySpin(job: Job, s: State, w: nat)
    requires Hungry(job, s) && CanStep(job, s, w) && Spins(job, s, w, false)
    ensures var s' := Step(job, s, w, false);
      && Hungry(job, s') && w < |s'.control| == |s'.ring.pcs|
      && Searching(s', w) && Patience(job, s', w) < Patience(job, s, w)
  {
    hide Inv, Step, StepsToLeave, Distance;
    SpinFrame(job, s, w);
    SameWorkers(job, s, w, false);
    StepInv(job, s, w, false);
    if s.completed == |job.deps| {
      LeavingStep(job, s, w);
    } else {
      SearchStep(job, s, w);
    }
  }

  lemma HungryBystander(job: Job, s: State, w: nat, v: nat)
    requires CanStep(job, s, w) && Spins(job, s, w, false) && v < |s.control| && v != w
    ensures var s' := Step(job, s, w, false);
      && v < |s'.control| == |s'.ring.pcs|
      && Searching(s', v) == Searching(s, v) && Patience(job, s', v) == Patience(job, s, v)
  {
    hide Step;
    SpinFrame(job, s, w);
    OnlyOneMoves(job, s, w, false, v);
  }

  predicate Steady(picks: seq<Pick>) {
    forall i :: 0 <= i < |picks| ==> !picks[i].spurious
  }

  predicate Picked(picks: seq<Pick>, w: nat) {
    exists i :: 0 <= i < |picks| && picks[i].worker == w
  }

  lemma PickedLast(pre: seq<Pick>, last: Pick, w: nat)
    ensures Picked(pre + [last], w) <==> Picked(pre, w) || last.worker == w
  {
    if Picked(pre, w) {
      var i :| 0 <= i < |pre| && pre[i].worker == w;
      assert (pre + [last])[i].worker == w;
    } else if last.worker == w {
      assert (pre + [last])[|pre|].worker == w;
    }
  }

  /** While the measure stands still, each pick of a searching worker wears its patience down. */
  lemma {:induction false} PatienceWearsDown(job: Job, s: State, picks: seq<Pick>, w: nat)
    requires Hungry(job, s) && w < |s.control| == |s.ring.pcs| && Searching(s, w)
    requires Follows(job, s, picks) && Steady(picks)
    requires |Replay(job, s, picks).control| == |Replay(job, s, picks).ring.pcs|
    requires Measure(job, Replay(job, s, picks)) == Measure(job, s)
    ensures var e := Replay(job, s, picks);
      && Hungry(job, e) && w < |e.control| && Searching(e, w)
      && Patience(job, e, w) + (if Picked(picks, w) then 1 else 0) <= Patience(job, s, w)
    decreases |picks|
  {
    if picks != [] {
      hide Step, Measure, Searching, Patience, Spins, HeadWaits, AllCounted, Inv, Picked;
      var pre, last := picks[..|picks| - 1], picks[|picks| - 1];
      assert picks == pre + [last];
      RunFrom(job, s, pre);
      var e := Replay(job, s, pre);
      MeasureDrops(job, e, last.worker, false);
      PatienceWearsDown(job, s, pre, w);
      HungrySpin(job, e, last.worker);
      if last.worker != w {
        HungryBystander(job, e, last.worker, w);
      }
      PickedLast(pre, last, w);
    }
  }

  /** While the measure stands still, a worker with something to do was not picked. */
  lemma {:induction false} BusyWasNotPicked(job: Job, s: State, picks: seq<Pick>, v: nat)
    requires Inv(job, s) && v < |s.control| == |s.ring.pcs| && !Searching(s, v)
    requires Follows(job, s, picks) && Steady(picks)
    requires |Replay(job, s, picks).control| == |Replay(job, s, picks).ring.pcs|
    requires Measure(job, Replay(job, s, picks)) == Measure(job, s)
    ensures var e := Replay(job, s, picks);
      !Picked(picks, v) && v < |e.control| && e.control[v] == s.control[v] && e.ring.pcs[v] == s.ring.pcs[v]
    decreases |picks|
  {
    if picks != [] {
      hide Step, Measure, Inv, Picked;
      var pre, last := picks[..|picks| - 1], picks[|picks| - 1];
      assert picks == pre + [last];
      RunFrom(job, s, pre);
      var e := Replay(job, s, pre);
      MeasureDrops(job, e, last.worker, false);
      BusyWasNotPicked(job, s, pre, v);
      SpinFrame(job, e, last.worker);
      OnlyOneMoves(job, e, last.worker, false, v);
      PickedLast(pre, last, v);
    }
  }

  // ---------------------------------------------------------------------------------------------
  // Rounds
  // ---------------------------------------------------------------------------------------------

  /** Every worker that can move at the start is picked at least once; no exchange fails spuriously. */
  ghost predicate Round(job: Job, s: State, picks: seq<Pick>) {
    && Follows(job, s, picks) && Steady(picks)
    && forall v: nat :: v < |s.control| && CanStep(job, s, v) ==> Picked(picks, v)
  }

  ghost predicate Rounds(job: Job, s: State, rounds: seq<seq<Pick>>)
    decreases |rounds|
  {
    rounds == [] || (Round(job, s, rounds[0]) && Rounds(job, Replay(job, s, rounds[0]), rounds[1..]))
  }

  ghost function AfterRounds(job: Job, s: State, rounds: seq<seq<Pick>>): State
    requires Rounds(job, s, rounds)
    decreases |rounds|
  {
    if rounds == [] then s else AfterRounds(job, Replay(job, s, rounds[0]), rounds[1..])
  }

  lemma {:induction false} RoundsRun(job: Job, s: State, rounds: seq<seq<Pick>>)
    requires Inv(job, s) && Rounds(job, s, rounds)
    ensures var e := AfterRounds(job, s, rounds);
      && Inv(job, e) && |e.control| == |e.ring.pcs| == |s.control| == |s.ring.pcs|
      && Measure(job, e) <= Measure(job, s)
    decreases |rounds|
  {
    hide Measure;
    if rounds != [] {
      RunFrom(job, s, rounds[0]);
      RoundsRun(job, Replay(job, s, rounds[0]), rounds[1..]);
    }
  }

  lemma FirstRound(job: Job, s: State, first: seq<Pick>, rest: seq<seq<Pick>>)
    ensures Rounds(job, s, [first] + rest) <==> Round(job, s, first) && Rounds(job, Replay(job, s, first), rest)
    ensures Rounds(job, s, [first] + rest) ==>
      AfterRounds(job, s, [first] + rest) == AfterRounds(job, Replay(job, s, first), rest)
  {
    hide Replay, Follows;
    assert ([first] + rest)[1..] == rest;
  }

  lemma {:induction false} RoundsSplit(job: Job, s: State, a: seq<seq<Pick>>, b: seq<seq<Pick>>)
    requires Rounds(job, s, a + b)
    ensures Rounds(job, s, a) && Rounds(job, AfterRounds(job, s, a), b)
    ensures AfterRounds(job, s, a + b) == AfterRounds(job, AfterRounds(job, s, a), b)
    decreases |a|
  {
    if a == [] {
      assert a + b == b;
    } else {
      hide Rounds, AfterRounds, Replay, Follows;
      var first, rest := a[0], a[1..];
      assert a == [first] + rest;
      Assoc([first], rest, b);
      FirstRound(job, s, first, rest + b);
      RoundsSplit(job, Replay(job, s, first), rest, b);
      FirstRound(job, s, first, rest);
    }
  }

  /** No worker can move any more. */
  ghost predicate Over(job: Job, s: State) {
    forall v: nat :: v < |s.control| ==> !CanStep(job, s, v)
  }

  lemma {:induction false} OverStays(job: Job, s: State, rounds: seq<seq<Pick>>)
    requires Over(job, s) && Rounds(job, s, rounds)
    ensures AfterRounds(job, s, rounds) == s
    decreases |rounds|
  {
    if rounds != [] {
      NothingToPick(job, s, rounds[0]);
      OverStays(job, s, rounds[1..]);
    }
  }

  lemma NothingToPick(job: Job, s: State, picks: seq<Pick>)
    requires Over(job, s) && Follows(job, s, picks)
    ensures picks == []
    decreases |picks|
  {
    if picks != [] {
      NothingToPick(job, s, picks[..|picks| - 1]);
    }
  }

  /** More rounds than a searching worker has patience lower the measure. */
  lemma {:induction false} RoundsWearDown(job: Job, s: State, rounds: seq<seq<Pick>>, w: nat)
    requires Hungry(job, s) && w < |s.control| == |s.ring.pcs| && Searching(s, w)
    requires Rounds(job, s, rounds) && |rounds| > Patience(job, s, w)
    ensures var e := AfterRounds(job, s, rounds);
      |e.control| == |e.ring.pcs| && Measure(job, e) < Measure(job, s)
    decreases |rounds|
  {
    hide Measure, Inv, Step, CanStep, HeadWaits, AllCounted, Distance, StepsToLeave, Picked;
    RoundsRun(job, s, rounds);
    var e := Replay(job, s, rounds[0]);
    RunFrom(job, s, rounds[0]);
    RoundsRun(job, e, rounds[1..]);
    if Measure(job, e) == Measure(job, s) {
      ReachableWorkersCanStep(job, s, w);
      PatienceWearsDown(job, s, rounds[0], w);
      RoundsWearDown(job, e, rounds[1..], w);
    }
  }

  /** Seven rounds lower the measure unless nobody can move. */
  lemma SevenRoundsDrop(job: Job, s: State, rounds: seq<seq<Pick>>)
    requires Inv(job, s) && !Over(job, s) && |s.control| == |s.ring.pcs|
    requires Rounds(job, s, rounds) && |rounds| == 7
    ensures var e := AfterRounds(job, s, rounds);
      |e.control| == |e.ring.pcs| && Measure(job, e) < Measure(job, s)
  {
    hide Measure, CanStep, Searching, Picked, Patience;
    RoundsRun(job, s, rounds);
    var e := Replay(job, s, rounds[0]);
    RunFrom(job, s, rounds[0]);
    RoundsRun(job, e, rounds[1..]);
    if v: nat :| v < |s.control| && CanStep(job, s, v) && !Searching(s, v) {
      if Measure(job, e) == Measure(job, s) {
        BusyWasNotPicked(job, s, rounds[0], v);
      }
    } else {
      var w: nat :| w < |s.control| && CanStep(job, s, w);
      if s.completed < |job.deps| {
        SearchersFindHead(job, s);
      }
      RoundsWearDown(job, s, rounds, w);
    }
  }

  // ---------------------------------------------------------------------------------------------
  // Everybody has left
  // ---------------------------------------------------------------------------------------------

  /** Workers that are not started yet are still to be started by worker 0. */
  ghost predicate SpawnOk(s: State) {
    forall v: nat :: v < |s.control| && s.control[v].NotStarted? ==> StillSpawning(s.control[0], v)
  }

  /** Until it has started everybody, worker 0 seeds and spawns. */
  predicate StillSpawning(c: Control, v: nat) {
    c.Seed? || c.SeedCas? || c.SeedEnqueue? || (c.Spawn? && c.next <= v)
  }

  lemma SpawnerStep(job: Job, s: State, spurious: bool, v: nat)
    requires Inv(job, s) && CanStep(job, s, 0) && SpawnOk(s) && 1 <= v < |s.control|
    ensures var s' := Step(job, s, 0, spurious);
      |s'.control| == |s.control| && (!s'.control[v].NotStarted? || StillSpawning(s'.control[0], v))
  {
    hide Ring.Inv, RingStep, NodeOk, SeenOk, TokenOk, DepOutputs, Consumers;
    assert WorkerOk(job, s, 0);
    if InRingCall(s.control[0]) {
      RingStepFrame(s, 0, spurious);
      RingStepFrame(s, 0, false);
    }
  }

  lemma SpawnOkStep(job: Job, s: State, w: nat, spurious: bool)
    requires Inv(job, s) && CanStep(job, s, w) && SpawnOk(s)
    ensures SpawnOk(Step(job, s, w, spurious))
  {
    hide Step, Ring.Inv, NodeOk, SeenOk, TokenOk;
    var s' := Step(job, s, w, spurious);
    SameWorkers(job, s, w, spurious);
    assert WorkerOk(job, s, w) && WorkerOk(job, s, 0);
    forall v: nat | v < |s'.control| && s'.control[v].NotStarted? ensures StillSpawning(s'.control[0], v) {
      if w == 0 {
        SpawnerStep(job, s, spurious, v);
      } else {
        OnlyOneMoves(job, s, w, spurious, v);
        OnlyOneMoves(job, s, w, spurious, 0);
      }
    }
  }

  lemma {:induction false} ReplaySpawnOk(job: Job, s: State, workers: nat, schedule: seq<Pick>)
    requires Valid(job) && Init(job, s, workers) && Follows(job, s, schedule)
    ensures SpawnOk(Replay(job, s, schedule))
    decreases |schedule|
  {
    if schedule != [] {
      hide Init, Step, SpawnOk, Inv;
      var pre, last := schedule[..|schedule| - 1], schedule[|schedule| - 1];
      ReplaySpawnOk(job, s, workers, pre);
      ReplayInv(job, s, workers, pre);
      SpawnOkStep(job, Replay(job, s, pre), last.worker, last.spurious);
    }
  }

  /** All workers have left, and every node ran once and holds the value the graph defines. */
  ghost predicate AllLeft(job: Job, s: State)
    requires Valid(job)
  {
    && |s.nodes| == |job.deps|
    && (forall v :: 0 <= v < |s.control| ==> s.control[v].Exited?)
    && (forall j: nat :: j < |s.nodes| ==>
          s.nodes[j].state.Done? && s.nodes[j].runs == 1 && s.nodes[j].output == Value(job, j))
  }

  lemma OverMeansAllLeft(job: Job, s: State)
    requires Inv(job, s) && SpawnOk(s) && Over(job, s)
    ensures AllLeft(job, s)
  {
    hide CanStep;
    ReachableWorkersCanStep(job, s, 0);
    assert WorkerOk(job, s, 0);
    forall v: nat | v < |s.control| ensures s.control[v].Exited? {
      ReachableWorkersCanStep(job, s, v);
    }
    ExitMeansFinished(job, s, 0);
  }

  ghost function Flatten(rounds: seq<seq<Pick>>): seq<Pick> {
    if rounds == [] then [] else rounds[0] + Flatten(rounds[1..])
  }

  /** Rounds are one schedule. */
  lemma {:induction false} RoundsAreASchedule(job: Job, s: State, rounds: seq<seq<Pick>>)
    requires Rounds(job, s, rounds)
    ensures Follows(job, s, Flatten(rounds)) && Replay(job, s, Flatten(rounds)) == AfterRounds(job, s, rounds)
    decreases |rounds|
  {
    if rounds != [] {
      RoundsAreASchedule(job, Replay(job, s, rounds[0]), rounds[1..]);
      FollowsConcat(job, s, rounds[0], Flatten(rounds[1..]));
    }
  }

  // ---------------------------------------------------------------------------------------------
  // The bound from a fresh start
  // ---------------------------------------------------------------------------------------------

  lemma {:induction false} OnlyFirstHasWork(total: nat, control: seq<Control>, pcs: seq<Ring.Pc>, n: nat)
    requires 1 <= n <= |control| == |pcs| && control[0] == Seed(0)
    requires forall v :: 1 <= v < |control| ==> control[v] == NotStarted
    ensures WeightSum(total, control, pcs, n) == 20 * total + 3 * |control| + 10
    decreases n
  {
    if n > 1 {
      OnlyFirstHasWork(total, control, pcs, n - 1);
    }
  }

  lemma MeasureAtStart(job: Job, s: State, workers: nat)
    requires Valid(job) && Init(job, s, workers)
    ensures |s.control| == |s.ring.pcs| == workers >= 1
    ensures var n := |job.deps|; Measure(job, s) == 20 * n * n + 31 * n + 3 * workers + 10
  {
    var n := |job.deps|;
    OnlyFirstHasWork(n, s.control, s.ring.pcs, workers);
    assert n * (20 * n + 11) == 20 * n * n + 11 * n;
  }

  // ---------------------------------------------------------------------------------------------
  // Every run can be finished
  // ---------------------------------------------------------------------------------------------

  predicate Active(c: Control) {
    !c.NotStarted? && !c.Exited?
  }

  /** Nobody but worker v itself makes it inactive. */
  lemma StaysActive(job: Job, s: State, w: nat, v: nat)
    requires CanStep(job, s, w) && v < |s.control| && Active(s.control[v]) && v != w
    ensures v < |Step(job, s, w, false).control| && Active(Step(job, s, w, false).control[v])
  {
    if !(s.control[w].Spawn? && s.control[w].next < |s.control|) {
      OnlyOneMoves(job, s, w, false, v);
    }
  }

  lemma {:induction false} ActiveUntilPicked(job: Job, s: State, picks: seq<Pick>, v: nat)
    requires Follows(job, s, picks) && Steady(picks) && v < |s.control| && Active(s.control[v]) && !Picked(picks, v)
    ensures v < |Replay(job, s, picks).control| && Active(Replay(job, s, picks).control[v])
    decreases |picks|
  {
    hide Step, CanStep, Picked;
    if picks != [] {
      var pre, last := picks[..|picks| - 1], picks[|picks| - 1];
      assert picks == pre + [last];
      PickedLast(pre, last, v);
      ActiveUntilPicked(job, s, pre, v);
      StaysActive(job, Replay(job, s, pre), last.worker, v);
    }
  }

  /** Picks the workers below n in turn. */
  lemma {:induction false} RoundBelow(job: Job, s: State, n: nat) returns (picks: seq<Pick>)
    requires Inv(job, s) && n <= |s.control|
    ensures Follows(job, s, picks) && Steady(picks)
    ensures forall v: nat :: v < n && CanStep(job, s, v) ==> Picked(picks, v)
    decreases n
  {
    hide Inv, Step, CanStep, Picked;
    if n == 0 {
      picks := [];
    } else {
      var pre := RoundBelow(job, s, n - 1);
      var last := Pick(n - 1, false);
      if CanStep(job, Replay(job, s, pre), n - 1) {
        picks := pre + [last];
        assert picks[..|picks| - 1] == pre;
        forall v: nat | v < n && CanStep(job, s, v) ensures Picked(picks, v) {
          PickedLast(pre, last, v);
        }
      } else {
        picks := pre;
        RunFrom(job, s, pre);
        ReachableWorkersCanStep(job, s, n - 1);
        ReachableWorkersCanStep(job, Replay(job, s, pre), n - 1);
        if Active(s.control[n - 1]) && !Picked(pre, n - 1) {
          ActiveUntilPicked(job, s, pre, n - 1);
        }
      }
    }
  }

  lemma {:induction false} RoundsExist(job: Job, s: State, n: nat) returns (rounds: seq<seq<Pick>>)
    requires Inv(job, s)
    ensures Rounds(job, s, rounds) && |rounds| == n
    decreases n
  {
    hide Inv, Step, CanStep, Picked;
    if n == 0 {
      rounds := [];
    } else {
      var picks := RoundBelow(job, s, |s.control|);
      RunFrom(job, s, picks);
      var rest := RoundsExist(job, Replay(job, s, picks), n - 1);
      rounds := [picks] + rest;
      assert rounds[1..] == rest;
    }
  }
}
