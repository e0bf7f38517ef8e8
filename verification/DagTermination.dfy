/** No deadlock, and termination of every fair run. */
module DagTermination {
  import opened TaskGraph
  import opened ParallelDag
  import opened DagInvariant
  import opened DagSteps
  import opened DagMeasure
  import opened DagTheorems
  import opened DagProgress
  import opened DagRounds
  import Ring = TicketRing

  // ---------------------------------------------------------------------------------------------
  // Progress of one worker
  // ---------------------------------------------------------------------------------------------

  /** While the run is unfinished, some worker, running alone, makes progress within 7 steps. */
  lemma NoDeadlock(job: Job, s: State) returns (w: nat)
    requires Inv(job, s) && s.completed < |job.deps|
    ensures w < |s.control| && ProgressAlone(job, s, w, 7)
  {
    if v: nat :| v < |s.control| && CanStep(job, s, v) && !Searching(s, v) {
      w := v;
      MeasureDrops(job, s, v, false);
    } else {
      SearchersFindHead(job, s);
      w := 0;
      ReachableWorkersCanStep(job, s, 0);
      assert WorkerOk(job, s, 0);
      CountAll(s.place);
      WinAlone(job, s, 0);
      MoreSteps(job, s, 0, 1 + Distance(s, 0), 7);
    }
  }

  /** Once every node is counted, a worker looking for work leaves within five steps of its own. */
  lemma {:induction false} SearcherLeaves(job: Job, s: State, w: nat)
    requires AllCounted(job, s) && w < |s.control| && Searching(s, w)
    ensures LeavesAlone(job, s, w, StepsToLeave(s, w)) && StepsToLeave(s, w) <= 5
    decreases StepsToLeave(s, w)
  {
    hide Step, Ring.Inv;
    LeavingStep(job, s, w);
    var s' := Step(job, s, w, false);
    if s'.control[w].Exited? {
      assert LeavesAlone(job, s', w, StepsToLeave(s, w) - 1);
    } else {
      SearcherLeaves(job, s', w);
      LeavesWithMore(job, s', w, StepsToLeave(s', w), StepsToLeave(s, w) - 1);
    }
  }

  // ---------------------------------------------------------------------------------------------
  // Fair runs
  // ---------------------------------------------------------------------------------------------

  /** From any reachable state, seven rounds for each unit of the measure, and seven more, end the run. */
  lemma {:induction false} RoundsEndRun(job: Job, s: State, rounds: seq<seq<Pick>>)
    requires Inv(job, s) && |s.control| == |s.ring.pcs|
    requires Rounds(job, s, rounds) && |rounds| >= 7 * (Measure(job, s) + 1)
    ensures Over(job, AfterRounds(job, s, rounds))
    decreases |rounds|
  {
    hide Measure, Inv, Over;
    if Over(job, s) {
      OverStays(job, s, rounds);
    } else {
      var seven, rest := rounds[..7], rounds[7..];
      assert rounds == seven + rest;
      RoundsSplit(job, s, seven, rest);
      SevenRoundsDrop(job, s, seven);
      RoundsRun(job, s, seven);
      RoundsEndRun(job, AfterRounds(job, s, seven), rest);
    }
  }

  /** Rounds enough for any run of `workers` workers on `nodes` nodes. */
  function RoundBound(nodes: nat, workers: nat): nat {
    7 * (20 * nodes * nodes + 31 * nodes + 3 * workers + 11)
  }

  /** Every fair run finishes within the bound, with all workers gone and all outputs in place. */
  lemma FairRunsFinish(job: Job, s: State, workers: nat, rounds: seq<seq<Pick>>)
    requires Valid(job) && Init(job, s, workers)
    requires Rounds(job, s, rounds) && |rounds| >= RoundBound(|job.deps|, workers)
    ensures AllLeft(job, AfterRounds(job, s, rounds))
  {
    hide Inv, Measure, Over, SpawnOk, Init;
    InitInv(job, s, workers);
    MeasureAtStart(job, s, workers);
    RoundsEndRun(job, s, rounds);
    RoundsRun(job, s, rounds);
    RoundsAreASchedule(job, s, rounds);
    ReplaySpawnOk(job, s, workers, Flatten(rounds));
    OverMeansAllLeft(job, AfterRounds(job, s, rounds));
  }

  /** Every run can be continued until all workers have left: finished runs exist from every reachable state. */
  lemma EveryRunCanFinish(job: Job, s: State, workers: nat, schedule: seq<Pick>) returns (more: seq<Pick>)
    requires Valid(job) && Init(job, s, workers) && Follows(job, s, schedule)
    ensures Follows(job, s, schedule + more) && AllLeft(job, Replay(job, s, schedule + more))
    ensures FinishedRun(job, s, workers, schedule + more, 0)
  {
    hide Inv, Measure, Over, SpawnOk, Init, CanStep, Step;
    ReplayInv(job, s, workers, schedule);
    var e := Replay(job, s, schedule);
    InitInv(job, s, workers);
    RunFrom(job, s, schedule);
    var rounds := RoundsExist(job, e, 7 * (Measure(job, e) + 1));
    RoundsEndRun(job, e, rounds);
    RoundsRun(job, e, rounds);
    RoundsAreASchedule(job, e, rounds);
    more := Flatten(rounds);
    FollowsConcat(job, s, schedule, more);
    ReplaySpawnOk(job, s, workers, schedule + more);
    OverMeansAllLeft(job, Replay(job, s, schedule + more));
    MeasureAtStart(job, s, workers);
  }
}
