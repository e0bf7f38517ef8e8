/** The executor's invariant holds in every reachable state, and what it says about single steps. */
module DagInvariant {
  import opened TaskGraph
  import opened ParallelDag
  import opened DagSteps
  import Ring = TicketRing

  // ---------------------------------------------------------------------------------------------
  // Every reachable state
  // ---------------------------------------------------------------------------------------------

  /** Every reachable state of every interleaving satisfies the invariant. */
  lemma {:induction false} ReplayInv(job: Job, s: State, workers: nat, schedule: seq<Pick>)
    requires Valid(job) && Init(job, s, workers) && Follows(job, s, schedule)
    ensures Inv(job, Replay(job, s, schedule))
    decreases |schedule|
  {
    if schedule == [] {
      InitInv(job, s, workers);
    } else {
      var pre, last := schedule[..|schedule| - 1], schedule[|schedule| - 1];
      ReplayInv(job, s, workers, pre);
      StepInv(job, Replay(job, s, pre), last.worker, last.spurious);
    }
  }

  lemma StepInv(job: Job, s: State, w: nat, spurious: bool)
    requires Inv(job, s) && CanStep(job, s, w)
    ensures Inv(job, Step(job, s, w, spurious))
  {
    assert WorkerOk(job, s, w);
    match s.control[w]
    case Seed(_) => SeedInv(job, s, w);
    case SeedCas(_) => SeedCasInv(job, s, w);
    case Spawn(_) => SpawnInv(job, s, w);
    case Check => CheckInv(job, s, w);
    case Claim(_) => ClaimInv(job, s, w);
    case Invoke(_) => InvokeInv(job, s, w);
    case InTask(_) => TaskInv(job, s, w);
    case Finish(_) => FinishInv(job, s, w);
    case Notify(_, bits) =>
      if bits == {} {
        NotifyEndInv(job, s, w);
      } else if job.deps[Lowest(bits)] <= SeenAfter(s, w) {
        NotifyLastInv(job, s, w);
      } else {
        NotifyPartialInv(job, s, w);
      }
    case NotifyCas(_, _, _) => NotifyCasInv(job, s, w);
    case Complete(_) => CompleteInv(job, s, w);
    case SeedEnqueue(_) => RingCallInv(job, s, w, spurious);
    case NotifyEnqueue(_, _, _) => RingCallInv(job, s, w, spurious);
    case Polling => RingCallInv(job, s, w, spurious);
    case _ => assert false;
  }

  // ---------------------------------------------------------------------------------------------
  // What the invariant says about single steps
  // ---------------------------------------------------------------------------------------------

  /** A set `deps_seen` bit means that the dependency is done, has run once and holds its final output. */
  lemma SeenMeansDone(job: Job, s: State, j: nat)
    requires Inv(job, s) && j < |s.nodes|
    ensures forall d :: d in s.nodes[j].seen ==>
      && d in job.deps[j] && d < |s.nodes|
      && s.nodes[d].state.Done? && s.nodes[d].runs == 1 && s.nodes[d].output == Value(job, d)
  {
    assert SeenOk(job, s, j);
    forall d | d in s.nodes[j].seen
      ensures d < |s.nodes| && s.nodes[d].state.Done? && s.nodes[d].runs == 1 && s.nodes[d].output == Value(job, d)
    {
      assert Told(s, d, j) && NodeOk(job, s, d);
    }
  }

  /**
   However many dependencies finish at once, one `fetch_or` completes the mask: before it no worker is
   scheduling the dependent, and after it no other worker has still to tell it.
   */
  lemma MaskCompletesOnce(job: Job, s: State, w: nat)
    requires Inv(job, s) && CanStep(job, s, w) && s.control[w].Notify? && s.control[w].bits != {}
      && job.deps[Lowest(s.control[w].bits)] <= SeenAfter(s, w)
    ensures var i := Lowest(s.control[w].bits);
      && s.nodes[i].state.Pending? && s.nodes[i].runs == 0
      && forall v: nat :: v < |s.control| && v != w ==>
           i !in Untold(s.control[v]) && !Schedules(s.control[v], i)
  {
    hide Ring.Inv;
    assert WorkerOk(job, s, w);
    var j, i := s.control[w].node, Lowest(s.control[w].bits);
    assert NodeOk(job, s, i) && SeenOk(job, s, i) && !Told(s, j, i);
    forall v: nat | v < |s.control| && v != w ensures i !in Untold(s.control[v]) && !Schedules(s.control[v], i) {
      assert WorkerOk(job, s, v);
      var c := s.control[v];
      if (c.Notify? || c.NotifyCas? || c.NotifyEnqueue?) && c.node in job.deps[i] {
        assert c.node != j && Told(s, c.node, i);
      }
    }
  }

  /** The worker is between completing the mask of i and taking its ticket. */
  predicate Schedules(c: Control, i: nat) {
    c.NotifyCas? && c.target == i
  }

  /** At most one worker at a time tries to make a node runnable, and the node is pending, so it succeeds. */
  lemma OneWorkerSchedules(job: Job, s: State, w: nat, v: nat, i: nat)
    requires Inv(job, s) && w < |s.control| && v < |s.control|
    requires Schedules(s.control[w], i) && Schedules(s.control[v], i)
    ensures w == v && i < |s.nodes| && s.nodes[i].state.Pending?
  {
    assert WorkerOk(job, s, w) && WorkerOk(job, s, v) && NodeOk(job, s, i);
  }

  /** The first compare-exchange of `process_node` never fails here. */
  lemma ClaimInv(job: Job, s: State, w: nat)
    requires Inv(job, s) && CanStep(job, s, w) && s.control[w].Claim?
    ensures Inv(job, Step(job, s, w, false))
    ensures s.nodes[s.control[w].node].state.Runnable?
    ensures Step(job, s, w, false).control[w] == Invoke(s.control[w].node)
  {
    hide Ring.Inv, Value, FinishedCount;
    var s' := Step(job, s, w, false);
    assert WorkerOk(job, s, w);
    assert NodeOk(job, s, s.control[w].node);
    forall n: nat | n < |s'.nodes| ensures SeenOk(job, s', n) && NodeOk(job, s', n) {
      assert SeenOk(job, s, n) && NodeOk(job, s, n);
    }
    forall v: nat | v < |s'.control| ensures WorkerOk(job, s', v) { assert WorkerOk(job, s, v); }
    forall t: nat | t < s'.ring.mem.enqueuePos ensures TokenOk(job, s', t) { assert TokenOk(job, s, t); }
  }

  /** The task returns: its output is the value the graph defines. */
  lemma TaskInv(job: Job, s: State, w: nat)
    requires Inv(job, s) && CanStep(job, s, w) && s.control[w].InTask?
    ensures Inv(job, Step(job, s, w, false))
    ensures Step(job, s, w, false).nodes[s.control[w].node].output == Value(job, s.control[w].node)
  {
    hide Ring.Inv, Value, FinishedCount;
    var s' := Step(job, s, w, false);
    assert WorkerOk(job, s, w);
    var j := s.control[w].node;
    assert NodeOk(job, s, j);
    TaskComputesValue(job, s, j);
    forall n: nat | n < |s'.nodes| ensures SeenOk(job, s', n) && NodeOk(job, s', n) {
      assert SeenOk(job, s, n) && NodeOk(job, s, n);
    }
    forall v: nat | v < |s'.control| ensures WorkerOk(job, s', v) { assert WorkerOk(job, s, v); }
    forall t: nat | t < s'.ring.mem.enqueuePos ensures TokenOk(job, s', t) { assert TokenOk(job, s, t); }
  }

  lemma TaskComputesValue(job: Job, s: State, j: nat)
    requires Inv(job, s) && j < |s.nodes| && job.deps[j] <= s.nodes[j].seen
    ensures job.task(j, DepOutputs(job, s.nodes, j)) == Value(job, j)
  {
    SeenMeansDone(job, s, j);
    assert DepOutputs(job, s.nodes, j) == map d | d in job.deps[j] :: Value(job, d);
  }
}
