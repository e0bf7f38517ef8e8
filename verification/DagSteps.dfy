/**
 The executor's invariant survives every step, one lemma for each kind of step.

 The invariant (`ParallelDag.Inv`) has one part for each index of a node, a worker and a ticket:
 `SeenOk`   the mask of a node holds exactly the dependencies that are done and have told it;
 `NodeOk`   a node is waiting, carried by one worker or by one ticket, or finished, and its state, its
            invocation count and its output are what that place says;
 `WorkerOk` a worker stands where its node and its ring call say;
 `TokenOk`  a ticket carries a node, alone until it is delivered.
 `completed` counts the nodes that have told all their dependents.
 */
module DagSteps {
  import opened TaskGraph
  import opened ParallelDag
  import Ring = TicketRing

  /** The mask a `fetch_or` of `notify_dependents` leaves behind. */
  ghost function SeenAfter(s: State, w: nat): set<nat>
    requires w < |s.control| && s.control[w].Notify? && s.control[w].bits != {}
    requires Lowest(s.control[w].bits) < |s.nodes|
  {
    s.nodes[Lowest(s.control[w].bits)].seen + {s.control[w].node}
  }

  /** A worker tells the dependents of one node at a time. */
  lemma TellsOneNode(job: Job, s: State, w: nat)
    requires Inv(job, s) && w < |s.control|
    ensures forall d: nat :: d < |s.nodes| && s.place[d] == Notifying(w) ==> Tells(s.control[w], d)
  {
    forall d: nat | d < |s.nodes| && s.place[d] == Notifying(w) ensures Tells(s.control[w], d) {
      assert NodeOk(job, s, d);
    }
  }

  // ---------------------------------------------------------------------------------------------
  // Counting finished nodes
  // ---------------------------------------------------------------------------------------------

  lemma {:induction false} CountUnchanged(p: seq<Place>, j: nat, q: Place)
    requires j < |p| && p[j].Finished? == q.Finished?
    ensures FinishedCount(p[j := q]) == FinishedCount(p)
  {
    if j < |p| - 1 {
      CountUnchanged(p[..|p| - 1], j, q);
      assert p[j := q][..|p| - 1] == p[..|p| - 1][j := q];
    } else {
      assert p[j := q][..|p| - 1] == p[..|p| - 1];
    }
  }

  lemma {:induction false} CountFinished(p: seq<Place>, j: nat)
    requires j < |p| && !p[j].Finished?
    ensures FinishedCount(p[j := Finished]) == FinishedCount(p) + 1
  {
    if j < |p| - 1 {
      CountFinished(p[..|p| - 1], j);
      assert p[j := Finished][..|p| - 1] == p[..|p| - 1][j := Finished];
    } else {
      assert p[j := Finished][..|p| - 1] == p[..|p| - 1];
    }
  }

  lemma {:induction false} CountAll(p: seq<Place>)
    ensures FinishedCount(p) == |p| <==> forall j :: 0 <= j < |p| ==> p[j].Finished?
  {
    if p != [] {
      CountAll(p[..|p| - 1]);
      assert forall j :: 0 <= j < |p| - 1 ==> p[..|p| - 1][j] == p[j];
      assert p[|p| - 1] in p;
    }
  }

  lemma {:induction false} CountNone(p: seq<Place>)
    requires forall j :: 0 <= j < |p| ==> !p[j].Finished?
    ensures FinishedCount(p) == 0
  {
    if p != [] {
      CountNone(p[..|p| - 1]);
    }
  }

  // ---------------------------------------------------------------------------------------------
  // The other steps
  // ---------------------------------------------------------------------------------------------

  lemma InitInv(job: Job, s: State, workers: nat)
    requires Valid(job) && Init(job, s, workers)
    ensures Inv(job, s)
  {
    Ring.InitInv(s.ring);
    CountNone(s.place);
  }

  /** `run_parallel` looks at the next node, or has seeded them all. */
  lemma SeedInv(job: Job, s: State, w: nat)
    requires Inv(job, s) && CanStep(job, s, w) && s.control[w].Seed?
    ensures Inv(job, Step(job, s, w, false))
  {
    hide Ring.Inv, Value, FinishedCount;
    var s' := Step(job, s, w, false);
    assert WorkerOk(job, s, w);
    if s.control[w].next < |job.deps| {
      assert NodeOk(job, s, s.control[w].next);
    }
    forall n: nat | n < |s'.nodes| ensures SeenOk(job, s', n) && NodeOk(job, s', n) {
      assert SeenOk(job, s, n) && NodeOk(job, s, n);
    }
    forall v: nat | v < |s'.control| ensures WorkerOk(job, s', v) { assert WorkerOk(job, s, v); }
    forall t: nat | t < s'.ring.mem.enqueuePos ensures TokenOk(job, s', t) { assert TokenOk(job, s, t); }
  }

  /** Seeding makes a node without dependencies runnable. */
  lemma SeedCasInv(job: Job, s: State, w: nat)
    requires Inv(job, s) && CanStep(job, s, w) && s.control[w].SeedCas?
    ensures Inv(job, Step(job, s, w, false))
  {
    hide Ring.Inv, Value, FinishedCount;
    var s' := Step(job, s, w, false);
    assert WorkerOk(job, s, w);
    var i := s.control[w].node;
    assert NodeOk(job, s, i);
    Ring.CallInv(s.ring, w, Ring.EnqTicket(i));
    CountUnchanged(s.place, i, Enqueuing(w));
    forall n: nat | n < |s'.nodes| ensures SeenOk(job, s', n) && NodeOk(job, s', n) {
      assert SeenOk(job, s, n) && NodeOk(job, s, n);
    }
    forall v: nat | v < |s'.control| ensures WorkerOk(job, s', v) { assert WorkerOk(job, s, v); }
    forall t: nat | t < s'.ring.mem.enqueuePos ensures TokenOk(job, s', t) { assert TokenOk(job, s, t); }
  }

  /** The caller starts one more worker, or becomes a worker itself. */
  lemma SpawnInv(job: Job, s: State, w: nat)
    requires Inv(job, s) && CanStep(job, s, w) && s.control[w].Spawn?
    ensures Inv(job, Step(job, s, w, false))
  {
    hide Ring.Inv, Value, FinishedCount;
    var s' := Step(job, s, w, false);
    assert WorkerOk(job, s, w);
    var k := if s.control[w].next < |s.control| then s.control[w].next else w;
    Ring.CallInv(s.ring, k, Ring.DeqLoad);
    forall n: nat | n < |s'.nodes| ensures SeenOk(job, s', n) && NodeOk(job, s', n) {
      assert SeenOk(job, s, n) && NodeOk(job, s, n);
    }
    forall v: nat | v < |s'.control| ensures WorkerOk(job, s', v) { assert WorkerOk(job, s, v); }
    forall t: nat | t < s'.ring.mem.enqueuePos ensures TokenOk(job, s', t) { assert TokenOk(job, s, t); }
  }

  /** The exit test reads `completed_`. */
  lemma CheckInv(job: Job, s: State, w: nat)
    requires Inv(job, s) && CanStep(job, s, w) && s.control[w].Check?
    ensures Inv(job, Step(job, s, w, false))
  {
    hide Ring.Inv, Value, FinishedCount;
    var s' := Step(job, s, w, false);
    assert WorkerOk(job, s, w);
    Ring.CallInv(s.ring, w, Ring.DeqLoad);
    CountAll(s.place);
    forall n: nat | n < |s'.nodes| ensures SeenOk(job, s', n) && NodeOk(job, s', n) {
      assert SeenOk(job, s, n) && NodeOk(job, s, n);
    }
    forall v: nat | v < |s'.control| ensures WorkerOk(job, s', v) { assert WorkerOk(job, s, v); }
    forall t: nat | t < s'.ring.mem.enqueuePos ensures TokenOk(job, s', t) { assert TokenOk(job, s, t); }
  }

  /** The task function is called, for the first and only time. */
  lemma InvokeInv(job: Job, s: State, w: nat)
    requires Inv(job, s) && CanStep(job, s, w) && s.control[w].Invoke?
    ensures Inv(job, Step(job, s, w, false))
  {
    hide Ring.Inv, Value, FinishedCount;
    var s' := Step(job, s, w, false);
    assert WorkerOk(job, s, w);
    assert NodeOk(job, s, s.control[w].node);
    forall n: nat | n < |s'.nodes| ensures SeenOk(job, s', n) && NodeOk(job, s', n) {
      assert SeenOk(job, s, n) && NodeOk(job, s, n);
    }
    forall v: nat | v < |s'.control| ensures WorkerOk(job, s', v) { assert WorkerOk(job, s, v); }
    forall t: nat | t < s'.ring.mem.enqueuePos ensures TokenOk(job, s', t) { assert TokenOk(job, s, t); }
  }

  /** The node becomes done; all its dependents are still untold. */
  lemma FinishInv(job: Job, s: State, w: nat)
    requires Inv(job, s) && CanStep(job, s, w) && s.control[w].Finish?
    ensures Inv(job, Step(job, s, w, false))
  {
    hide Ring.Inv, Value, FinishedCount;
    var s' := Step(job, s, w, false);
    assert WorkerOk(job, s, w);
    var j := s.control[w].node;
    assert NodeOk(job, s, j);
    TellsOneNode(job, s, w);
    CountUnchanged(s.place, j, Notifying(w));
    forall n: nat | n < |s'.nodes| ensures SeenOk(job, s', n) && NodeOk(job, s', n) {
      assert SeenOk(job, s, n) && NodeOk(job, s, n);
      assert j in job.deps[n] ==> n in Consumers(job, j);
    }
    forall v: nat | v < |s'.control| ensures WorkerOk(job, s', v) { assert WorkerOk(job, s, v); }
    forall t: nat | t < s'.ring.mem.enqueuePos ensures TokenOk(job, s', t) { assert TokenOk(job, s, t); }
  }

  /** `completed_` counts the node once all its dependents are told. */
  lemma CompleteInv(job: Job, s: State, w: nat)
    requires Inv(job, s) && CanStep(job, s, w) && s.control[w].Complete?
    ensures Inv(job, Step(job, s, w, false))
  {
    hide Ring.Inv, Value, FinishedCount;
    var s' := Step(job, s, w, false);
    assert WorkerOk(job, s, w);
    var j := s.control[w].node;
    assert NodeOk(job, s, j);
    CountFinished(s.place, j);
    Ring.CallInv(s.ring, w, Ring.DeqLoad);
    forall n: nat | n < |s'.nodes| ensures SeenOk(job, s', n) && NodeOk(job, s', n) {
      assert SeenOk(job, s, n) && NodeOk(job, s, n);
    }
    forall v: nat | v < |s'.control| ensures WorkerOk(job, s', v) { assert WorkerOk(job, s, v); }
    forall t: nat | t < s'.ring.mem.enqueuePos ensures TokenOk(job, s', t) { assert TokenOk(job, s, t); }
  }

  /** The worker that completed the mask makes the dependent runnable. */
  lemma NotifyCasInv(job: Job, s: State, w: nat)
    requires Inv(job, s) && CanStep(job, s, w) && s.control[w].NotifyCas?
    ensures Inv(job, Step(job, s, w, false))
  {
    hide Ring.Inv, Value, FinishedCount;
    var s' := Step(job, s, w, false);
    assert WorkerOk(job, s, w);
    var i := s.control[w].target;
    assert NodeOk(job, s, i);
    Ring.CallInv(s.ring, w, Ring.EnqTicket(i));
    CountUnchanged(s.place, i, Enqueuing(w));
    forall n: nat | n < |s'.nodes| ensures SeenOk(job, s', n) && NodeOk(job, s', n) {
      assert SeenOk(job, s, n) && NodeOk(job, s, n);
    }
    forall v: nat | v < |s'.control| ensures WorkerOk(job, s', v) { assert WorkerOk(job, s, v); }
    forall t: nat | t < s'.ring.mem.enqueuePos ensures TokenOk(job, s', t) { assert TokenOk(job, s, t); }
  }

  /** Every dependent has been told. */
  lemma NotifyEndInv(job: Job, s: State, w: nat)
    requires Inv(job, s) && CanStep(job, s, w) && s.control[w].Notify? && s.control[w].bits == {}
    ensures Inv(job, Step(job, s, w, false))
  {
    hide Ring.Inv, Value, FinishedCount;
    var s' := Step(job, s, w, false);
    assert WorkerOk(job, s, w);
    forall n: nat | n < |s'.nodes| ensures SeenOk(job, s', n) && NodeOk(job, s', n) {
      assert SeenOk(job, s, n) && NodeOk(job, s, n);
    }
    forall v: nat | v < |s'.control| ensures WorkerOk(job, s', v) { assert WorkerOk(job, s, v); }
    forall t: nat | t < s'.ring.mem.enqueuePos ensures TokenOk(job, s', t) { assert TokenOk(job, s, t); }
  }

  /** `fetch_or` tells one dependent, which still misses another dependency. */
  lemma NotifyPartialInv(job: Job, s: State, w: nat)
    requires Inv(job, s) && CanStep(job, s, w) && s.control[w].Notify? && s.control[w].bits != {}
      && !(job.deps[Lowest(s.control[w].bits)] <= SeenAfter(s, w))
    ensures Inv(job, Step(job, s, w, false))
  {
    hide Ring.Inv, Value, FinishedCount;
    var s' := Step(job, s, w, false);
    assert WorkerOk(job, s, w);
    var j, i := s.control[w].node, Lowest(s.control[w].bits);
    assert NodeOk(job, s, i) && SeenOk(job, s, i) && !Told(s, j, i);
    TellsOneNode(job, s, w);
    forall n: nat | n < |s'.nodes| ensures SeenOk(job, s', n) && NodeOk(job, s', n) {
      assert SeenOk(job, s, n) && NodeOk(job, s, n);
    }
    forall v: nat | v < |s'.control| ensures WorkerOk(job, s', v) { assert WorkerOk(job, s, v); }
    forall t: nat | t < s'.ring.mem.enqueuePos ensures TokenOk(job, s', t) { assert TokenOk(job, s, t); }
  }

  /** `fetch_or` completes the mask; no other worker can have seen it complete. */
  lemma NotifyLastInv(job: Job, s: State, w: nat)
    requires Inv(job, s) && CanStep(job, s, w) && s.control[w].Notify? && s.control[w].bits != {}
      && job.deps[Lowest(s.control[w].bits)] <= SeenAfter(s, w)
    ensures Inv(job, Step(job, s, w, false))
  {
    hide Ring.Inv, Value, FinishedCount;
    var s' := Step(job, s, w, false);
    assert WorkerOk(job, s, w);
    var j, i := s.control[w].node, Lowest(s.control[w].bits);
    assert NodeOk(job, s, i) && SeenOk(job, s, i) && !Told(s, j, i);
    TellsOneNode(job, s, w);
    CountUnchanged(s.place, i, Ready(w));
    forall n: nat | n < |s'.nodes| ensures SeenOk(job, s', n) && NodeOk(job, s', n) {
      assert SeenOk(job, s, n) && NodeOk(job, s, n);
    }
    forall v: nat | v < |s'.control| ensures WorkerOk(job, s', v) { assert WorkerOk(job, s, v); }
    forall t: nat | t < s'.ring.mem.enqueuePos ensures TokenOk(job, s', t) { assert TokenOk(job, s, t); }
  }

  /** What a step inside a ring call leaves alone. */
  ghost predicate RingFramed(r: Ring.State, w: nat, r': Ring.State)
    requires Ring.WellFormed(r) && Ring.WellFormed(r') && w < |r.pcs|
  {
    var pc := r.pcs[w];
    && |r'.pcs| == |r.pcs|
    && (forall v: nat :: v < |r.pcs| && v != w ==> r'.pcs[v] == r.pcs[v])
    && r'.mem.enqueuePos == r.mem.enqueuePos + (if pc.EnqTicket? then 1 else 0)
    && (forall t: nat :: t < r.mem.enqueuePos ==>
          && r'.hist.tickets[t].token == r.hist.tickets[t].token
          && (!(pc.DeqReturn? && t == pc.pos) ==>
                (r'.hist.tickets[t].phase.Delivered? <==> r.hist.tickets[t].phase.Delivered?)))
    && (pc.EnqTicket? ==> r'.hist.tickets[r.mem.enqueuePos] == Ring.Ticket(pc.token, Ring.Claimed(w)))
    && (pc.DeqReturn? ==>
          && pc.pos < r.mem.enqueuePos
          && r.hist.tickets[pc.pos] == Ring.Ticket(pc.token, Ring.Released(w))
          && r'.hist.tickets[pc.pos].phase.Delivered?)
    && (pc.Returns() ==> r'.pcs[w].Idle?)
    && (InEnqueue(pc) && !pc.EnqReturn? ==> InEnqueue(r'.pcs[w]) && !r'.pcs[w].EnqTicket?)
    && (InDequeue(pc) && !pc.Returns() ==> InDequeue(r'.pcs[w]))
  }

  lemma RingFrame(r: Ring.State, w: nat, spurious: bool)
    requires Ring.Inv(r) && Ring.FewThreads(r) && w < |r.pcs| && !r.pcs[w].Idle?
    ensures Ring.Inv(Ring.Apply(r, Ring.Action(w, spurious, Ring.DeqLoad)))
    ensures Ring.WellFormed(Ring.Apply(r, Ring.Action(w, spurious, Ring.DeqLoad)))
    ensures RingFramed(r, w, Ring.Apply(r, Ring.Action(w, spurious, Ring.DeqLoad)))
  {
    Ring.ApplyInv(r, Ring.Action(w, spurious, Ring.DeqLoad));
    assert Ring.ThreadOk(r, w);
  }

  /** A node on its way to the ring gets its ticket. */
  lemma TakeTicketInv(job: Job, s: State, w: nat)
    requires Inv(job, s) && CanStep(job, s, w) && s.ring.pcs[w].EnqTicket?
    ensures Inv(job, Step(job, s, w, false))
  {
    hide Ring.Inv, Value, FinishedCount;
    var s' := Step(job, s, w, false);
    assert WorkerOk(job, s, w);
    var i := s.ring.pcs[w].token;
    assert NodeOk(job, s, i);
    RingFrame(s.ring, w, false);
    CountUnchanged(s.place, i, Queued(s.ring.mem.enqueuePos));
    forall t: nat | t < s.ring.mem.enqueuePos ensures s.ring.hist.tickets[t].token != i {
      assert TokenOk(job, s, t);
    }
    forall n: nat | n < |s'.nodes| ensures SeenOk(job, s', n) && NodeOk(job, s', n) {
      assert SeenOk(job, s, n) && NodeOk(job, s, n);
    }
    forall v: nat | v < |s'.control| ensures WorkerOk(job, s', v) { assert WorkerOk(job, s, v); }
    forall t: nat | t < s'.ring.mem.enqueuePos
      ensures TokenOk(job, s', t)
    {
      if t < s.ring.mem.enqueuePos { assert TokenOk(job, s, t); }
    }
  }

  /** Any other action inside a ring call moves nothing but the ring and the worker's own position in the call. */
  lemma InsideRingInv(job: Job, s: State, w: nat, s': State)
    requires Inv(job, s) && w < |s.control| && (InEnqueue(s.ring.pcs[w]) || InDequeue(s.ring.pcs[w]))
    requires Ring.WellFormed(s'.ring) && Ring.Inv(s'.ring) && RingFramed(s.ring, w, s'.ring)
    requires s' == s.(ring := s'.ring)
    requires !s.ring.pcs[w].EnqTicket? && !s.ring.pcs[w].Returns()
    ensures Inv(job, s')
  {
    hide Ring.Inv, Value, FinishedCount;
    forall n: nat | n < |s'.nodes| ensures SeenOk(job, s', n) && NodeOk(job, s', n) {
      assert SeenOk(job, s, n) && NodeOk(job, s, n);
    }
    forall v: nat | v < |s'.control| ensures WorkerOk(job, s', v) { assert WorkerOk(job, s, v); }
    forall t: nat | t < s'.ring.mem.enqueuePos ensures TokenOk(job, s', t) { assert TokenOk(job, s, t); }
  }

  /** What a worker does after a ring call that brought no node. */
  function AfterCall(c: Control): Control
    requires c.SeedEnqueue? || c.Polling? || c.NotifyEnqueue?
  {
    match c
    case SeedEnqueue(i) => Seed(i + 1)
    case NotifyEnqueue(j, bits, _) => Notify(j, bits)
    case Polling => Check
  }

  /** A ring call returns without a node. */
  lemma RingReturnInv(job: Job, s: State, w: nat, s': State)
    requires Inv(job, s) && w < |s.control|
    requires s.control[w].SeedEnqueue? || s.control[w].Polling? || s.control[w].NotifyEnqueue?
    requires s.ring.pcs[w].EnqReturn? || s.ring.pcs[w].DeqEmpty?
    requires Ring.WellFormed(s'.ring) && Ring.Inv(s'.ring) && RingFramed(s.ring, w, s'.ring)
    requires s' == s.(ring := s'.ring, control := s.control[w := AfterCall(s.control[w])])
    ensures Inv(job, s')
  {
    hide Ring.Inv, Value, FinishedCount;
    assert WorkerOk(job, s, w);
    forall n: nat | n < |s'.nodes| ensures SeenOk(job, s', n) && NodeOk(job, s', n) {
      assert SeenOk(job, s, n) && NodeOk(job, s, n);
    }
    forall v: nat | v < |s'.control| ensures WorkerOk(job, s', v) { assert WorkerOk(job, s, v); }
    forall t: nat | t < s'.ring.mem.enqueuePos ensures TokenOk(job, s', t) { assert TokenOk(job, s, t); }
  }

  /** `try_dequeue` succeeded: the worker now holds the node of that ticket. */
  lemma TokenArrivesInv(job: Job, s: State, w: nat)
    requires Inv(job, s) && CanStep(job, s, w) && s.ring.pcs[w].DeqReturn?
    ensures Inv(job, Step(job, s, w, false))
  {
    hide Ring.Inv, Value, FinishedCount;
    var s' := Step(job, s, w, false);
    assert WorkerOk(job, s, w);
    var pos, i := s.ring.pcs[w].pos, s.ring.pcs[w].token;
    RingFrame(s.ring, w, false);
    assert TokenOk(job, s, pos) && NodeOk(job, s, i);
    CountUnchanged(s.place, i, Held(w));
    forall n: nat | n < |s'.nodes| ensures SeenOk(job, s', n) && NodeOk(job, s', n) {
      assert SeenOk(job, s, n) && NodeOk(job, s, n);
    }
    forall v: nat | v < |s'.control| ensures WorkerOk(job, s', v) { assert WorkerOk(job, s, v); }
    forall t: nat | t < s'.ring.mem.enqueuePos ensures TokenOk(job, s', t) { assert TokenOk(job, s, t); }
  }

  lemma RingCallInv(job: Job, s: State, w: nat, spurious: bool)
    requires Inv(job, s) && CanStep(job, s, w)
    requires s.control[w].SeedEnqueue? || s.control[w].Polling? || s.control[w].NotifyEnqueue?
    ensures Inv(job, Step(job, s, w, spurious))
  {
    hide Ring.Inv, Value, FinishedCount;
    if s.ring.pcs[w].EnqTicket? {
      TakeTicketInv(job, s, w);
    } else if s.ring.pcs[w].DeqReturn? {
      TokenArrivesInv(job, s, w);
    } else if s.ring.pcs[w].Returns() {
      assert WorkerOk(job, s, w);
      RingFrame(s.ring, w, false);
      RingReturnInv(job, s, w, Step(job, s, w, spurious));
    } else {
      RingFrame(s.ring, w, spurious);
      InsideRingInv(job, s, w, Step(job, s, w, spurious));
    }
  }
}
