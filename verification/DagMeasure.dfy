/**
 The measure behind progress and termination: how much work the workers have in hand, plus what the
 tickets that are still to be taken from the ring will bring.

 `Weight` gives each program point the number of productive steps that can follow from it, where a node
 costs at most 20 steps for telling each of its dependents.  `Spins` are the idle steps of the worker
 loop.  One lemma for each group of steps says how the weight of the moving worker changes; the weights
 of the other workers stay.
 */
module DagMeasure {
  import opened TaskGraph
  import opened ParallelDag
  import opened DagSteps
  import Ring = TicketRing

  /** The steps of the idle loop that find nothing: looking for work, losing a race, the exit test. */
  predicate Spins(job: Job, s: State, w: nat, spurious: bool)
    requires w < |s.control| && w < |s.ring.pcs|
  {
    || (s.control[w].Check? && s.completed != |job.deps|)
    || (s.control[w].Polling?
        && match s.ring.pcs[w]
           case DeqLoad => true
           case DeqTest(_) => true
           case DeqCas(pos) => spurious || pos != s.ring.mem.dequeuePos
           case DeqEmpty => true
           case _ => false)
  }

  function CallWeight(pc: Ring.Pc): nat {
    match pc
    case EnqTicket(_) => 5
    case EnqWait(_, _) => 4
    case EnqStore(_, _) => 3
    case EnqPublish(_, _) => 2
    case _ => 1
  }

  function SeedWeight(total: nat, workers: nat, next: nat): nat {
    20 * (if next <= total then total - next else 0) + 3 * workers + 10
  }

  /** How much work worker w has in hand. */
  function Weight(total: nat, workers: nat, c: Control, pc: Ring.Pc): nat {
    match c
    case NotStarted => 0
    case Exited => 0
    case Seed(i) => SeedWeight(total, workers, i)
    case SeedCas(i) => SeedWeight(total, workers, i + 1) + 19
    case SeedEnqueue(i) => SeedWeight(total, workers, i + 1) + 10 + CallWeight(pc)
    case Spawn(k) => 3 * (if k <= workers then workers + 1 - k else 0) + 2
    case Check => 1
    case Polling =>
      (match pc
       case DeqRead(_) => 20 * total + 11
       case DeqRelease(_, _) => 20 * total + 10
       case DeqReturn(_, _) => 20 * total + 9
       case _ => 1)
    case Claim(_) => 20 * total + 8
    case ClaimPending(_) => 20 * total + 7
    case Invoke(_) => 20 * total + 6
    case InTask(_) => 20 * total + 5
    case Finish(_) => 20 * total + 4
    case Notify(_, bits) => 20 * |bits| + 3
    case NotifyCas(_, bits, _) => 20 * |bits| + 22
    case NotifyEnqueue(_, bits, _) => 20 * |bits| + 12 + CallWeight(pc)
    case Complete(_) => 2
  }

  ghost function WeightSum(total: nat, control: seq<Control>, pcs: seq<Ring.Pc>, n: nat): nat
    requires n <= |control| == |pcs|
  {
    if n == 0 then 0
    else WeightSum(total, control, pcs, n - 1) + Weight(total, |control|, control[n - 1], pcs[n - 1])
  }

  /** Work in hand, plus the dequeues still to come. */
  ghost function Measure(job: Job, s: State): nat
    requires |s.control| == |s.ring.pcs|
  {
    var total := |job.deps|;
    var ahead := if s.ring.mem.dequeuePos <= total then total - s.ring.mem.dequeuePos else 0;
    WeightSum(total, s.control, s.ring.pcs, |s.control|) + ahead * (20 * total + 11)
  }

  lemma {:induction false} WeightSumChange(total: nat, c: seq<Control>, p: seq<Ring.Pc>,
                                           c': seq<Control>, p': seq<Ring.Pc>, w: nat, n: nat)
    requires |c| == |p| == |c'| == |p'| && w < |c| && n <= |c|
    requires forall v :: 0 <= v < |c| && v != w ==> c'[v] == c[v] && p'[v] == p[v]
    ensures WeightSum(total, c', p', n) + (if w < n then Weight(total, |c|, c[w], p[w]) else 0)
         == WeightSum(total, c, p, n) + (if w < n then Weight(total, |c|, c'[w], p'[w]) else 0)
    decreases n
  {
    if n > 0 {
      WeightSumChange(total, c, p, c', p', w, n - 1);
    }
  }

  lemma {:induction false} SubsetSize(a: set<nat>, n: nat)
    requires forall x :: x in a ==> x < n
    ensures |a| <= n
    decreases n
  {
    if n == 0 {
      assert a == {};
    } else {
      SubsetSize(a - {n - 1}, n - 1);
      if n - 1 in a {
        assert a == (a - {n - 1}) + {n - 1};
      } else {
        assert a == a - {n - 1};
      }
    }
  }

  lemma RingStepFrame(s: State, w: nat, spurious: bool)
    requires |s.ring.mem.slots| == Ring.RING_SLOTS && w < |s.ring.pcs| && !s.ring.pcs[w].Idle?
    ensures var s' := RingStep(s, w, spurious);
      && s'.control == s.control && s'.nodes == s.nodes && |s'.ring.pcs| == |s.ring.pcs|
      && forall v: nat :: v < |s.ring.pcs| && v != w ==> s'.ring.pcs[v] == s.ring.pcs[v]
  {
    hide Ring.Exec, Ring.Record;
  }

  /** Only worker w moves, except that spawning also starts worker k. */
  lemma OnlyOneMoves(job: Job, s: State, w: nat, spurious: bool, v: nat)
    requires CanStep(job, s, w) && v < |s.control| && v != w
    requires !(s.control[w].Spawn? && s.control[w].next < |s.control|)
    ensures var s' := Step(job, s, w, spurious);
      && |s'.control| == |s.control| == |s'.ring.pcs|
      && s'.control[v] == s.control[v] && s'.ring.pcs[v] == s.ring.pcs[v]
  {
    hide RingStep, DepOutputs, Consumers, Lowest, Inv;
    if InRingCall(s.control[w]) {
      RingStepFrame(s, w, spurious);
      RingStepFrame(s, w, false);
    }
  }

  predicate InRingCall(c: Control) {
    c.SeedEnqueue? || c.Polling? || c.NotifyEnqueue?
  }

  /** Inside `enqueue` every action leads on to the next one. */
  lemma EnqueueAdvances(r: Ring.State, w: nat, spurious: bool)
    requires |r.mem.slots| == Ring.RING_SLOTS && w < |r.pcs| && InEnqueue(r.pcs[w]) && !r.pcs[w].EnqReturn?
    requires r.pcs[w].EnqWait? ==> r.mem.slots[Ring.SlotOf(r.pcs[w].pos)].sequence == Ring.Truncate(r.pcs[w].pos)
    ensures var r' := Ring.Apply(r, Ring.Action(w, spurious, Ring.DeqLoad));
      |r'.pcs| == |r.pcs| && CallWeight(r'.pcs[w]) < CallWeight(r.pcs[w])
  {
  }

  lemma WeightInDequeue(job: Job, s: State, w: nat, spurious: bool)
    requires Inv(job, s) && CanStep(job, s, w) && s.control[w].Polling?
    ensures var s' := Step(job, s, w, spurious);
      && |s'.control| == |s.control| == |s'.ring.pcs|
      && var before := Weight(|job.deps|, |s.control|, s.control[w], s.ring.pcs[w]);
         var after := Weight(|job.deps|, |s.control|, s'.control[w], s'.ring.pcs[w]);
         if Spins(job, s, w, spurious) then after == before
         else if s.ring.pcs[w].DeqCas? then before == 1 && after == 20 * |job.deps| + 11
         else after < before
  {
    if s.ring.pcs[w].DeqReturn? {
      RingFrame(s.ring, w, false);
      assert TokenOk(job, s, s.ring.pcs[w].pos);
    }
  }

  lemma WeightOfNotify(job: Job, s: State, w: nat, spurious: bool)
    requires CanStep(job, s, w) && s.control[w].Notify?
    ensures var s' := Step(job, s, w, spurious);
      && |s'.control| == |s.control| == |s'.ring.pcs|
      && Weight(|job.deps|, |s.control|, s'.control[w], s'.ring.pcs[w])
         < Weight(|job.deps|, |s.control|, s.control[w], s.ring.pcs[w])
  {
    var bits := s.control[w].bits;
    if bits != {} {
      assert |bits - {Lowest(bits)}| == |bits| - 1;
    }
  }

  predicate Seeding(c: Control) {
    c.Seed? || c.SeedCas? || c.Spawn?
  }

  lemma WeightOfSeeding(job: Job, s: State, w: nat, spurious: bool)
    requires Inv(job, s) && CanStep(job, s, w) && Seeding(s.control[w])
    requires !(s.control[w].Spawn? && s.control[w].next < |s.control|)
    ensures var s' := Step(job, s, w, spurious);
      && |s'.control| == |s.control| == |s'.ring.pcs|
      && var before := Weight(|job.deps|, |s.control|, s.control[w], s.ring.pcs[w]);
         var after := Weight(|job.deps|, |s.control|, s'.control[w], s'.ring.pcs[w]);
         if Spins(job, s, w, spurious) then after == before else after < before
  {
    hide Ring.Inv, Ring.Apply, SeenOk, NodeOk, TokenOk, TellsOk, OnlyMain;
    hide TokensDistinct, FinishedCount, Value, DepOutputs;
    assert WorkerOk(job, s, w);
  }

  lemma WeightOfWorking(job: Job, s: State, w: nat, spurious: bool)
    requires Inv(job, s) && CanStep(job, s, w)
    requires !InRingCall(s.control[w]) && !s.control[w].Notify? && !Seeding(s.control[w])
    ensures var s' := Step(job, s, w, spurious);
      && |s'.control| == |s.control| == |s'.ring.pcs|
      && var before := Weight(|job.deps|, |s.control|, s.control[w], s.ring.pcs[w]);
         var after := Weight(|job.deps|, |s.control|, s'.control[w], s'.ring.pcs[w]);
         if Spins(job, s, w, spurious) then after == before else after < before
  {
    hide Ring.Inv, Ring.Apply, SeenOk, NodeOk, TokenOk, TellsOk, OnlyMain;
    hide TokensDistinct, FinishedCount, Value, DepOutputs;
    assert WorkerOk(job, s, w);
    if s.control[w].Finish? {
      SubsetSize(Consumers(job, s.control[w].node), |job.deps|);
    }
  }

  lemma SpawnDrops(job: Job, s: State, w: nat, spurious: bool)
    requires Inv(job, s) && CanStep(job, s, w) && s.control[w].Spawn? && s.control[w].next < |s.control|
    ensures |Step(job, s, w, spurious).control| == |Step(job, s, w, spurious).ring.pcs|
    ensures Measure(job, Step(job, s, w, spurious)) < Measure(job, s)
  {
    var s' := Step(job, s, w, spurious);
    var k, total, n := s.control[w].next, |job.deps|, |s.control|;
    assert WorkerOk(job, s, w) && WorkerOk(job, s, k);
    var mid := s.control[w := Spawn(k + 1)];
    WeightSumChange(total, s.control, s.ring.pcs, mid, s.ring.pcs, w, n);
    WeightSumChange(total, mid, s.ring.pcs, s'.control, s'.ring.pcs, k, n);
  }

  lemma MeasureArithmetic(total: nat, pos: nat)
    ensures pos < total ==>
      (total - pos) * (20 * total + 11) == (total - (pos + 1)) * (20 * total + 11) + (20 * total + 11)
  {
  }
}
