/**
 The parallel executor as a step relation.  Workers interleave at every atomic action: each step is
 one atomic access of one worker, or a move that touches only its own locals.
 */
module ParallelDag {
  import opened TaskGraph
  import Ring = TicketRing

  /** What a worker does next.  Worker 0 is the caller of `run_parallel`. */
  datatype Control =
    | NotStarted
    | Seed(next: nat)
    | SeedCas(node: nat)
    | SeedEnqueue(node: nat)
    | Spawn(next: nat)
    | Polling
    | Check
    | Claim(node: nat)
    | ClaimPending(node: nat)
    | Invoke(node: nat)
    | InTask(node: nat)
    | Finish(node: nat)
    | Notify(node: nat, bits: set<nat>)
    | NotifyCas(node: nat, bits: set<nat>, target: nat)
    | NotifyEnqueue(node: nat, bits: set<nat>, target: nat)
    | Complete(node: nat)
    | Exited

  /** Auxiliary: how far node j has come and which worker or ticket carries it.  No step reads it. */
  datatype Place =
    | Waiting
    | Ready(worker: nat)
    | Enqueuing(worker: nat)
    | Queued(ticket: nat)
    | Held(worker: nat)
    | Notifying(worker: nat)
    | Finished

  datatype State = State(
    ring: Ring.State,
    nodes: seq<Node>,
    completed: nat,
    control: seq<Control>,
    place: seq<Place>)

  ghost predicate Init(job: Job, s: State, workers: nat) {
    && workers >= 1
    && workers + Ring.RING_SLOTS <= Ring.WORD
    && Ring.Init(s.ring)
    && |s.ring.pcs| == |s.control| == workers
    && |s.nodes| == |s.place| == |job.deps|
    && (forall j :: 0 <= j < |s.nodes| ==> s.nodes[j].state == Pending && s.nodes[j].seen == {} && s.nodes[j].runs == 0)
    && (forall j :: 0 <= j < |s.place| ==> s.place[j] == Waiting)
    && s.completed == 0
    && s.control[0] == Seed(0)
    && (forall w :: 1 <= w < workers ==> s.control[w] == NotStarted)
  }

  /** The thread is inside `enqueue`. */
  predicate InEnqueue(pc: Ring.Pc) {
    pc.EnqTicket? || pc.EnqWait? || pc.EnqStore? || pc.EnqPublish? || pc.EnqReturn?
  }

  /** The thread is inside `try_dequeue`. */
  predicate InDequeue(pc: Ring.Pc) {
    pc.DeqLoad? || pc.DeqTest? || pc.DeqCas? || pc.DeqRead? || pc.DeqRelease? || pc.DeqReturn? || pc.DeqEmpty?
  }

  /** Worker w can move.  `ReachableWorkersCanStep` shows that every started worker can, until it exits. */
  predicate CanStep(job: Job, s: State, w: nat) {
    && |s.ring.mem.slots| == Ring.RING_SLOTS
    && w < |s.control| == |s.ring.pcs|
    && |s.nodes| == |s.place| == |job.deps|
    && match s.control[w]
       case NotStarted => false
       case Exited => false
       case Seed(_) => s.ring.pcs[w].Idle?
       case SeedCas(i) => s.ring.pcs[w].Idle? && i < |s.nodes|
       case SeedEnqueue(_) => InEnqueue(s.ring.pcs[w])
       case Spawn(k) => s.ring.pcs[w].Idle? && (k < |s.control| ==> s.ring.pcs[k].Idle? && k != w)
       case Polling => InDequeue(s.ring.pcs[w])
       case Check => s.ring.pcs[w].Idle?
       case Claim(j) => s.ring.pcs[w].Idle? && j < |s.nodes|
       case ClaimPending(j) => s.ring.pcs[w].Idle? && j < |s.nodes|
       case Invoke(j) => s.ring.pcs[w].Idle? && j < |s.nodes|
       case InTask(j) => s.ring.pcs[w].Idle? && j < |s.nodes|
       case Finish(j) => s.ring.pcs[w].Idle? && j < |s.nodes|
       case Notify(j, bits) => s.ring.pcs[w].Idle? && forall i :: i in bits ==> i < |s.nodes|
       case NotifyCas(_, _, i) => s.ring.pcs[w].Idle? && i < |s.nodes|
       case NotifyEnqueue(_, _, _) => InEnqueue(s.ring.pcs[w])
       case Complete(j) => s.ring.pcs[w].Idle? && j < |s.nodes|
  }

  function Go(s: State, w: nat, c: Control): State
    requires w < |s.control|
  {
    s.(control := s.control[w := c])
  }

  function SetState(s: State, j: nat, st: NodeState): State
    requires j < |s.nodes|
  {
    s.(nodes := s.nodes[j := s.nodes[j].(state := st)])
  }

  function Move(s: State, j: nat, p: Place): State {
    if j < |s.place| then s.(place := s.place[j := p]) else s
  }

  function CallRing(s: State, w: nat, pc: Ring.Pc): State
    requires w < |s.ring.pcs| && s.ring.pcs[w].Idle? && (pc.EnqTicket? || pc.DeqLoad?)
  {
    s.(ring := Ring.Call(s.ring, w, pc))
  }

  /** Back to the top of the worker loop: the next thing is `try_dequeue`. */
  function Poll(s: State, w: nat): State
    requires w < |s.control| && w < |s.ring.pcs| && s.ring.pcs[w].Idle?
  {
    CallRing(Go(s, w, Polling), w, Ring.DeqLoad)
  }

  /** The compare-exchange Pending -> Runnable succeeded; enqueue the node, then go on with c. */
  function Schedule(s: State, w: nat, i: nat, c: Control): State
    requires w < |s.control| && w < |s.ring.pcs| && s.ring.pcs[w].Idle? && i < |s.nodes|
  {
    CallRing(Go(Move(SetState(s, i, Runnable), i, Enqueuing(w)), w, c), w, Ring.EnqTicket(i))
  }

  /** One action inside a ring call. */
  function RingStep(s: State, w: nat, spurious: bool): State
    requires |s.ring.mem.slots| == Ring.RING_SLOTS && w < |s.ring.pcs| && !s.ring.pcs[w].Idle?
  {
    var s' := s.(ring := Ring.Apply(s.ring, Ring.Action(w, spurious, Ring.DeqLoad)));
    if s.ring.pcs[w].EnqTicket? then Move(s', s.ring.pcs[w].token, Queued(s.ring.mem.enqueuePos)) else s'
  }

  ghost function Step(job: Job, s: State, w: nat, spurious: bool): State
    requires CanStep(job, s, w)
  {
    var total := |job.deps|;
    match s.control[w]
    case Seed(i) =>
      if i < total then
        if job.deps[i] <= s.nodes[i].seen && s.nodes[i].state.Pending? then Go(s, w, SeedCas(i))
        else Go(s, w, Seed(i + 1))
      else Go(s, w, Spawn(1))
    case SeedCas(i) =>
      if s.nodes[i].state.Pending? then Schedule(s, w, i, SeedEnqueue(i)) else Go(s, w, Seed(i + 1))
    case SeedEnqueue(i) =>
      if s.ring.pcs[w].EnqReturn? then Go(RingStep(s, w, false), w, Seed(i + 1)) else RingStep(s, w, spurious)
    case Spawn(k) =>
      if k < |s.control| then Poll(Go(s, w, Spawn(k + 1)), k) else Poll(s, w)
    case Polling =>
      var pc := s.ring.pcs[w];
      if pc.DeqReturn? then
        var s' := RingStep(s, w, false);
        if pc.token < total then Go(Move(s', pc.token, Held(w)), w, Claim(pc.token)) else Poll(s', w)
      else if pc.DeqEmpty? then Go(RingStep(s, w, false), w, Check)
      else RingStep(s, w, spurious)
    case Check =>
      if s.completed == total then Go(s, w, Exited) else Poll(s, w)
    case Claim(j) =>
      if s.nodes[j].state.Runnable? then Go(SetState(s, j, Running), w, Invoke(j)) else Go(s, w, ClaimPending(j))
    case ClaimPending(j) =>
      if s.nodes[j].state.Pending? then Go(SetState(s, j, Running), w, Invoke(j)) else Poll(s, w)
    case Invoke(j) =>
      Go(s.(nodes := s.nodes[j := s.nodes[j].(runs := s.nodes[j].runs + 1)]), w, InTask(j))
    case InTask(j) =>
      var out := job.task(j, DepOutputs(job, s.nodes, j));
      Go(s.(nodes := s.nodes[j := s.nodes[j].(output := out)]), w, Finish(j))
    case Finish(j) =>
      Go(Move(SetState(s, j, Done), j, Notifying(w)), w, Notify(j, Consumers(job, j)))
    case Notify(j, bits) =>
      if bits == {} then Go(s, w, Complete(j))
      else
        var i := Lowest(bits);
        var seen := s.nodes[i].seen + {j};
        var s' := s.(nodes := s.nodes[i := s.nodes[i].(seen := seen)]);
        if job.deps[i] <= seen then Go(Move(s', i, Ready(w)), w, NotifyCas(j, bits - {i}, i))
        else Go(s', w, Notify(j, bits - {i}))
    case NotifyCas(j, bits, i) =>
      if s.nodes[i].state.Pending? then Schedule(s, w, i, NotifyEnqueue(j, bits, i)) else Go(s, w, Notify(j, bits))
    case NotifyEnqueue(j, bits, _) =>
      if s.ring.pcs[w].EnqReturn? then Go(RingStep(s, w, false), w, Notify(j, bits)) else RingStep(s, w, spurious)
    case Complete(j) =>
      Poll(Move(s.(completed := s.completed + 1), j, Finished), w)
  }

  datatype Pick = Pick(worker: nat, spurious: bool)

  /** The schedule can be followed from s: every picked worker can move when it is picked. */
  ghost predicate Follows(job: Job, s: State, schedule: seq<Pick>)
    decreases |schedule|, 0
  {
    schedule == [] ||
    (Follows(job, s, schedule[..|schedule| - 1]) &&
     CanStep(job, Replay(job, s, schedule[..|schedule| - 1]), schedule[|schedule| - 1].worker))
  }

  ghost function Replay(job: Job, s: State, schedule: seq<Pick>): State
    requires Follows(job, s, schedule)
    decreases |schedule|, 1
  {
    if schedule == [] then s
    else
      var last := schedule[|schedule| - 1];
      Step(job, Replay(job, s, schedule[..|schedule| - 1]), last.worker, last.spurious)
  }

  // ---------------------------------------------------------------------------------------------
  // Invariant
  // ---------------------------------------------------------------------------------------------

  ghost predicate Shape(job: Job, s: State) {
    && Valid(job)
    && Ring.WellFormed(s.ring) && Ring.Inv(s.ring) && Ring.FewThreads(s.ring)
    && |s.control| == |s.ring.pcs| >= 1
    && |s.nodes| == |s.place| == |job.deps|
  }

  /** Dependents the worker has still to tell about its node. */
  function Untold(c: Control): set<nat> {
    match c
    case Notify(_, bits) => bits
    case NotifyCas(_, bits, _) => bits
    case NotifyEnqueue(_, bits, _) => bits
    case _ => {}
  }

  /** The worker is telling the dependents of node d that d is done. */
  predicate Tells(c: Control, d: nat) {
    (c.Notify? || c.NotifyCas? || c.NotifyEnqueue? || c.Complete?) && c.node == d
  }

  /** Node d is done and its dependent j has been told. */
  predicate Told(s: State, d: nat, j: nat)
    requires d < |s.place|
  {
    s.place[d].Finished?
    || (s.place[d].Notifying? && s.place[d].worker < |s.control| && j !in Untold(s.control[s.place[d].worker]))
  }

  /** `deps_seen` holds exactly the dependencies that are done and have told j. */
  ghost predicate SeenOk(job: Job, s: State, j: nat)
    requires Shape(job, s) && j < |s.nodes|
  {
    && s.nodes[j].seen <= job.deps[j]
    && forall d: nat :: d in job.deps[j] ==> d < |s.place| && (d in s.nodes[j].seen <==> Told(s, d, j))
  }

  predicate SeedsLater(c: Control, j: nat) {
    (c.Seed? && c.next <= j) || (c.SeedCas? && c.node <= j) || (c.SeedEnqueue? && c.node < j)
  }

  ghost predicate NodeOk(job: Job, s: State, j: nat)
    requires Shape(job, s) && j < |s.nodes|
  {
    var n := s.nodes[j];
    var all := job.deps[j] <= n.seen;
    match s.place[j]
    case Waiting => n.state.Pending? && n.runs == 0 && (all ==> SeedsLater(s.control[0], j))
    case Ready(w) =>
      && n.state.Pending? && n.runs == 0 && all
      && w < |s.control| && s.control[w].NotifyCas? && s.control[w].target == j
    case Enqueuing(w) =>
      && n.state.Runnable? && n.runs == 0 && all
      && w < |s.control| && s.ring.pcs[w] == Ring.EnqTicket(j)
    case Queued(t) =>
      && n.state.Runnable? && n.runs == 0 && all
      && t < s.ring.mem.enqueuePos && s.ring.hist.tickets[t].token == j && !s.ring.hist.tickets[t].phase.Delivered?
    case Held(w) =>
      && all && w < |s.control|
      && (match s.control[w]
         case Claim(i) => i == j && n.state.Runnable? && n.runs == 0
         case Invoke(i) => i == j && n.state.Running? && n.runs == 0
         case InTask(i) => i == j && n.state.Running? && n.runs == 1
         case Finish(i) => i == j && n.state.Running? && n.runs == 1 && n.output == Value(job, j)
         case _ => false)
    case Notifying(w) =>
      n.state.Done? && n.runs == 1 && all && n.output == Value(job, j) && w < |s.control| && Tells(s.control[w], j)
    case Finished => n.state.Done? && n.runs == 1 && all && n.output == Value(job, j)
  }

  ghost predicate WorkerOk(job: Job, s: State, w: nat)
    requires Shape(job, s) && w < |s.control|
  {
    var pc := s.ring.pcs[w];
    match s.control[w]
    case NotStarted => pc.Idle? && w != 0
    case Seed(_) => pc.Idle? && w == 0 && OnlyMain(s)
    case SeedCas(i) =>
      && pc.Idle? && w == 0 && OnlyMain(s)
      && i < |s.nodes| && job.deps[i] <= s.nodes[i].seen && s.place[i].Waiting?
    case SeedEnqueue(i) =>
      && InEnqueue(pc) && w == 0 && OnlyMain(s) && i < |s.nodes|
      && (pc.EnqTicket? ==> pc.token == i && s.place[i] == Enqueuing(w))
    case Spawn(k) => pc.Idle? && w == 0 && 1 <= k && forall v :: k <= v < |s.control| ==> s.control[v].NotStarted?
    case Polling => InDequeue(pc)
    case Check => pc.Idle?
    case Claim(j) => pc.Idle? && j < |s.nodes| && s.place[j] == Held(w)
    case ClaimPending(j) => false
    case Invoke(j) => pc.Idle? && j < |s.nodes| && s.place[j] == Held(w)
    case InTask(j) => pc.Idle? && j < |s.nodes| && s.place[j] == Held(w)
    case Finish(j) => pc.Idle? && j < |s.nodes| && s.place[j] == Held(w)
    case Notify(d, bits) => pc.Idle? && TellsOk(job, s, w, d, bits)
    case NotifyCas(d, bits, i) => pc.Idle? && TellsOk(job, s, w, d, bits) && i < |s.nodes| && s.place[i] == Ready(w)
    case NotifyEnqueue(d, bits, i) =>
      && InEnqueue(pc) && TellsOk(job, s, w, d, bits) && i < |s.nodes|
      && (pc.EnqTicket? ==> pc.token == i && s.place[i] == Enqueuing(w))
    case Complete(d) => pc.Idle? && TellsOk(job, s, w, d, {})
    case Exited => pc.Idle? && forall j :: 0 <= j < |s.place| ==> s.place[j].Finished?
  }

  ghost predicate OnlyMain(s: State) {
    forall v :: 1 <= v < |s.control| ==> s.control[v].NotStarted?
  }

  ghost predicate TellsOk(job: Job, s: State, w: nat, d: nat, bits: set<nat>)
    requires Shape(job, s)
  {
    d < |s.nodes| && s.place[d] == Notifying(w) && bits <= Consumers(job, d)
  }

  /** Ticket t carries a node, and until it is delivered it is the only thing that carries it. */
  ghost predicate TokenOk(job: Job, s: State, t: nat)
    requires Shape(job, s) && t < s.ring.mem.enqueuePos
  {
    var tk := s.ring.hist.tickets[t];
    && tk.token < |s.nodes|
    && !s.place[tk.token].Waiting? && !s.place[tk.token].Ready? && !s.place[tk.token].Enqueuing?
    && (!tk.phase.Delivered? ==> s.place[tk.token] == Queued(t))
  }

  ghost predicate TokensDistinct(s: State) {
    forall t, u :: 0 <= t < u < |s.ring.hist.tickets| ==> s.ring.hist.tickets[t].token != s.ring.hist.tickets[u].token
  }

  /** The number of nodes that have told everybody and been counted. */
  function FinishedCount(place: seq<Place>): (n: nat)
    ensures n <= |place|
  {
    if place == [] then 0
    else FinishedCount(place[..|place| - 1]) + (if place[|place| - 1].Finished? then 1 else 0)
  }

  ghost predicate Inv(job: Job, s: State) {
    && Shape(job, s)
    && (forall j: nat :: j < |s.nodes| ==> SeenOk(job, s, j))
    && (forall j: nat :: j < |s.nodes| ==> NodeOk(job, s, j))
    && (forall w: nat :: w < |s.control| ==> WorkerOk(job, s, w))
    && (forall t: nat :: t < s.ring.mem.enqueuePos ==> TokenOk(job, s, t))
    && TokensDistinct(s)
    && s.completed == FinishedCount(s.place)
  }
}
