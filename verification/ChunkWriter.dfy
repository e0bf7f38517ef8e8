/** The hand-over of evicted chunks to the background writer. */
module ChunkWriter {
  import opened ByteText

  // A queue under one mutex and one condition variable, a worker thread, and client threads that enqueue,
  // flush and finally destroy the manager.  A step is one critical section, one notification, or one
  // database insert.  Nothing holds the mutex from one step to the next, so critical sections are atomic.

  datatype Worker =
    | Starting
    | Locking
    | Inserting(chunk: Bytes)
    | Relocking
    | Asleep
    | Failed
    | Exited

  datatype Client =
    | Idle
    | Pushing(chunk: Bytes)
    | Notifying
    | Flushing
    | FlushAsleep
    | FlushWoken
    | Stopping
    | StopNotify
    | Joining
    | Destroyed

  /** `enqueued` and `finished` record the chunks pushed and the chunks whose insert attempt returned. */
  datatype State = State(
    queue: seq<Bytes>,
    busy: bool,
    stop: bool,
    ready: bool,
    worker: Worker,
    clients: seq<Client>,
    enqueued: seq<Bytes>,
    finished: seq<Bytes>)

  datatype Call = Enqueue(chunk: Bytes) | Flush | Destroy

  /** Who a `notify_one` wakes. */
  datatype Sleeper = TheWorker | TheClient(index: nat)

  datatype Action =
    | WorkerStep(dbOpens: bool)
    | WorkerSpurious
    | ClientCall(client: nat, call: Call)
    | ClientStep(client: nat, wakes: Sleeper)
    | ClientSpurious(client: nat)

  ghost predicate Init(s: State, clients: nat) {
    s == State([], false, false, false, Starting, seq(clients, _ => Idle), [], [])
  }

  function WakeAll(clients: seq<Client>): (r: seq<Client>)
    ensures |r| == |clients|
    ensures forall i :: 0 <= i < |clients| ==> r[i] == if clients[i].FlushAsleep? then FlushWoken else clients[i]
  {
    if clients == [] then []
    else [if clients[0].FlushAsleep? then FlushWoken else clients[0]] + WakeAll(clients[1..])
  }

  predicate Sleeps(s: State, t: Sleeper) {
    match t
    case TheWorker => s.worker.Asleep?
    case TheClient(i) => i < |s.clients| && s.clients[i].FlushAsleep?
  }

  ghost predicate NobodySleeps(s: State) {
    !s.worker.Asleep? && forall i :: 0 <= i < |s.clients| ==> !s.clients[i].FlushAsleep?
  }

  ghost predicate Enabled(s: State, a: Action) {
    match a
    case WorkerStep(_) => s.worker.Starting? || s.worker.Locking? || s.worker.Inserting? || s.worker.Relocking?
    case WorkerSpurious => s.worker.Asleep?
    case ClientCall(i, _) => i < |s.clients| && s.clients[i].Idle?
    case ClientSpurious(i) => i < |s.clients| && s.clients[i].FlushAsleep?
    case ClientStep(i, t) =>
      && i < |s.clients|
      && match s.clients[i]
         case Pushing(_) => true
         case Notifying => Sleeps(s, t) || NobodySleeps(s)
         case Flushing => true
         case FlushWoken => true
         case Stopping => true
         case StopNotify => true
         case Joining => s.worker.Exited? || s.worker.Failed?
         case _ => false
  }

  function Pop(s: State): State
    requires s.queue != []
  {
    s.(queue := s.queue[1..], busy := true, worker := Inserting(s.queue[0]))
  }

  function WorkerApply(s: State, dbOpens: bool): State {
    match s.worker
    case Starting => if dbOpens then s.(ready := true, worker := Locking) else s.(worker := Failed)
    case Locking =>
      if s.queue != [] then Pop(s)
      else if s.stop then s.(clients := WakeAll(s.clients), worker := Exited)
      else s.(worker := Asleep)
    case Inserting(c) => s.(finished := s.finished + [c], worker := Relocking)
    case Relocking =>
      if s.queue != [] then Pop(s)
      else s.(busy := false, clients := WakeAll(s.clients), worker := if s.stop then Exited else Asleep)
    case _ => s
  }

  predicate Drained(s: State) {
    s.queue == [] && !s.busy
  }

  /** The flush call returns in this step, with this result. */
  predicate FlushSucceeds(s: State, i: nat)
    requires i < |s.clients|
  {
    Drained(s) && (s.clients[i].FlushWoken? || s.clients[i].Flushing?)
  }

  predicate FlushFails(s: State, i: nat)
    requires i < |s.clients|
  {
    s.clients[i].Flushing? && !s.ready && s.queue != []
  }

  function Set(s: State, i: nat, c: Client): State
    requires i < |s.clients|
  {
    s.(clients := s.clients[i := c])
  }

  function WakeOne(s: State, t: Sleeper): State {
    match t
    case TheWorker => if s.worker.Asleep? then s.(worker := Locking) else s
    case TheClient(i) => if i < |s.clients| && s.clients[i].FlushAsleep? then Set(s, i, FlushWoken) else s
  }

  function WakeEverybody(s: State): State {
    s.(clients := WakeAll(s.clients), worker := if s.worker.Asleep? then Locking else s.worker)
  }

  function ClientApply(s: State, i: nat, t: Sleeper): State
    requires i < |s.clients|
  {
    match s.clients[i]
    case Pushing(c) => Set(s.(queue := s.queue + [c], enqueued := s.enqueued + [c]), i, Notifying)
    case Notifying => WakeOne(Set(s, i, Idle), t)
    case Flushing => Set(s, i, if FlushFails(s, i) || FlushSucceeds(s, i) then Idle else FlushAsleep)
    case FlushWoken => Set(s, i, if FlushSucceeds(s, i) then Idle else FlushAsleep)
    case Stopping => Set(s.(stop := true), i, StopNotify)
    case StopNotify => WakeEverybody(Set(s, i, Joining))
    case Joining => Set(s, i, Destroyed)
    case _ => s
  }

  ghost function Apply(s: State, a: Action): State
    requires Enabled(s, a)
  {
    match a
    case WorkerStep(dbOpens) => WorkerApply(s, dbOpens)
    case WorkerSpurious => s.(worker := Locking)
    case ClientCall(i, call) =>
      Set(s, i, match call case Enqueue(c) => Pushing(c) case Flush => Flushing case Destroy => Stopping)
    case ClientSpurious(i) => Set(s, i, FlushWoken)
    case ClientStep(i, t) => ClientApply(s, i, t)
  }

  ghost predicate Follows(s: State, schedule: seq<Action>)
    decreases |schedule|, 0
  {
    schedule == [] ||
    (Follows(s, schedule[..|schedule| - 1]) &&
     Enabled(Replay(s, schedule[..|schedule| - 1]), schedule[|schedule| - 1]))
  }

  ghost function Replay(s: State, schedule: seq<Action>): State
    requires Follows(s, schedule)
    decreases |schedule|, 1
  {
    if schedule == [] then s
    else Apply(Replay(s, schedule[..|schedule| - 1]), schedule[|schedule| - 1])
  }

  // ---------------------------------------------------------------------------------------------
  // Nothing lost, nothing doubled: any number of clients
  // ---------------------------------------------------------------------------------------------

  function InFlight(s: State): seq<Bytes> {
    if s.worker.Inserting? then [s.worker.chunk] else []
  }

  ghost predicate Inv(s: State) {
    && s.enqueued == s.finished + InFlight(s) + s.queue
    && (s.busy <==> s.worker.Inserting? || s.worker.Relocking?)
    && (s.ready <==> !s.worker.Starting? && !s.worker.Failed?)
    && (s.worker.Exited? ==> s.stop)
  }

  lemma WorkerApplyInv(s: State, dbOpens: bool)
    requires Inv(s)
    ensures Inv(WorkerApply(s, dbOpens)) && |WorkerApply(s, dbOpens).clients| == |s.clients|
  {
    hide WakeAll;
    var s' := WorkerApply(s, dbOpens);
    if s.queue != [] && (s.worker.Locking? || s.worker.Relocking?) {
      assert s.finished + [] + s.queue == s.finished + [s.queue[0]] + s.queue[1..];
    } else if s.worker.Inserting? {
      assert s'.finished + [] + s'.queue == s.finished + [s.worker.chunk] + s.queue;
    }
  }

  /** Apart from a push, a client touches neither the queue nor what the worker has in hand. */
  lemma ClientFrame(s: State, i: nat, t: Sleeper)
    requires i < |s.clients| && !s.clients[i].Pushing?
    ensures var s' := ClientApply(s, i, t);
      && |s'.clients| == |s.clients|
      && s'.queue == s.queue && s'.enqueued == s.enqueued && s'.finished == s.finished
      && s'.busy == s.busy && s'.ready == s.ready && (s.stop ==> s'.stop)
      && (s'.worker == s.worker || (s.worker.Asleep? && s'.worker.Locking?))
  {
    hide WakeAll, FlushFails, FlushSucceeds;
  }

  lemma ClientApplyInv(s: State, i: nat, t: Sleeper)
    requires Inv(s) && i < |s.clients|
    ensures Inv(ClientApply(s, i, t)) && |ClientApply(s, i, t).clients| == |s.clients|
  {
    if s.clients[i].Pushing? {
      var c := s.clients[i].chunk;
      Assoc(s.finished + InFlight(s), s.queue, [c]);
    } else {
      hide ClientApply;
      ClientFrame(s, i, t);
    }
  }

  lemma ApplyInv(s: State, a: Action)
    requires Inv(s) && Enabled(s, a)
    ensures Inv(Apply(s, a)) && |Apply(s, a).clients| == |s.clients|
  {
    hide WorkerApply, ClientApply;
    match a
    case WorkerStep(dbOpens) => WorkerApplyInv(s, dbOpens);
    case ClientStep(i, t) => ClientApplyInv(s, i, t);
    case _ =>
  }

  /** In every reachable state: enqueued = finished ++ in flight ++ queue, in order. */
  lemma {:induction false} ReplayInv(s: State, clients: nat, schedule: seq<Action>)
    requires Init(s, clients) && Follows(s, schedule)
    ensures Inv(Replay(s, schedule)) && |Replay(s, schedule).clients| == clients
    decreases |schedule|
  {
    if schedule == [] {
      assert Inv(s);
    } else {
      var pre := schedule[..|schedule| - 1];
      ReplayInv(s, clients, pre);
      ApplyInv(Replay(s, pre), schedule[|schedule| - 1]);
    }
  }

  /** In every run: a flush that returns success has every chunk enqueued so far inserted exactly once, in order. */
  lemma FlushMeansInserted(s: State, clients: nat, schedule: seq<Action>, i: nat)
    requires Init(s, clients) && Follows(s, schedule)
    requires i < |Replay(s, schedule).clients| && FlushSucceeds(Replay(s, schedule), i)
    ensures Replay(s, schedule).finished == Replay(s, schedule).enqueued
  {
    ReplayInv(s, clients, schedule);
    var e := Replay(s, schedule);
    assert e.finished + [] + [] == e.finished;
  }

  /** In every run: flush reports failure exactly when chunks wait and no worker ever got ready to serve them. */
  lemma FlushFailureIsUnserved(s: State, clients: nat, schedule: seq<Action>, i: nat)
    requires Init(s, clients) && Follows(s, schedule)
    requires i < |Replay(s, schedule).clients| && Replay(s, schedule).clients[i].Flushing?
    ensures var e := Replay(s, schedule);
      FlushFails(e, i) <==> e.queue != [] && (e.worker.Starting? || e.worker.Failed?)
  {
    ReplayInv(s, clients, schedule);
  }

  /** With the queue empty and nothing being inserted, no flush is asleep. */
  ghost predicate SleepersAreOwed(s: State) {
    Drained(s) ==> forall i :: 0 <= i < |s.clients| ==> !s.clients[i].FlushAsleep?
  }

  lemma SleepersWorkerStep(s: State, dbOpens: bool)
    requires Inv(s) && SleepersAreOwed(s)
    ensures SleepersAreOwed(WorkerApply(s, dbOpens))
  {
    hide WakeAll;
  }

  lemma SleepersClientStep(s: State, i: nat, t: Sleeper)
    requires SleepersAreOwed(s) && i < |s.clients|
    ensures SleepersAreOwed(ClientApply(s, i, t))
  {
    hide WakeAll, FlushFails;
  }

  lemma SleepersStep(s: State, a: Action)
    requires Inv(s) && SleepersAreOwed(s) && Enabled(s, a)
    ensures SleepersAreOwed(Apply(s, a))
  {
    hide WorkerApply, ClientApply, Inv, NobodySleeps;
    match a
    case WorkerStep(dbOpens) => SleepersWorkerStep(s, dbOpens);
    case ClientStep(i, t) => SleepersClientStep(s, i, t);
    case _ =>
  }

  /**
   In every run, with any number of clients: no flush sleeps on once the queue is empty and nothing is
   being inserted, so none misses the wake-up that it waits for.
   */
  lemma {:induction false} NoFlushSleepsWhenDrained(s: State, clients: nat, schedule: seq<Action>)
    requires Init(s, clients) && Follows(s, schedule)
    ensures var e := Replay(s, schedule);
      e.queue == [] && !e.busy ==> forall i :: 0 <= i < |e.clients| ==> !e.clients[i].FlushAsleep?
    decreases |schedule|
  {
    if schedule != [] {
      hide Apply, Inv, Enabled;
      var pre := schedule[..|schedule| - 1];
      NoFlushSleepsWhenDrained(s, clients, pre);
      ReplayInv(s, clients, pre);
      SleepersStep(Replay(s, pre), schedule[|schedule| - 1]);
    }
  }

  lemma ClientLeavesFailed(s: State, i: nat, t: Sleeper)
    requires s.worker.Failed? && i < |s.clients|
    ensures var s' := ClientApply(s, i, t);
      s'.worker.Failed? && s'.ready == s.ready && s'.busy == s.busy && s'.finished == s.finished
    ensures ClientApply(s, i, t).queue
         == s.queue + (if s.clients[i].Pushing? then [s.clients[i].chunk] else [])
  {
    hide WakeAll, FlushFails, FlushSucceeds;
    assert s.queue + [] == s.queue;
  }

  lemma {:induction false} FailedStays(s: State, schedule: seq<Action>)
    requires s.worker.Failed? && Follows(s, schedule)
    ensures var e := Replay(s, schedule);
      e.worker.Failed? && e.ready == s.ready && e.finished == s.finished && s.queue <= e.queue
    decreases |schedule|
  {
    hide WakeAll, ClientApply;
    if schedule != [] {
      var pre, a := schedule[..|schedule| - 1], schedule[|schedule| - 1];
      FailedStays(s, pre);
      if a.ClientStep? {
        ClientLeavesFailed(Replay(s, pre), a.client, a.wakes);
      }
    }
  }

  /**
   The worker gets ready when its database opens.  Otherwise it never stores anything, in any run: what is
   enqueued stays in the queue.
   */
  lemma OnlyOpenDatabaseStores(s: State, schedule: seq<Action>)
    requires s.worker.Starting? && Follows(WorkerApply(s, false), schedule)
    ensures WorkerApply(s, true) == s.(ready := true, worker := Locking)
    ensures var e := Replay(WorkerApply(s, false), schedule);
      e.worker.Failed? && e.ready == s.ready && e.finished == s.finished && s.queue <= e.queue
  {
    FailedStays(WorkerApply(s, false), schedule);
  }

  /** In every run: when a worker that became ready leaves, the queue is empty and everything inserted. */
  lemma ExitOnlyWhenDrained(s: State, clients: nat, schedule: seq<Action>, a: Action)
    requires Init(s, clients) && Follows(s, schedule) && Enabled(Replay(s, schedule), a)
    requires !Replay(s, schedule).worker.Exited? && Apply(Replay(s, schedule), a).worker.Exited?
    ensures var e, e' := Replay(s, schedule), Apply(Replay(s, schedule), a);
      e.stop && e.queue == [] && e'.finished == e'.enqueued
  {
    ReplayInv(s, clients, schedule);
    ApplyInv(Replay(s, schedule), a);
    var e' := Apply(Replay(s, schedule), a);
    assert e'.finished + [] + [] == e'.finished;
  }

  // ---------------------------------------------------------------------------------------------
  // One client: a blocked flush always comes back
  // ---------------------------------------------------------------------------------------------

  ghost predicate OneClient(s: State) {
    && Inv(s)
    && |s.clients| == 1
    && var c := s.clients[0];
       && (s.worker.Asleep? && s.queue != [] ==> c.Notifying?)
       && (s.worker.Asleep? && s.stop ==> c.StopNotify?)
       && (s.stop ==> c.StopNotify? || c.Joining? || c.Destroyed?)
       && (c.FlushAsleep? ==> s.ready && !Drained(s))
       && (c.Destroyed? ==> s.worker.Exited? || s.worker.Failed?)
       && (s.worker.Exited? ==> s.queue == [])
       && (c.FlushWoken? ==> s.ready)
       && (c.StopNotify? || c.Joining? || c.Destroyed? ==> s.stop)
  }

  lemma OneClientWorkerStep(s: State, dbOpens: bool)
    requires OneClient(s) && Enabled(s, WorkerStep(dbOpens))
    ensures OneClient(WorkerApply(s, dbOpens))
  {
    hide WakeAll;
    WorkerApplyInv(s, dbOpens);
  }

  lemma OneClientClientStep(s: State, t: Sleeper)
    requires OneClient(s) && Enabled(s, ClientStep(0, t))
    ensures OneClient(ClientApply(s, 0, t))
  {
    hide WakeAll;
    ClientApplyInv(s, 0, t);
  }

  lemma OneClientStep(s: State, a: Action)
    requires OneClient(s) && Enabled(s, a)
    ensures OneClient(Apply(s, a))
  {
    hide WorkerApply, ClientApply;
    match a
    case WorkerStep(dbOpens) => OneClientWorkerStep(s, dbOpens);
    case ClientStep(_, t) => OneClientClientStep(s, t);
    case _ =>
  }

  lemma {:induction false} OneClientReplay(s: State, schedule: seq<Action>)
    requires Init(s, 1) && Follows(s, schedule)
    ensures OneClient(Replay(s, schedule))
    decreases |schedule|
  {
    if schedule != [] {
      var pre := schedule[..|schedule| - 1];
      OneClientReplay(s, pre);
      OneClientStep(Replay(s, pre), schedule[|schedule| - 1]);
    }
  }

  /** Worker steps until everything queued is inserted. */
  function Backlog(s: State): nat {
    3 * |s.queue| + (if s.worker.Inserting? then 2 else if s.worker.Relocking? then 1 else 0)
  }

  ghost predicate WorkerCanMove(s: State) {
    Enabled(s, WorkerStep(true))
  }

  /** Running alone for at most n steps, the worker reaches a state where `goal` holds. */
  ghost predicate WorkerReaches(s: State, goal: State -> bool, n: nat)
    decreases n
  {
    goal(s) || (n > 0 && WorkerCanMove(s) && WorkerReaches(WorkerApply(s, true), goal, n - 1))
  }

  /** A blocked flush leaves the worker able to move, and each of its steps brings the end nearer. */
  lemma BlockedFlushLeavesWorkerAble(s: State)
    requires OneClient(s) && s.clients[0].FlushAsleep?
    ensures s.worker.Locking? || s.worker.Inserting? || s.worker.Relocking?
    ensures var s' := WorkerApply(s, true);
      && OneClient(s')
      && ((s'.clients[0].FlushWoken? && Drained(s')) || (s'.clients[0].FlushAsleep? && Backlog(s') < Backlog(s)))
  {
    OneClientStep(s, WorkerStep(true));
  }

  predicate FlushCanSucceed(s: State) {
    |s.clients| == 1 && FlushSucceeds(s, 0)
  }

  /** So the flush returns success after at most `Backlog` steps of the worker. */
  lemma {:induction false} BlockedFlushComesBack(s: State)
    requires OneClient(s) && s.clients[0].FlushAsleep?
    ensures WorkerReaches(s, FlushCanSucceed, Backlog(s) + 1)
    decreases Backlog(s)
  {
    BlockedFlushLeavesWorkerAble(s);
    var s' := WorkerApply(s, true);
    if s'.clients[0].FlushAsleep? {
      BlockedFlushComesBack(s');
      ReachesWithMore(s', FlushCanSucceed, Backlog(s') + 1, Backlog(s));
    } else {
      assert FlushCanSucceed(s');
    }
  }

  lemma {:induction false} ReachesWithMore(s: State, goal: State -> bool, n: nat, more: nat)
    requires WorkerReaches(s, goal, n) && n <= more
    ensures WorkerReaches(s, goal, more)
    decreases n
  {
    if !goal(s) {
      ReachesWithMore(WorkerApply(s, true), goal, n - 1, more - 1);
    }
  }

  predicate WorkerGone(s: State) {
    s.worker.Exited? || s.worker.Failed?
  }

  /** Steps to the exit: those of the backlog, the last look at the queue, and the start. */
  function StepsToExit(s: State): nat {
    Backlog(s) + (if s.worker.Starting? then 3 else 2)
  }

  /** The destructor's join: a worker that opens its database drains the queue and leaves. */
  lemma {:induction false} JoinComesBack(s: State)
    requires OneClient(s) && s.clients[0].Joining?
    ensures WorkerReaches(s, WorkerGone, StepsToExit(s))
    decreases StepsToExit(s)
  {
    if !WorkerGone(s) {
      OneClientStep(s, WorkerStep(true));
      var s' := WorkerApply(s, true);
      if !WorkerGone(s') {
        JoinComesBack(s');
        ReachesWithMore(s', WorkerGone, StepsToExit(s'), StepsToExit(s) - 1);
      }
    }
  }

  // ---------------------------------------------------------------------------------------------
  // Two clients: a wake-up can be lost
  // ---------------------------------------------------------------------------------------------

  /** Chunks wait, the worker sleeps and every client is blocked in a flush. */
  ghost predicate Deadlocked(s: State) {
    && s.queue != [] && s.ready && s.worker.Asleep? && s.clients != []
    && forall i :: 0 <= i < |s.clients| ==> s.clients[i].FlushAsleep?
  }

  /** Nothing but a spurious wake-up can move a deadlocked state. */
  lemma OnlySpuriousMoves(s: State, a: Action)
    requires Deadlocked(s) && Enabled(s, a)
    ensures a.WorkerSpurious? || a.ClientSpurious?
  {
  }

  ghost predicate CanDeadlock(clients: nat) {
    exists s, schedule :: Init(s, clients) && Follows(s, schedule) && Deadlocked(Replay(s, schedule))
  }

  lemma Extend(s: State, schedule: seq<Action>, a: Action)
    requires Follows(s, schedule) && Enabled(Replay(s, schedule), a)
    ensures Follows(s, schedule + [a]) && Replay(s, schedule + [a]) == Apply(Replay(s, schedule), a)
  {
    assert (schedule + [a])[..|schedule|] == schedule;
  }

  function Start(clients: nat): State {
    State([], false, false, false, Starting, seq(clients, _ => Idle), [], [])
  }

  /** The worker is ready and sleeps; nothing was inserted yet. */
  function Sleeping(queue: seq<Bytes>, clients: seq<Client>): State {
    State(queue, false, false, true, Asleep, clients, queue, [])
  }

  ghost predicate Reached(s: State, p: seq<Action>, e: State) {
    Follows(s, p) && Replay(s, p) == e
  }

  /** Two more actions on the way. */
  lemma Then(s: State, p: seq<Action>, e: State, a: Action, b: Action)
    requires Reached(s, p, e) && Enabled(e, a) && Enabled(Apply(e, a), b)
    ensures Reached(s, p + [a] + [b], Apply(Apply(e, a), b))
  {
    hide Enabled, Apply, Follows, Replay;
    Extend(s, p, a);
    Extend(s, p + [a], b);
  }

  lemma WorkerFallsAsleep(clients: nat)
    ensures Reached(Start(clients), [] + [WorkerStep(true)] + [WorkerStep(true)], Sleeping([], Start(clients).clients))
  {
    assert Reached(Start(clients), [], Start(clients));
    Then(Start(clients), [], Start(clients), WorkerStep(true), WorkerStep(true));
  }

  /** Client 1 pushes and has not notified yet. */
  lemma Pushes(s: State, p: seq<Action>, idle: seq<Client>, x: Bytes) returns (p': seq<Action>)
    requires |idle| >= 2 && idle[1].Idle? && Reached(s, p, Sleeping([], idle))
    ensures Reached(s, p', Sleeping([x], idle[1 := Notifying]))
  {
    hide Replay, Follows, Reached;
    Then(s, p, Sleeping([], idle), ClientCall(1, Enqueue(x)), ClientStep(1, TheWorker));
    p' := p + [ClientCall(1, Enqueue(x))] + [ClientStep(1, TheWorker)];
    assert idle[1 := Pushing(x)][1 := Notifying] == idle[1 := Notifying];
    assert [] + [x] == [x];
  }

  /** Client i starts to flush and waits. */
  lemma FlushBlocks(s: State, p: seq<Action>, clients: seq<Client>, x: Bytes, i: nat) returns (p': seq<Action>)
    requires i < |clients| && clients[i].Idle? && Reached(s, p, Sleeping([x], clients))
    ensures Reached(s, p', Sleeping([x], clients[i := FlushAsleep]))
  {
    hide Replay, Follows, Reached;
    Then(s, p, Sleeping([x], clients), ClientCall(i, Flush), ClientStep(i, TheWorker));
    p' := p + [ClientCall(i, Flush)] + [ClientStep(i, TheWorker)];
    assert clients[i := Flushing][i := FlushAsleep] == clients[i := FlushAsleep];
  }

  /** The first n clients are blocked in a flush and the others between calls. */
  function Blocked(clients: nat, n: nat): (r: seq<Client>)
    ensures |r| == clients && forall i :: 0 <= i < clients ==> r[i] == if i < n then FlushAsleep else Idle
  {
    seq(clients, i requires 0 <= i => if i < n then FlushAsleep else Idle)
  }

  /** One client after the other flushes and waits. */
  lemma {:induction false} AllBlock(s: State, p: seq<Action>, clients: nat, n: nat, x: Bytes) returns (p': seq<Action>)
    requires n <= clients && Reached(s, p, Sleeping([x], Blocked(clients, n)))
    ensures Reached(s, p', Sleeping([x], Blocked(clients, clients)))
    decreases clients - n
  {
    hide Reached, Sleeping;
    p' := p;
    if n < clients {
      p' := FlushBlocks(s, p, Blocked(clients, n), x, n);
      assert Blocked(clients, n)[n := FlushAsleep] == Blocked(clients, n + 1);
      p' := AllBlock(s, p', clients, n + 1, x);
    }
  }

  /** The notification wakes client 0 and not the worker; client 0 looks and waits again. */
  lemma WakeupIsLost(s: State, p: seq<Action>, clients: seq<Client>, x: Bytes) returns (p': seq<Action>)
    requires |clients| >= 2 && clients[0].FlushAsleep? && clients[1].Notifying? && Reached(s, p, Sleeping([x], clients))
    ensures Reached(s, p', Sleeping([x], clients[1 := Idle]))
  {
    hide Replay, Follows, Reached;
    Then(s, p, Sleeping([x], clients), ClientStep(1, TheClient(0)), ClientStep(0, TheWorker));
    p' := p + [ClientStep(1, TheClient(0))] + [ClientStep(0, TheWorker)];
    assert clients[1 := Idle][0 := FlushWoken][0 := FlushAsleep] == clients[1 := Idle];
  }

  /**
   Client 1 pushes, client 0 starts to flush before the notification, the notification goes to client 0,
   and then everybody else flushes too.
   */
  lemma TwoClientsCanDeadlock(clients: nat)
    requires clients >= 2
    ensures CanDeadlock(clients)
  {
    hide Replay, Follows;
    var s := Start(clients);
    WorkerFallsAsleep(clients);
    var p := Pushes(s, [] + [WorkerStep(true)] + [WorkerStep(true)], s.clients, []);
    p := FlushBlocks(s, p, s.clients[1 := Notifying], [], 0);
    p := WakeupIsLost(s, p, s.clients[1 := Notifying][0 := FlushAsleep], []);
    assert s.clients[1 := Notifying][0 := FlushAsleep][1 := Idle] == Blocked(clients, 1);
    p := AllBlock(s, p, clients, 1, []);
    assert Init(s, clients) && Follows(s, p) && Deadlocked(Replay(s, p));
  }

  /** The hand-over can deadlock exactly when more than one client thread uses it. */
  lemma DeadlockIffSeveralClients(clients: nat)
    ensures CanDeadlock(clients) <==> clients >= 2
  {
    if clients >= 2 {
      TwoClientsCanDeadlock(clients);
    } else if CanDeadlock(clients) {
      var s, schedule :| Init(s, clients) && Follows(s, schedule) && Deadlocked(Replay(s, schedule));
      ReplayInv(s, clients, schedule);
      if clients == 1 {
        OneClientReplay(s, schedule);
      }
      assert false;
    }
  }
}
