/**
 The executor object: building the graph with `add_node` and the single-threaded `run_serial`,
 which pushes tickets into the ring and never takes one out.
 */
module SerialDag {
  import opened ByteText
  import opened TaskGraph
  import Ring = TicketRing
  import DagMeasure
  import DagTheorems
  import ParallelDag

  // ---------------------------------------------------------------------------------------------
  // Reference: run the tasks in index order
  // ---------------------------------------------------------------------------------------------

  /** The outputs of the first n nodes when tasks run one after the other in index order. */
  ghost function InOrder(job: Job, n: nat): (outs: seq<Bytes>)
    requires Valid(job) && n <= |job.deps|
    ensures |outs| == n
  {
    if n == 0 then []
    else
      var before := InOrder(job, n - 1);
      before + [job.task(n - 1, map d | d in job.deps[n - 1] :: before[d])]
  }

  lemma {:induction false} InOrderPrefix(job: Job, m: nat, n: nat)
    requires Valid(job) && m <= n <= |job.deps|
    ensures InOrder(job, n)[..m] == InOrder(job, m)
    decreases n
  {
    if m < n {
      InOrderPrefix(job, m, n - 1);
      assert InOrder(job, n)[..m] == InOrder(job, n - 1)[..m];
    }
  }

  /** The in-order outputs are the values the graph defines. */
  lemma {:induction false} InOrderIsValue(job: Job, j: nat)
    requires Valid(job) && j < |job.deps|
    ensures InOrder(job, |job.deps|)[j] == Value(job, j)
    decreases j
  {
    var before := InOrder(job, j);
    InOrderPrefix(job, j + 1, |job.deps|);
    assert InOrder(job, |job.deps|)[j] == InOrder(job, |job.deps|)[..j + 1][j];
    forall d | d in job.deps[j] ensures before[d] == Value(job, d) {
      InOrderIsValue(job, d);
      InOrderPrefix(job, j, |job.deps|);
      assert before[d] == InOrder(job, |job.deps|)[..j][d];
    }
    assert (map d | d in job.deps[j] :: before[d]) == (map d | d in job.deps[j] :: Value(job, d));
  }

  /** A finished parallel run, on any schedule, has the outputs of running the tasks in index order. */
  lemma ParallelEqualsInOrder(job: Job, s: ParallelDag.State, workers: nat, schedule: seq<ParallelDag.Pick>, w: nat)
    requires Valid(job) && DagTheorems.FinishedRun(job, s, workers, schedule, w)
    ensures |ParallelDag.Replay(job, s, schedule).nodes| == |job.deps|
    ensures forall j :: 0 <= j < |job.deps| ==>
      ParallelDag.Replay(job, s, schedule).nodes[j].output == InOrder(job, |job.deps|)[j]
  {
    DagTheorems.FinishedRunOutputs(job, s, workers, schedule, w);
    forall j | 0 <= j < |job.deps|
      ensures ParallelDag.Replay(job, s, schedule).nodes[j].output == InOrder(job, |job.deps|)[j]
    {
      InOrderIsValue(job, j);
    }
  }

  /** On the first lap a position is its own slot and fits the sequence word. */
  lemma FirstLap(pos: nat)
    requires pos < Ring.RING_SLOTS
    ensures Ring.SlotOf(pos) == pos && Ring.Truncate(pos) == pos
  {
  }

  /** The nodes that were pending before and are runnable now. */
  function Scheduled(before: seq<Node>, after: seq<Node>): set<nat> {
    set j: nat | j < |before| && j < |after| && before[j].state.Pending? && after[j].state.Runnable?
  }

  /** A node that is being processed is not among them. */
  lemma ScheduledBesides(before: seq<Node>, mid: seq<Node>, after: seq<Node>, idx: nat)
    requires |before| == |mid| == |after| && idx < |mid| && mid == before[idx := mid[idx]]
    requires mid[idx].state.Done? && after[idx].state.Done?
    ensures Scheduled(mid, after) == Scheduled(before, after)
  {
  }

  lemma ScheduledMore(before: seq<Node>, mid: seq<Node>, j: nat, n: Node)
    requires |before| == |mid| && j < |mid| && mid[j] == before[j]
    ensures Scheduled(before, mid[j := n])
         == Scheduled(before, mid) + (if before[j].state.Pending? && n.state.Runnable? then {j} else {})
  {
  }

  lemma ScheduledNone(nodes: seq<Node>, queued: set<nat>)
    ensures queued + Scheduled(nodes, nodes) == queued
  {
  }

  lemma ConsumersOfExtended(job: Job, kept: set<nat>, d: nat)
    ensures Consumers(Job(job.deps + [kept], job.task), d)
         == Consumers(job, d) + (if d in kept then {|job.deps|} else {})
  {
  }

  // ---------------------------------------------------------------------------------------------
  // The object
  // ---------------------------------------------------------------------------------------------

  class SpeculativeDag {
    const task: Task
    var deps: seq<set<nat>>
    var consumers: seq<set<nat>>
    var nodes: seq<Node>
    var slots: seq<Ring.Slot>
    var enqueuePos: nat
    var completed: nat
    /** The nodes that got a ticket. */
    ghost var queued: set<nat>

    function Graph(): Job
      reads this`deps
    {
      Job(deps, task)
    }

    ghost predicate ValidGraph()
      reads this`deps, this`nodes, this`consumers
    {
      && Valid(Graph())
      && |nodes| == |deps|
      && |consumers| == MAX_NODES
      && (forall d :: 0 <= d < MAX_NODES ==> consumers[d] == Consumers(Graph(), d))
    }

    /** Every ticket belongs to its own scheduled node and is published, and the slots ahead are untouched. */
    ghost predicate RingRoom()
      reads this`slots, this`enqueuePos, this`queued, this`nodes
    {
      && |slots| == Ring.RING_SLOTS
      && |queued| == enqueuePos
      && (forall j :: j in queued ==> j < |nodes| && !nodes[j].state.Pending?)
      && (forall k :: enqueuePos <= k < Ring.RING_SLOTS ==> slots[k].sequence == k)
      && (forall k :: 0 <= k < enqueuePos && k < Ring.RING_SLOTS ==>
           slots[k].sequence == k + 1 && slots[k].token in queued)
    }

    ghost predicate Fresh()
      reads this`enqueuePos, this`nodes
    {
      && enqueuePos == 0
      && forall j :: 0 <= j < |nodes| ==> nodes[j].state.Pending? && nodes[j].seen == {} && nodes[j].runs == 0
    }

    constructor (task: Task, emptyToken: nat)
      ensures ValidGraph() && RingRoom() && Fresh() && deps == [] && this.task == task
    {
      this.task := task;
      deps := [];
      nodes := [];
      consumers := seq(MAX_NODES, _ => {});
      slots := seq(Ring.RING_SLOTS, k requires 0 <= k => Ring.Slot(emptyToken, k));
      enqueuePos := 0;
      completed := 0;
      queued := {};
    }

    /** Enters node idx as a consumer of each of its dependencies, lowest bit first. */
    method LinkConsumers(idx: nat, kept: set<nat>)
      requires |consumers| == MAX_NODES && forall d :: d in kept ==> d < MAX_NODES
      modifies this`consumers
      ensures |consumers| == MAX_NODES
      ensures forall d: nat :: d < MAX_NODES ==>
        consumers[d] == old(consumers)[d] + (if d in kept then {idx} else {})
    {
      var bits := kept;
      while bits != {}
        invariant bits <= kept && |consumers| == MAX_NODES
        invariant forall d: nat :: d < MAX_NODES ==>
          consumers[d] == old(consumers)[d] + (if d in kept && d !in bits then {idx} else {})
        decreases bits
      {
        ghost var low := Lowest(bits);
        var d :| d in bits && forall k :: k in bits ==> d <= k;
        bits := bits - {d};
        consumers := consumers[d := consumers[d] + {idx}];
      }
    }

    /** Registers a node, also after a run; dependency bits that do not name an earlier node are dropped. */
    method AddNode(mask: set<nat>, hasTask: bool) returns (idx: nat)
      requires ValidGraph() && RingRoom()
      modifies this`deps, this`nodes, this`consumers
      ensures ValidGraph() && RingRoom() && (old(Fresh()) ==> Fresh())
      ensures nodes == (if idx < 64 then old(nodes) + [Node(Pending, {}, [], 0)] else old(nodes))
      ensures idx == (if |old(deps)| < 64 && hasTask then |old(deps)| else 64)
      ensures deps == (if idx < 64 then old(deps) + [set d | d in mask && d < |old(deps)|] else old(deps))
    {
      if |deps| >= MAX_NODES || !hasTask {
        return MAX_NODES;
      }
      idx := |deps|;
      var kept := set d | d in mask && d < idx;
      LinkConsumers(idx, kept);
      deps := deps + [kept];
      nodes := nodes + [Node(Pending, {}, [], 0)];
      forall d: nat | d < MAX_NODES ensures consumers[d] == Consumers(Graph(), d) {
        ConsumersOfExtended(old(Graph()), kept, d);
      }
    }

    /** `enqueue` without other threads: the sequence word matches on the first test. */
    method Enqueue(token: nat)
      requires ValidGraph() && RingRoom() && token < |nodes| && !nodes[token].state.Pending? && token !in queued
      modifies this`slots, this`enqueuePos, this`queued
      ensures ValidGraph() && RingRoom()
      ensures old(enqueuePos) < |nodes| && enqueuePos == old(enqueuePos) + 1 && queued == old(queued) + {token}
      ensures old(slots)[Ring.SlotOf(old(enqueuePos))].sequence == Ring.Truncate(old(enqueuePos))
      ensures slots == old(slots)[Ring.SlotOf(old(enqueuePos)) := Ring.Slot(token, Ring.Truncate(old(enqueuePos) + 1))]
    {
      hide Ring.SlotOf, Ring.Truncate, Consumers;
      DagMeasure.SubsetSize(queued + {token}, |nodes|);
      var pos := enqueuePos;
      FirstLap(pos);
      FirstLap(pos + 1);
      enqueuePos := enqueuePos + 1;
      var slot := Ring.SlotOf(pos);
      assert slots[slot].sequence == Ring.Truncate(pos);
      slots := slots[slot := slots[slot].(token := token)];
      slots := slots[slot := slots[slot].(sequence := Ring.Truncate(pos + 1))];
      queued := queued + {token};
    }

    /** What telling the dependents of idx makes of node j. */
    function AfterTelling(n: Node, j: nat, idx: nat): Node
      requires j < |deps|
      reads this`deps
    {
      if idx !in deps[j] then n
      else
        var seen := n.seen + {idx};
        n.(seen := seen, state := if n.state.Pending? && deps[j] <= seen then Runnable else n.state)
    }

    /** One `fetch_or` on node j, and its `enqueue` when the mask is complete. */
    method TellOne(idx: nat, j: nat)
      requires ValidGraph() && RingRoom() && j < |nodes| && idx in deps[j]
      modifies this`nodes, this`slots, this`enqueuePos, this`queued
      ensures ValidGraph() && RingRoom()
      ensures nodes == old(nodes)[j := AfterTelling(old(nodes)[j], j, idx)]
      ensures if old(nodes)[j].state.Pending? && deps[j] <= old(nodes)[j].seen + {idx} then
          && queued == old(queued) + {j} && enqueuePos == old(enqueuePos) + 1
          && slots == old(slots)[Ring.SlotOf(old(enqueuePos)) := Ring.Slot(j, Ring.Truncate(enqueuePos))]
        else queued == old(queued) && enqueuePos == old(enqueuePos) && slots == old(slots)
    {
      var seen := nodes[j].seen + {idx};
      nodes := nodes[j := nodes[j].(seen := seen)];
      if deps[j] <= seen && nodes[j].state.Pending? {
        assert j !in queued;
        nodes := nodes[j := nodes[j].(state := Runnable)];
        Enqueue(j);
      }
    }

    /** The dependents of idx are told, except those in bits. */
    ghost predicate Telling(before: seq<Node>, after: seq<Node>, bits: set<nat>, idx: nat)
      reads this`deps
    {
      && |before| == |after| == |deps|
      && forall j :: 0 <= j < |after| ==>
           after[j] == if j in bits then before[j] else AfterTelling(before[j], j, idx)
    }

    lemma TellingStarts(idx: nat)
      requires ValidGraph() && idx < |nodes|
      ensures idx < |consumers| && Telling(nodes, nodes, consumers[idx], idx)
      ensures forall j: nat :: j in consumers[idx] <==> j < |nodes| && idx in deps[j]
    {
      hide AfterTelling;
      ConsumersOf(idx);
      forall j: nat | j < |nodes| && j !in consumers[idx] ensures AfterTelling(nodes[j], j, idx) == nodes[j] {
        NotTold(j, idx, nodes[j]);
      }
    }

    lemma TellingStep(before: seq<Node>, mid: seq<Node>, bits: set<nat>, j: nat, idx: nat)
      requires Telling(before, mid, bits, idx) && j in bits && j < |deps| && idx in deps[j]
      ensures mid[j] == before[j] && Telling(before, mid[j := AfterTelling(mid[j], j, idx)], bits - {j}, idx)
      ensures Scheduled(before, mid[j := AfterTelling(mid[j], j, idx)])
           == Scheduled(before, mid)
              + (if mid[j].state.Pending? && deps[j] <= mid[j].seen + {idx} then {j} else {})
    {
      hide AfterTelling, Scheduled;
      Completes(mid[j], j, idx);
      ScheduledMore(before, mid, j, AfterTelling(mid[j], j, idx));
    }

    method NotifyDependents(idx: nat)
      requires ValidGraph() && RingRoom() && idx < |nodes|
      modifies this`nodes, this`slots, this`enqueuePos, this`queued
      ensures ValidGraph() && RingRoom()
      ensures |nodes| == |old(nodes)| == |deps|
      ensures forall j :: 0 <= j < |nodes| ==> nodes[j] == AfterTelling(old(nodes)[j], j, idx)
      ensures queued == old(queued) + Scheduled(old(nodes), nodes)
    {
      hide RingRoom, Scheduled, AfterTelling, ValidGraph, Ring.SlotOf, Ring.Truncate;
      TellingStarts(idx);
      ScheduledNone(nodes, queued);
      var bits := consumers[idx];
      while bits != {}
        invariant ValidGraph() && RingRoom() && bits <= consumers[idx]
        invariant Telling(old(nodes), nodes, bits, idx)
        invariant queued == old(queued) + Scheduled(old(nodes), nodes)
        decreases bits
      {
        ghost var low := Lowest(bits);
        var j :| j in bits && forall k :: k in bits ==> j <= k;
        TellingStep(old(nodes), nodes, bits, j, idx);
        bits := bits - {j};
        TellOne(idx, j);
      }
    }

    lemma Completes(n: Node, j: nat, idx: nat)
      requires j < |deps| && idx in deps[j]
      ensures n.state.Pending? ==> (AfterTelling(n, j, idx).state.Runnable? <==> deps[j] <= n.seen + {idx})
    {
    }

    lemma ConsumersOf(idx: nat)
      requires ValidGraph() && idx < |nodes|
      ensures idx < |consumers| && |deps| == |nodes|
      ensures forall j: nat :: j in consumers[idx] <==> j < |nodes| && idx in deps[j]
    {
      assert consumers[idx] == Consumers(Graph(), idx);
    }

    /** One node from claim to count; both compare-exchanges are kept. */
    method ProcessNode(idx: nat)
      requires ValidGraph() && RingRoom() && idx < |nodes|
      modifies this`nodes, this`slots, this`enqueuePos, this`queued, this`completed
      ensures ValidGraph() && RingRoom()
      ensures if old(nodes)[idx].state.Runnable? || old(nodes)[idx].state.Pending? then
          var out := task(idx, DepOutputs(Graph(), old(nodes), idx));
          && completed == old(completed) + 1
          && nodes[idx] == Node(Done, old(nodes)[idx].seen, out, old(nodes)[idx].runs + 1)
          && forall j :: 0 <= j < |nodes| && j != idx ==> nodes[j] == AfterTelling(old(nodes)[j], j, idx)
        else completed == old(completed) && nodes == old(nodes)
      ensures queued == old(queued) + Scheduled(old(nodes), nodes)
    {
      hide Scheduled, RingRoom, ValidGraph, AfterTelling;
      if nodes[idx].state.Runnable? {
        RunTask(idx);
      } else if nodes[idx].state.Pending? {
        RunTask(idx);
      } else {
        ScheduledNone(nodes, queued);
        return;
      }
      ghost var mid := nodes;
      NotifyDependents(idx);
      completed := completed + 1;
      NotTold(idx, idx, mid[idx]);
      ScheduledBesides(old(nodes), mid, nodes, idx);
    }

    /** Between the claim and the notifications: the task is called and its output published. */
    method RunTask(idx: nat)
      requires ValidGraph() && RingRoom() && idx < |nodes|
      modifies this`nodes
      ensures ValidGraph() && RingRoom()
      ensures nodes == old(nodes)[idx :=
        Node(Done, old(nodes)[idx].seen, task(idx, DepOutputs(Graph(), old(nodes), idx)), old(nodes)[idx].runs + 1)]
    {
      nodes := nodes[idx := nodes[idx].(state := Running)];
      var out := task(idx, DepOutputs(Graph(), nodes, idx));
      assert DepOutputs(Graph(), nodes, idx) == DepOutputs(Graph(), old(nodes), idx);
      nodes := nodes[idx := nodes[idx].(output := out, runs := nodes[idx].runs + 1)];
      nodes := nodes[idx := nodes[idx].(state := Done)];
    }

    lemma NotTold(j: nat, idx: nat, n: Node)
      requires ValidGraph() && j < |deps| && (idx == j || idx !in deps[j])
      ensures AfterTelling(n, j, idx) == n
    {
    }

    /** The nodes whose mask is not empty and complete once the first i nodes ran. */
    ghost function Told(i: nat): set<nat>
      reads this`deps
    {
      set j: nat | j < |deps| && deps[j] != {} && forall d :: d in deps[j] ==> d < i
    }

    /** The state after the first i nodes ran in index order. */
    ghost predicate RanUpTo(i: nat)
      requires ValidGraph() && i <= |nodes|
      reads this
    {
      queued == Told(i) &&
      forall j: nat :: j < |nodes| ==>
        && nodes[j].seen == (set d | d in deps[j] && d < i)
        && (if j < i then nodes[j].state.Done? && nodes[j].runs == 1 && nodes[j].output == Value(Graph(), j)
            else nodes[j].state == (if j in Told(i) then Runnable else Pending) && nodes[j].runs == 0)
    }

    /**
     Runs every task exactly once, in one outer pass, with the outputs of running in index order;
     at most one ticket per node is taken although nobody drains the ring.
     */
    method RunSerial() returns (passes: nat)
      requires ValidGraph() && RingRoom() && Fresh()
      modifies this`nodes, this`slots, this`enqueuePos, this`queued, this`completed
      ensures ValidGraph() && RingRoom()
      ensures passes == if |deps| == 0 then 0 else 1
      ensures forall j :: 0 <= j < |nodes| ==>
        nodes[j].state.Done? && nodes[j].runs == 1 && nodes[j].output == InOrder(Graph(), |deps|)[j]
      ensures completed == old(completed) + |nodes|
      ensures queued == (set j: nat | j < |nodes| && deps[j] != {}) && enqueuePos == |queued| <= |nodes|
    {
      hide RanUpTo, RingRoom;
      passes := 0;
      var total := |deps|;
      NoneRan();
      if total == 0 {
        AllRan();
        return;
      }
      var done := 0;
      while done < total
        invariant ValidGraph() && RingRoom() && total == |deps|
        invariant done == 0 || done == total
        invariant passes == (if done == 0 then 0 else 1) && completed == old(completed) + done && RanUpTo(done)
        decreases total - done
      {
        var progressed := false;
        passes := passes + 1;
        var i := 0;
        while i < total
          invariant ValidGraph() && RingRoom() && total == |deps|
          invariant i <= total && done == i && (progressed <==> i > 0) && passes == 1
          invariant completed == old(completed) + i && RanUpTo(i)
        {
          var seen, st := nodes[i].seen, nodes[i].state;
          TurnComes(i);
          if deps[i] <= seen && !st.Done? && (st.Pending? || st.Runnable?) {
            ProcessInTurn(i);
            done := done + 1;
            progressed := true;
          }
          i := i + 1;
        }
        if !progressed {
          break;
        }
      }
      AllRan();
    }

    /** With every task run, the outputs are those of index order and no node had two tickets. */
    lemma AllRan()
      requires ValidGraph() && RingRoom() && RanUpTo(|nodes|)
      ensures queued == (set j: nat | j < |nodes| && deps[j] != {}) && enqueuePos == |queued| <= |nodes|
      ensures forall j :: 0 <= j < |nodes| ==>
        nodes[j].state.Done? && nodes[j].runs == 1 && nodes[j].output == InOrder(Graph(), |deps|)[j]
    {
      DagMeasure.SubsetSize(queued, |nodes|);
      forall j | 0 <= j < |nodes| ensures nodes[j].output == InOrder(Graph(), |deps|)[j] {
        InOrderIsValue(Graph(), j);
      }
    }

    lemma NoneRan()
      requires ValidGraph() && RingRoom() && Fresh()
      ensures RanUpTo(0)
    {
    }

    /** When the pass reaches node i, everything it depends on has run. */
    lemma TurnComes(i: nat)
      requires ValidGraph() && i < |nodes| && RanUpTo(i)
      ensures deps[i] <= nodes[i].seen && (nodes[i].state.Pending? || nodes[i].state.Runnable?)
    {
    }

    method ProcessInTurn(i: nat)
      requires ValidGraph() && RingRoom() && i < |nodes| && RanUpTo(i)
      modifies this`nodes, this`slots, this`enqueuePos, this`queued, this`completed
      ensures ValidGraph() && RingRoom() && RanUpTo(i + 1) && completed == old(completed) + 1
    {
      hide RingRoom;
      TurnComes(i);
      DepOutputsAreValues(i);
      ProcessNode(i);
    }

    lemma DepOutputsAreValues(i: nat)
      requires ValidGraph() && i < |nodes| && RanUpTo(i)
      ensures task(i, DepOutputs(Graph(), nodes, i)) == Value(Graph(), i)
    {
      assert DepOutputs(Graph(), nodes, i) == map d | d in deps[i] :: Value(Graph(), d);
    }
  }
}
