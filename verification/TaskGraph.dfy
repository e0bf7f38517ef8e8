/** The task graph that `add_node` builds, and the outputs it defines. */
module TaskGraph {
  import opened ByteText

  const MAX_NODES: nat := 64

  /** A task whose output depends only on its index and on the outputs of its declared dependencies. */
  type Task = (nat, map<nat, Bytes>) -> Bytes

  /** `deps[j]` is the dependency mask of node j, as a set of indices. */
  datatype Job = Job(deps: seq<set<nat>>, task: Task)

  /** What `add_node` establishes. */
  predicate Valid(job: Job) {
    && |job.deps| <= MAX_NODES
    && forall j, d :: 0 <= j < |job.deps| && d in job.deps[j] ==> d < j
  }

  function Consumers(job: Job, d: nat): set<nat> {
    set j: nat | j < |job.deps| && d in job.deps[j]
  }

  /** The output node j has to end with, whatever the schedule. */
  ghost function Value(job: Job, j: nat): Bytes
    requires Valid(job) && j < |job.deps|
    decreases j
  {
    job.task(j, map d | d in job.deps[j] :: Value(job, d))
  }

  datatype NodeState = Pending | Runnable | Running | Done

  /** `runs` counts invocations of the task function; no step reads it. */
  datatype Node = Node(state: NodeState, seen: set<nat>, output: Bytes, runs: nat)

  function DepOutputs(job: Job, nodes: seq<Node>, j: nat): map<nat, Bytes>
    requires j < |job.deps|
  {
    map d | d in job.deps[j] && d < |nodes| :: nodes[d].output
  }

  /** The lowest set bit. */
  ghost function Lowest(bits: set<nat>): (i: nat)
    requires bits != {}
    ensures i in bits && forall k :: k in bits ==> i <= k
  {
    var x :| x in bits;
    if bits == {x} then x
    else
      var rest := bits - {x};
      assert bits == rest + {x};
      var y := Lowest(rest);
      if x < y then x else y
  }
}
