/**
 The graph and the convergence loop of the agent model, as values.

 The graph library is outside the model: a graph is its topology and the
 sequence of its node records, in the library's node order. The injected
 initializer and stepper, and the convergence test, are arbitrary functions;
 the facts proved here hold for every choice of them.
 */
module Simulation {
  import opened Values
  import opened Parameters

  /** The data a node carries: field name to value. */
  type Record = map<string, Value>

  datatype Topology = Complete | Cycle | Wheel

  datatype Graph = Graph(topology: Topology, nodes: seq<Record>)

  /**
   What the initializer returns, given the parameter table it can read and
   the number of calls made to it before (across all initializations). The
   call number stands in for its randomness: every call may give a new record.
   */
  type Initializer = (Table, nat) -> Record

  /** The effect of one call of the stepper on the node records. */
  type Stepper = seq<Record> -> seq<Record>

  /** The convergence test: node records, data key and threshold. */
  type Convergence = (seq<Record>, Value, Value) -> bool

  /**
   The topology a `graph_type` parameter selects. The choice is open-ended:
   anything that is not exactly "complete" or "cycle" gives a wheel.
   */
  function TopologyOf(graphType: Value): (t: Topology)
    ensures t == Complete <==> graphType == Str("complete")
    ensures t == Cycle <==> graphType == Str("cycle")
    ensures t == Wheel <==> graphType != Str("complete") && graphType != Str("cycle")
  {
    if graphType == Str("complete") then Complete
    else if graphType == Str("cycle") then Cycle
    else Wheel
  }

  /** A freshly built graph's records: one empty record per node. */
  function EmptyNodes(n: nat): (r: seq<Record>)
    ensures |r| == n && forall i :: 0 <= i < n ==> r[i] == map[]
  {
    seq(n, _ => map[])
  }

  /**
   Node i's record after the initializer's record for call i has been merged
   into it: the initializer's fields overwrite, the node's other fields stay.
   */
  function Populate(nodes: seq<Record>, init: Initializer, params: Table, calls: nat): (r: seq<Record>)
    ensures |r| == |nodes|
    ensures forall i :: 0 <= i < |r| ==> r[i].Keys == nodes[i].Keys + init(params, calls + i).Keys
    ensures forall i, k :: 0 <= i < |r| && k in init(params, calls + i) ==> r[i][k] == init(params, calls + i)[k]
    ensures forall i, k :: 0 <= i < |r| && k in nodes[i] && k !in init(params, calls + i) ==> r[i][k] == nodes[i][k]
  {
    seq(|nodes|, i requires 0 <= i < |nodes| => nodes[i] + init(params, calls + i))
  }

  /** The node records after k steps. */
  function Iterate(step: Stepper, nodes: seq<Record>, k: nat): seq<Record>
  {
    if k == 0 then nodes else step(Iterate(step, nodes, k - 1))
  }

  /** The timestep bound as a count: a negative bound allows no step. */
  function Budget(maxTimesteps: int): (b: nat)
    ensures maxTimesteps < 0 ==> b == 0
    ensures 0 <= maxTimesteps ==> b == maxTimesteps
  {
    if maxTimesteps < 0 then 0 else maxTimesteps
  }

  /** The convergence test with its key and threshold fixed. */
  function Done(converged: Convergence, key: Value, threshold: Value): seq<Record> -> bool
  {
    nodes => converged(nodes, key, threshold)
  }

  /**
   The number of steps the convergence loop takes from `nodes`: it stops at
   the first state that `done` accepts, or once `budget` steps are taken.
   */
  function Steps(step: Stepper, done: seq<Record> -> bool, nodes: seq<Record>, budget: nat): (t: nat)
    ensures t <= budget
    ensures done(nodes) ==> t == 0
    decreases budget
  {
    if budget == 0 || done(nodes) then 0 else 1 + Steps(step, done, step(nodes), budget - 1)
  }

  /** Taking one step first and then k steps is taking k + 1 steps. */
  lemma {:induction false} IterateShift(step: Stepper, nodes: seq<Record>, k: nat)
    ensures Iterate(step, step(nodes), k) == Iterate(step, nodes, k + 1)
  {
    if k > 0 {
      IterateShift(step, nodes, k - 1);
    }
  }

  /** A loop that stops before the budget stops at a converged state. */
  lemma {:induction false} StepsExit(step: Stepper, done: seq<Record> -> bool, nodes: seq<Record>, budget: nat)
    ensures var t := Steps(step, done, nodes, budget);
      t < budget ==> done(Iterate(step, nodes, t))
    decreases budget
  {
    if budget > 0 && !done(nodes) {
      var t' := Steps(step, done, step(nodes), budget - 1);
      StepsExit(step, done, step(nodes), budget - 1);
      IterateShift(step, nodes, t');
    }
  }

  /** No state before the exit is converged: the loop stops at the first one. */
  lemma {:induction false} StepsFirst(step: Stepper, done: seq<Record> -> bool, nodes: seq<Record>, budget: nat)
    ensures forall j :: 0 <= j < Steps(step, done, nodes, budget) ==> !done(Iterate(step, nodes, j))
    decreases budget
  {
    if budget > 0 && !done(nodes) {
      StepsFirst(step, done, step(nodes), budget - 1);
      forall j | 0 < j < Steps(step, done, nodes, budget)
        ensures !done(Iterate(step, nodes, j))
      {
        IterateShift(step, nodes, j - 1);
      }
    }
  }

  /**
   `Steps` is the only count with these three properties: within the budget,
   no converged state before it, and a converged state at it unless the
   budget is used up.
   */
  lemma StepsUnique(step: Stepper, done: seq<Record> -> bool, nodes: seq<Record>, budget: nat, t: nat)
    requires t <= budget
    requires forall j :: 0 <= j < t ==> !done(Iterate(step, nodes, j))
    requires t < budget ==> done(Iterate(step, nodes, t))
    ensures t == Steps(step, done, nodes, budget)
  {
    StepsExit(step, done, nodes, budget);
    StepsFirst(step, done, nodes, budget);
  }
}
