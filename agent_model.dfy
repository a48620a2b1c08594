/**
 The `AgentModel` class: a parameter store, a graph of node records, the
 injected initializer and stepper, and the timestep bound, all updated in
 place by the methods below.
 */
module AgentModels {
  import opened Values
  import opened Parameters
  import opened Simulation

  const DefaultMaxTimesteps: int := 100000

  class AgentModel {
    var parameters: Table
    var graph: Option<Graph>
    var initialDataFunction: Option<Initializer>
    var timestepFunction: Option<Stepper>
    var maxTimesteps: int

    /** How often the initializer has been called; each call receives it. */
    var initializerCalls: nat
    /** How often the stepper has been called. */
    ghost var stepperCalls: nat

    /** The protected parameters are always present. */
    ghost predicate Valid()
      reads this`parameters
    {
      parameters.Valid()
    }

    constructor ()
      ensures Valid()
      ensures parameters == Defaults() && graph == None
      ensures initialDataFunction == None && timestepFunction == None
      ensures maxTimesteps == DefaultMaxTimesteps
      ensures initializerCalls == 0 && stepperCalls == 0
    {
      parameters := Defaults();
      graph := None;
      initialDataFunction := None;
      timestepFunction := None;
      maxTimesteps := DefaultMaxTimesteps;
      initializerCalls := 0;
      stepperCalls := 0;
    }

    /** `update_parameters`: merge a patch into the store. */
    method UpdateParameters(patch: Table)
      requires Valid() && patch.Wellformed()
      modifies this`parameters
      ensures Valid()
      ensures parameters == Merge(old(parameters), patch)
      ensures parameters.values.Keys == old(parameters.values.Keys) + patch.values.Keys
      ensures forall k :: k in patch.values ==> parameters.values[k] == patch.values[k]
      ensures forall k :: k in old(parameters.values) && k !in patch.values ==>
                parameters.values[k] == old(parameters.values[k])
      ensures parameters.keys == old(parameters.keys) + Filter(patch.keys, old(parameters.values.Keys))
    {
      MergeSpec(parameters, patch);
      parameters := Merge(parameters, patch);
    }

    /**
     `delete_parameters`: with no keys (None or empty) reset the store to the
     defaults; otherwise delete the keys in order, raising KeyError at the
     first one that is absent or protected, without undoing earlier deletions.
     */
    method DeleteParameters(keys: Option<seq<string>>) returns (r: Result<bool>)
      requires Valid()
      modifies this`parameters
      ensures Valid()
      ensures r.Success? ==> r.value
      ensures r.Failure? ==> r.error == KeyError
      ensures keys.None? || keys.value == [] ==> parameters == Defaults() && r.Success?
      ensures keys.Some? && keys.value != [] ==>
                (parameters, r.Success?) == DeleteKeys(old(parameters), keys.value)
    {
      if keys.None? || keys.value == [] {
        parameters := Defaults();
        r := Success(true);
      } else {
        DeleteKeysValid(parameters, keys.value);
        var ok := DeleteEach(keys.value);
        r := if ok then Success(true) else Failure(KeyError);
      }
    }

    /** The deletion loop of `delete_parameters`: one `pop` per key, in order. */
    method DeleteEach(ks: seq<string>) returns (ok: bool)
      modifies this`parameters
      ensures (parameters, ok) == DeleteKeys(old(parameters), ks)
    {
      var i := 0;
      ok := true;
      while i < |ks|
        invariant 0 <= i <= |ks|
        invariant ok
        invariant DeleteKeys(old(parameters), ks) == DeleteKeys(parameters, ks[i..])
      {
        var k := ks[i];
        assert ks[i..][0] == k && ks[i..][1..] == ks[i + 1..];
        if k !in parameters.values || k in Protected {
          ok := false;
          break;
        }
        parameters := Remove(parameters, k);
        i := i + 1;
      }
    }

    /** `list_parameters`: the keys in insertion order. */
    method ListParameters() returns (ks: seq<string>)
      requires Valid()
      ensures ks == parameters.keys
      ensures Distinct(ks)
      ensures forall k :: k in ks <==> k in parameters.values
      ensures forall k :: k in Protected ==> k in ks
    {
      ks := parameters.keys;
    }

    /** `change_max_timesteps`: any integer is accepted. */
    method ChangeMaxTimesteps(timesteps: int)
      modifies this`maxTimesteps
      ensures maxTimesteps == timesteps
    {
      maxTimesteps := timesteps;
    }

    /** `__getitem__`: the value of a key, or KeyError when it is absent. */
    method Get(key: string) returns (r: Result<Value>)
      ensures key in parameters.values ==> r == Success(parameters.values[key])
      ensures key !in parameters.values ==> r == Failure(KeyError)
    {
      r := Lookup(parameters, key);
    }

    /** `__setitem__`: assign one key, creating it when it is absent. */
    method Set(key: string, value: Value)
      requires Valid()
      modifies this`parameters
      ensures Valid()
      ensures parameters == Put(old(parameters), key, value)
      ensures Lookup(parameters, key) == Success(value)
    {
      parameters := Put(parameters, key, value);
      GetAfterSet(old(parameters), key, value);
    }

    /** `set_graph` (the library type test is not modelled). */
    method SetGraph(g: Option<Graph>)
      modifies this`graph
      ensures graph == g
    {
      graph := g;
    }

    method GetGraph() returns (g: Option<Graph>)
      ensures g == graph
    {
      g := graph;
    }

    method SetInitialDataFunction(f: Option<Initializer>)
      modifies this`initialDataFunction
      ensures initialDataFunction == f
    {
      initialDataFunction := f;
    }

    method SetTimestepFunction(f: Option<Stepper>)
      modifies this`timestepFunction
      ensures timestepFunction == f
    {
      timestepFunction := f;
    }

    /**
     `initialize_graph`: build a new graph of the selected topology (a count
     that is not a non-negative integer fails first, as in the graph library),
     replacing the old one BEFORE checking that an initializer is set, then merge one
     initializer record into each node, calling the initializer once per node.
     */
    method InitializeGraph() returns (r: Outcome)
      requires Valid()
      modifies this`graph, this`initializerCalls
      ensures Valid()
      ensures var n := parameters.values[NumNodes];
              var topology := TopologyOf(parameters.values[GraphType]);
        if !n.Int? || n.i < 0 then
          r == Fail(UnsupportedNodeCount) && graph == old(graph)
          && initializerCalls == old(initializerCalls)
        else if initialDataFunction.None? then
          r == Fail(NoInitialDataFunction)
          && graph == Some(Graph(topology, EmptyNodes(n.i)))
          && initializerCalls == old(initializerCalls)
        else
          r == Pass
          && graph == Some(Graph(topology, Populate(EmptyNodes(n.i), initialDataFunction.value, parameters, old(initializerCalls))))
          && initializerCalls == old(initializerCalls) + n.i
    {
      var numNodes := parameters.values[NumNodes];
      var topology := TopologyOf(parameters.values[GraphType]);
      if !numNodes.Int? || numNodes.i < 0 {
        return Fail(UnsupportedNodeCount);
      }
      var built := EmptyNodes(numNodes.i);
      graph := Some(Graph(topology, built));
      if initialDataFunction.None? {
        return Fail(NoInitialDataFunction);
      }
      var init := initialDataFunction.value;
      var nodes := built;
      var i := 0;
      ghost var calls := initializerCalls;
      while i < |nodes|
        invariant 0 <= i <= |nodes| == |built|
        invariant graph == Some(Graph(topology, nodes))
        invariant forall j :: 0 <= j < i ==> nodes[j] == built[j] + init(parameters, calls + j)
        invariant forall j :: i <= j < |nodes| ==> nodes[j] == built[j]
        invariant initializerCalls == old(initializerCalls) + i
      {
        var record := init(parameters, initializerCalls);
        initializerCalls := initializerCalls + 1;
        nodes := nodes[i := nodes[i] + record];
        graph := Some(Graph(topology, nodes));
        i := i + 1;
      }
      assert nodes == Populate(built, init, parameters, calls);
      return Pass;
    }

    /**
     `timestep`: call the stepper once. Without a stepper nothing happens
     but the error; a stepper called before any graph exists fails on it.
     */
    method Timestep() returns (r: Outcome)
      requires Valid()
      modifies this`graph, this`stepperCalls
      ensures Valid()
      ensures timestepFunction.None? ==>
                r == Fail(NoTimestepFunction) && graph == old(graph) && stepperCalls == old(stepperCalls)
      ensures timestepFunction.Some? && old(graph).None? ==>
                r == Fail(NoGraph) && graph == None && stepperCalls == old(stepperCalls) + 1
      ensures timestepFunction.Some? && old(graph).Some? ==>
                && r == Pass
                && graph == Some(Graph(old(graph).value.topology, timestepFunction.value(old(graph).value.nodes)))
                && stepperCalls == old(stepperCalls) + 1
    {
      if timestepFunction.None? {
        return Fail(NoTimestepFunction);
      }
      stepperCalls := stepperCalls + 1;
      if graph.None? {
        return Fail(NoGraph);
      }
      var g := graph.value;
      graph := Some(Graph(g.topology, timestepFunction.value(g.nodes)));
      return Pass;
    }

    /**
     `run_to_convergence`: step until the convergence test holds or the
     timestep bound is reached, and return the number of steps taken.
     */
    method RunToConvergence(converged: Convergence) returns (r: Result<int>)
      requires Valid()
      modifies this`graph, this`stepperCalls
      ensures Valid()
      ensures var key := parameters.values[ConvergenceDataKey];
              var threshold := parameters.values[ConvergenceStdDev];
        if !Truthy(key) then
          r == Failure(NoConvergenceDataKey) && graph == old(graph) && stepperCalls == old(stepperCalls)
        else if old(graph).None? then
          r == Failure(NoGraph) && graph == old(graph) && stepperCalls == old(stepperCalls)
        else if timestepFunction.None? then
          && graph == old(graph) && stepperCalls == old(stepperCalls)
          && r == (if maxTimesteps <= 0 || converged(old(graph).value.nodes, key, threshold)
                   then Success(0) else Failure(NoTimestepFunction))
        else
          && r.Success?
          && r.value == Steps(timestepFunction.value, Done(converged, key, threshold),
                              old(graph).value.nodes, Budget(maxTimesteps))
          && graph == Some(Graph(old(graph).value.topology,
                                 Iterate(timestepFunction.value, old(graph).value.nodes, r.value)))
          && stepperCalls == old(stepperCalls) + r.value
      ensures r.Success? ==> 0 <= r.value <= Budget(maxTimesteps)
      ensures r.Success? && r.value < maxTimesteps ==>
                graph.Some? && converged(graph.value.nodes, parameters.values[ConvergenceDataKey],
                                         parameters.values[ConvergenceStdDev])
    {
      var dataKey, stdDev := parameters.values[ConvergenceDataKey], parameters.values[ConvergenceStdDev];
      if !Truthy(dataKey) {
        r := Failure(NoConvergenceDataKey);
      } else if graph.None? {
        r := Failure(NoGraph);
      } else {
        var time, ok := StepUntil(converged, dataKey, stdDev);
        r := if ok then Success(time) else Failure(NoTimestepFunction);
      }
    }

    /**
     The loop of `run_to_convergence`: call `timestep` while the bound allows
     and the convergence test fails. Without a stepper the first call fails,
     unless no step is needed.
     */
    method StepUntil(converged: Convergence, key: Value, threshold: Value) returns (time: nat, ok: bool)
      requires Valid() && graph.Some?
      modifies this`graph, this`stepperCalls
      ensures timestepFunction.None? ==>
                && time == 0 && graph == old(graph) && stepperCalls == old(stepperCalls)
                && (ok <==> maxTimesteps <= 0 || converged(old(graph).value.nodes, key, threshold))
      ensures timestepFunction.Some? ==>
                && ok
                && time == Steps(timestepFunction.value, Done(converged, key, threshold),
                                 old(graph).value.nodes, Budget(maxTimesteps))
                && graph == Some(Graph(old(graph).value.topology,
                                       Iterate(timestepFunction.value, old(graph).value.nodes, time)))
                && stepperCalls == old(stepperCalls) + time
      ensures ok && time < maxTimesteps ==> graph.Some? && converged(graph.value.nodes, key, threshold)
    {
      ghost var start := graph.value.nodes;
      ghost var step := if timestepFunction.Some? then timestepFunction.value else (nodes => nodes);
      time, ok := 0, true;
      while time < maxTimesteps && !converged(graph.value.nodes, key, threshold)
        invariant 0 <= time <= Budget(maxTimesteps)
        invariant ok
        invariant graph.Some? && graph.value.topology == old(graph).value.topology
        invariant graph.value.nodes == Iterate(step, start, time)
        invariant forall j :: 0 <= j < time ==> !converged(Iterate(step, start, j), key, threshold)
        invariant stepperCalls == old(stepperCalls) + time
        invariant timestepFunction.None? ==> time == 0
      {
        var outcome := Timestep();
        if outcome.Fail? {
          ok := false;
          break;
        }
        time := time + 1;
      }
      if ok {
        StepsUnique(step, Done(converged, key, threshold), start, Budget(maxTimesteps), time);
      }
    }
  }

  /**
   There is at least one node and every node holds the same value under
   `key`: a standard deviation of 0 (the deviation of no values is undefined,
   so an empty graph has not converged).
   */
  predicate AllEqual(nodes: seq<Record>, key: Value)
  {
    key.Str? && |nodes| > 0 && forall i :: 0 <= i < |nodes| ==>
      key.s in nodes[i] && key.s in nodes[0] && nodes[i][key.s] == nodes[0][key.s]
  }

  /** A deletable key stays deleted when a later protected key fails. */
  method ExamplePartialDeletion()
  {
    var m := new AgentModel();
    m.Set("extra", Int(1));
    var r := m.DeleteParameters(Some(["extra", "num_nodes"]));
    assert ["extra", "num_nodes"][1..] == ["num_nodes"];
    assert r == Failure(KeyError);
    var keys := m.ListParameters();
    assert "extra" !in keys && "num_nodes" in keys;
  }

  /**
   Three nodes that all hold id 10, a stepper that changes nothing and a test
   that asks for equal values whatever the threshold: the run is converged
   before any step.
   */
  method ExampleAlreadyConverged()
  {
    var m := new AgentModel();
    var node: Record := map["id" := Int(10)];
    m.SetGraph(Some(Graph(Complete, [node, node, node])));
    m.SetTimestepFunction(Some(nodes => nodes));
    m.Set(ConvergenceDataKey, Str("id"));
    var converged: Convergence := (nodes, key, threshold) => AllEqual(nodes, key);
    assert converged([node, node, node], Str("id"), Int(100));
    var t := m.RunToConvergence(converged);
    assert t == Success(0);
  }

  /**
   An initializer that numbers its calls: a second initialization continues
   the numbering, so it gives new records rather than replaying the first.
   */
  method ExampleReinitialize()
  {
    var m := new AgentModel();
    m.SetInitialDataFunction(Some((p: Table, c: nat) => map["id" := Int(c)]));
    var o1 := m.InitializeGraph();
    assert o1 == Pass && m.graph.value.nodes[0]["id"] == Int(0);
    var o2 := m.InitializeGraph();
    assert o2 == Pass && m.graph.value.nodes[0]["id"] == Int(3);
  }
}
