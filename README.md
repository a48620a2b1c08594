# AgentModel: a Dafny model of the emergent simulation harness

`emergent` runs agent-based simulations. An `AgentModel` owns three things:

- a parameter store, an insertion-ordered dictionary with four protected keys;
- a graph whose nodes each carry a record of fields;
- two injected callables. The initializer fills each node's record. The stepper advances the simulation by one timestep.

`run_to_convergence` steps the model until a convergence test on one node field holds. It also stops when the timestep bound `MAX_TIMESTEPS` is used up.

This project models `AgentModel` from `src/emergent/main.py` in four modules:

- `Values` (values.dfy): the dynamically typed values (`Int`, `Str`, `Null`), Python truthiness, the exceptions the model raises (as `Error`), and `Option`/`Result`/`Outcome`.
- `Parameters` (parameters.dfy): the parameter store as a value `Table(keys, values)`. It has an insertion-ordered key sequence and a key-to-value map. `Valid()` says the key sequence lists each map key once and the four protected keys are present. Each store operation is a function on `Table`: `Put`, `Merge`, `Remove` and `DeleteKeys`. Lemmas state what each operation promises.
- `Simulation` (simulation.dfy): node records, the topology choice, the per-node merge of initializer records (`Populate`), n-fold stepping (`Iterate`) and the number of steps the convergence loop takes (`Steps`). The stepper, the initializer and the convergence test are arbitrary functions, so every lemma holds for each choice of them.
- `AgentModels` (agent_model.dfy): the class `AgentModel`. Its fields are reassigned by its methods, like the private attributes of the Python class. `Valid()` (the protected keys are present) holds from construction onward and every method keeps it. A counter records how often the initializer was called, and each call receives it; a ghost counter does the same for the stepper. Three client methods at the end check three scenarios: a partial deletion, a run that has already converged, and a second initialization that gives new records.

Two behaviours of the code are easy to miss:

- `initialize_graph` installs the new graph before it checks for an initializer (src/emergent/main.py:142-150), so a call that fails for want of an initializer has already discarded the old graph.
- `delete_parameters` with an empty list resets the store, like None (`if not parameters`, line 40).

## Model

| member | source | states |
|---|---|---|
| `Values.Truthy` | src/emergent/main.py:40 | Python truthiness, as `if not …` uses it at lines 40, 149, 162 and 178: a value is false exactly when it is `None`, `0` or `""`. |
| `AgentModels.AgentModel.constructor` | src/emergent/main.py:7-18 | Starts with the four default parameters, no graph, no callables and a bound of 100000; the protected keys are present. |
| `Parameters.DefaultsSpec` | src/emergent/main.py:9-14 | The default store is exactly `num_nodes=3`, `graph_type="complete"`, `convergence_data_key=None`, `convergence_std_dev=100`, in that order. |
| `Parameters.Defaults` | src/emergent/main.py:40-47 | The reset table is valid and holds exactly the four protected keys. |
| `AgentModels.AgentModel.UpdateParameters` | src/emergent/main.py:20-26 | After the merge every patch key maps to the patch value and other keys keep their values. The key set is the old set plus the patch keys. The old keys keep their order and new keys follow in patch order. The protected keys remain. |
| `Parameters.Merge` | src/emergent/main.py:26 | Defined as `dict.update`: the patch's keys are assigned one after the other, in the patch's own order. |
| `Parameters.MergeEntries` | src/emergent/main.py:26 | Defined as repeated item assignment (`Put`) of the listed keys with the patch's values. |
| `Parameters.MergeSpec` | src/emergent/main.py:26 | `dict.update` semantics for any valid table and patch: the patch wins on shared keys, other keys are unchanged, the store stays valid and the key order is old keys then new patch keys. |
| `Parameters.MergeEntriesValues` | src/emergent/main.py:26 | Assigning a list of keys one by one: the listed keys get the patch values and every other key keeps its value. |
| `Parameters.MergeEntriesKeys` | src/emergent/main.py:26 | Assigning a list of distinct keys one by one keeps the table well formed and appends exactly the new keys, in list order. |
| `AgentModels.AgentModel.DeleteParameters` | src/emergent/main.py:28-58 | With None or an empty list the store becomes the defaults and the call returns True. Otherwise the new store and the success flag are those of deleting the keys in order. A failure is KeyError. The protected keys remain either way. |
| `AgentModels.AgentModel.DeleteEach` | src/emergent/main.py:49-58 | The loop deletes the listed keys in order and stops at the first absent or protected key; the resulting store and success flag are exactly those of `DeleteKeys`. |
| `Parameters.DeleteKeys` | src/emergent/main.py:49-58 | Defined as the for/raise/pop loop: keys are removed one by one in list order, and the first absent or protected key stops with failure, leaving the keys removed before it deleted. |
| `Parameters.Deletable` | src/emergent/main.py:50-55 | A key can be deleted exactly when it is present and not one of the four protected keys. |
| `Parameters.DeleteKeysSucceedsIff` | src/emergent/main.py:49-58 | Deletion succeeds if and only if every listed key is present, none is protected and none is listed twice. |
| `Parameters.DeleteKeysResult` | src/emergent/main.py:49-58 | A successful deletion leaves exactly the old keys minus the listed ones, with their values and relative order unchanged. |
| `Parameters.DeleteKeysPartial` | src/emergent/main.py:49-57 | A failed deletion stops at the first absent or protected key. The keys before it were deleted successfully and stay deleted, so there is no rollback. |
| `Parameters.DeleteKeysValid` | src/emergent/main.py:50-57 | Deleting never removes a protected key, whether it succeeds or fails. |
| `Parameters.DeleteProtectedFails` | src/emergent/main.py:50-56 | Deleting a protected key fails and leaves the store unchanged. |
| `Parameters.DeleteThenFail` | src/emergent/main.py:49-57 | Deleting `[k1, k2]` where k1 is deletable and k2 then is not: k1 is removed and the call fails. |
| `Parameters.Remove` | src/emergent/main.py:57 | Defined as `pop` of one key: the key leaves both the insertion order and the map. |
| `Parameters.RemoveSpec` | src/emergent/main.py:57 | `pop` of one key keeps the table well formed and drops that key only, preserving the order of the rest. |
| `AgentModels.AgentModel.ListParameters` | src/emergent/main.py:60-66 | Returns the keys in insertion order: each stored key exactly once, the protected keys included. |
| `AgentModels.AgentModel.ChangeMaxTimesteps` | src/emergent/main.py:68-74 | Any integer becomes the new bound, without validation. |
| `AgentModels.AgentModel.Get` | src/emergent/main.py:76-85 | Returns the stored value for a present key; KeyError for an absent one. |
| `Parameters.Lookup` | src/emergent/main.py:85 | Lookup succeeds exactly for present keys, and then yields the stored value; otherwise KeyError. |
| `AgentModels.AgentModel.Set` | src/emergent/main.py:87-94 | Always succeeds; a following get returns the new value; the protected keys remain. |
| `Parameters.Put` | src/emergent/main.py:94 | Item assignment keeps a table well formed and keeps the protected keys. |
| `Parameters.GetAfterSet` | src/emergent/main.py:85-94 | After a set, a get of that key returns the new value and gets of other keys are unchanged. |
| `Parameters.PutOrder` | src/emergent/main.py:94 | Overwriting keeps every key's position; a new key is appended at the end. |
| `AgentModels.AgentModel.SetGraph` | src/emergent/main.py:96-107 | The graph becomes the given one (or none). |
| `AgentModels.AgentModel.GetGraph` | src/emergent/main.py:109-115 | Returns the current graph. |
| `AgentModels.AgentModel.SetInitialDataFunction` | src/emergent/main.py:117-123 | Stores the initializer (or none). |
| `AgentModels.AgentModel.SetTimestepFunction` | src/emergent/main.py:125-131 | Stores the stepper (or none). |
| `AgentModels.AgentModel.InitializeGraph` | src/emergent/main.py:133-154 | A `num_nodes` that is not a non-negative integer fails and leaves the old graph. Otherwise it builds a graph of `num_nodes` empty nodes in the selected topology and installs it before the initializer check. Without an initializer it fails and the new empty graph stays. Otherwise the initializer is called exactly once per node, with the current parameters and its running call number, and node i holds the merge of its record with the result of call number (earlier calls + i). |
| `Simulation.TopologyOf` | src/emergent/main.py:142-147 | "complete" selects a complete graph, "cycle" a cycle, and every other value a wheel (both directions of each case). |
| `Simulation.EmptyNodes` | src/emergent/main.py:142-147 | The records of a freshly built graph of n nodes: exactly n of them, each empty. |
| `Simulation.Populate` | src/emergent/main.py:152-154 | Per-node `update` with the record of the initializer's call for that node (given the parameters and the call number): same number of nodes, node keys are the old keys plus the initializer's keys, initializer fields overwrite on collision and other fields stay. |
| `AgentModels.AgentModel.Timestep` | src/emergent/main.py:156-164 | Without a stepper it fails and nothing changes. Otherwise the stepper is called once and the node records become its result. A stepper run before any graph exists fails. |
| `AgentModels.AgentModel.RunToConvergence` | src/emergent/main.py:166-187 | Raises before any step if the data key is falsy or there is no graph. Otherwise the returned time equals the number of stepper calls and equals `Steps`, the state is the stepper applied that many times, and 0 <= time <= max(MAX_TIMESTEPS, 0). If time < MAX_TIMESTEPS the convergence test holds at exit. Without a stepper it returns 0 only when no step is needed, and fails otherwise. |
| `AgentModels.AgentModel.StepUntil` | src/emergent/main.py:181-187 | With a stepper the loop succeeds after exactly `Steps` calls, the records are the stepper applied that many times, and stopping before the bound means the convergence test holds. Without a stepper no call is made and it succeeds exactly when the bound is not positive or the start state has converged. |
| `Simulation.Budget` | src/emergent/main.py:181 | The number of iterations the bound allows: MAX_TIMESTEPS when it is non-negative, and 0 when it is negative. |
| `Simulation.Steps` | src/emergent/main.py:181-183 | The loop's step count never exceeds the budget and is 0 when the start state has converged. |
| `Simulation.StepsExit` | src/emergent/main.py:181-187 | If the loop stops before the budget, the state it stops at has converged. |
| `Simulation.StepsFirst` | src/emergent/main.py:181-183 | No state before the exit has converged: the loop stops at the first converged state. |
| `Simulation.StepsUnique` | src/emergent/main.py:175-187 | The step count is the only count within the budget with no converged state before it and a converged state at it unless the budget is used up. |
| `Simulation.Iterate` | src/emergent/main.py:181-183 | Defined as the node records after the stepper is applied k times to the start records. |
| `Simulation.IterateShift` | src/emergent/main.py:181-183 | One step followed by k steps is k + 1 steps. |

## Left out

- Graph construction by networkx (`complete_graph`, `cycle_graph`, `wheel_graph`): a graph is its topology tag plus one record per node in the library's node order. Edges and node labels are not modelled. A non-negative integer `num_nodes` n gives n nodes.
- `InitializeGraph`: a `num_nodes` that is not a non-negative integer fails with `UnsupportedNodeCount` before the graph is replaced, standing for the error networkx raises for a negative count. networkx's own handling of other values (an iterable of node labels, or a type error) is not modelled.
- `is_converged`: the numpy population standard deviation is floating-point numerics. It is an arbitrary test over (node records, data key, threshold), passed to `RunToConvergence`. The errors it raises when a node lacks the field are not modelled.
- Injected callables: the initializer is a function of the parameter table and of the number of calls made to it before, across all `initialize_graph` calls. The call number stands in for its randomness, so a second `initialize_graph` may give new records. Access to the model beyond its parameters (the graph, the callables) is not modelled. The stepper is a function from node records to node records. A stepper that reconfigures the model itself (parameters, callables, the graph object) is not modelled.
- `Timestep`: when a stepper is set and no graph exists, the model fails with `NoGraph`. This is a modelling assumption: the stepper is a function of the node records, so with no graph there are no records to step. A stepper that never touches the graph would succeed in the source.
- `RunToConvergence`: without a graph the call fails with `NoGraph`. In the source this failure comes from reading the absent graph for the trace on line 180.
- `set_graph`'s `isinstance` test: a runtime type check on library objects.
- All `print` tracing: diagnostic output only.
- The example callbacks `genInitialData` and `genTimestepData`: they use `random`, and they are not part of the model.
- Value kinds other than integers, strings and `None` (floats, booleans, containers) in parameters and node records. The order of fields inside a node record is not modelled either.
