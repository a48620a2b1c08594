/**
 Dynamically typed values and the error kinds of the agent model.

 Parameters and node records hold Python values; the model keeps the three
 kinds the default parameters use (integers, strings and `None`).
 */
module Values {

  /** A parameter or node-record value: an integer, a string or `None`. */
  datatype Value = Int(i: int) | Str(s: string) | Null

  /** Python truthiness of a value: `None`, `0` and `""` are false. */
  predicate Truthy(v: Value)
    ensures Truthy(v) <==> v !in {Null, Int(0), Str("")}
  {
    match v
    case Int(i) => i != 0
    case Str(s) => s != ""
    case Null => false
  }

  /** The exceptions the model raises. */
  datatype Error =
    | KeyError                  // absent or protected parameter key
    | NoInitialDataFunction     // initialize_graph without an initializer
    | NoTimestepFunction        // timestep without a stepper
    | NoConvergenceDataKey      // run_to_convergence with a falsy data key
    | NoGraph                   // the graph is read before it exists
    | UnsupportedNodeCount      // num_nodes is not a non-negative integer

  datatype Option<T> = None | Some(value: T)

  /** A return value or the exception raised instead. */
  datatype Result<T> = Success(value: T) | Failure(error: Error)

  /** Normal completion of a procedure without a result, or its exception. */
  datatype Outcome = Pass | Fail(error: Error)
}
