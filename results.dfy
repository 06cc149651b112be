/** Failure-compatible wrappers shared by the lowering model.

    The original compiler has no error values: every problem it meets while
    lowering is a panic (`panic!`, `unimplemented!`, `todo!`, an `unwrap` on
    `None`, a failed `node_cast!`, an out-of-range index or an arithmetic
    overflow) and the whole run stops. `Failure` names those panics, and the
    `Result`/`Outcome` types carry them outward so that one failing part fails
    the whole pass. */
module Results {

  datatype Option<+T> = None | Some(value: T) {
    predicate IsFailure() { None? }

    function PropagateFailure<U>(): Option<U>
      requires None?
    {
      None
    }

    function Extract(): T
      requires Some?
    {
      value
    }
  }

  /** The reasons a lowering can stop, one per panic site of the original. */
  datatype Failure =
    | UnresolvedVariable      // identifier without `Resolution::Decl`
    | UnsupportedAssignment   // compound assignment other than += -= %= /= *=
    | UnsupportedOperator     // binary operator outside the supported table
    | UnimplementedExpression // any other node kind handed to gen_expr
    | UnimplementedStatement  // any other node kind handed to gen_stmt
    | FinallyNotImplemented   // `try` without a `catch` handler
    | MissingScope            // `node_scope(..).unwrap()` on a node without a scope
    | UnexpectedNode          // a `node_cast!` whose node has another kind
    | ScopeOutOfRange         // `sem.scope(id)` with an id that is not a scope
    | DeclOutOfRange          // `sem.decl(id)` with an id that is not a declaration
    | DepthUnderflow          // the `u32` depth difference would be negative

  datatype Result<+T> = Ok(value: T) | Err(error: Failure) {
    predicate IsFailure() { Err? }

    function PropagateFailure<U>(): Result<U>
      requires Err?
    {
      Err(error)
    }

    function Extract(): T
      requires Ok?
    {
      value
    }
  }

  /** What a `gen_*` method reports: it either finished or panicked. */
  datatype Outcome = Pass | Fail(error: Failure)

  function OutcomeOf<T>(r: Result<T>): (o: Outcome)
    ensures o.Pass? <==> r.Ok?
    ensures o.Fail? ==> o.error == r.error
  {
    match r
    case Ok(_) => Pass
    case Err(e) => Fail(e)
  }
}
