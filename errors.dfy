/** Failure values shared by every part of the compiler.

    The compiler reports a failure by throwing an error whose message starts
    with a stable code.  Here a failure is a value of `Error`; the message text
    and the source line that accompany it are not modelled. */
module Errors {

  /** The error codes the core raises. `SON0022` is used by the source for
      three different failures (duplicate parameter, duplicate module
      argument, plots that are not mutually exclusive); they share one code
      here as well.  `SON028` (plot marker) and `SON0028` (missing module
      statement) are two distinct codes in the source. */
  datatype Code =
    | SON0011   // expected an identifier (or a config object)
    | SON0012   // yes/no takes exactly one argument
    | SON0013   // the argument of section() must be a string
    | SON0014   // section() takes zero or one argument
    | SON0019   // a scenario was expected after return/throw
    | SON0020   // section name not unique
    | SON0021   // plot name not unique
    | SON0022   // not unique / plots not mutually exclusive
    | SON0024   // unexpected property key kind in a structure
    | SON0025   // unexpected property value kind, or unsupported module type
    | SON0026   // more than one config object in module()
    | SON0028   // a module file has no module() statement
    | SON0030   // a property cannot have arguments
    | SON0031   // function name not unique within a module
    | SON028    // plot() needs a string literal
    | SON029    // FunctionDeclaration is not allowed

  /** Restricted statement kinds that the scope pass rejects. */
  datatype Restricted = IfStatement | ForStatement | ForInStatement | ForOfStatement | SwitchStatement

  datatype Error =
    | Coded(code: Code)
      /** "<kind> is not allowed in Son" from the scope pass */
    | NotAllowed(kind: Restricted)
      /** the section builder was used after done() */
    | UnexpectedState
      /** done() was called twice */
    | BuilderComplete
      /** SON0035: a cycle in the dependency graph, reported at `key` with
          the " > "-joined path from the start of the sort to `key` */
    | Cycle(key: string, path: string)
      /** the host runtime's TypeError: the scope pass tried to insert the
          hoisted declaration into an arrow function whose body is an
          expression, which has no statement list */
    | HoistIntoExpressionBody
      /** the host runtime's TypeError: an entry of an object literal that
          is not a `key: value` property (a spread element) has no key */
    | MalformedProperty
      /** "yes/no must have exactly one argument" from the scenario merge,
          which carries no code */
    | RuleArity

  datatype Result<+T> = Ok(value: T) | Fail(error: Error) {
    predicate IsFailure() { Fail? }
    function PropagateFailure<U>(): Result<U>
      requires Fail?
    {
      Fail(error)
    }
    function Extract(): T
      requires Ok?
    {
      value
    }
  }

  datatype Option<+T> = None | Some(value: T)
}
