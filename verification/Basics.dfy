/** What several modules share. */
module Basics {

  datatype Option<T> = None | Some(value: T)

  type byte = b: nat | b < 256

  /** A handle for looking into a definition: what is quantified over it stays closed, and small
    for the solver, until some `Look(n)` is mentioned. */
  predicate Look(n: int) { true }
}
