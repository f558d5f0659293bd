/** Small notions used throughout. */
module Basics {
  datatype Option<T> = None | Some(value: T)

  function Min(a: nat, b: nat): nat {
    if a < b then a else b
  }

  /** A fact under a quantifier triggered by `Opened` is seen by a proof only where it mentions `Opened`. */
  ghost predicate Opened(i: nat) { true }
}
