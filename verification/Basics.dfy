/**
 Definitions that several modules use.
 */
module Basics {
  datatype Option<+T> = None | Some(value: T)

  /** A truth value as a count */
  function One(b: bool): nat {
    if b then 1 else 0
  }

  function Min(a: nat, b: nat): nat {
    if a < b then a else b
  }

  /** Ten to the power of n */
  function PowN(n: nat): (p: nat)
    ensures p >= 1
  {
    if n == 0 then 1 else 10 * PowN(n - 1)
  }
}
