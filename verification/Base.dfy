/** Types and constants shared by the contracts. */
module Base {
  /** An account. Zero stands for `address(0)`. */
  type Address = nat

  const ZERO_ADDRESS: Address := 0

  /** 18-digit fixed-point unit. */
  const DECIMAL_PRECISION: nat := 1_000_000_000_000_000_000

  /** A call that reverts leaves nothing behind and is modelled by `None`. */
  datatype Option<+T> = None | Some(value: T)

  /** A ratio for every account, such as the nominal or the current collateral ratio. */
  type Ratios = Address -> nat

  predicate Distinct(order: seq<Address>) {
    forall i, j :: 0 <= i < j < |order| ==> order[i] != order[j]
  }

  function Min(a: nat, b: nat): nat {
    if a < b then a else b
  }
}
