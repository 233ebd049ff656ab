/** The usual optional value, and the arithmetic the models share. */
module Options {
  datatype Option<+T> = None | Some(value: T)

  function Min(a: nat, b: nat): nat {
    if a <= b then a else b
  }

  function Max(a: nat, b: nat): nat {
    if a <= b then b else a
  }

  /** Rust's `saturating_sub` on `usize`. */
  function SatSub(a: nat, b: nat): nat {
    if a <= b then 0 else a - b
  }
}
