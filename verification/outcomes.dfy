/** Values and failure modes shared by every scan.

    The scans work on `u64` values and `usize` indices. Arithmetic that leaves
    the `u64` range, a `usize` subtraction that would go below zero, a slice
    whose end lies past the end of its vector and `unwrap()` on an empty
    iterator all abort the program (debug-build semantics). The model makes
    those aborts explicit outcomes instead of preconditions.
 */
module Outcomes {

  /** Largest value of an unsigned 64-bit integer. */
  const U64_MAX: nat := 0xFFFF_FFFF_FFFF_FFFF

  /** The conventional optional value (Rust's `Option`). */
  datatype Option<+T> = None | Some(value: T)

  /** Why a computation aborted. */
  datatype Panic =
    | AddOverflow      // a `u64` addition exceeded U64_MAX
    | SubOverflow      // a `usize` subtraction went below zero
    | SliceOutOfRange  // a slice `v[a..b]` with `b > v.len()`
    | UnwrapNone       // `min()`/`max()` of an empty slice was unwrapped

  /** Either the value a computation returns, or the reason it aborted. */
  datatype Outcome<+T> = Done(value: T) | Panicked(reason: Panic)
}
