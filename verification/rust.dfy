/**
 The pieces of Rust's semantics the examples rely on: the `u64` integer type,
 addition on it as a debug build performs it (an overflow panics instead of
 wrapping), and panics as an explicit outcome so that every operation that
 can abort is a total function returning `Run<T>`.
 */
module Rust {

  /** Exclusive upper bound of `u64`, that is 2^64. */
  const U64_LIMIT: int := 0x1_0000_0000_0000_0000

  newtype u64 = x: int | 0 <= x < 0x1_0000_0000_0000_0000

  /** Why a computation aborted. */
  datatype Panic =
    | AddOverflow                 // "attempt to add with overflow"
    | FileNotFound(path: string)  // `fs::read_to_string(path).unwrap()` on a missing file

  /** The outcome of running a Rust expression: its value, or the panic that stopped it. */
  datatype Run<T> = Done(value: T) | Panicked(panic: Panic)

  /** `a + b` on `u64` in a debug build: the sum when it fits, a panic otherwise. */
  function CheckedAdd(a: u64, b: u64): (r: Run<u64>)
    ensures r.Done? <==> a as int + b as int < U64_LIMIT
    ensures r.Done? ==> r.value as int == a as int + b as int
    ensures r.Panicked? ==> r.panic == AddOverflow
  {
    var sum := a as int + b as int;
    if sum < U64_LIMIT then Done(sum as u64) else Panicked(AddOverflow)
  }
}
