/**
 examples/fibonacci-recursion.rs: Fibonacci by direct recursion on `u64`,
 and the `main` that prints the first ten values.
 */
module FibonacciRecursion {
  import opened Rust
  import opened FibonacciNumbers

  /**
   `fibonacci(n)`: `n` itself below 2, otherwise the sum of the two previous
   values, evaluated left to right. The `u64` subtractions `n - 2` and `n - 1`
   are only reached when `n >= 2`, so they never underflow (the newtype makes
   Dafny check this). The addition panics exactly when F(n) leaves the range.
   */
  function Fibonacci(n: u64): (r: Run<u64>)
    ensures r.Done? <==> Fib(n as nat) < U64_LIMIT
    ensures r.Done? ==> r.value as nat == Fib(n as nat)
    ensures r.Panicked? ==> r.panic == AddOverflow
    decreases n
  {
    if n < 2 then Done(n)
    else
      match Fibonacci(n - 2)
      case Panicked(p) => Panicked(p)
      case Done(older) =>
        match Fibonacci(n - 1)
        case Panicked(p) => Panicked(p)
        case Done(newer) => CheckedAdd(older, newer)
  }

  /** The two base cases return their argument unchanged. */
  lemma BaseCases()
    ensures Fibonacci(0) == Done(0) && Fibonacci(1) == Done(1)
  {
  }

  /** Past the base cases, the result is the sum of the two previous results whenever it exists. */
  lemma Recurrence(n: u64)
    requires n >= 2
    ensures Fibonacci(n).Done? ==>
              && Fibonacci(n - 2).Done? && Fibonacci(n - 1).Done?
              && Fibonacci(n).value as int == Fibonacci(n - 2).value as int + Fibonacci(n - 1).value as int
  {
  }

  /** The recursion stays within `u64` for exactly the arguments 0 .. 93. */
  lemma NoOverflowUpTo93(n: u64)
    ensures Fibonacci(n).Done? <==> n as nat <= LAST_U64_INDEX
  {
    FitsU64(n as nat);
  }

  /** Results grow with the argument and are positive from 1 on. */
  lemma ResultsGrow(m: u64, n: u64)
    requires m <= n && Fibonacci(n).Done?
    ensures Fibonacci(m).Done?
    ensures Fibonacci(m).value <= Fibonacci(n).value
    ensures n >= 1 ==> Fibonacci(n).value >= 1
  {
    FibMonotone(m as nat, n as nat);
    if n >= 1 {
      FibPositive(n as nat);
    }
  }

  /**
   The ten values `main` prints, for `i` in `0..10`. None of these calls can
   panic, so the printed sequence is exactly F(0) .. F(9).
   */
  method PrintedValues() returns (printed: seq<u64>)
    ensures printed == FIRST_TEN
  {
    printed := [];
    var i: u64 := 0;
    while i < 10
      invariant i <= 10 && |printed| == i as int
      invariant forall k :: 0 <= k < i as int ==> printed[k] as nat == Fib(k)
    {
      NoOverflowUpTo93(i);
      printed := printed + [Fibonacci(i).value];
      i := i + 1;
    }
    assert Fib(9) == 34 && Fib(8) == 21 && Fib(7) == 13;
  }
}
