/**
 examples/fibonacci-space-optimized.rs: Fibonacci with two running variables
 on `u64`, and the `main` that prints the first ten values.
 */
module FibonacciSpaceOptimized {
  import opened Rust
  import opened FibonacciNumbers
  import FibonacciRecursion

  /**
   `fibonacci(n)`: return 0 at once for `n == 0`; otherwise run the update
   `c = a + b; a = b; b = c` for `i` from 2 to `n` and return `b`. The `u64`
   addition panics on overflow, which first happens at `i == 94`.
   The ghost `rounds` counts loop iterations.
   */
  method Fibonacci(n: u64) returns (r: Run<u64>, ghost rounds: nat)
    ensures r == FibonacciRecursion.Fibonacci(n)
    ensures r.Done? <==> n as nat <= LAST_U64_INDEX
    ensures r.Done? ==> r.value as nat == Fib(n as nat)
    ensures n == 0 ==> rounds == 0
    ensures 1 <= n as nat <= LAST_U64_INDEX ==> rounds == n as nat - 1
  {
    FitsU64(n as nat);
    var a: u64 := 0;
    var b: u64 := 1;
    rounds := 0;
    if n == 0 {
      return Done(a), rounds;
    }
    var i: u64 := 2;
    while i <= n
      invariant 2 <= i as int <= n as int + 1
      invariant a as nat == Fib(i as nat - 2) && b as nat == Fib(i as nat - 1)
      invariant rounds == i as nat - 2
      decreases n as int - i as int + 1
    {
      var sum := CheckedAdd(a, b);
      if sum.Panicked? {
        // F(i) does not fit, and F(n) >= F(i)
        FibMonotone(i as nat, n as nat);
        return sum, rounds;
      }
      var c := sum.value;
      a := b;
      b := c;
      FitsU64(i as nat);
      i := i + 1;
      rounds := rounds + 1;
    }
    return Done(b), rounds;
  }

  /** `main` prints the same ten values as the recursive version. */
  method PrintedValues() returns (printed: seq<u64>)
    ensures printed == FIRST_TEN
  {
    printed := [];
    var i: u64 := 0;
    while i < 10
      invariant i <= 10 && |printed| == i as int
      invariant forall k :: 0 <= k < i as int ==> printed[k] as nat == Fib(k)
    {
      var v, _ := Fibonacci(i);
      printed := printed + [v.value];
      i := i + 1;
    }
    assert Fib(9) == 34 && Fib(8) == 21 && Fib(7) == 13;
  }
}
