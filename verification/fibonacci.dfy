/**
 The Fibonacci numbers over unbounded naturals, the specification both Rust
 versions are measured against, and the facts about them the proofs need:
 growth, positivity, and exactly where the sequence leaves the `u64` range.
 */
module FibonacciNumbers {
  import opened Rust

  /** The textbook recursive definition, without the 64-bit limit. */
  function Fib(n: nat): (r: nat)
  {
    if n < 2 then n else Fib(n - 2) + Fib(n - 1)
  }

  /** Largest index whose Fibonacci number fits in a `u64`. */
  const LAST_U64_INDEX: nat := 93

  /** The values the example programs print: F(0) .. F(9). */
  const FIRST_TEN: seq<u64> := [0, 1, 1, 2, 3, 5, 8, 13, 21, 34]

  /** The sequence never decreases. */
  lemma {:induction false} FibMonotone(m: nat, n: nat)
    requires m <= n
    ensures Fib(m) <= Fib(n)
    decreases n - m
  {
    if m < n {
      FibMonotone(m + 1, n);
      if m >= 1 {
        assert Fib(m + 1) == Fib(m - 1) + Fib(m);
      }
    }
  }

  /** Every term after the zeroth is positive. */
  lemma {:induction false} FibPositive(n: nat)
    requires n >= 1
    ensures Fib(n) >= 1
  {
    if n >= 2 {
      FibPositive(n - 1);
    }
  }

  /**
   `steps` rounds of the two-variable update `(a, b) := (b, a + b)`, returning `a`.
   Used here to compute the checkpoint values behind `U64Boundary`.
   */
  function Advance(steps: nat, a: nat, b: nat): (r: nat)
    decreases steps
  {
    if steps == 0 then a else Advance(steps - 1, b, a + b)
  }

  /** Started on two consecutive Fibonacci numbers, the update walks along the sequence. */
  lemma {:induction false} AdvanceFib(steps: nat, k: nat)
    ensures Advance(steps, Fib(k), Fib(k + 1)) == Fib(k + steps)
    decreases steps
  {
    if steps > 0 {
      AdvanceFib(steps - 1, k + 1);
    }
  }

  /** From a known consecutive pair at `k`, the pair `steps` further on. */
  lemma Leap(k: nat, steps: nat, a: nat, b: nat)
    requires Fib(k) == a && Fib(k + 1) == b
    ensures Fib(k + steps) == Advance(steps, a, b)
    ensures Fib(k + steps + 1) == Advance(steps + 1, a, b)
  {
    AdvanceFib(steps, k);
    AdvanceFib(steps + 1, k);
  }

  // Consecutive pairs of the sequence ten steps apart, each computed from the previous pair.

  lemma FibAt10()
    ensures Fib(10) == 55 && Fib(11) == 89
  {
    Leap(0, 10, 0, 1);
  }

  lemma FibAt20()
    ensures Fib(20) == 6765 && Fib(21) == 10946
  {
    FibAt10();
    Leap(10, 10, 55, 89);
  }

  lemma FibAt30()
    ensures Fib(30) == 832040 && Fib(31) == 1346269
  {
    FibAt20();
    Leap(20, 10, 6765, 10946);
  }

  lemma FibAt40()
    ensures Fib(40) == 102334155 && Fib(41) == 165580141
  {
    FibAt30();
    Leap(30, 10, 832040, 1346269);
  }

  lemma FibAt50()
    ensures Fib(50) == 12586269025 && Fib(51) == 20365011074
  {
    FibAt40();
    Leap(40, 10, 102334155, 165580141);
  }

  lemma FibAt60()
    ensures Fib(60) == 1548008755920 && Fib(61) == 2504730781961
  {
    FibAt50();
    Leap(50, 10, 12586269025, 20365011074);
  }

  lemma FibAt70()
    ensures Fib(70) == 190392490709135 && Fib(71) == 308061521170129
  {
    FibAt60();
    Leap(60, 10, 1548008755920, 2504730781961);
  }

  lemma FibAt80()
    ensures Fib(80) == 23416728348467685 && Fib(81) == 37889062373143906
  {
    FibAt70();
    Leap(70, 10, 190392490709135, 308061521170129);
  }

  /** F(93) is the last Fibonacci number below 2^64; F(94) is the first above it. */
  lemma U64Boundary()
    ensures Fib(LAST_U64_INDEX) < U64_LIMIT <= Fib(LAST_U64_INDEX + 1)
  {
    FibAt80();
    Leap(80, 13, 23416728348467685, 37889062373143906);
    assert Fib(93) == 12200160415121876738;
    assert Fib(94) == 19740274219868223167;
  }

  /** F(n) fits in a `u64` exactly when n <= 93. */
  lemma FitsU64(n: nat)
    ensures Fib(n) < U64_LIMIT <==> n <= LAST_U64_INDEX
  {
    U64Boundary();
    if n <= LAST_U64_INDEX {
      FibMonotone(n, LAST_U64_INDEX);
    } else {
      FibMonotone(LAST_U64_INDEX + 1, n);
    }
  }
}
