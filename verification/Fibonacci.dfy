/** The two Fibonacci functions of the benchmark, in the machine's integers: 32 bits for the
    values, 64 bits for the index.  That no sum overflows is part of what is verified.
 */
module Fibonacci {
  newtype Int32 = x: int | -0x8000_0000 <= x < 0x8000_0000
  newtype Int64 = x: int | -0x8000_0000_0000_0000 <= x < 0x8000_0000_0000_0000

  const MODULUS: Int32 := 2021

  function Fib(n: nat): nat {
    if n < 2 then n else Fib(n - 1) + Fib(n - 2)
  }

  /** The sum of two values as both forms compute it. */
  function AddModulo(a: Int32, b: Int32): (r: Int32)
    requires 0 <= a < MODULUS && 0 <= b < MODULUS
    ensures 0 <= r < MODULUS
    ensures r as int == if a as int + b as int < 2021 then a as int + b as int else a as int + b as int - 2021
  {
    (a % MODULUS + b % MODULUS) % MODULUS
  }

  /** The recursive form. */
  function Rfib(n: Int64): (r: Int32)
    requires n >= 0
    ensures 0 <= r < MODULUS
    decreases n as int
  {
    if n == 0 || n == 1 then n as Int32 else AddModulo(Rfib(n - 1), Rfib(n - 2))
  }

  lemma SumModulo(x: nat, y: nat)
    ensures var a, b := x % 2021, y % 2021;
            (x + y) % 2021 == if a + b < 2021 then a + b else a + b - 2021
  {
  }

  /** Reducing at every step gives the true Fibonacci number, reduced. */
  lemma {:induction false} RfibIsFib(n: Int64)
    requires n >= 0
    ensures Rfib(n) as int == Fib(n as int) % 2021
    decreases n as int
  {
    if n >= 2 {
      RfibIsFib(n - 1);
      RfibIsFib(n - 2);
      SumModulo(Fib(n as int - 1), Fib(n as int - 2));
    }
  }

  /** One round of the loop: `a` and `b` hold two successive numbers, reduced. */
  lemma Advance(a: Int32, b: Int32, k: nat)
    requires k >= 1 && a as int == Fib(k) % 2021 && b as int == Fib(k - 1) % 2021
    ensures 0 <= a < MODULUS && 0 <= b < MODULUS && a + b < 4042
    ensures ((a + b) % MODULUS) as int == Fib(k + 1) % 2021
  {
    SumModulo(Fib(k), Fib(k - 1));
  }

  /** The iterative form; a negative index never enters the loop and yields 1. */
  method Ifib(n: Int64) returns (a: Int32)
    ensures n >= 0 ==> a as int == Fib(n as int) % 2021 && a == Rfib(n)
    ensures n < 0 ==> a == 1
  {
    var b: Int32, m := 0, n;
    ghost var k: nat := 1;
    a := 1;
    if n == 0 || n == 1 {
      a := n as Int32;
    } else {
      while m >= 2
        invariant n < 2 ==> m == n && k == 1
        invariant n >= 2 ==> 1 <= m <= n && k == n as int - m as int + 1
        invariant k >= 1 && a as int == Fib(k) % 2021 && b as int == Fib(k - 1) % 2021
        decreases m as int
      {
        Advance(a, b, k);
        var temp := a;
        a := (a + b) % MODULUS;
        b := temp;
        m := m - 1;
        k := k + 1;
      }
    }
    if n >= 0 { RfibIsFib(n); }
  }
}
