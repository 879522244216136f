/**
 * AAIP_ASSIGNMENTS/Assignment-1/Task4.py: a recursive and an iterative
 * factorial. The script only calls them after rejecting negative input, so
 * both take a `nat` (on a negative argument the recursive Python version
 * never reaches its base case).
 */
module Factorial {

  /** factorial_recursive: 1 for 0 and 1, otherwise n times the factorial of n - 1. */
  function FactorialRecursive(n: nat): (r: nat)
    ensures r >= 1
    ensures r >= n
  {
    if n == 0 || n == 1 then 1 else n * FactorialRecursive(n - 1)
  }

  /** The two base cases and the recursive step, as the definition states them. */
  lemma FactorialEquations(n: nat)
    ensures FactorialRecursive(0) == 1 && FactorialRecursive(1) == 1
    ensures n >= 2 ==> FactorialRecursive(n) == n * FactorialRecursive(n - 1)
  {
  }

  /** The product of 1..n with the factor k left out. */
  function Cofactor(n: nat, k: nat): nat
    requires 1 <= k <= n
  {
    if n == k then FactorialRecursive(n - 1) else n * Cofactor(n - 1, k)
  }

  /** Every k in 1..n is a factor of n!: an independent check that the recursion multiplies them all. */
  lemma {:induction false} FactorialHasFactor(n: nat, k: nat)
    requires 1 <= k <= n
    ensures FactorialRecursive(n) == k * Cofactor(n, k)
  {
    if k < n {
      FactorialHasFactor(n - 1, k);
      var c := Cofactor(n - 1, k);
      assert FactorialRecursive(n) == n * FactorialRecursive(n - 1);
      assert Cofactor(n, k) == n * c;
      MulSwap(n, k, c);
    }
  }

  lemma MulSwap(a: int, b: int, c: int)
    ensures a * (b * c) == b * (a * c)
  {
    calc {
      a * (b * c);
      (a * b) * c;
      (b * a) * c;
      b * (a * c);
    }
  }

  /** factorial_iterative: multiplies the accumulator by 2, 3, ..., n in turn. */
  method FactorialIterative(n: nat) returns (result: nat)
    ensures result == FactorialRecursive(n)
  {
    result := 1;
    var i := 2;
    while i <= n
      invariant 2 <= i && (i <= n + 1 || i == 2)
      invariant result == FactorialRecursive(i - 1)
    {
      result := result * i;
      i := i + 1;
    }
  }
}
