/** The two arithmetic example calls, `sys_fibo` and `sys_max`, which both
    snapshots implement identically. */
module Arith {
  import opened Machine

  /** `sys_fibo`: doubly recursive Fibonacci; any `n <= 1`, negative ones
      included, is returned as it is, and from index 0 on every value is
      non-negative. */
  function Fib(n: int): (r: int)
    ensures n < 0 ==> r == n
    ensures n >= 0 ==> r >= 0
    decreases n
  {
    if n <= 1 then n else Fib(n - 1) + Fib(n - 2)
  }

  lemma FibExamples()
    ensures Fib(0) == 0 && Fib(1) == 1 && Fib(10) == 55
  {
  }

  /** Fibonacci numbers are non-negative and do not decrease from index 0 on. */
  lemma {:induction false} FibMonotone(m: int, n: int)
    requires 0 <= m <= n
    ensures 0 <= Fib(m) <= Fib(n)
    decreases n
  {
    if m < n {
      FibMonotone(m, n - 1);
    }
  }

  /** Fib(46) is the largest Fibonacci number that fits a 32-bit `int`;
      Fib(47) already overflows it. */
  lemma FibAt46And47()
    ensures Fib(46) == 1836311903 <= INT_MAX
    ensures Fib(47) == 2971215073 > INT_MAX
  {
    assert Fib(20) == 6765 && Fib(21) == 10946;
    assert Fib(30) == 832040 && Fib(31) == 1346269;
    assert Fib(40) == 102334155 && Fib(41) == 165580141;
  }

  /** The 32-bit C result of `sys_fibo(n)` is defined exactly when `n <= 46`:
      below that bound no intermediate sum leaves the `int` range. */
  lemma FibFitsInt32(n: int)
    requires INT_MIN <= n <= 46
    ensures INT_MIN <= Fib(n) <= INT_MAX
  {
    if n >= 0 {
      FibMonotone(n, 46);
      FibAt46And47();
    }
  }

  /** `sys_max`: the greater of a and b, then of c, then of d. */
  function Max4(a: int, b: int, c: int, d: int): (r: int)
    ensures r >= a && r >= b && r >= c && r >= d
    ensures r == a || r == b || r == c || r == d
  {
    var ab := if a > b then a else b;
    var abc := if ab > c then ab else c;
    if abc > d then abc else d
  }

  lemma Max4Examples()
    ensures Max4(3, 9, 2, 7) == 9
    ensures Max4(-1, -5, -3, -9) == -1
  {
  }
}
