/** Division with remainder, for products of two variables. */
module Arithmetic {
  lemma MultipleIsFar(b: int, n: int)
    requires b > 0
    ensures n >= 1 ==> b * n >= b
    ensures n <= -1 ==> b * n <= -b
  {
    if n >= 1 {
      assert b * n == b + b * (n - 1);
    } else if n <= -1 {
      assert b * n == -b + b * (n + 1);
    }
  }

  lemma DivisionIs(a: int, b: int, q: int, r: int)
    requires b > 0 && a == b * q + r && 0 <= r < b
    ensures a / b == q && a % b == r
  {
    var d := a / b;
    assert a == b * d + a % b && 0 <= a % b < b;
    assert b * (d - q) == b * d - b * q;
    MultipleIsFar(b, d - q);
  }

  lemma MultipleHasNoRemainder(n: nat, m: nat)
    requires m > 0
    ensures n * m % m == 0 && (n * m) / m == n
  {
    DivisionIs(n * m, m, n, 0);
  }
}
