// Division and remainder facts shared by the models.
module Arithmetic {

  // Quotient and remainder are determined by their equation.
  lemma Quotient(x: nat, m: nat, q: int, r: int)
    requires m > 0 && x == m * q + r && 0 <= r < m
    ensures x / m == q && x % m == r
  {
    var d := x / m - q;
    assert m * d == r - x % m;
    assert (d >= 1 ==> m * d >= m) && (d <= -1 ==> m * d + m <= 0);
  }

  lemma QuotientIs(x: nat, q: nat, m: nat)
    requires m > 0 && q * m <= x < q * m + m
    ensures x / m == q
  {
    Quotient(x, m, q, x - q * m);
  }

  lemma MultipleOf(x: nat, q: nat, m: nat)
    requires m > 0 && x == q * m
    ensures x % m == 0
  {
    Quotient(x, m, q, 0);
  }

  lemma SmallRemainder(x: nat, m: nat)
    requires x < m
    ensures x % m == x
  {
  }

  // Dividing in two steps.
  lemma DivTwice(x: nat, a: nat, b: nat)
    requires a > 0 && b > 0
    ensures a * b > 0 && x / (a * b) == x / a / b
  {
    var q, r := x / a, x % a;
    var d, s := q / b, q % b;
    TwoDigits(x, a, b, q, r, d, s);
    Quotient(x, a * b, d, a * s + r);
  }

  lemma TwoDigits(x: nat, a: nat, b: nat, q: nat, r: nat, d: nat, s: nat)
    requires x == a * q + r && q == b * d + s && r < a && s < b
    ensures x == (a * b) * d + (a * s + r) && a * s + r < a * b && a * b > 0
  {
    Distribute(a, b * d, s);
    Associate(a, b, d);
    Monotone(a, s, b);
  }

  lemma Distribute(a: nat, x: nat, y: nat)
    ensures a * (x + y) == a * x + a * y
  {
  }

  lemma Associate(a: nat, b: nat, d: nat)
    ensures a * (b * d) == (a * b) * d
  {
  }

  lemma Monotone(a: nat, s: nat, b: nat)
    requires s < b
    ensures a * s + a <= a * b
  {
    Distribute(a, s, 1);
    assert a * (s + 1) <= a * b;
  }

  // ---- powers

  function Power(s: nat, n: nat): nat {
    if n == 0 then 1 else s * Power(s, n - 1)
  }

  function Pow2(n: nat): (r: nat)
    ensures r > 0
  {
    if n == 0 then 1 else 2 * Pow2(n - 1)
  }

  lemma {:induction false} PowersAdd(a: nat, b: nat)
    ensures Pow2(a + b) == Pow2(a) * Pow2(b)
  {
    if a > 0 { PowersAdd(a - 1, b); }
  }

  lemma {:induction false} PowGrows(a: nat, b: nat)
    requires a <= b
    ensures Pow2(a) <= Pow2(b)
  {
    if a < b { PowGrows(a, b - 1); }
  }
}
