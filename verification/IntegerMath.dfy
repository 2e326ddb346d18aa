/** Facts about products, quotients and remainders that the other modules share. */
module IntegerMath {

  lemma MulMonotone(p: int, q: int, b: nat)
    requires p <= q
    ensures p * b <= q * b
  {
  }

  lemma MulNext(k: int, b: int)
    ensures (k + 1) * b == k * b + b
  {
  }

  lemma MulDifference(p: int, q: int, b: int)
    ensures (p - q) * b == p * b - q * b
  {
  }

  lemma OnlyZeroMultiple(k: int, b: int)
    requires 0 < k * b + b < 2 * b
    ensures k == 0
  {
  }

  lemma QuotientUnique(x: int, b: int, q: int, r: int)
    requires b > 0 && x == q * b + r && 0 <= r < b
    ensures x / b == q && x % b == r
  {
    var k := x / b - q;
    assert x == x / b * b + x % b;
    assert k * b == x / b * b - q * b;
    OnlyZeroMultiple(k, b);
  }

  function Pow2(n: nat): (p: nat)
    ensures p > 0
  {
    if n == 0 then 1 else 2 * Pow2(n - 1)
  }

  lemma {:induction false} Pow2Sum(a: nat, b: nat)
    ensures Pow2(a + b) == Pow2(a) * Pow2(b)
  {
    if a > 0 { Pow2Sum(a - 1, b); }
  }

  lemma {:induction false} Pow2Grows(a: nat, b: nat)
    requires a <= b
    ensures Pow2(a) <= Pow2(b)
  {
    if a < b { Pow2Grows(a, b - 1); }
  }
}
