/** The few facts of real arithmetic the price proofs need, each stated over plain variables. */
module RealMath {

  lemma CastMul(a: int, b: int)
    ensures (a * b) as real == a as real * b as real
  {
  }

  lemma MulMonotone(a: real, b: real, c: real)
    requires a <= b && c >= 0.0
    ensures a * c <= b * c
  {
  }

  lemma MulPositive(a: real, b: real)
    requires a > 0.0 && b > 0.0
    ensures a * b > 0.0
  {
  }

  lemma MulNonNegative(a: real, b: real)
    requires a >= 0.0 && b >= 0.0
    ensures a * b >= 0.0
  {
  }

  lemma DivMul(q: real, b: real)
    requires b != 0.0
    ensures (q / b) * b == q
  {
  }

  lemma DivUnique(x: real, q: real, b: real)
    requires b != 0.0 && x * b == q
    ensures q / b == x
  {
  }

  lemma DivSum(x: real, y: real, t: real)
    requires t != 0.0
    ensures (x + y) / t == x / t + y / t
  {
  }

  lemma DivCancel(q: real, b: real, p: real)
    requires p != 0.0 && b != 0.0
    ensures b * p != 0.0 && (q * p) / (b * p) == q / b
  {
    var x := q / b;
    assert x * b == q;
    assert x * (b * p) == q * p;
  }

  lemma DivAtLeast(q: real, b: real, lo: real)
    requires b > 0.0 && lo * b <= q
    ensures lo <= q / b
  {
    var x := q / b;
    assert x * b == q;
    assert x < lo ==> x * b < lo * b;
  }

  lemma DivAtMost(q: real, b: real, hi: real)
    requires b > 0.0 && q <= hi * b
    ensures q / b <= hi
  {
    var x := q / b;
    assert x * b == q;
    assert x > hi ==> x * b > hi * b;
  }

  lemma Distribute(k: real, x: real, y: real)
    ensures k * (x + y) == k * x + k * y
  {
  }
}
