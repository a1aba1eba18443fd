/** Floored and truncated division of exact decimals (BigDecimal#divmod and
    BigDecimal#remainder), the arithmetic behind Money#divmod, #modulo and
    #remainder. */
module Division {

  import opened Rounding

  lemma ScaleBelow(x: real, y: real, b: real)
    requires x <= y && b > 0.0
    ensures x * b <= y * b
  {
  }

  lemma ScaleStrictlyBelow(x: real, y: real, b: real)
    requires x < y && b > 0.0
    ensures x * b < y * b
  {
  }

  lemma QuotientTimesDivisor(a: real, b: real)
    requires b != 0.0
    ensures (a / b) * b == a
  {
  }

  /** Bounds a value by its quotient's floor: for the integer part `q` of `a / b`,
      `q * b` and `(q + 1) * b` enclose `a`. */
  lemma FloorEncloses(a: real, b: real, q: int)
    requires b != 0.0 && q as real <= a / b < q as real + 1.0
    ensures b > 0.0 ==> q as real * b <= a < q as real * b + b
    ensures b < 0.0 ==> q as real * b + b < a <= q as real * b
  {
    var x, y := q as real, a / b;
    QuotientTimesDivisor(a, b);
    assert y * b == a;
    assert (x + 1.0) * b == x * b + b;
    if b > 0.0 {
      ScaleBelow(x, y, b);
      assert y < x + 1.0;
      ScaleStrictlyBelow(y, x + 1.0, b);
      assert a < x * b + b;
    } else {
      ScaleBelow(x, y, -b);
      assert y < x + 1.0;
      ScaleStrictlyBelow(y, x + 1.0, -b);
      assert y * -b == -a;
      assert (x + 1.0) * -b == -(x * b + b);
      assert x * b + b < a;
    }
  }

  /** Floored division: the remainder is zero or has the divisor's sign. */
  function FloorDivMod(a: real, b: real): (qr: (int, real))
    requires b != 0.0
    ensures a == qr.0 as real * b + qr.1
    ensures b > 0.0 ==> 0.0 <= qr.1 < b
    ensures b < 0.0 ==> b < qr.1 <= 0.0
  {
    var q := (a / b).Floor;
    FloorEncloses(a, b, q);
    (q, a - q as real * b)
  }

  /** Truncated division: the quotient is rounded toward zero, so the
      remainder is zero or has the dividend's sign. */
  function TruncDivMod(a: real, b: real): (qr: (int, real))
    requires b != 0.0
    ensures a == qr.0 as real * b + qr.1
    ensures RAbs(qr.1) < RAbs(b)
    ensures a >= 0.0 ==> qr.1 >= 0.0
    ensures a <= 0.0 ==> qr.1 <= 0.0
  {
    var f := (a / b).Floor;
    FloorEncloses(a, b, f);
    if a / b >= 0.0 || f as real == a / b then
      (f, a - f as real * b)
    else
      (f + 1, a - (f + 1) as real * b)
  }

  /** On integral operands both divisions leave an integral remainder. */
  lemma IntegralRemainder(a: int, b: int, qr: (int, real))
    requires a as real == qr.0 as real * b as real + qr.1
    ensures qr.1 == (a - qr.0 * b) as real
  {
    CastProduct(qr.0, b);
  }

  lemma CastProduct(q: int, b: int)
    ensures q as real * b as real == (q * b) as real
  {
  }
}
