/**
 The integer division and remainder of C, which truncate toward zero.

 Dafny's own `/` and `%` are Euclidean (the remainder is never negative), so
 the driver's arithmetic on `int` operands is written with these two
 functions wherever an operand could be negative.
 */
module CInt {

  /** `a / b` in C: the quotient rounded toward zero. */
  function CDiv(a: int, b: int): (q: int)
    requires b > 0
    ensures 0 <= a ==> q == a / b
  {
    if a >= 0 then a / b else -((-a) / b)
  }

  /** `a % b` in C: the remainder takes the sign of the dividend. */
  function CRem(a: int, b: int): (r: int)
    requires b > 0
    ensures 0 <= a ==> r == a % b
  {
    a - b * CDiv(a, b)
  }

  /** A C remainder is zero exactly when the Euclidean one is: divisibility tests agree for every sign. */
  lemma CRemZero(a: int, b: int)
    requires b > 0
    ensures CRem(a, b) == 0 <==> a % b == 0
  {
    if a < 0 {
      var n := -a;
      assert CRem(a, b) == -(n % b);
      if n % b == 0 {
        MultipleHasNoRemainder(b, -(n / b));
        assert a == b * -(n / b);
      }
      if a % b == 0 {
        MultipleHasNoRemainder(b, -(a / b));
        assert n == b * -(a / b);
      }
    }
  }

  /** A multiple of `b` leaves no Euclidean remainder. */
  lemma MultipleHasNoRemainder(b: int, m: int)
    requires b > 0
    ensures (b * m) % b == 0
  {
    var x := b * m;
    var d := m - x / b;
    assert x == b * (x / b) + x % b;
    assert x % b == b * d by {
      assert b * m - b * (x / b) == b * (m - x / b);
    }
    ProductBounds(b, d);
  }

  /** A non-zero multiple of a positive `b` is at least `b` away from zero. */
  lemma ProductBounds(b: int, d: int)
    requires b > 0
    ensures d >= 1 ==> b * d >= b
    ensures d <= -1 ==> b * d <= -b
  {
  }
}
