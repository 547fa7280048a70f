/** Scalar helpers shared by the physics, simulation and visualisation
    modules: the standard library's clamp, absolute value, and the C
    library's fmod, all over exact reals. */
module Numeric {

  /** std::clamp / au::clamp: lo when x is below lo, hi when x is above hi,
      otherwise x. The standard library demands lo <= hi. */
  function Clamp(x: real, lo: real, hi: real): (r: real)
    requires lo <= hi
    ensures lo <= r <= hi
    ensures lo <= x <= hi ==> r == x
    ensures x < lo ==> r == lo
    ensures hi < x ==> r == hi
  {
    if x < lo then lo else if hi < x then hi else x
  }

  lemma ClampIdempotent(x: real, lo: real, hi: real)
    requires lo <= hi
    ensures Clamp(Clamp(x, lo, hi), lo, hi) == Clamp(x, lo, hi)
  {
  }

  function Min(a: real, b: real): (r: real)
    ensures r <= a && r <= b
    ensures r == a || r == b
  {
    if a <= b then a else b
  }

  function Abs(x: real): (r: real)
    ensures r >= 0.0
    ensures r == x || r == -x
  {
    if x < 0.0 then -x else x
  }

  /** a * c == b * c with c non-zero gives a == b. */
  lemma Cancel(a: real, b: real, c: real)
    requires c != 0.0 && a * c == b * c
    ensures a == b
  {
    assert (a - b) * c == 0.0;
  }

  lemma CancelLess(a: real, b: real, c: real)
    requires c > 0.0 && b * c < a * c
    ensures b < a
  {
    assert (a - b) * c > 0.0;
  }

  lemma ProductNonZero(a: real, b: real)
    requires a != 0.0 && b != 0.0
    ensures a * b != 0.0
  {
  }

  lemma ProductPositive(a: real, b: real)
    requires a > 0.0 && b > 0.0
    ensures a * b > 0.0
  {
  }

  /** Dividing by a positive number keeps the sign. */
  lemma QuotientSign(n: real, d: real)
    requires d > 0.0
    ensures n > 0.0 ==> n / d > 0.0
    ensures n < 0.0 ==> n / d < 0.0
  {
    assert (n / d) * d == n;
    if n / d <= 0.0 { assert (n / d) * d <= 0.0; }
    if n / d >= 0.0 { assert (n / d) * d >= 0.0; }
  }

  lemma DivDiv(a: real, b: real, c: real)
    requires b != 0.0 && c != 0.0
    ensures a / b / c == a / (b * c)
  {
  }

  lemma MulDiv(a: real, x: real, b: real)
    requires b != 0.0
    ensures (a * x) / b == a / b * x
  {
  }

  /** −(n·v)/d/m == −n/e·v when e == d·m. */
  lemma ScaledQuotient(n: real, v: real, d: real, m: real, e: real)
    requires d != 0.0 && m != 0.0 && e == d * m
    ensures (-1.0 * (n * v)) / d / m == -1.0 * n / e * v
  {
    DivDiv(-1.0 * (n * v), d, m);
    assert -1.0 * (n * v) == (-1.0 * n) * v;
    MulDiv(-1.0 * n, v, e);
  }

  /** The quotient of x / y rounded toward zero, as C's fmod uses it. */
  function TruncatedQuotient(x: real, y: real): int
    requires y != 0.0
  {
    var q := x / y;
    if q >= 0.0 then q.Floor else -((-q).Floor)
  }

  /** C's fmod: x minus the truncated quotient times y, so the result has the
      sign of x and a magnitude below |y|. */
  function Fmod(x: real, y: real): (r: real)
    requires y != 0.0
    ensures x >= 0.0 && y > 0.0 ==> 0.0 <= r < y
    ensures x <= 0.0 && y > 0.0 ==> -y < r <= 0.0
  {
    var n := TruncatedQuotient(x, y);
    FmodBounds(x, y, n);
    x - (n as real) * y
  }

  lemma FmodBounds(x: real, y: real, n: int)
    requires y != 0.0 && n == TruncatedQuotient(x, y)
    ensures x >= 0.0 && y > 0.0 ==> 0.0 <= x - (n as real) * y < y
    ensures x <= 0.0 && y > 0.0 ==> -y < x - (n as real) * y <= 0.0
  {
    if y > 0.0 {
      if x >= 0.0 {
        FloorRemainder(x, y, n);
        if x == 0.0 {
          assert x / y == 0.0;
        }
      } else {
        assert x / y < 0.0;
        CeilingRemainder(x, y, -n);
      }
    }
  }

  lemma FloorRemainder(x: real, y: real, n: int)
    requires y > 0.0 && x >= 0.0 && n == (x / y).Floor
    ensures 0.0 <= x - (n as real) * y < y
  {
    var q := x / y;
    var d := q - (n as real);
    assert q * y == x;
    assert (q - (n as real)) * y == q * y - (n as real) * y;
    assert 0.0 <= d < 1.0;
    assert (1.0 - d) * y > 0.0;
    assert d * y < y;
    assert x - (n as real) * y == d * y;
  }

  lemma CeilingRemainder(x: real, y: real, m: int)
    requires y > 0.0 && x < 0.0 && m == (-(x / y)).Floor
    ensures -y < x + (m as real) * y <= 0.0
  {
    var q := x / y;
    assert q * y == x;
    assert (-x) / y * y == -x;
    assert (-q) * y == -x;
    Cancel((-x) / y, -q, y);
    FloorRemainder(-x, y, m);
  }

  /** fmod with a positive period repeats: a non-negative time and the same
      time one period later fall on the same phase. */
  lemma {:induction false} FmodPeriodic(x: real, y: real)
    requires x >= 0.0 && y > 0.0
    ensures Fmod(x + y, y) == Fmod(x, y)
  {
    var q := x / y;
    var q' := (x + y) / y;
    assert q' == q + y / y;
    assert y / y == 1.0;
    var k := q.Floor;
    assert (k as real) <= q < (k as real) + 1.0;
    var j := q'.Floor;
    assert (j as real) <= q' < (j as real) + 1.0;
    assert (k as real) < (j as real) && (j as real) < (k as real) + 2.0;
    assert k < j < k + 2;
  }

  /** Within the first period fmod is the identity. */
  lemma {:induction false} FmodWithinPeriod(x: real, y: real)
    requires 0.0 <= x < y
    ensures Fmod(x, y) == x
  {
    var q := x / y;
    assert q * y < 1.0 * y;
    CancelLess(1.0, q, y);
    assert q.Floor == 0;
  }
}
