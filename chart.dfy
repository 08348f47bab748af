/**
 * `ceiling_gap` of demo/chart/chart.py: a count rounded up to a multiple of the bucket
 * size `gap` (400 unless given). The quotient is `int(num / gap)`, a true division
 * truncated toward zero, while the surplus is Python's `%`, which takes the sign of the
 * divisor; so on negative counts the rounding goes one bucket too far up.
 */
module Chart {
  import opened Wrappers

  /** The exception Python raises for a zero divisor. */
  datatype ArithError = ZeroDivisionError

  const DefaultGap: int := 400

  function Abs(x: int): nat {
    if x < 0 then -x else x
  }

  /** `int(a / b)`: the quotient truncated toward zero. */
  function TruncDiv(a: int, b: int): int
    requires b != 0
  {
    if (a >= 0) == (b > 0) then Abs(a) / Abs(b) else -(Abs(a) / Abs(b))
  }

  /** `a % b` in Python: the remainder of the floored quotient, which has the sign of b. */
  function PyMod(a: int, b: int): int
    requires b != 0
  {
    if b > 0 then a % b else -((-a) % (-b))
  }

  /** `ceiling_gap(num, gap)`; dividing by zero raises. */
  function CeilingGap(num: int, gap: int): (r: Result<int, ArithError>)
    ensures r.Failure? <==> gap == 0
    ensures r.Success? ==> r.value % gap == 0
  {
    if gap == 0 then Failure(ZeroDivisionError)
    else
      var quotient := TruncDiv(num, gap);
      var surplus := PyMod(num, gap);
      var result := quotient * gap;
      if surplus != 0 then
        MulMod(quotient + 1, gap);
        assert (quotient + 1) * gap == result + gap;
        Success(result + gap)
      else
        MulMod(quotient, gap);
        Success(result)
  }

  /** `ceiling_gap(num)` with the default bucket size. */
  function DefaultCeilingGap(num: int): Result<int, ArithError> {
    CeilingGap(num, DefaultGap)
  }

  // ----- arithmetic helpers -----

  /** Euclidean division is determined by its defining equation. */
  lemma DivModUnique(a: int, b: int, q: int, r: int)
    requires b != 0 && a == b * q + r && 0 <= r < Abs(b)
    ensures a % b == r && a / b == q
  {
    var q0, r0 := a / b, a % b;
    assert a == b * q0 + r0;
    assert b * (q - q0) == r0 - r;
    if q != q0 {
      if q - q0 > 0 {
        MulAbs(b, q - q0);
      } else {
        MulAbs(b, q0 - q);
      }
    }
  }

  lemma MulAbs(b: int, d: int)
    requires d >= 1 && b != 0
    ensures Abs(b * d) >= Abs(b)
  {
    assert b * d == b + b * (d - 1);
  }

  lemma MulMod(q: int, b: int)
    requires b != 0
    ensures (q * b) % b == 0
  {
    DivModUnique(q * b, b, q, 0);
  }

  /** Scaling by a positive factor keeps the order. */
  lemma {:induction false} MulLess(g: int, p: int, q: int)
    requires g > 0 && p <= q
    ensures g * p <= g * q
    decreases q - p
  {
    if p < q {
      MulLess(g, p, q - 1);
      assert g * q == g * (q - 1) + g;
    }
  }

  lemma MulSign(q: int, g: int)
    requires q != 0 && g != 0
    ensures q * g > 0 <==> (q > 0) == (g > 0)
    ensures Abs(q * g) == Abs(q) * Abs(g)
  {
    if q > 0 && g > 0 {
      MulLess(g, 1, q);
    } else if q > 0 {
      MulLess(-g, 1, q);
      assert (-g) * q == -(q * g);
    } else if g > 0 {
      MulLess(g, 1, -q);
      assert g * (-q) == -(q * g);
    } else {
      MulLess(-g, 1, -q);
      assert (-g) * (-q) == q * g;
    }
  }

  /** Truncating a multiple's quotient gives the factor back. */
  lemma TruncDivMultiple(q: int, g: int)
    requires g != 0
    ensures TruncDiv(q * g, g) == q
  {
    if q != 0 {
      MulSign(q, g);
      DivModUnique(Abs(q) * Abs(g), Abs(g), Abs(q), 0);
    }
  }

  lemma ModZeroNeg(a: int, c: int)
    requires c > 0 && a % c == 0
    ensures (-a) % c == 0
  {
    var q := a / c;
    assert a == c * q;
    DivModUnique(-a, c, -q, 0);
  }

  lemma ModZeroFlip(a: int, b: int)
    requires b != 0 && a % b == 0
    ensures a % (-b) == 0
  {
    var q := a / b;
    assert a == b * q;
    DivModUnique(a, -b, -q, 0);
  }

  /** Python's surplus is zero exactly when gap divides num. */
  lemma PyModZero(num: int, gap: int)
    requires gap != 0
    ensures PyMod(num, gap) == 0 <==> num % gap == 0
  {
    if gap < 0 {
      if num % gap == 0 {
        ModZeroFlip(num, gap);
        ModZeroNeg(num, -gap);
      }
      if (-num) % (-gap) == 0 {
        ModZeroNeg(-num, -gap);
        ModZeroFlip(num, -gap);
      }
    }
  }

  lemma NegMul(x: int, y: int)
    ensures (-x) * y == -(x * y) && x * (-y) == -(x * y) && (-x) * (-y) == x * y
  {
  }

  /** The sign argument of TruncDivRange, with the product p = |b| * |q| held abstract. */
  lemma RemainderFromParts(a: int, r: int, y: int, p: int, e: int)
    requires Abs(a) == p + e && 0 <= e < y && (e > 0 ==> a != 0)
    requires (a >= 0 && r == a - p) || (a < 0 && r == a + p)
    ensures Abs(r) < y && (r == 0 || (r > 0) == (a > 0))
  {
  }

  /** Euclidean division of the magnitudes. */
  lemma AbsDivMod(a: int, b: int)
    requires b != 0
    ensures var x, y := Abs(a), Abs(b); x == y * (x / y) + x % y && 0 <= x % y < y
    ensures Abs(a) % Abs(b) > 0 ==> a != 0
  {
    if a == 0 {
      DivModUnique(0, Abs(b), 0, 0);
    }
  }

  /** b times the truncated quotient is plus or minus the product of the magnitudes. */
  lemma TruncProduct(a: int, b: int)
    requires b != 0
    ensures var p := Abs(b) * (Abs(a) / Abs(b));
      (a >= 0 && b * TruncDiv(a, b) == p) || (a < 0 && b * TruncDiv(a, b) == -p)
  {
    NegMul(Abs(b), Abs(a) / Abs(b));
  }

  /** The truncated quotient leaves a remainder smaller than b with the sign of a. */
  lemma TruncDivRange(a: int, b: int)
    requires b != 0
    ensures var r := a - b * TruncDiv(a, b); Abs(r) < Abs(b) && (r == 0 || (r > 0) == (a > 0))
  {
    AbsDivMod(a, b);
    TruncProduct(a, b);
    RemainderFromParts(a, a - b * TruncDiv(a, b), Abs(b), Abs(b) * (Abs(a) / Abs(b)), Abs(a) % Abs(b));
  }

  /** Python's remainder lies between 0 and the divisor and differs from a by a multiple of it. */
  lemma PyModRange(a: int, b: int)
    requires b != 0
    ensures b > 0 ==> 0 <= PyMod(a, b) < b
    ensures b < 0 ==> b < PyMod(a, b) <= 0
    ensures (a - PyMod(a, b)) % b == 0
  {
    if b > 0 {
      MulMod(a / b, b);
      assert a - PyMod(a, b) == (a / b) * b;
    } else {
      var q := (-a) / (-b);
      assert -a == (-b) * q + (-a) % (-b);
      MulMod(q, b);
      assert a - PyMod(a, b) == q * b;
    }
  }

  // ----- what the rounding promises -----

  /** For counts of at least zero, the result is the smallest multiple of gap that is at least num. */
  lemma CeilingGapSmallest(num: int, gap: int)
    requires num >= 0 && gap > 0
    ensures CeilingGap(num, gap).Success?
    ensures var r := CeilingGap(num, gap).value; r >= num && r - gap < num
    ensures forall m :: m % gap == 0 && m >= num ==> CeilingGap(num, gap).value <= m
  {
    var q, s := num / gap, num % gap;
    assert TruncDiv(num, gap) == q && PyMod(num, gap) == s;
    var r := CeilingGap(num, gap).value;
    assert r == if s != 0 then gap * q + gap else gap * q;
    forall m | m % gap == 0 && m >= num ensures r <= m {
      var p := m / gap;
      assert m == gap * p;
      if p >= q + 1 {
        MulLess(gap, q + 1, p);
      } else {
        MulLess(gap, p, q);
      }
    }
  }

  /** A multiple of gap is its own ceiling, and in particular 0 maps to 0. */
  lemma CeilingGapOfMultiple(q: int, gap: int)
    requires gap != 0
    ensures CeilingGap(q * gap, gap) == Success(q * gap)
    ensures CeilingGap(0, gap) == Success(0)
  {
    TruncDivMultiple(q, gap);
    MulMod(q, gap);
    PyModZero(q * gap, gap);
    TruncDivMultiple(0, gap);
    MulMod(0, gap);
    PyModZero(0 * gap, gap);
  }

  /**
   * A negative count that is no multiple of a positive gap is rounded one bucket past
   * its ceiling: the result less gap is still at least num.
   */
  lemma CeilingGapNegativeOvershoots(num: int, gap: int)
    requires num < 0 && gap > 0 && num % gap != 0
    ensures CeilingGap(num, gap).Success?
    ensures var r := CeilingGap(num, gap).value; r - gap >= num && r - 2 * gap < num
  {
    var d, e := (-num) / gap, (-num) % gap;
    assert -num == gap * d + e;
    assert TruncDiv(num, gap) == -d && PyMod(num, gap) != 0;
    assert CeilingGap(num, gap).value == (-d) * gap + gap;
  }

  /** With the default gap, -1 becomes 400 where a ceiling would give 0. */
  lemma MinusOneOvershoots()
    ensures DefaultCeilingGap(-1) == Success(400)
    ensures DefaultCeilingGap(0) == Success(0)
    ensures DefaultCeilingGap(1) == Success(400)
    ensures DefaultCeilingGap(400) == Success(400)
    ensures DefaultCeilingGap(401) == Success(800)
  {
    assert TruncDiv(-1, 400) == 0;
    assert TruncDiv(1, 400) == 0;
    assert TruncDiv(401, 400) == 1;
    CeilingGapOfMultiple(1, 400);
  }
}
