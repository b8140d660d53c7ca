/** Numeric vocabulary shared by the estimators and the fuzzifier.

    Reals stand in for the floating-point numbers of the program.  The
    transcendental functions the program calls (exp, sqrt, log) are not
    given bodies: they are fields of a `MathLib` value that every caller
    passes in, constrained only by the facts the model relies on. */
module Numerics {

  datatype Option<T> = None | Some(value: T)

  /** The exceptions the program raises, by the name of their Python class. */
  datatype PyError = ValueError | TypeError | IndexError | KeyError | ZeroDivisionError | UnboundLocalError

  datatype Result<T> = Ok(value: T) | Err(error: PyError)

  /** The library functions the program takes from numpy. */
  datatype MathLib = MathLib(exp: real -> real, sqrt: real -> real, sqrt2Ln2: real, sqrt6Ln10: real)
  {
    /** exp maps non-positive arguments into (0, 1] and 0 to 1; sqrt is the
        non-negative square root; the two constants are sqrt(2 ln 2) and
        sqrt(6 ln 10) to three decimals. */
    ghost predicate Valid()
    {
      && (forall t :: t <= 0.0 ==> 0.0 < exp(t) <= 1.0)
      && exp(0.0) == 1.0
      && (forall t :: t >= 0.0 ==> sqrt(t) >= 0.0 && sqrt(t) * sqrt(t) == t)
      && 1.177 < sqrt2Ln2 < 1.178
      && 3.716 < sqrt6Ln10 < 3.717
    }
  }

  /** Python's int() on a float: truncation toward zero. */
  function Trunc(x: real): (r: int)
    ensures 0.0 <= x ==> r as real <= x < r as real + 1.0
    ensures x < 0.0 ==> r as real - 1.0 < x <= r as real
  {
    if x >= 0.0 then x.Floor else -((-x).Floor)
  }

  lemma TruncMonotone(x: real, y: real)
    requires 0.0 <= x <= y
    ensures Trunc(x) <= Trunc(y)
  {
  }

  function Floor(x: real): (r: int)
    ensures r as real <= x < r as real + 1.0
  {
    x.Floor
  }

  function Ceil(x: real): (r: int)
    ensures r as real - 1.0 < x <= r as real
  {
    -((-x).Floor)
  }

  /** Round to the nearest integer, ties to the even neighbour (numpy's
      `round`, and Python's `round` on floats). */
  function RoundHalfEven(y: real): (r: int)
    ensures y - 0.5 <= r as real <= y + 0.5
    ensures y.Floor <= r <= y.Floor + 1
  {
    var f := y.Floor;
    var frac := y - f as real;
    if frac < 0.5 then f
    else if frac > 0.5 then f + 1
    else if f % 2 == 0 then f
    else f + 1
  }

  /** Rounding to three decimals, as `round(x, 3)` / `np.round(x, 3)`. */
  function Round3(x: real): real
  {
    RoundHalfEven(x * 1000.0) as real / 1000.0
  }

  lemma Round3Close(x: real)
    ensures x - 0.0005 <= Round3(x) <= x + 0.0005
  {
    var r := RoundHalfEven(x * 1000.0);
    assert x * 1000.0 - 0.5 <= r as real <= x * 1000.0 + 0.5;
  }

  lemma RoundHalfEvenMonotone(y: real, z: real)
    requires y <= z
    ensures RoundHalfEven(y) <= RoundHalfEven(z)
  {
    var fy, fz := y.Floor, z.Floor;
    if fy == fz {
      assert y - fy as real <= z - fz as real;
    } else {
      assert fy < fz;
    }
  }

  lemma Round3Monotone(x: real, y: real)
    requires x <= y
    ensures Round3(x) <= Round3(y)
  {
    RoundHalfEvenMonotone(x * 1000.0, y * 1000.0);
  }

  /** Rounding leaves whole numbers unchanged. */
  lemma Round3Integer(k: int)
    ensures Round3(k as real) == k as real
  {
    var y := k as real * 1000.0;
    assert y == (k * 1000) as real;
    assert y.Floor == k * 1000;
  }

  /** A whole-number bound survives rounding. */
  lemma Round3Between(x: real, lo: int, hi: int)
    requires lo as real <= x <= hi as real
    ensures lo as real <= Round3(x) <= hi as real
  {
    Round3Monotone(lo as real, x);
    Round3Monotone(x, hi as real);
    Round3Integer(lo);
    Round3Integer(hi);
  }

  /** Rounding leaves numbers with at most three decimals unchanged. */
  lemma Round3Exact(m: int)
    ensures Round3(m as real / 1000.0) == m as real / 1000.0
  {
    var y := m as real / 1000.0 * 1000.0;
    assert y == m as real;
    assert y.Floor == m;
  }

  /** Rounding twice is rounding once. */
  lemma Round3Idempotent(x: real)
    ensures Round3(Round3(x)) == Round3(x)
  {
    Round3Exact(RoundHalfEven(x * 1000.0));
  }

  /** A non-negative number rounds to 0 or to at least 0.001. */
  lemma Round3Positive(x: real)
    requires x >= 0.0
    ensures Round3(x) == 0.0 || Round3(x) >= 0.001
  {
    RoundHalfEvenMonotone(0.0, x * 1000.0);
    assert RoundHalfEven(0.0) == 0;
  }

  /** Below half a thousandth, a non-negative number rounds to 0. */
  lemma Round3Small(x: real)
    ensures 0.0 <= x < 0.0005 ==> Round3(x) == 0.0
  {
    if 0.0 <= x < 0.0005 {
      assert (x * 1000.0).Floor == 0;
    }
  }

  lemma DivMonotone(a: real, b: real, f: real)
    requires f > 0.0 && a <= b
    ensures a / f <= b / f
  {
    assert b / f - a / f == (b - a) / f;
  }

  lemma DivPositive(a: real, f: real)
    requires a > 0.0 && f > 0.0
    ensures a / f > 0.0
  {
  }

  /** A quotient lies between lo and hi when its numerator lies between
      lo and hi times the (positive) denominator. */
  lemma DivBetween(n: real, d: real, lo: real, hi: real)
    requires d > 0.0 && lo * d <= n <= hi * d
    ensures lo <= n / d <= hi
  {
    DivFacts(n - lo * d, d);
    DivFacts(hi * d - n, d);
    assert (n - lo * d) / d == n / d - lo;
    assert (hi * d - n) / d == hi - n / d;
  }

  /** Sign and size of a quotient by a positive number. */
  lemma DivFacts(n: real, d: real)
    requires d > 0.0
    ensures n <= 0.0 ==> n / d <= 0.0
    ensures n >= 0.0 ==> n / d >= 0.0
    ensures n >= d ==> n / d >= 1.0
    ensures n < d ==> n / d < 1.0
    ensures n <= d ==> n / d <= 1.0
  {
    if n < d {
      DivLessThanOne(n, d);
    }
  }

  lemma SquareNonNegative(s: real)
    ensures s * s >= 0.0
  {
  }

  /** Multiplying by a non-negative number keeps order. */
  lemma MulMonotone(k: real, a: real, b: real)
    requires k >= 0.0 && a <= b
    ensures k * a <= k * b
  {
    assert k * b - k * a == k * (b - a);
  }

  lemma DivLessThanOne(n: real, d: real)
    requires d > 0.0 && n < d
    ensures n / d < 1.0
  {
  }

  /** Negating numerator and denominator leaves a quotient unchanged. */
  lemma DivNegNeg(n: real, d: real)
    requires d != 0.0
    ensures (-n) / (-d) == n / d
  {
    var q := n / d;
    assert q * d == n;
    assert q * (-d) == -n;
  }

  /** `np.clip(x, 0, 1)`. */
  function Clip01(x: real): (r: real)
    ensures 0.0 <= r <= 1.0
    ensures 0.0 <= x <= 1.0 ==> r == x
  {
    if x < 0.0 then 0.0 else if x > 1.0 then 1.0 else x
  }

  /** `np.clip(x, min = 0)`. */
  function Max0(x: real): (r: real)
    ensures r >= 0.0 && r >= x
    ensures x >= 0.0 ==> r == x
  {
    if x < 0.0 then 0.0 else x
  }

  function Min(a: real, b: real): (r: real)
    ensures r <= a && r <= b && (r == a || r == b)
  {
    if a <= b then a else b
  }

  function Max(a: real, b: real): (r: real)
    ensures r >= a && r >= b && (r == a || r == b)
  {
    if a >= b then a else b
  }

  /** Point j of `np.linspace(lo, hi, count)`. */
  function Linspace(lo: real, hi: real, count: nat, j: int): real
    requires count >= 2
  {
    lo + j as real * (hi - lo) / (count - 1) as real
  }

  lemma LinspaceBetween(lo: real, hi: real, count: nat, j: int)
    requires count >= 2 && lo <= hi && 0 <= j < count
    ensures lo <= Linspace(lo, hi, count, j) <= hi
    ensures j == 0 ==> Linspace(lo, hi, count, j) == lo
    ensures j == count - 1 ==> Linspace(lo, hi, count, j) == hi
  {
    var d := (count - 1) as real;
    var step := (hi - lo) / d;
    assert step >= 0.0 && step * d == hi - lo;
    assert j as real * (hi - lo) / d == step * j as real;
    MulMonotone(step, 0.0, j as real);
    MulMonotone(step, j as real, d);
  }

  lemma LinspaceIncreasing(lo: real, hi: real, count: nat, i: int, j: int)
    requires count >= 2 && lo < hi && i < j
    ensures Linspace(lo, hi, count, i) < Linspace(lo, hi, count, j)
  {
    var step := (hi - lo) / (count - 1) as real;
    assert step > 0.0;
    assert (j - i) as real * step > 0.0;
  }

  function Sum(s: seq<real>): real
  {
    if s == [] then 0.0 else Sum(s[..|s| - 1]) + s[|s| - 1]
  }

  predicate AllNonNegative(s: seq<real>)
  {
    forall i :: 0 <= i < |s| ==> s[i] >= 0.0
  }

  /** A sum of non-negative numbers is non-negative, and it is zero exactly
      when every term is. */
  lemma {:induction false} SumNonNegative(s: seq<real>)
    requires AllNonNegative(s)
    ensures Sum(s) >= 0.0
    ensures Sum(s) == 0.0 <==> forall i :: 0 <= i < |s| ==> s[i] == 0.0
  {
    if s != [] {
      var init := s[..|s| - 1];
      assert forall i :: 0 <= i < |init| ==> init[i] == s[i];
      SumNonNegative(init);
      if Sum(s) == 0.0 {
        assert forall i :: 0 <= i < |s| ==> s[i] == 0.0 by {
          forall i | 0 <= i < |s|
            ensures s[i] == 0.0
          {
            if i < |s| - 1 {
              assert init[i] == s[i];
            }
          }
        }
      }
    }
  }

  /** A sum whose terms are all zero but one is that one term. */
  lemma {:induction false} SumSingle(s: seq<real>, k: int)
    requires 0 <= k < |s|
    requires forall i :: 0 <= i < |s| && i != k ==> s[i] == 0.0
    ensures Sum(s) == s[k]
  {
    var init := s[..|s| - 1];
    if k == |s| - 1 {
      assert forall i :: 0 <= i < |init| ==> init[i] == 0.0;
      SumAllZero(init);
    } else {
      SumSingle(init, k);
    }
  }

  lemma {:induction false} SumAllZero(s: seq<real>)
    requires forall i :: 0 <= i < |s| ==> s[i] == 0.0
    ensures Sum(s) == 0.0
  {
    if s != [] {
      SumAllZero(s[..|s| - 1]);
    }
  }

  /** The smallest element, as pandas' `min(skipna = True)` on a row with values. */
  function MinOf(s: seq<real>): (r: real)
    requires |s| > 0
    ensures r in s
    ensures forall i :: 0 <= i < |s| ==> r <= s[i]
  {
    if |s| == 1 then s[0] else Min(MinOf(s[..|s| - 1]), s[|s| - 1])
  }

  function MaxOf(s: seq<real>): (r: real)
    requires |s| > 0
    ensures r in s
    ensures forall i :: 0 <= i < |s| ==> r >= s[i]
  {
    if |s| == 1 then s[0] else Max(MaxOf(s[..|s| - 1]), s[|s| - 1])
  }
}
