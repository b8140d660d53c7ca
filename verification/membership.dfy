/** Membership of one crisp value in one fuzzy set of a concept.

    A concept is an ordered list of parameter tuples: four numbers
    (a, b, c, d) for a trapezoid, two numbers (mu, sigma) for a Gaussian.
    The first and the last set of a concept are open towards the outside
    (a plateau at 1), the others are bumps. */
module Membership {
  import opened Numerics

  /** Values below this threshold are written as exactly 0. */
  const Snap: real := 0.00001

  /** The exponent -(x - mu)^2 / (2 sigma^2) of the Gaussian bump, written
      with the standardised distance z = (x - mu) / sigma as -z^2 / 2. */
  function GaussExponent(mu: real, sigma: real, x: real): real
    requires sigma != 0.0
  {
    var z := (x - mu) / sigma;
    -(z * z) / 2.0
  }

  /** Gaussian set `idx` of `n` at the value x (fuzzifier.py, lines 17-28). */
  function GaussMembership(m: MathLib, mu: real, sigma: real, idx: nat, n: nat, x: real): real
    requires sigma != 0.0
  {
    var bump := m.exp(GaussExponent(mu, sigma, x));
    var v := if idx == 0 then (if x <= mu then 1.0 else bump)
             else if idx == n - 1 then (if x >= mu then 1.0 else bump)
             else bump;
    if v < Snap then 0.0 else v
  }

  /** The first set of a concept: a left plateau ending in a ramp or a step. */
  function FirstTrap(c: real, d: real, x: real): real
  {
    if c == d then (if x < c then 1.0 else 0.0)
    else Clip01((d - x) / (d - c))
  }

  /** The last set of a concept: a ramp or a step up to a right plateau,
      switched off when the first set's right corner `firstC` sits on its
      step. */
  function LastTrap(a: real, b: real, firstC: real, x: real): real
  {
    if a == b then (if firstC == a then 0.0 else if x > b then 1.0 else 0.0)
    else Clip01((a - x) / (a - b))
  }

  /** An inner set: left ramp, plateau and right ramp added together. */
  function MiddleTrap(a: real, b: real, c: real, d: real, x: real): real
  {
    var left := if a == b then 0.0 else if x < b then Max0((a - x) / (a - b)) else 0.0;
    var middle := if b <= x <= c then 1.0 else 0.0;
    var right := if c == d then 0.0 else if x > c then Max0((d - x) / (d - c)) else 0.0;
    left + middle + right
  }

  /** Trapezoid set `idx` of `n` at x (fuzzifier.py, lines 29-56); `firstC`
      is the third parameter of the concept's first set. */
  function TrapMembership(p: seq<real>, firstC: real, idx: nat, n: nat, x: real): real
    requires |p| == 4
  {
    if p[0] == p[1] && p[1] == p[2] && p[2] == p[3] then 0.0
    else if idx == 0 then FirstTrap(p[2], p[3], x)
    else if idx == n - 1 then LastTrap(p[0], p[1], firstC, x)
    else MiddleTrap(p[0], p[1], p[2], p[3], x)
  }

  /** The error that evaluating set `idx` raises, if any: a tuple that is
      neither a trapezoid nor a Gaussian raises ValueError, and a last
      trapezoid whose step has to be compared with a first set that has no
      third parameter raises IndexError. */
  function SetError(params: seq<seq<real>>, idx: nat): (e: Option<PyError>)
    requires idx < |params|
    ensures |params[idx]| != 2 && |params[idx]| != 4 ==> e == Some(ValueError)
    ensures |params[idx]| == 2 ==> e == None
  {
    var p := params[idx];
    if |p| == 2 then None
    else if |p| != 4 then Some(ValueError)
    else if p[0] == p[1] && p[1] == p[2] && p[2] == p[3] then None
    else if idx != 0 && idx == |params| - 1 && p[0] == p[1] && |params[0]| < 3 then Some(IndexError)
    else None
  }

  /** Every Gaussian tuple has a usable width. */
  predicate SigmasNonzero(params: seq<seq<real>>)
  {
    forall k :: 0 <= k < |params| && |params[k]| == 2 ==> params[k][1] != 0.0
  }

  /** The membership of x in set `idx` of the concept. */
  function SetMembership(m: MathLib, params: seq<seq<real>>, idx: nat, x: real): real
    requires idx < |params| && SetError(params, idx) == None && SigmasNonzero(params)
  {
    var p := params[idx];
    if |p| == 2 then GaussMembership(m, p[0], p[1], idx, |params|, x)
    else TrapMembership(p, if |params[0]| >= 3 then params[0][2] else 0.0, idx, |params|, x)
  }

  /** What set `idx` gives for a NaN value (fuzzifier.py, lines 17-56).
      A comparison with NaN is false and arithmetic on it gives NaN, so a
      set whose formula only compares the value (a switched-off trapezoid,
      a step, an inner set made of two steps) gives 0, and every set with a
      ramp or a Gaussian gives NaN (written `None`). */
  function NaNMembership(params: seq<seq<real>>, idx: nat): (v: Option<real>)
    requires idx < |params| && SetError(params, idx) == None
    ensures v.Some? ==> v.value == 0.0 && |params[idx]| == 4
    ensures |params[idx]| == 2 ==> v.None?
  {
    var p := params[idx];
    if |p| == 2 then None
    else if p[0] == p[1] && p[1] == p[2] && p[2] == p[3] then Some(0.0)
    else if idx == 0 then (if p[2] == p[3] then Some(0.0) else None)
    else if idx == |params| - 1 then (if p[0] == p[1] then Some(0.0) else None)
    else if p[0] == p[1] && p[2] == p[3] then Some(0.0)
    else None
  }

  // ---------------------------------------------------------------------
  // Properties of single sets

  /** A trapezoid with four equal corners is switched off. */
  lemma DegenerateTrapIsZero(p: seq<real>, firstC: real, idx: nat, n: nat, x: real)
    requires |p| == 4 && p[0] == p[1] == p[2] == p[3]
    ensures TrapMembership(p, firstC, idx, n, x) == 0.0
  {
  }

  /** The first set with a ramp: 1 up to c, 0 from d on, and the ramp
      between is the clipped line through (c, 1) and (d, 0). */
  lemma FirstTrapRamp(c: real, d: real, x: real)
    requires c < d
    ensures 0.0 <= FirstTrap(c, d, x) <= 1.0
    ensures x <= c ==> FirstTrap(c, d, x) == 1.0
    ensures x >= d ==> FirstTrap(c, d, x) == 0.0
    ensures c <= x <= d ==> FirstTrap(c, d, x) == (d - x) / (d - c)
  {
    DivFacts(d - x, d - c);
  }

  /** The first set with c = d is a step: 1 exactly below c. */
  lemma FirstTrapStep(c: real, x: real)
    ensures FirstTrap(c, c, x) == 1.0 <==> x < c
    ensures FirstTrap(c, c, x) == 0.0 <==> x >= c
  {
  }

  /** The last set is off exactly when its step sits on the first set's
      right corner; otherwise it is 0 up to a and 1 from b on. */
  lemma LastTrapShape(a: real, b: real, firstC: real, x: real)
    requires a <= b
    ensures (forall y :: LastTrap(a, b, firstC, y) == 0.0) <==> (a == b && firstC == a)
    ensures !(a == b && firstC == a) && x <= a ==> LastTrap(a, b, firstC, x) == 0.0
    ensures a < b && x >= b ==> LastTrap(a, b, firstC, x) == 1.0
    ensures a == b && firstC != a ==> (LastTrap(a, b, firstC, x) == 1.0 <==> x > b)
    ensures 0.0 <= LastTrap(a, b, firstC, x) <= 1.0
  {
    if !(a == b && firstC == a) {
      assert LastTrap(a, b, firstC, b + 1.0) == 1.0 by {
        if a < b {
          DivNegNeg(a - (b + 1.0), a - b);
          DivFacts(b + 1.0 - a, b - a);
        }
      }
    }
    if a < b {
      DivNegNeg(a - x, a - b);
      DivFacts(x - a, b - a);
    }
  }

  /** An inner trapezoid with ordered corners: 1 on [b, c], 0 outside
      (a, d), always within [0, 1], and at most one of its three parts is
      non-zero at any point. */
  lemma MiddleTrapShape(a: real, b: real, c: real, d: real, x: real)
    requires a <= b <= c <= d
    ensures 0.0 <= MiddleTrap(a, b, c, d, x) <= 1.0
    ensures b <= x <= c ==> MiddleTrap(a, b, c, d, x) == 1.0
    ensures x < a || x > d ==> MiddleTrap(a, b, c, d, x) == 0.0
    ensures (a < b && x == a) || (c < d && x == d) ==> MiddleTrap(a, b, c, d, x) == 0.0
    ensures a < x < b ==> MiddleTrap(a, b, c, d, x) == (x - a) / (b - a)
    ensures c < x < d ==> MiddleTrap(a, b, c, d, x) == (d - x) / (d - c)
  {
    if a < b {
      DivNegNeg(x - a, b - a);
      assert (a - x) / (a - b) == (x - a) / (b - a);
      DivFacts(x - a, b - a);
    }
    if c < d {
      DivFacts(d - x, d - c);
    }
  }

  /** Gaussian sets: the first is 1 left of its mean, the last is 1 right of
      its mean, every set is 1 at its mean, and values are 0 or between the
      snapping threshold and 1. */
  lemma GaussShape(m: MathLib, mu: real, sigma: real, idx: nat, n: nat, x: real)
    requires m.Valid() && sigma != 0.0
    ensures var g := GaussMembership(m, mu, sigma, idx, n, x);
      && (g == 0.0 || Snap <= g <= 1.0)
      && (idx == 0 && x <= mu ==> g == 1.0)
      && (idx != 0 && idx == n - 1 && x >= mu ==> g == 1.0)
      && (x == mu ==> g == 1.0)
  {
    var z := (x - mu) / sigma;
    SquareNonNegative(z);
    if x == mu {
      assert z == 0.0;
    }
  }

  /** Every set's membership is non-negative, whatever its parameters. */
  lemma MembershipNonNegative(m: MathLib, params: seq<seq<real>>, idx: nat, x: real)
    requires m.Valid() && idx < |params| && SetError(params, idx) == None && SigmasNonzero(params)
    ensures SetMembership(m, params, idx, x) >= 0.0
  {
    var p := params[idx];
    if |p| == 2 {
      GaussShape(m, p[0], p[1], idx, |params|, x);
    }
  }

  /** Ordered corners a <= b <= c <= d. */
  predicate OrderedTrap(p: seq<real>)
  {
    |p| == 4 && p[0] <= p[1] <= p[2] <= p[3]
  }

  /** For a concept whose trapezoids have ordered corners, every membership
      lies in [0, 1]. */
  lemma MembershipInUnitInterval(m: MathLib, params: seq<seq<real>>, idx: nat, x: real)
    requires m.Valid() && idx < |params| && SetError(params, idx) == None && SigmasNonzero(params)
    requires |params[idx]| == 4 ==> OrderedTrap(params[idx])
    ensures 0.0 <= SetMembership(m, params, idx, x) <= 1.0
  {
    var p := params[idx];
    if |p| == 2 {
      GaussShape(m, p[0], p[1], idx, |params|, x);
    } else if !(p[0] == p[1] && p[1] == p[2] && p[2] == p[3]) && idx != 0 {
      if idx == |params| - 1 {
        LastTrapShape(p[0], p[1], if |params[0]| >= 3 then params[0][2] else 0.0, x);
      } else {
        MiddleTrapShape(p[0], p[1], p[2], p[3], x);
      }
    }
  }

  /** A set that gives 0 rather than NaN for a NaN value is crisp: on
      every number its membership is 0 or 1. */
  lemma NaNZeroOnlyForCrispSets(m: MathLib, params: seq<seq<real>>, idx: nat, x: real)
    requires idx < |params| && SetError(params, idx) == None && SigmasNonzero(params)
    requires NaNMembership(params, idx).Some?
    ensures SetMembership(m, params, idx, x) == 0.0 || SetMembership(m, params, idx, x) == 1.0
  {
  }
}
