/** From cutoffs to fuzzy concepts.

    A trapezoidal concept of K sets is K rows (a, b, c, d); neighbouring
    rows share their slope corners.  A Gaussian concept is K rows
    (mu, sigma) whose centres are the midpoints between cutoffs and whose
    widths are bounded by the gaps to the neighbouring centres. */
module Concepts {
  import opened Numerics

  // ---------------------------------------------------------------------
  // estimateSigma

  /** The unrounded width of Gaussian set idx, given the centres framed by
      the range bounds (`center`, of length |mean| + 2): the nearer of the
      two neighbours over sqrt(2 ln 2), and with more than two sets also the
      second neighbour on one or both sides over sqrt(6 ln 10). */
  function RawSigma(m: MathLib, c: seq<real>, idx: nat): real
    requires m.Valid() && idx + 2 < |c|
  {
    var count := |c| - 2;
    var near := Min(c[idx + 2] - c[idx + 1], c[idx + 1] - c[idx]) / m.sqrt2Ln2;
    if count > 2 then
      if idx < 2 then Min(near, (c[idx + 3] - c[idx + 1]) / m.sqrt6Ln10)
      else if idx + 4 > |c| then Min(near, (c[idx + 1] - c[idx - 1]) / m.sqrt6Ln10)
      else Min(Min(near, (c[idx + 3] - c[idx + 1]) / m.sqrt6Ln10), (c[idx + 1] - c[idx - 1]) / m.sqrt6Ln10)
    else near
  }

  /** `estimateSigma`: one rounded width per centre, appended in order. */
  method EstimateSigma(m: MathLib, mean: seq<real>, lo: real, hi: real) returns (width: seq<real>)
    requires m.Valid()
    ensures |width| == |mean|
    ensures forall i :: 0 <= i < |mean| ==> width[i] == Round3(RawSigma(m, [lo] + mean + [hi], i))
  {
    var center := [lo] + mean + [hi];
    var fct1, fct2 := m.sqrt2Ln2, m.sqrt6Ln10;
    width := [];
    for idx := 0 to |mean|
      invariant |width| == idx
      invariant forall i :: 0 <= i < idx ==> width[i] == Round3(RawSigma(m, center, i))
    {
      var sigma := Min(center[idx + 2] - center[idx + 1], center[idx + 1] - center[idx]) / fct1;
      if |mean| > 2 {
        if idx < 2 {
          sigma := Min(sigma, (center[idx + 3] - center[idx + 1]) / fct2);
        } else if idx + 4 > |center| {
          sigma := Min(sigma, (center[idx + 1] - center[idx - 1]) / fct2);
        } else {
          sigma := Min(Min(sigma, (center[idx + 3] - center[idx + 1]) / fct2), (center[idx + 1] - center[idx - 1]) / fct2);
        }
      }
      width := width + [Round3(sigma)];
    }
  }

  /** The width is capped by both neighbour gaps over sqrt(2 ln 2); with
      more than two sets, by the forward second-neighbour gap except for the
      last set and by the backward one from the third set on, both over
      sqrt(6 ln 10); and it equals one of the caps that apply. */
  lemma {:induction false} SigmaCaps(m: MathLib, c: seq<real>, idx: nat)
    requires m.Valid() && idx + 2 < |c|
    ensures var s := RawSigma(m, c, idx);
      && s <= (c[idx + 2] - c[idx + 1]) / m.sqrt2Ln2
      && s <= (c[idx + 1] - c[idx]) / m.sqrt2Ln2
      && (|c| > 4 && idx + 3 < |c| ==> s <= (c[idx + 3] - c[idx + 1]) / m.sqrt6Ln10)
      && (|c| > 4 && idx >= 2 ==> s <= (c[idx + 1] - c[idx - 1]) / m.sqrt6Ln10)
      && (s == (c[idx + 2] - c[idx + 1]) / m.sqrt2Ln2 || s == (c[idx + 1] - c[idx]) / m.sqrt2Ln2
          || (|c| > 4 && idx + 3 < |c| && s == (c[idx + 3] - c[idx + 1]) / m.sqrt6Ln10)
          || (|c| > 4 && idx >= 2 && s == (c[idx + 1] - c[idx - 1]) / m.sqrt6Ln10))
  {
    var f := m.sqrt2Ln2;
    var g1, g2 := c[idx + 2] - c[idx + 1], c[idx + 1] - c[idx];
    DivMonotone(Min(g1, g2), g1, f);
    DivMonotone(Min(g1, g2), g2, f);
  }

  /** Strictly increasing centres get positive widths before rounding. */
  lemma {:induction false} SigmaPositive(m: MathLib, c: seq<real>, idx: nat)
    requires m.Valid() && idx + 2 < |c|
    requires forall j :: 0 < j < |c| ==> c[j - 1] < c[j]
    ensures RawSigma(m, c, idx) > 0.0
  {
    var f, g := m.sqrt2Ln2, m.sqrt6Ln10;
    DivPositive(Min(c[idx + 2] - c[idx + 1], c[idx + 1] - c[idx]), f);
    if |c| > 4 {
      if idx + 3 < |c| {
        DivPositive(c[idx + 3] - c[idx + 1], g);
      }
      if idx >= 1 {
        DivPositive(c[idx + 1] - c[idx - 1], g);
      }
    }
  }

  // ---------------------------------------------------------------------
  // getFullConcept / getFinalConcept

  /** Row i of the trapezoidal concept built from K - 1 (cutoff, slope)
      pairs: the left corners come from pair i - 1, the right corners from
      pair i, and the outer corners of the first and last rows are the range
      bounds. */
  function TrapRow(centres: seq<real>, slopes: seq<real>, lo: real, hi: real, i: nat): (row: seq<real>)
    requires |slopes| == |centres| && i <= |centres|
    ensures |row| == 4
  {
    var last := |centres|;
    [ if i == 0 then lo else Round3(centres[i - 1] - slopes[i - 1]),
      if i == 0 then lo else Round3(centres[i - 1] + slopes[i - 1]),
      if i == last then hi else Round3(centres[i] - slopes[i]),
      if i == last then hi else Round3(centres[i] + slopes[i]) ]
  }

  function TrapConcept(centres: seq<real>, slopes: seq<real>, lo: real, hi: real): (fc: seq<seq<real>>)
    requires |slopes| == |centres|
    ensures |fc| == |centres| + 1
  {
    seq(|centres| + 1, i requires 0 <= i <= |centres| => TrapRow(centres, slopes, lo, hi, i))
  }

  /** The Gaussian centres: the midpoints of consecutive cutoffs, with the
      range bounds added at both ends (`cutoff[1:] - diff(cutoff) / 2`). */
  function GaussCentres(cuts: seq<real>, lo: real, hi: real): (mu: seq<real>)
    ensures |mu| == |cuts| + 1
  {
    var c := [lo] + cuts + [hi];
    seq(|cuts| + 1, j requires 0 <= j <= |cuts| => c[j + 1] - (c[j + 1] - c[j]) / 2.0)
  }

  function GaussConcept(m: MathLib, cuts: seq<real>, lo: real, hi: real): (fc: seq<seq<real>>)
    requires m.Valid()
    ensures |fc| == |cuts| + 1
  {
    var mu := GaussCentres(cuts, lo, hi);
    seq(|mu|, j requires 0 <= j < |mu| =>
      [Round3(mu[j]), Round3(Round3(RawSigma(m, [lo] + mu + [hi], j)))])
  }

  /** Row i built from the cutoffs and slopes padded with a placeholder at
      both ends. */
  function PaddedRow(center: seq<real>, slope: seq<real>, i: nat): (row: seq<real>)
    requires i + 1 < |center| && i + 1 < |slope|
    ensures |row| == 4
  {
    [Round3(center[i] - slope[i]), Round3(center[i] + slope[i]),
     Round3(center[i + 1] - slope[i + 1]), Round3(center[i + 1] + slope[i + 1])]
  }

  /** Away from the placeholders, the padded rows are the concept's rows. */
  lemma PaddedRowAgrees(centres: seq<real>, slopes: seq<real>, lo: real, hi: real, i: nat)
    requires |slopes| == |centres| && i <= |centres|
    ensures var row := PaddedRow([lo] + centres + [hi], [0.0] + slopes + [0.0], i);
      var want := TrapRow(centres, slopes, lo, hi, i);
      && (0 < i ==> row[0] == want[0] && row[1] == want[1])
      && (i < |centres| ==> row[2] == want[2] && row[3] == want[3])
  {
    if 0 < i {
      PaddedLeftAgrees(centres, slopes, lo, hi, i);
    }
    if i < |centres| {
      PaddedRightAgrees(centres, slopes, lo, hi, i);
    }
  }

  lemma PaddedLeftAgrees(centres: seq<real>, slopes: seq<real>, lo: real, hi: real, i: nat)
    requires |slopes| == |centres| && 0 < i <= |centres|
    ensures var row := PaddedRow([lo] + centres + [hi], [0.0] + slopes + [0.0], i);
      row[0] == TrapRow(centres, slopes, lo, hi, i)[0] && row[1] == TrapRow(centres, slopes, lo, hi, i)[1]
  {
    PaddedAt(centres, slopes, lo, hi, i - 1);
  }

  lemma PaddedRightAgrees(centres: seq<real>, slopes: seq<real>, lo: real, hi: real, i: nat)
    requires |slopes| == |centres| && i < |centres|
    ensures var row := PaddedRow([lo] + centres + [hi], [0.0] + slopes + [0.0], i);
      row[2] == TrapRow(centres, slopes, lo, hi, i)[2] && row[3] == TrapRow(centres, slopes, lo, hi, i)[3]
  {
    PaddedAt(centres, slopes, lo, hi, i);
  }

  lemma PaddedAt(centres: seq<real>, slopes: seq<real>, lo: real, hi: real, j: nat)
    requires |slopes| == |centres| && j < |centres|
    ensures ([lo] + centres + [hi])[j + 1] == centres[j]
    ensures ([0.0] + slopes + [0.0])[j + 1] == slopes[j]
  {
  }

  /** `getFullConcept` (and `getFinalConcept`): for "trap" the rows are
      built from the cutoffs padded with placeholders, then the outer
      corners are overwritten with the range bounds; for "gauss" the
      centres are the cutoff midpoints and the widths come from
      `estimateSigma`; any other type raises ValueError. */
  method GetFullConcept(m: MathLib, functionType: string, centres: seq<real>, slopes: seq<real>, lo: real, hi: real)
    returns (r: Result<seq<seq<real>>>)
    requires m.Valid() && |slopes| == |centres|
    ensures functionType == "trap" ==> r == Ok(TrapConcept(centres, slopes, lo, hi))
    ensures functionType == "gauss" ==> r == Ok(GaussConcept(m, centres, lo, hi))
    ensures functionType != "trap" && functionType != "gauss" ==> r == Err(ValueError)
  {
    if functionType == "trap" {
      var k := |centres| + 1;
      var center := [lo] + centres + [hi];
      var slope := [0.0] + slopes + [0.0];
      var rows := seq(k, i requires 0 <= i < k => PaddedRow(center, slope, i));
      var fc := rows;
      fc := fc[0 := fc[0][0 := lo]];
      fc := fc[0 := fc[0][1 := lo]];
      fc := fc[k - 1 := fc[k - 1][2 := hi]];
      fc := fc[k - 1 := fc[k - 1][3 := hi]];
      forall i | 0 <= i < k
        ensures fc[i] == TrapRow(centres, slopes, lo, hi, i)
      {
        PaddedRowAgrees(centres, slopes, lo, hi, i);
      }
      assert fc == TrapConcept(centres, slopes, lo, hi);
      r := Ok(fc);
    } else if functionType == "gauss" {
      var cutoff := [lo] + centres + [hi];
      var center := seq(|cutoff| - 1, j requires 0 <= j < |cutoff| - 1 => cutoff[j + 1] - (cutoff[j + 1] - cutoff[j]) / 2.0);
      assert center == GaussCentres(centres, lo, hi);
      var width := EstimateSigma(m, center, lo, hi);
      var fc := seq(|center|, j requires 0 <= j < |center| => [Round3(center[j]), Round3(width[j])]);
      assert fc == GaussConcept(m, centres, lo, hi);
      r := Ok(fc);
    } else {
      r := Err(ValueError);
    }
  }

  /** Neighbouring trapezoids share their slope corners: the right pair of
      row i is the left pair of row i + 1. */
  lemma TrapSharedCorners(centres: seq<real>, slopes: seq<real>, lo: real, hi: real, i: nat)
    requires |slopes| == |centres| && i < |centres|
    ensures var fc := TrapConcept(centres, slopes, lo, hi);
      fc[i][2] == fc[i + 1][0] && fc[i][3] == fc[i + 1][1]
  {
  }

  /** The outer plateaus reach the range bounds: the first row starts with
      (lo, lo) and the last ends with (hi, hi); every inner corner is the
      rounded cutoff minus or plus its slope. */
  lemma TrapClamped(centres: seq<real>, slopes: seq<real>, lo: real, hi: real)
    requires |slopes| == |centres|
    ensures var fc := TrapConcept(centres, slopes, lo, hi);
      && fc[0][0] == lo && fc[0][1] == lo
      && fc[|centres|][2] == hi && fc[|centres|][3] == hi
      && forall j :: 0 <= j < |centres| ==>
           fc[j][2] == Round3(centres[j] - slopes[j]) && fc[j][3] == Round3(centres[j] + slopes[j])
  {
  }

  /** Cutoffs whose slope intervals are ordered and inside the range give
      trapezoids with ordered corners. */
  lemma {:induction false} TrapOrdered(centres: seq<real>, slopes: seq<real>, lo: real, hi: real, i: nat)
    requires |slopes| == |centres| && i <= |centres|
    requires forall j :: 0 <= j < |slopes| ==> slopes[j] >= 0.0
    requires forall j :: 0 < j < |centres| ==> centres[j - 1] + slopes[j - 1] <= centres[j] - slopes[j]
    requires |centres| > 0 ==> lo <= Round3(centres[0] - slopes[0]) && Round3(centres[|centres| - 1] + slopes[|centres| - 1]) <= hi
    requires lo <= hi
    ensures var row := TrapConcept(centres, slopes, lo, hi)[i];
      row[0] <= row[1] <= row[2] <= row[3]
  {
    assert TrapConcept(centres, slopes, lo, hi)[i] == TrapRow(centres, slopes, lo, hi, i);
    TrapSlopesOrdered(centres, slopes, lo, hi, i);
    TrapPlateauOrdered(centres, slopes, lo, hi, i);
  }

  lemma TrapSlopesOrdered(centres: seq<real>, slopes: seq<real>, lo: real, hi: real, i: nat)
    requires |slopes| == |centres| && i <= |centres|
    requires forall j :: 0 <= j < |slopes| ==> slopes[j] >= 0.0
    ensures var row := TrapRow(centres, slopes, lo, hi, i);
      row[0] <= row[1] && row[2] <= row[3]
  {
    if 0 < i {
      Round3Monotone(centres[i - 1] - slopes[i - 1], centres[i - 1] + slopes[i - 1]);
    }
    if i < |centres| {
      Round3Monotone(centres[i] - slopes[i], centres[i] + slopes[i]);
    }
  }

  lemma TrapPlateauOrdered(centres: seq<real>, slopes: seq<real>, lo: real, hi: real, i: nat)
    requires |slopes| == |centres| && i <= |centres|
    requires forall j :: 0 < j < |centres| ==> centres[j - 1] + slopes[j - 1] <= centres[j] - slopes[j]
    requires |centres| > 0 ==> lo <= Round3(centres[0] - slopes[0]) && Round3(centres[|centres| - 1] + slopes[|centres| - 1]) <= hi
    requires lo <= hi
    ensures var row := TrapRow(centres, slopes, lo, hi, i);
      row[1] <= row[2]
  {
    if 0 < i < |centres| {
      Round3Monotone(centres[i - 1] + slopes[i - 1], centres[i] - slopes[i]);
    }
  }

  /** Each Gaussian centre is the midpoint of its two cutoffs, so it lies
      between them when they are ordered. */
  lemma GaussCentreMidpoint(cuts: seq<real>, lo: real, hi: real, j: nat)
    requires j <= |cuts|
    ensures var c := [lo] + cuts + [hi];
      && GaussCentres(cuts, lo, hi)[j] == (c[j] + c[j + 1]) / 2.0
      && (c[j] <= c[j + 1] ==> c[j] <= GaussCentres(cuts, lo, hi)[j] <= c[j + 1])
  {
  }

  // ---------------------------------------------------------------------
  // getIntersection

  /** `getIntersection`: the points where neighbouring sets meet, framed by
      the range bounds.  For trapezoids it is the middle of each non-last
      row's right slope; for Gaussians the sigma-weighted average of the two
      centres; any other type raises ValueError. */
  function Intersection(concept: seq<seq<real>>, typeFS: string, lo: real, hi: real): (r: Result<seq<real>>)
    requires forall i :: 0 <= i < |concept| ==> |concept[i]| >= 2
    requires typeFS == "gauss" ==> forall i :: 0 < i < |concept| ==> concept[i - 1][1] + concept[i][1] != 0.0
    ensures r.Ok? <==> typeFS == "trap" || typeFS == "gauss"
    ensures r.Ok? ==> (|r.value| == (if |concept| == 0 then 2 else |concept| + 1)
      && r.value[0] == lo && r.value[|r.value| - 1] == hi)
  {
    var n := if |concept| == 0 then 0 else |concept| - 1;
    if typeFS == "trap" then
      Ok([lo] + seq(n, i requires 0 <= i < n =>
        var w := |concept[i]|;
        (concept[i][w - 2] + concept[i][w - 1]) / 2.0) + [hi])
    else if typeFS == "gauss" then
      Ok([lo] + seq(n, i requires 0 <= i < n =>
        (concept[i][0] * concept[i + 1][1] + concept[i + 1][0] * concept[i][1]) / (concept[i][1] + concept[i + 1][1])) + [hi])
    else Err(ValueError)
  }

  /** The trapezoid intersections recover the cutoffs a concept was built
      from, up to the rounding of its corners. */
  lemma {:induction false} IntersectionRecoversCutoffs(centres: seq<real>, slopes: seq<real>, lo: real, hi: real)
    requires |slopes| == |centres|
    ensures var x := Intersection(TrapConcept(centres, slopes, lo, hi), "trap", lo, hi).value;
      && |x| == |centres| + 2 && x[0] == lo && x[|x| - 1] == hi
      && forall j :: 0 <= j < |centres| ==> centres[j] - 0.0005 <= x[j + 1] <= centres[j] + 0.0005
  {
    var fc := TrapConcept(centres, slopes, lo, hi);
    var x := Intersection(fc, "trap", lo, hi).value;
    forall j | 0 <= j < |centres|
      ensures centres[j] - 0.0005 <= x[j + 1] <= centres[j] + 0.0005
    {
      assert x[j + 1] == (fc[j][2] + fc[j][3]) / 2.0;
      Round3Close(centres[j] - slopes[j]);
      Round3Close(centres[j] + slopes[j]);
    }
  }

  /** Neighbouring Gaussian sets with positive widths meet between their
      centres, and exactly half-way when the widths are equal. */
  lemma GaussIntersectionBetween(concept: seq<seq<real>>, lo: real, hi: real, i: nat)
    requires forall k :: 0 <= k < |concept| ==> |concept[k]| >= 2 && concept[k][1] > 0.0
    requires i + 1 < |concept| && concept[i][0] <= concept[i + 1][0]
    ensures var x := Intersection(concept, "gauss", lo, hi).value[i + 1];
      && concept[i][0] <= x <= concept[i + 1][0]
      && (concept[i][1] == concept[i + 1][1] ==> x == (concept[i][0] + concept[i + 1][0]) / 2.0)
  {
    var r := Intersection(concept, "gauss", lo, hi).value;
    var n := |concept| - 1;
    var inner := seq(n, k requires 0 <= k < n =>
      (concept[k][0] * concept[k + 1][1] + concept[k + 1][0] * concept[k][1]) / (concept[k][1] + concept[k + 1][1]));
    assert r == [lo] + inner + [hi];
    var mu1, s1, mu2, s2 := concept[i][0], concept[i][1], concept[i + 1][0], concept[i + 1][1];
    assert r[i + 1] == inner[i] == (mu1 * s2 + mu2 * s1) / (s1 + s2);
    WeightedMeanBetween(mu1, s1, mu2, s2);
  }

  /** The sigma-weighted mean of two centres lies between them. */
  lemma WeightedMeanBetween(mu1: real, s1: real, mu2: real, s2: real)
    requires s1 > 0.0 && s2 > 0.0 && mu1 <= mu2
    ensures var x := (mu1 * s2 + mu2 * s1) / (s1 + s2);
      && mu1 <= x <= mu2
      && (s1 == s2 ==> x == (mu1 + mu2) / 2.0)
  {
    var x := (mu1 * s2 + mu2 * s1) / (s1 + s2);
    var num, d := mu1 * s2 + mu2 * s1, s1 + s2;
    assert x * d == num;
    MulMonotone(s1, mu1, mu2);
    MulMonotone(s2, mu1, mu2);
    assert mu1 * d == mu1 * s1 + mu1 * s2;
    assert mu2 * d == mu2 * s1 + mu2 * s2;
    assert mu1 * d <= num <= mu2 * d;
    DivBetween(num, d, mu1, mu2);
    if s1 == s2 {
      assert x * (2.0 * s1) == (mu1 + mu2) * s1;
    }
  }

  // ---------------------------------------------------------------------
  // getDefaultConcept

  /** Grid point j of `np.linspace(-n, n, n + 1)`: -n + 2j. */
  lemma EvenGrid(n: nat, j: int)
    requires n >= 1
    ensures Linspace(-(n as real), n as real, n + 1, j) == (2 * j - n) as real
  {
    var r := n as real;
    assert (n + 1 - 1) as real == r;
    assert r - -r == 2.0 * r;
    assert j as real * (2.0 * r) == (2.0 * j as real) * r;
    assert (2.0 * j as real) * r / r == 2.0 * j as real;
  }

  /** Corner t (0..3) of default set k (0-based) of n sets, before the two
      end corners are changed: the half-step either side of grid points k
      and k + 1. */
  function DefaultCorner(n: nat, k: nat, t: nat): real
    requires t < 4
  {
    var p := (2 * (k + t / 2) - n) as real;
    if t % 2 == 0 then p - 0.5 else p + 0.5
  }

  /** `getDefaultConcept`: 2s + 1 trapezoids on the grid -n, -n + 2, ..., n
      with plateaus of width 1, the first flattened to a step on the left and
      the last on the right, and the Gaussian centres at the plateau middles. */
  method GetDefaultConcept(side: nat) returns (trap: seq<seq<real>>, gauss: seq<real>)
    ensures |trap| == 2 * side + 1 && |gauss| == 2 * side + 1
    ensures forall k :: 0 <= k < |trap| ==> |trap[k]| == 4
    ensures forall k, t :: 0 <= k < |trap| && 0 <= t < 4 ==> trap[k][t] == FlatCorner(2 * side + 1, k, t)
    ensures forall k :: 0 <= k < |gauss| ==> gauss[k] == (trap[k][1] + trap[k][2]) / 2.0
  {
    var n := 2 * side + 1;
    trap := DefaultRows(n);
    ghost var before := trap;
    trap := trap[0 := trap[0][0 := trap[0][1]]];
    trap := trap[n - 1 := trap[n - 1][3 := trap[n - 1][2]]];
    EndWritesFlatten(n, before, trap);
    var rounded := seq(n, k requires 0 <= k < n => seq(4, t requires 0 <= t < 4 => Round3(trap[k][t])));
    RoundingKeepsCorners(n, trap, rounded);
    trap := rounded;
    gauss := seq(n, k requires 0 <= k < n => (trap[k][1] + trap[k][2]) / 2.0);
  }

  /** The n rounded trapezoids cut from the corner list, before the two
      end corners are changed. */
  method DefaultRows(n: nat) returns (trap: seq<seq<real>>)
    requires n >= 1
    ensures |trap| == n && forall k :: 0 <= k < n ==> |trap[k]| == 4
    ensures forall k, t :: 0 <= k < n && 0 <= t < 4 ==> trap[k][t] == DefaultCorner(n, k, t)
  {
    var coords := seq(2 * (n + 1), i requires 0 <= i < 2 * (n + 1) => DefaultCoord(n, i));
    trap := seq(n, k requires 0 <= k < n =>
      [Round3(coords[2 * k]), Round3(coords[2 * k + 1]), Round3(coords[2 * k + 2]), Round3(coords[2 * k + 3])]);
    DefaultRowsAreCorners(n, coords, trap);
  }

  lemma DefaultRowsAreCorners(n: nat, coords: seq<real>, trap: seq<seq<real>>)
    requires n >= 1 && coords == seq(2 * (n + 1), i requires 0 <= i < 2 * (n + 1) => DefaultCoord(n, i))
    requires trap == seq(n, k requires 0 <= k < n =>
      [Round3(coords[2 * k]), Round3(coords[2 * k + 1]), Round3(coords[2 * k + 2]), Round3(coords[2 * k + 3])])
    ensures forall k :: 0 <= k < n ==> |trap[k]| == 4
    ensures forall k, t :: 0 <= k < n && 0 <= t < 4 ==> trap[k][t] == DefaultCorner(n, k, t)
  {
    forall k, t | 0 <= k < n && 0 <= t < 4
      ensures trap[k][t] == DefaultCorner(n, k, t)
    {
      assert trap[k][t] == Round3(DefaultCoord(n, 2 * k + t));
      DefaultCoordRounds(n, k, t);
    }
  }

  lemma EndWritesFlatten(n: nat, before: seq<seq<real>>, after: seq<seq<real>>)
    requires n >= 1 && |before| == n && forall k :: 0 <= k < n ==> |before[k]| == 4
    requires forall k, t :: 0 <= k < n && 0 <= t < 4 ==> before[k][t] == DefaultCorner(n, k, t)
    requires after == before[0 := before[0][0 := before[0][1]]][n - 1 := before[0 := before[0][0 := before[0][1]]][n - 1][3 := before[0 := before[0][0 := before[0][1]]][n - 1][2]]]
    ensures |after| == n && forall k :: 0 <= k < n ==> |after[k]| == 4
    ensures forall k, t :: 0 <= k < n && 0 <= t < 4 ==> after[k][t] == FlatCorner(n, k, t)
  {
  }

  lemma RoundingKeepsCorners(n: nat, trap: seq<seq<real>>, rounded: seq<seq<real>>)
    requires |trap| == n && forall k :: 0 <= k < n ==> |trap[k]| == 4
    requires forall k, t :: 0 <= k < n && 0 <= t < 4 ==> trap[k][t] == FlatCorner(n, k, t)
    requires rounded == seq(n, k requires 0 <= k < n => seq(4, t requires 0 <= t < 4 => Round3(trap[k][t])))
    ensures rounded == trap
  {
    forall k | 0 <= k < n
      ensures rounded[k] == trap[k]
    {
      forall t | 0 <= t < 4
        ensures rounded[k][t] == trap[k][t]
      {
        FlatCornerRounds(n, k, t);
      }
    }
  }

  /** Corner t of default set k after the first set's left corner and the
      last set's right corner have been pulled onto their neighbours. */
  function FlatCorner(n: nat, k: nat, t: nat): real
    requires t < 4
  {
    DefaultCorner(n, k, if k == 0 && t == 0 then 1 else if k == n - 1 && t == 3 then 2 else t)
  }

  lemma FlatCornerRounds(n: nat, k: nat, t: nat)
    requires t < 4
    ensures Round3(FlatCorner(n, k, t)) == FlatCorner(n, k, t)
  {
    CornerRounds(n, k, if k == 0 && t == 0 then 1 else if k == n - 1 && t == 3 then 2 else t);
  }

  /** Point i of the corner list: a half-step left (even i) or right (odd
      i) of grid point i / 2. */
  function DefaultCoord(n: nat, i: nat): real
    requires n >= 1
  {
    Linspace(-(n as real), n as real, n + 1, i / 2) + (if i % 2 == 0 then -0.5 else 0.5)
  }

  lemma DefaultCoordRounds(n: nat, k: nat, t: nat)
    requires n >= 1 && t < 4
    ensures Round3(DefaultCoord(n, 2 * k + t)) == DefaultCorner(n, k, t)
  {
    EvenGrid(n, (2 * k + t) / 2);
    assert (2 * k + t) / 2 == k + t / 2;
    assert (2 * k + t) % 2 == t % 2;
    CornerRounds(n, k, t);
  }

  lemma CornerRounds(n: nat, k: nat, t: nat)
    requires t < 4
    ensures Round3(DefaultCorner(n, k, t)) == DefaultCorner(n, k, t)
  {
    HalfStepRounds(2 * (k + t / 2) - n, t % 2 == 0);
  }

  /** The default concept's layout: the Gaussian centres are -n + 2k + 1,
      with set `side` at 0; the concept is symmetric around 0; every
      trapezoid has ordered corners with a plateau of width 1, the outer
      ends are steps and the inner slopes are ramps of width 1; and
      neighbours share their slope corners. */
  lemma DefaultLayout(side: nat, k: nat)
    requires k < 2 * side + 1
    ensures var n := 2 * side + 1;
      && (FlatCorner(n, k, 1) + FlatCorner(n, k, 2)) / 2.0 == (2 * k + 1 - n) as real
      && (k == side ==> (FlatCorner(n, k, 1) + FlatCorner(n, k, 2)) / 2.0 == 0.0)
      && (forall t :: 0 <= t < 4 ==> FlatCorner(n, k, t) == -FlatCorner(n, n - 1 - k, 3 - t))
      && FlatCorner(n, k, 0) <= FlatCorner(n, k, 1) < FlatCorner(n, k, 2) <= FlatCorner(n, k, 3)
      && FlatCorner(n, k, 2) - FlatCorner(n, k, 1) == 1.0
      && (FlatCorner(n, k, 0) == FlatCorner(n, k, 1) <==> k == 0)
      && (FlatCorner(n, k, 2) == FlatCorner(n, k, 3) <==> k == n - 1)
      && (k + 1 < n ==> FlatCorner(n, k, 2) == FlatCorner(n, k + 1, 0) && FlatCorner(n, k, 3) == FlatCorner(n, k + 1, 1))
  {
  }

  lemma HalfStepRounds(p: int, minus: bool)
    ensures Round3(p as real + (if minus then -0.5 else 0.5)) == p as real + (if minus then -0.5 else 0.5)
  {
    var m := if minus then 1000 * p - 500 else 1000 * p + 500;
    assert p as real + (if minus then -0.5 else 0.5) == m as real / 1000.0;
    Round3Exact(m);
  }

  // ---------------------------------------------------------------------
  // The sigma floor of fitMode

  /** `fitMode`'s last step: a non-zero width that would round to 0 is
      raised to 0.001, then both numbers are rounded to three decimals. */
  function FitModeRounding(mu: real, sigma: real): (r: (real, real))
  {
    var s := if sigma != 0.0 && Round3(sigma) == 0.0 then 0.001 else sigma;
    (Round3(mu), Round3(s))
  }

  /** A positive width never comes back as 0: it is at least 0.001, and it
      is 0 exactly when the width was 0. */
  lemma SigmaFloor(mu: real, sigma: real)
    requires sigma >= 0.0
    ensures FitModeRounding(mu, sigma).1 == 0.0 <==> sigma == 0.0
    ensures sigma > 0.0 ==> FitModeRounding(mu, sigma).1 >= 0.001
    ensures Round3(sigma) != 0.0 ==> FitModeRounding(mu, sigma).1 == Round3(sigma)
  {
    Round3Exact(1);
    Round3Exact(0);
    Round3Positive(sigma);
  }
}
