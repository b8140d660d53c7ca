/** Default concepts (`estimatorByDefault`): for every row, a centre mu
    (the density mode nearest the mean) and a width sigma (from the spread
    below and above mu); the sets are laid out around mu in steps of
    2 * widthFactor * sigma, the outer plateaus are stretched to the row's
    range, and the middle set becomes the Gaussian [mu, sigma]. */
module DefaultEstimator {
  import opened Numerics
  import opened Orientation
  import opened Concepts

  // ---------------------------------------------------------------------
  // The density modes

  /** The outcome of the kernel density estimate of a row: the table of
      modes, sorted by value, with a row for the mean among them at
      `meanIdx`; or a singular covariance (`LinAlgError`). */
  datatype Kde =
    | Modes(value: seq<real>, density: seq<real>, meanIdx: nat)
    | Singular

  predicate ValidKde(k: Kde)
  {
    k.Modes? ==> |k.value| == |k.density| && k.meanIdx < |k.value|
  }

  /** `idxmax`: the first position of the largest density. */
  function ArgMax(d: seq<real>): (r: nat)
    requires |d| > 0
    ensures r < |d|
    ensures forall i :: 0 <= i < |d| ==> d[i] <= d[r]
    ensures forall i :: 0 <= i < r ==> d[i] < d[r]
  {
    if |d| == 1 then 0
    else
      var r := ArgMax(d[..|d| - 1]);
      if d[|d| - 1] > d[r] then |d| - 1 else r
  }

  /** The mode chosen: the only row; the neighbour of a mean at either end;
      otherwise the densest row, unless it lies more than one row from the
      mean, in which case the denser neighbour of the mean (the right one
      on a tie, as a stable sort by density puts it last). */
  function ModeIndex(d: seq<real>, meanIdx: nat): nat
    requires meanIdx < |d|
  {
    var n := |d|;
    if n == 1 then 0
    else if meanIdx == 0 then 1
    else if meanIdx == n - 1 then n - 2
    else
      var a := ArgMax(d);
      if a > meanIdx + 1 || a + 1 < meanIdx then
        (if d[meanIdx - 1] > d[meanIdx + 1] then meanIdx - 1 else meanIdx + 1)
      else a
  }

  /** The chosen mode is a row of the table, at most one row from the mean,
      and a different row whenever there is more than one; between the
      ends it is at least as dense as both neighbours of the mean, and it
      is the densest row whenever that one is near the mean. */
  lemma ModeNearMean(d: seq<real>, meanIdx: nat)
    requires meanIdx < |d|
    ensures var r := ModeIndex(d, meanIdx);
      && r < |d| && r <= meanIdx + 1 && meanIdx <= r + 1
      && (|d| >= 2 && (meanIdx == 0 || meanIdx == |d| - 1) ==> r != meanIdx)
      && (0 < meanIdx < |d| - 1 ==> d[r] >= d[meanIdx - 1] && d[r] >= d[meanIdx + 1])
      && (0 < meanIdx < |d| - 1 && ArgMax(d) <= meanIdx + 1 && meanIdx <= ArgMax(d) + 1 ==> r == ArgMax(d))
  {
  }

  // ---------------------------------------------------------------------
  // The width

  function Mean(xs: seq<real>): real
    requires |xs| > 0
  {
    Sum(xs) / |xs| as real
  }

  /** `values[values < mu]` */
  function Below(xs: seq<real>, mu: real): (r: seq<real>)
    ensures forall x :: x in r <==> x in xs && x < mu
  {
    if xs == [] then []
    else Below(xs[..|xs| - 1], mu) + (if xs[|xs| - 1] < mu then [xs[|xs| - 1]] else [])
  }

  /** `values[values > mu]` */
  function Above(xs: seq<real>, mu: real): (r: seq<real>)
    ensures forall x :: x in r <==> x in xs && x > mu
  {
    if xs == [] then []
    else Above(xs[..|xs| - 1], mu) + (if xs[|xs| - 1] > mu then [xs[|xs| - 1]] else [])
  }

  function SquaredDeviation(xs: seq<real>, c: real): (r: real)
    ensures r >= 0.0
  {
    if xs == [] then 0.0
    else
      var e := xs[|xs| - 1] - c;
      SquareNonNegative(e);
      SquaredDeviation(xs[..|xs| - 1], c) + e * e
  }

  /** `std()` with one degree of freedom removed; with fewer than two
      numbers it is NaN, which the program replaces by 0. */
  function SampleStd(m: MathLib, xs: seq<real>): (s: real)
    requires m.Valid()
    ensures s >= 0.0
  {
    if |xs| < 2 then 0.0
    else
      var v := SquaredDeviation(xs, Mean(xs)) / (|xs| - 1) as real;
      DivFacts(SquaredDeviation(xs, Mean(xs)), (|xs| - 1) as real);
      m.sqrt(v)
  }

  /** `sqrt(sigma1 ** 2 + sigma2 ** 2)` of the spreads below and above mu. */
  function Spread(m: MathLib, values: seq<real>, mu: real): (sigma: real)
    requires m.Valid()
    ensures sigma >= 0.0
  {
    Hypot(m, SampleStd(m, Below(values, mu)), SampleStd(m, Above(values, mu)))
  }

  /** `np.sqrt(a ** 2 + b ** 2)` */
  function Hypot(m: MathLib, a: real, b: real): (h: real)
    requires m.Valid()
    ensures h >= 0.0 && h * h == a * a + b * b
  {
    SquareNonNegative(a);
    SquareNonNegative(b);
    m.sqrt(a * a + b * b)
  }

  /** The centre of a row with at least two values: the chosen mode, or the
      mean when the table holds the mean alone. */
  function RowMu(values: seq<real>, kde: Kde): real
    requires |values| > 0 && ValidKde(kde)
  {
    if kde.Singular? then Mean(values) else kde.value[ModeIndex(kde.density, kde.meanIdx)]
  }

  /** Centre and width as the command-line estimator settles them: mu = 0
      and sigma = 1 for a row with fewer than two values, and sigma = 1
      when the spread rounds to 0. */
  function CentreAndWidth(m: MathLib, values: seq<real>, kde: Kde): (r: (real, real))
    requires m.Valid() && ValidKde(kde)
  {
    if |values| < 2 then (0.0, 1.0)
    else
      var mu := RowMu(values, kde);
      var sigma := Spread(m, values, mu);
      (mu, if Round3(sigma) == 0.0 then 1.0 else sigma)
  }

  /** The width is never 0: it is 1 or a spread of at least 0.0005, and
      rows with fewer than two values sit at 0 with width 1. */
  lemma WidthPositive(m: MathLib, values: seq<real>, kde: Kde)
    requires m.Valid() && ValidKde(kde)
    ensures var (mu, sigma) := CentreAndWidth(m, values, kde);
      && (sigma == 1.0 || sigma >= 0.0005)
      && (|values| < 2 ==> mu == 0.0 && sigma == 1.0)
      && (|values| >= 2 && Round3(Spread(m, values, RowMu(values, kde))) != 0.0 ==> sigma == Spread(m, values, RowMu(values, kde)))
  {
    if |values| >= 2 {
      var sigma := Spread(m, values, RowMu(values, kde));
      Round3Small(sigma);
    }
  }

  // ---------------------------------------------------------------------
  // The layout

  /** Point j of `coords`: a slopeFactor step either side (even j: left,
      odd j: right) of grid point j / 2 of `np.linspace(-n, n, n + 1)`,
      scaled by widthFactor * sigma around mu. */
  function Coord(mu: real, sigma: real, n: nat, w: real, sf: real, j: nat): real
    requires n >= 1
  {
    mu + w * (Linspace(-(n as real), n as real, n + 1, j / 2) + (if j % 2 == 0 then -sf else sf)) * sigma
  }

  /** `np.round([coords[2k - 2 : 2k + 2] for k in 1..n], 3)` */
  function Layout(mu: real, sigma: real, n: nat, w: real, sf: real): (rows: seq<seq<real>>)
    requires n >= 1
    ensures |rows| == n && forall r :: 0 <= r < n ==> |rows[r]| == 4
  {
    seq(n, r requires 0 <= r < n => seq(4, t requires 0 <= t < 4 => Round3(Coord(mu, sigma, n, w, sf, 2 * r + t))))
  }

  /** Set r begins where set r - 1 ends: its first two corners are the
      previous set's last two. */
  lemma LayoutShared(mu: real, sigma: real, n: nat, w: real, sf: real, r: nat)
    requires n >= 1 && 0 < r < n
    ensures var rows := Layout(mu, sigma, n, w, sf);
      rows[r][0] == rows[r - 1][2] && rows[r][1] == rows[r - 1][3]
  {
    assert 2 * r + 0 == 2 * (r - 1) + 2 && 2 * r + 1 == 2 * (r - 1) + 3;
  }

  /** With a positive width factor and width and a slope factor in [0, 1],
      every trapezoid has ordered corners, and each set lies to the right
      of the previous one. */
  lemma {:induction false} LayoutOrdered(mu: real, sigma: real, n: nat, w: real, sf: real)
    requires n >= 1 && w > 0.0 && sigma > 0.0 && 0.0 <= sf <= 1.0
    ensures var rows := Layout(mu, sigma, n, w, sf);
      && (forall r :: 0 <= r < n ==> rows[r][0] <= rows[r][1] <= rows[r][2] <= rows[r][3])
      && (forall r :: 0 < r < n ==> rows[r - 1][3] <= rows[r][3])
  {
    forall j: nat, k: nat | j <= k < 2 * (n + 1)
      ensures Coord(mu, sigma, n, w, sf, j) <= Coord(mu, sigma, n, w, sf, k)
    {
      CoordMonotone(mu, sigma, n, w, sf, j, k);
    }
    var rows := Layout(mu, sigma, n, w, sf);
    forall r, t | 0 <= r < n && 0 < t < 4
      ensures rows[r][t - 1] <= rows[r][t]
    {
      Round3Monotone(Coord(mu, sigma, n, w, sf, 2 * r + t - 1), Coord(mu, sigma, n, w, sf, 2 * r + t));
    }
    forall r | 0 < r < n
      ensures rows[r - 1][3] <= rows[r][3]
    {
      Round3Monotone(Coord(mu, sigma, n, w, sf, 2 * r + 1), Coord(mu, sigma, n, w, sf, 2 * r + 3));
    }
  }

  lemma CoordMonotone(mu: real, sigma: real, n: nat, w: real, sf: real, j: nat, k: nat)
    requires n >= 1 && w > 0.0 && sigma > 0.0 && 0.0 <= sf <= 1.0 && j <= k
    ensures Coord(mu, sigma, n, w, sf, j) <= Coord(mu, sigma, n, w, sf, k)
  {
    EvenGrid(n, j / 2);
    EvenGrid(n, k / 2);
    var pj := (2 * (j / 2) - n) as real + (if j % 2 == 0 then -sf else sf);
    var pk := (2 * (k / 2) - n) as real + (if k % 2 == 0 then -sf else sf);
    assert pj <= pk by {
      if j / 2 == k / 2 {
        assert j % 2 == 0 || k % 2 == 1;
      } else {
        assert j / 2 + 1 <= k / 2;
      }
    }
    MulMonotone(w * sigma, pj, pk);
    assert w * pj * sigma == (w * sigma) * pj;
    assert w * pk * sigma == (w * sigma) * pk;
  }

  // ---------------------------------------------------------------------
  // estimatorByDefault, command-line version

  /** `left = floor(min(values.min(), concept[0][2])) - 1`, or -6 when the
      row has no values (the minimum is then NaN). */
  function LeftEdge(values: seq<real>, c: real): real
  {
    if values == [] then -6.0 else (Floor(Min(MinOf(values), c)) - 1) as real
  }

  /** `right = ceil(max(values.max(), concept[-1][1])) + 1`, or 6. */
  function RightEdge(values: seq<real>, b: real): real
  {
    if values == [] then 6.0 else (Ceil(Max(MaxOf(values), b)) + 1) as real
  }

  /** For a row with values, the stretched ends lie strictly outside the
      values and the inner corner they meet; for a row without, they are
      -6 and 6 whatever the corners are. */
  lemma EdgesOutside(values: seq<real>, c: real, b: real)
    ensures values != [] ==> LeftEdge(values, c) < c && RightEdge(values, b) > b
    ensures values == [] ==> LeftEdge(values, c) == -6.0 && RightEdge(values, b) == 6.0
    ensures forall v :: v in values ==> LeftEdge(values, c) < v < RightEdge(values, b)
  {
  }

  /** One row's concept: the layout with the first set's a, b at `left`, the
      last set's c, d at `right`, and the middle set `n / 2` replaced by
      [round(mu, 3), round(sigma, 3)]. */
  method BuildDefaultConcept(values: seq<real>, mu: real, sigma: real, n: nat, w: real, sf: real)
    returns (concept: seq<seq<real>>)
    requires n >= 1
    ensures IsDefaultConcept(concept, values, mu, sigma, n, w, sf)
  {
    concept := Layout(mu, sigma, n, w, sf);
    var left := LeftEdge(values, concept[0][2]);
    var right := RightEdge(values, concept[n - 1][1]);
    concept := concept[0 := concept[0][0 := left][1 := left]];
    concept := concept[n - 1 := concept[n - 1][2 := right][3 := right]];
    concept := concept[n / 2 := [Round3(mu), Round3(sigma)]];
  }

  /** `estimatorByDefault` of the command-line tool, without `useOptimize`.
      `kde[f]` is the density estimate of row f.  An unknown `fuzzyBy`
      raises ValueError; with no sets, the first row raises IndexError at
      `concept[0]`; with "matrix", every row of the input receives the
      single concept. */
  method EstimatorByDefault(mlib: MathLib, m: seq<seq<Cell>>, width: nat, numSets: nat, fuzzyBy: string,
                            w: real, sf: real, kde: seq<Kde>)
    returns (r: Result<seq<seq<seq<real>>>>)
    requires mlib.Valid() && Rectangular(m, width)
    requires Orient(m, width, [], fuzzyBy).Ok? ==> |kde| == |Orient(m, width, [], fuzzyBy).value|
    requires forall f :: 0 <= f < |kde| ==> ValidKde(kde[f])
    ensures !KnownOrientation(fuzzyBy) ==> r == Err(ValueError)
    ensures KnownOrientation(fuzzyBy) && numSets == 0 && |Orient(m, width, [], fuzzyBy).value| > 0 ==> r == Err(IndexError)
    ensures KnownOrientation(fuzzyBy) && (numSets >= 1 || |Orient(m, width, [], fuzzyBy).value| == 0) ==> r.Ok?
    ensures r.Ok? ==> KnownOrientation(fuzzyBy) && |r.value| == ResultCount(m, width, fuzzyBy)
    ensures r.Ok? && numSets >= 1 ==>
      var rows := Orient(m, width, [], fuzzyBy).value;
      forall f :: 0 <= f < |r.value| ==>
        var g := if fuzzyBy == "matrix" then 0 else f;
        g < |rows| && RowConcept(r.value[f], mlib, Values(rows[g]), kde[g], numSets, w, sf)
  {
    var oriented := Orient(m, width, [], fuzzyBy);
    if oriented.Err? {
      return Err(ValueError);
    }
    var rows := oriented.value;
    if numSets == 0 {
      if |rows| > 0 {
        return Err(IndexError);
      }
      return Ok([]);
    }
    var concepts := ConceptsOfRows(mlib, rows, kde, numSets, w, sf);
    if fuzzyBy == "matrix" {
      assert |concepts| == 1;
      concepts := seq(|m|, _ => concepts[0]);
    }
    return Ok(concepts);
  }

  /** The loop over the rows, one concept each. */
  method ConceptsOfRows(mlib: MathLib, rows: seq<seq<Cell>>, kde: seq<Kde>, n: nat, w: real, sf: real)
    returns (concepts: seq<seq<seq<real>>>)
    requires mlib.Valid() && n >= 1 && |kde| == |rows|
    requires forall f :: 0 <= f < |kde| ==> ValidKde(kde[f])
    ensures |concepts| == |rows|
    ensures forall f :: 0 <= f < |rows| ==> RowConcept(concepts[f], mlib, Values(rows[f]), kde[f], n, w, sf)
  {
    concepts := [];
    for f := 0 to |rows|
      invariant |concepts| == f
      invariant forall g :: 0 <= g < f ==> RowConcept(concepts[g], mlib, Values(rows[g]), kde[g], n, w, sf)
    {
      var concept := DefaultConceptOfRow(mlib, Values(rows[f]), kde[f], n, w, sf);
      concepts := concepts + [concept];
    }
  }

  /** One row: settle mu and sigma, then lay the concept out. */
  method DefaultConceptOfRow(mlib: MathLib, values: seq<real>, kde: Kde, n: nat, w: real, sf: real)
    returns (concept: seq<seq<real>>)
    requires mlib.Valid() && ValidKde(kde) && n >= 1
    ensures RowConcept(concept, mlib, values, kde, n, w, sf)
  {
    var settled := CentreAndWidth(mlib, values, kde);
    concept := BuildDefaultConcept(values, settled.0, settled.1, n, w, sf);
  }

  /** `concept` is the default concept of a row with these values and this
      density estimate. */
  ghost predicate RowConcept(concept: seq<seq<real>>, mlib: MathLib, values: seq<real>, kde: Kde, n: nat, w: real, sf: real)
    requires mlib.Valid() && ValidKde(kde) && n >= 1
  {
    var settled := CentreAndWidth(mlib, values, kde);
    IsDefaultConcept(concept, values, settled.0, settled.1, n, w, sf)
  }

  predicate KnownOrientation(fuzzyBy: string)
  {
    fuzzyBy == "feature" || fuzzyBy == "sample" || fuzzyBy == "matrix"
  }

  /** What `BuildDefaultConcept` promises about a concept. */
  ghost predicate IsDefaultConcept(concept: seq<seq<real>>, values: seq<real>, mu: real, sigma: real, n: nat, w: real, sf: real)
    requires n >= 1
  {
    var rows := Layout(mu, sigma, n, w, sf);
    var left, right := LeftEdge(values, rows[0][2]), RightEdge(values, rows[n - 1][1]);
    && |concept| == n && concept[n / 2] == [Round3(mu), Round3(sigma)]
    && forall r, t :: 0 <= r < n && r != n / 2 && 0 <= t < 4 ==>
        |concept[r]| == 4 &&
        concept[r][t] == (if r == 0 && t < 2 then left else if r == n - 1 && t >= 2 then right else rows[r][t])
  }

  /** Every set other than the middle one has ordered corners when the row
      has values: the stretched ends stay beyond the inner corners. */
  lemma DefaultConceptOrdered(concept: seq<seq<real>>, values: seq<real>, mu: real, sigma: real, n: nat, w: real, sf: real)
    requires n >= 1 && w > 0.0 && sigma > 0.0 && 0.0 <= sf <= 1.0 && values != []
    requires IsDefaultConcept(concept, values, mu, sigma, n, w, sf)
    ensures forall r :: 0 <= r < n && r != n / 2 ==>
      |concept[r]| == 4 && concept[r][0] <= concept[r][1] <= concept[r][2] <= concept[r][3]
  {
    var rows := Layout(mu, sigma, n, w, sf);
    LayoutOrdered(mu, sigma, n, w, sf);
    EdgesOutside(values, rows[0][2], rows[n - 1][1]);
    var left, right := LeftEdge(values, rows[0][2]), RightEdge(values, rows[n - 1][1]);
    forall r | 0 <= r < n && r != n / 2
      ensures |concept[r]| == 4 && concept[r][0] <= concept[r][1] <= concept[r][2] <= concept[r][3]
    {
      assert rows[r][0] <= rows[r][1] <= rows[r][2] <= rows[r][3];
      assert concept[r][0] == (if r == 0 then left else rows[r][0]);
      assert concept[r][1] == (if r == 0 then left else rows[r][1]);
      assert concept[r][2] == (if r == n - 1 then right else rows[r][2]);
      assert concept[r][3] == (if r == n - 1 then right else rows[r][3]);
    }
  }

  // ---------------------------------------------------------------------
  // estimatorByDefault, package version: feature-wise only; rows with
  // fewer than two values or no spread are skipped

  /** The concept of a kept row with the evident intent of the left end:
      the layout with `left = min(floor(min) - 1, concept[0][2])` written
      into the first set, `right = max(ceil(max) + 1, concept[-1][1])` into
      the last, and the middle set replaced by the Gaussian [mu, sigma]. */
  function LegacyConceptCorrected(values: seq<real>, mu: real, sigma: real, n: nat, w: real, sf: real): (concept: seq<seq<real>>)
    requires n >= 1 && values != []
    ensures |concept| == n
  {
    var rows := Layout(mu, sigma, n, w, sf);
    var left := Min((Floor(MinOf(values)) - 1) as real, rows[0][2]);
    StretchEnds(rows, left, rows[n - 1][1], values, mu, sigma)
  }

  /** The concept of a row the package version keeps, as the program
      writes it: the same, except that `left` is taken against
      `concept[0][3]`, the last corner of the first set. */
  function LegacyConcept(values: seq<real>, mu: real, sigma: real, n: nat, w: real, sf: real): (concept: seq<seq<real>>)
    requires n >= 1 && values != []
    ensures |concept| == n
  {
    var rows := Layout(mu, sigma, n, w, sf);
    var left := Min((Floor(MinOf(values)) - 1) as real, rows[0][3]);
    StretchEnds(rows, left, rows[n - 1][1], values, mu, sigma)
  }

  /** The writes of lines `concept[0][0] = left; ...; concept[centerIdx] = ...`,
      with `right = max(ceil(max) + 1, b)`. */
  function StretchEnds(rows: seq<seq<real>>, left: real, b: real, values: seq<real>, mu: real, sigma: real): (concept: seq<seq<real>>)
    requires |rows| >= 1 && values != [] && forall r :: 0 <= r < |rows| ==> |rows[r]| == 4
    ensures |concept| == |rows| && concept[|rows| / 2] == [Round3(mu), Round3(sigma)]
    ensures forall r, t :: 0 <= r < |rows| && r != |rows| / 2 && 0 <= t < 4 ==>
      |concept[r]| == 4 &&
      concept[r][t] == (if r == 0 && t < 2 then left
                        else if r == |rows| - 1 && t >= 2 then Max((Ceil(MaxOf(values)) + 1) as real, b)
                        else rows[r][t])
  {
    var n := |rows|;
    var right := Max((Ceil(MaxOf(values)) + 1) as real, b);
    var first := rows[0 := rows[0][0 := left][1 := left]];
    var last := first[n - 1 := first[n - 1][2 := right][3 := right]];
    last[n / 2 := [Round3(mu), Round3(sigma)]]
  }

  /** With a positive width, a positive width factor and a slope factor in
      [0, 1], every set of a kept row other than the middle one has ordered
      corners, and the first set starts and the last set ends strictly
      outside the row's values. */
  lemma LegacyConceptOrdered(values: seq<real>, mu: real, sigma: real, n: nat, w: real, sf: real)
    requires n >= 1 && values != [] && w > 0.0 && sigma > 0.0 && 0.0 <= sf <= 1.0
    ensures var concept := LegacyConceptCorrected(values, mu, sigma, n, w, sf);
      && (forall r :: 0 <= r < n && r != n / 2 ==>
            |concept[r]| == 4 && concept[r][0] <= concept[r][1] <= concept[r][2] <= concept[r][3])
      && (n / 2 != 0 ==> forall v :: v in values ==> concept[0][0] < v)
      && (n / 2 != n - 1 ==> forall v :: v in values ==> v < concept[n - 1][3])
  {
    var rows := Layout(mu, sigma, n, w, sf);
    LayoutOrdered(mu, sigma, n, w, sf);
    var concept := LegacyConceptCorrected(values, mu, sigma, n, w, sf);
    forall r | 0 <= r < n && r != n / 2
      ensures |concept[r]| == 4 && concept[r][0] <= concept[r][1] <= concept[r][2] <= concept[r][3]
    {
      assert concept[r][0] <= concept[r][1] <= concept[r][2] <= concept[r][3];
    }
  }

  /** The program's concept of a kept row.  The first set (when it is not
      the middle one) starts with two equal corners min(floor(min) - 1, d),
      d being the layout's last corner of that set, so it still starts
      below every value; it is ordered exactly when floor(min) - 1 reaches
      no further than the layout's third corner c or c == d, and then the
      concept is the corrected one.  Every other set but the middle one is
      ordered as in the corrected concept. */
  lemma LegacyConceptShape(values: seq<real>, mu: real, sigma: real, n: nat, w: real, sf: real)
    requires n >= 1 && values != [] && w > 0.0 && sigma > 0.0 && 0.0 <= sf <= 1.0
    ensures var concept, rows := LegacyConcept(values, mu, sigma, n, w, sf), Layout(mu, sigma, n, w, sf);
      var low := (Floor(MinOf(values)) - 1) as real;
      && (n / 2 != 0 ==>
            && concept[0] == [Min(low, rows[0][3]), Min(low, rows[0][3]), rows[0][2], rows[0][3]]
            && (forall v :: v in values ==> concept[0][0] < v)
            && (concept[0][0] <= concept[0][1] <= concept[0][2] <= concept[0][3] <==>
                  low <= rows[0][2] || rows[0][2] == rows[0][3]))
      && (forall r :: 0 < r < n && r != n / 2 ==>
            |concept[r]| == 4 && concept[r][0] <= concept[r][1] <= concept[r][2] <= concept[r][3])
      && (n / 2 != n - 1 ==> forall v :: v in values ==> v < concept[n - 1][3])
      && (low <= rows[0][2] ==> concept == LegacyConceptCorrected(values, mu, sigma, n, w, sf))
  {
    var rows := Layout(mu, sigma, n, w, sf);
    LayoutOrdered(mu, sigma, n, w, sf);
    var concept := LegacyConcept(values, mu, sigma, n, w, sf);
    var low := (Floor(MinOf(values)) - 1) as real;
    assert forall v :: v in values ==> low < v by {
      forall v | v in values
        ensures low < v
      {
        assert MinOf(values) <= v;
      }
    }
    if n / 2 != 0 {
      assert concept[0] == [Min(low, rows[0][3]), Min(low, rows[0][3]), rows[0][2], rows[0][3]];
    }
    forall r | 0 < r < n && r != n / 2
      ensures |concept[r]| == 4 && concept[r][0] <= concept[r][1] <= concept[r][2] <= concept[r][3]
    {
      assert concept[r][0] <= concept[r][1] <= concept[r][2] <= concept[r][3];
    }
    if low <= rows[0][2] {
      var corrected := LegacyConceptCorrected(values, mu, sigma, n, w, sf);
      assert Min(low, rows[0][3]) == Min(low, rows[0][2]);
      forall r | 0 <= r < n
        ensures concept[r] == corrected[r]
      {
        if r != n / 2 {
          assert concept[r][0] == corrected[r][0] && concept[r][1] == corrected[r][1];
          assert concept[r][2] == corrected[r][2] && concept[r][3] == corrected[r][3];
        }
      }
    }
  }

  /** Whether `kernel` holds a density estimate after the first k rows:
      some earlier row with at least two values had a non-singular one. */
  predicate KernelBound(m: seq<seq<Cell>>, kde: seq<Kde>, k: nat)
    requires k <= |m| && |kde| == |m|
  {
    k > 0 && (KernelBound(m, kde, k - 1) || (|Values(m[k - 1])| >= 2 && kde[k - 1].Modes?))
  }

  /** The concepts of the first k rows, keyed by row.  A row with fewer
      than two values is skipped; a singular density raises
      UnboundLocalError at `kernel([mu])` unless an earlier row bound
      `kernel` (then the stale kernel only adds the mean, which becomes
      mu); a row whose spread is exactly 0 is skipped; with no sets the
      first row kept raises IndexError at `concept[0]`. */
  function LegacyRun(mlib: MathLib, m: seq<seq<Cell>>, kde: seq<Kde>, n: nat, w: real, sf: real, k: nat): Result<map<nat, seq<seq<real>>>>
    requires mlib.Valid() && k <= |m| && |kde| == |m|
    requires forall f :: 0 <= f < |kde| ==> ValidKde(kde[f])
  {
    if k == 0 then Ok(map[])
    else LegacyStep(mlib, LegacyRun(mlib, m, kde, n, w, sf, k - 1), Values(m[k - 1]), kde[k - 1],
                    KernelBound(m, kde, k - 1), n, w, sf, k - 1)
  }

  /** What row f does to the concepts gathered so far, given whether
      `kernel` is bound. */
  function LegacyStep(mlib: MathLib, prev: Result<map<nat, seq<seq<real>>>>, values: seq<real>, kde: Kde, bound: bool,
                      n: nat, w: real, sf: real, f: nat): Result<map<nat, seq<seq<real>>>>
    requires mlib.Valid() && ValidKde(kde)
  {
    if prev.Err? || |values| < 2 then prev
    else if kde.Singular? && !bound then Err(UnboundLocalError)
    else
      var mu := RowMu(values, kde);
      var sigma := Spread(mlib, values, mu);
      if sigma == 0.0 then prev
      else if n == 0 then Err(IndexError)
      else Ok(prev.value[f := LegacyConcept(values, mu, sigma, n, w, sf)])
  }

  /** A successful run holds exactly the rows with at least two values and
      a non-zero spread, each with its concept; a failed one failed with
      UnboundLocalError or IndexError. */
  lemma {:induction false} LegacyRunKeys(mlib: MathLib, m: seq<seq<Cell>>, kde: seq<Kde>, n: nat, w: real, sf: real, k: nat)
    requires mlib.Valid() && k <= |m| && |kde| == |m|
    requires forall f :: 0 <= f < |kde| ==> ValidKde(kde[f])
    ensures var r := LegacyRun(mlib, m, kde, n, w, sf, k);
      && (r.Err? ==> r.error == UnboundLocalError || r.error == IndexError)
      && (r.Ok? ==> forall f: nat :: f < k && Kept(mlib, Values(m[f]), kde[f]) ==> f in r.value)
      && (r.Ok? ==> forall f :: f in r.value ==>
            f < k && Kept(mlib, Values(m[f]), kde[f]) && n >= 1 &&
            r.value[f] == LegacyConcept(Values(m[f]), RowMu(Values(m[f]), kde[f]),
                              Spread(mlib, Values(m[f]), RowMu(Values(m[f]), kde[f])), n, w, sf))
  {
    LegacyRunErrors(mlib, m, kde, n, w, sf, k);
    LegacyRunHasKept(mlib, m, kde, n, w, sf, k);
    LegacyRunOnlyKept(mlib, m, kde, n, w, sf, k);
  }

  lemma {:induction false} LegacyRunErrors(mlib: MathLib, m: seq<seq<Cell>>, kde: seq<Kde>, n: nat, w: real, sf: real, k: nat)
    requires mlib.Valid() && k <= |m| && |kde| == |m|
    requires forall f :: 0 <= f < |kde| ==> ValidKde(kde[f])
    ensures var r := LegacyRun(mlib, m, kde, n, w, sf, k);
      r.Err? ==> r.error == UnboundLocalError || r.error == IndexError
  {
    if k > 0 {
      LegacyRunErrors(mlib, m, kde, n, w, sf, k - 1);
    }
  }

  lemma {:induction false} LegacyRunHasKept(mlib: MathLib, m: seq<seq<Cell>>, kde: seq<Kde>, n: nat, w: real, sf: real, k: nat)
    requires mlib.Valid() && k <= |m| && |kde| == |m|
    requires forall f :: 0 <= f < |kde| ==> ValidKde(kde[f])
    ensures var r := LegacyRun(mlib, m, kde, n, w, sf, k);
      r.Ok? ==> forall f: nat :: f < k && Kept(mlib, Values(m[f]), kde[f]) ==> f in r.value
  {
    if k > 0 {
      LegacyRunHasKept(mlib, m, kde, n, w, sf, k - 1);
    }
  }

  lemma {:induction false} LegacyRunOnlyKept(mlib: MathLib, m: seq<seq<Cell>>, kde: seq<Kde>, n: nat, w: real, sf: real, k: nat)
    requires mlib.Valid() && k <= |m| && |kde| == |m|
    requires forall f :: 0 <= f < |kde| ==> ValidKde(kde[f])
    ensures var r := LegacyRun(mlib, m, kde, n, w, sf, k);
      r.Ok? ==> forall f :: f in r.value ==>
        f < k && Kept(mlib, Values(m[f]), kde[f]) && n >= 1 &&
        r.value[f] == LegacyConcept(Values(m[f]), RowMu(Values(m[f]), kde[f]),
                          Spread(mlib, Values(m[f]), RowMu(Values(m[f]), kde[f])), n, w, sf)
  {
    if k > 0 {
      LegacyRunOnlyKept(mlib, m, kde, n, w, sf, k - 1);
    }
  }

  /** Once the run has failed, the later rows do not change the error. */
  lemma {:induction false} LegacyRunStaysFailed(mlib: MathLib, m: seq<seq<Cell>>, kde: seq<Kde>, n: nat, w: real, sf: real, j: nat, k: nat)
    requires mlib.Valid() && j <= k <= |m| && |kde| == |m|
    requires forall f :: 0 <= f < |kde| ==> ValidKde(kde[f])
    requires LegacyRun(mlib, m, kde, n, w, sf, j).Err?
    ensures LegacyRun(mlib, m, kde, n, w, sf, k) == LegacyRun(mlib, m, kde, n, w, sf, j)
  {
    if j < k {
      LegacyRunStaysFailed(mlib, m, kde, n, w, sf, j, k - 1);
    }
  }

  /** With at least one set and a density estimate for every row, the run
      does not fail. */
  lemma {:induction false} LegacyRunSucceeds(mlib: MathLib, m: seq<seq<Cell>>, kde: seq<Kde>, n: nat, w: real, sf: real, k: nat)
    requires mlib.Valid() && k <= |m| && |kde| == |m| && n >= 1
    requires forall f :: 0 <= f < |kde| ==> ValidKde(kde[f]) && kde[f].Modes?
    ensures LegacyRun(mlib, m, kde, n, w, sf, k).Ok?
  {
    if k > 0 {
      LegacyRunSucceeds(mlib, m, kde, n, w, sf, k - 1);
    }
  }

  /** The rows the package version keeps. */
  predicate Kept(mlib: MathLib, values: seq<real>, kde: Kde)
    requires mlib.Valid() && ValidKde(kde)
  {
    |values| >= 2 && Spread(mlib, values, RowMu(values, kde)) != 0.0
  }

  /** `estimatorByDefault` of the package: a loop over the rows that keeps
      the concepts in a dictionary and remembers whether `kernel` has been
      bound. */
  method EstimatorByDefaultLegacy(mlib: MathLib, m: seq<seq<Cell>>, kde: seq<Kde>, n: nat, w: real, sf: real)
    returns (r: Result<map<nat, seq<seq<real>>>>)
    requires mlib.Valid() && |kde| == |m|
    requires forall f :: 0 <= f < |kde| ==> ValidKde(kde[f])
    ensures r == LegacyRun(mlib, m, kde, n, w, sf, |m|)
  {
    var concepts: map<nat, seq<seq<real>>> := map[];
    var kernelBound := false;
    for f := 0 to |m|
      invariant kernelBound == KernelBound(m, kde, f)
      invariant LegacyRun(mlib, m, kde, n, w, sf, f) == Ok(concepts)
    {
      var values := Values(m[f]);
      if |values| < 2 {
        continue;
      }
      if kde[f].Singular? && !kernelBound {
        LegacyRunStaysFailed(mlib, m, kde, n, w, sf, f + 1, |m|);
        return Err(UnboundLocalError);
      }
      kernelBound := kernelBound || kde[f].Modes?;
      var mu := RowMu(values, kde[f]);
      var sigma := Spread(mlib, values, mu);
      if sigma == 0.0 {
        continue;
      }
      if n == 0 {
        LegacyRunStaysFailed(mlib, m, kde, n, w, sf, f + 1, |m|);
        return Err(IndexError);
      }
      concepts := concepts[f := LegacyConcept(values, mu, sigma, n, w, sf)];
    }
    return Ok(concepts);
  }

  /** A row that shows `min(xRange[0], concept[0][3])` at work: values
      -3, -1, 0, 1, 3, whose density has its only mode at the mean 0,
      give mu = 0 and sigma = 2; with five sets and the default factors the
      first set is laid out at [-11, -9, -7, -5], and the row's range ends
      at -4.  The program's left end is then -5, which puts the second
      corner above the third; taking it against concept[0][2] gives -7 and
      an ordered set. */
  lemma LegacyLeftAsWritten(mlib: MathLib)
    requires mlib.Valid()
    ensures var values := [-3.0, -1.0, 0.0, 1.0, 3.0];
      var kde := Modes([0.0, 0.0], [0.2, 0.2], 1);
      var mu := RowMu(values, kde);
      var sigma := Spread(mlib, values, mu);
      && mu == 0.0 && sigma == 2.0
      && LegacyConcept(values, mu, sigma, 5, 1.0, 0.5)[0] == [-5.0, -5.0, -7.0, -5.0]
      && LegacyConceptCorrected(values, mu, sigma, 5, 1.0, 0.5)[0] == [-7.0, -7.0, -7.0, -5.0]
  {
    var values := [-3.0, -1.0, 0.0, 1.0, 3.0];
    var kde := Modes([0.0, 0.0], [0.2, 0.2], 1);
    assert ModeIndex(kde.density, kde.meanIdx) == 0;
    SpreadExample(mlib);
    LegacyFirstRows(values, RowMu(values, kde), Spread(mlib, values, RowMu(values, kde)));
  }

  /** The first set of the example row, in the program's and the corrected
      version. */
  lemma LegacyFirstRows(values: seq<real>, mu: real, sigma: real)
    requires values == [-3.0, -1.0, 0.0, 1.0, 3.0] && mu == 0.0 && sigma == 2.0
    ensures LegacyConcept(values, mu, sigma, 5, 1.0, 0.5)[0] == [-5.0, -5.0, -7.0, -5.0]
    ensures LegacyConceptCorrected(values, mu, sigma, 5, 1.0, 0.5)[0] == [-7.0, -7.0, -7.0, -5.0]
  {
    LayoutExample();
    assert MinOf(values) == -3.0 by {
      assert MinOf(values) <= values[0] && MinOf(values) in values;
    }
    assert Floor(-3.0) == -3;
  }

  lemma SpreadExample(mlib: MathLib)
    requires mlib.Valid()
    ensures Spread(mlib, [-3.0, -1.0, 0.0, 1.0, 3.0], 0.0) == 2.0
  {
    var values := [-3.0, -1.0, 0.0, 1.0, 3.0];
    BelowExample();
    AboveExample();
    var s1 := SampleStd(mlib, [-3.0, -1.0]);
    var s2 := SampleStd(mlib, [1.0, 3.0]);
    StdExample(mlib, [-3.0, -1.0], -2.0);
    StdExample(mlib, [1.0, 3.0], 2.0);
    var h := Hypot(mlib, s1, s2);
    assert Spread(mlib, values, 0.0) == h;
    assert h * h == 2.0 * 2.0;
    SquareRootUnique(h, 2.0);
  }

  lemma BelowExample()
    ensures Below([-3.0, -1.0, 0.0, 1.0, 3.0], 0.0) == [-3.0, -1.0]
  {
    var values := [-3.0, -1.0, 0.0, 1.0, 3.0];
    assert values[..4] == [-3.0, -1.0, 0.0, 1.0];
    assert values[..4][..3] == [-3.0, -1.0, 0.0];
    assert values[..4][..3][..2] == [-3.0, -1.0];
    assert values[..4][..3][..2][..1] == [-3.0];
    assert [-3.0][..0] == [];
    assert Below([-3.0], 0.0) == [-3.0];
    assert Below([-3.0, -1.0], 0.0) == [-3.0, -1.0];
    assert Below([-3.0, -1.0, 0.0], 0.0) == [-3.0, -1.0];
    assert Below([-3.0, -1.0, 0.0, 1.0], 0.0) == [-3.0, -1.0];
  }

  lemma AboveExample()
    ensures Above([-3.0, -1.0, 0.0, 1.0, 3.0], 0.0) == [1.0, 3.0]
  {
    var values := [-3.0, -1.0, 0.0, 1.0, 3.0];
    assert values[..4] == [-3.0, -1.0, 0.0, 1.0];
    assert values[..4][..3] == [-3.0, -1.0, 0.0];
    assert values[..4][..3][..2] == [-3.0, -1.0];
    assert values[..4][..3][..2][..1] == [-3.0];
    assert [-3.0][..0] == [];
    assert Above([-3.0], 0.0) == [];
    assert Above([-3.0, -1.0], 0.0) == [];
    assert Above([-3.0, -1.0, 0.0], 0.0) == [];
    assert Above([-3.0, -1.0, 0.0, 1.0], 0.0) == [1.0];
  }

  /** Two values a distance 2 apart have a sample deviation whose square
      is 2. */
  lemma StdExample(mlib: MathLib, xs: seq<real>, centre: real)
    requires mlib.Valid() && |xs| == 2 && xs[0] == centre - 1.0 && xs[1] == centre + 1.0
    ensures SampleStd(mlib, xs) * SampleStd(mlib, xs) == 2.0
  {
    assert xs[..1] == [xs[0]] && [xs[0]][..0] == [];
    assert Sum(xs[..1]) == xs[0] by {
      assert Sum([xs[0]][..0]) == 0.0;
    }
    assert Sum(xs) == 2.0 * centre;
    assert Mean(xs) == centre;
    assert SquaredDeviation(xs[..1], centre) == 1.0 by {
      assert SquaredDeviation([xs[0]][..0], centre) == 0.0;
    }
    assert SquaredDeviation(xs, centre) == 2.0;
  }

  /** A non-negative number is fixed by its square. */
  lemma SquareRootUnique(x: real, y: real)
    requires x >= 0.0 && y >= 0.0 && x * x == y * y
    ensures x == y
  {
    assert (y - x) * (y + x) == 0.0;
    if y + x > 0.0 {
      assert (y - x) == (y - x) * (y + x) / (y + x);
    }
  }

  lemma LayoutExample()
    ensures Layout(0.0, 2.0, 5, 1.0, 0.5)[0] == [-11.0, -9.0, -7.0, -5.0]
  {
    EvenGrid(5, 0);
    EvenGrid(5, 1);
    Round3Integer(-11);
    Round3Integer(-9);
    Round3Integer(-7);
    Round3Integer(-5);
    assert Coord(0.0, 2.0, 5, 1.0, 0.5, 0) == -11.0;
    assert Coord(0.0, 2.0, 5, 1.0, 0.5, 1) == -9.0;
    assert Coord(0.0, 2.0, 5, 1.0, 0.5, 2) == -7.0;
    assert Coord(0.0, 2.0, 5, 1.0, 0.5, 3) == -5.0;
  }
}
