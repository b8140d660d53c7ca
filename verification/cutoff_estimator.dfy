/** Concepts from cutoffs (`estimatorByCutoff` and its helpers).

    Each row gets 1001 ticks: its value quantiles at 0, 0.001, ..., 1
    ("proportion") or 1001 evenly spaced points over its range ("width").
    The trapezoids are laid out once on the tick positions 0..1000 and then
    read off every row's ticks. */
module CutoffEstimator {
  import opened Numerics
  import opened Cutoffs
  import opened Concepts
  import opened Orientation

  // ---------------------------------------------------------------------
  // Ticks

  /** `np.linspace(lo, hi, 1001)` rounded to three decimals. */
  function WidthTicks(lo: int, hi: int): (t: seq<real>)
    ensures |t| == 1001
  {
    seq(1001, k requires 0 <= k < 1001 => Round3(Linspace(lo as real, hi as real, 1001, k)))
  }

  /** The rounded quantiles of a row's values, with the first tick moved to
      its floor minus 1.  The last tick is left as it is: the program's
      statement for it computes a value and discards it. */
  function ProportionTicks(values: seq<real>, quantile: (seq<real>, nat) -> real): (t: seq<real>)
    ensures |t| == 1001
    ensures t[0] == (Floor(Round3(quantile(values, 0))) - 1) as real
    ensures forall k :: 0 < k < 1001 ==> t[k] == Round3(quantile(values, k))
  {
    var r := seq(1001, k requires 0 <= k < 1001 => Round3(quantile(values, k)));
    r[0 := (Floor(r[0]) - 1) as real]
  }

  /** All present values of all rows. */
  function AllValues(rows: seq<seq<Cell>>): seq<real>
  {
    if rows == [] then [] else AllValues(rows[..|rows| - 1]) + Values(rows[|rows| - 1])
  }

  /** A row's range for width ticks, floor(min) - 1 to ceil(max) + 1; a row
      without values takes the range of the whole matrix. */
  function RowRange(row: seq<Cell>, all: seq<real>): (r: (int, int))
    requires Values(row) != [] || all != []
  {
    var v := if Values(row) != [] then Values(row) else all;
    (Floor(MinOf(v)) - 1, Ceil(MaxOf(v)) + 1)
  }

  /** The ticks of every row; any other `cutoffBy` raises ValueError. */
  function Ticks(rows: seq<seq<Cell>>, cutoffBy: string, quantile: (seq<real>, nat) -> real): (r: Result<seq<seq<real>>>)
    requires cutoffBy == "width" ==> AllValues(rows) != []
    ensures r.Ok? <==> cutoffBy == "proportion" || cutoffBy == "width"
    ensures r.Ok? ==> |r.value| == |rows| && forall f :: 0 <= f < |rows| ==> |r.value[f]| == 1001
  {
    if cutoffBy == "proportion" then
      Ok(seq(|rows|, f requires 0 <= f < |rows| => ProportionTicks(Values(rows[f]), quantile)))
    else if cutoffBy == "width" then
      Ok(seq(|rows|, f requires 0 <= f < |rows| =>
        var range := RowRange(rows[f], AllValues(rows));
        WidthTicks(range.0, range.1)))
    else Err(ValueError)
  }

  /** Width ticks climb evenly from floor(min) - 1 to ceil(max) + 1, so
      they never decrease. */
  lemma {:induction false} WidthTicksShape(lo: int, hi: int)
    requires lo <= hi
    ensures var t := WidthTicks(lo, hi);
      && t[0] == lo as real && t[1000] == hi as real
      && forall k :: 0 < k < 1001 ==> t[k - 1] <= t[k]
  {
    var t := WidthTicks(lo, hi);
    LinspaceBetween(lo as real, hi as real, 1001, 0);
    LinspaceBetween(lo as real, hi as real, 1001, 1000);
    Round3Integer(lo);
    Round3Integer(hi);
    forall k | 0 < k < 1001
      ensures t[k - 1] <= t[k]
    {
      if lo < hi {
        LinspaceIncreasing(lo as real, hi as real, 1001, k - 1, k);
      }
      Round3Monotone(Linspace(lo as real, hi as real, 1001, k - 1), Linspace(lo as real, hi as real, 1001, k));
    }
  }

  // ---------------------------------------------------------------------
  // estimateTrapezoidalConcept

  /** The proportions used: the given ones when there is one per set,
      otherwise equal shares (and 1 / 0 raises ZeroDivisionError). */
  function EffectivePercents(numSets: nat, percents: seq<real>): (r: Result<seq<real>>)
    ensures r.Ok? ==> |r.value| == numSets
    ensures r.Err? <==> numSets == 0 && |percents| != 0
    ensures r.Ok? && |percents| != numSets ==> forall i :: 0 <= i < numSets ==> r.value[i] == 1.0 / numSets as real
  {
    if |percents| == numSets then Ok(percents)
    else if numSets == 0 then Err(ZeroDivisionError)
    else Ok(seq(numSets, _ => 1.0 / numSets as real))
  }

  /** The tick positions 0, 1, ..., n - 1. */
  function Iota(n: nat): (s: seq<real>)
    ensures |s| == n
  {
    seq(n, i requires 0 <= i < n => i as real)
  }

  lemma {:induction false} IotaRange(n: nat)
    requires n >= 1
    ensures MinOf(Iota(n)) == 0.0 && MaxOf(Iota(n)) == (n - 1) as real
  {
    if n > 1 {
      IotaRange(n - 1);
      assert Iota(n)[..n - 1] == Iota(n - 1);
    }
  }

  /** The cutoffs on the tick positions 0..1000. */
  function TickCutoff(numSets: nat, percents: seq<real>): (r: Result<seq<real>>)
    ensures r.Ok? ==> numSets >= 1 && |r.value| == numSets + 1
  {
    var p := EffectivePercents(numSets, percents);
    if p.Err? then Err(p.error)
    else
      var c := EstimateCutoff([Iota(1001)], p.value, 1000);
      if c.Err? then Err(c.error) else Ok(c.value[0])
  }

  /** The same with the corrected cutoff repair. */
  function TickCutoffCorrected(numSets: nat, percents: seq<real>): (r: Result<seq<real>>)
    ensures r.Ok? ==> numSets >= 1 && |r.value| == numSets + 1
  {
    var p := EffectivePercents(numSets, percents);
    if p.Err? then Err(p.error)
    else
      var c := EstimateCutoffCorrected([Iota(1001)], p.value, 1000);
      if c.Err? then Err(c.error) else Ok(c.value[0])
  }

  /** The smallest gap between neighbouring cutoffs. */
  function MinGap(c: seq<real>): (d: real)
    requires |c| >= 2
    ensures forall i :: 0 < i < |c| ==> d <= c[i] - c[i - 1]
  {
    var gaps := seq(|c| - 1, i requires 0 <= i < |c| - 1 => c[i + 1] - c[i]);
    assert forall i :: 0 < i < |c| ==> gaps[i - 1] == c[i] - c[i - 1];
    MinOf(gaps)
  }

  /** The default slopes as the program computes them: a quarter of the
      smallest gap, which is already in tick units. */
  function DefaultSlopes(c: seq<real>): (s: seq<real>)
    requires |c| >= 2
    ensures |s| == |c| - 2
  {
    seq(|c| - 2, _ => MinGap(c) / 4.0)
  }

  /** The default slopes as a fraction of the 1000-tick range, the unit of
      user-given slopes. */
  function DefaultSlopesCorrected(c: seq<real>): (s: seq<real>)
    requires |c| >= 2
    ensures |s| == |c| - 2
  {
    seq(|c| - 2, _ => MinGap(c) / 4000.0)
  }

  /** The partial concept: cutoffs rounded to whole ticks, and slopes
      scaled by 1000 and rounded. */
  function CutoffTicks(c: seq<real>): (t: seq<real>)
    requires |c| >= 2
    ensures |t| == |c| - 2
  {
    seq(|c| - 2, i requires 0 <= i < |c| - 2 => RoundHalfEven(c[i + 1]) as real)
  }

  function SlopeTicks(slopes: seq<real>): (t: seq<real>)
    ensures |t| == |slopes|
  {
    seq(|slopes|, i requires 0 <= i < |slopes| => RoundHalfEven(1000.0 * slopes[i]) as real)
  }

  /** A tick lookup `ticks.loc[feature, int(x)]`: KeyError outside 0..1000. */
  predicate TickKey(x: real)
  {
    0 <= Trunc(x) <= 1000
  }

  /** Every row's ticks read at the corners of the tick-position concept. */
  function LookupTicks(ticks: seq<seq<real>>, concept: seq<seq<real>>): (r: Result<seq<seq<seq<real>>>>)
    requires forall f :: 0 <= f < |ticks| ==> |ticks[f]| == 1001
    ensures r.Err? <==> |ticks| > 0 && exists k, t :: 0 <= k < |concept| && 0 <= t < |concept[k]| && !TickKey(concept[k][t])
    ensures r.Err? ==> r.error == KeyError
    ensures r.Ok? ==> |r.value| == |ticks| && forall f :: 0 <= f < |ticks| ==> |r.value[f]| == |concept|
    ensures r.Ok? ==> forall f, k :: 0 <= f < |ticks| && 0 <= k < |concept| ==> |r.value[f][k]| == |concept[k]|
    ensures r.Ok? ==> forall f, k, t :: 0 <= f < |ticks| && 0 <= k < |concept| && 0 <= t < |concept[k]| ==>
      r.value[f][k][t] == ticks[f][Trunc(concept[k][t])]
  {
    if |ticks| > 0 && exists k, t :: 0 <= k < |concept| && 0 <= t < |concept[k]| && !TickKey(concept[k][t]) then Err(KeyError)
    else
      Ok(seq(|ticks|, f requires 0 <= f < |ticks| =>
        seq(|concept|, k requires 0 <= k < |concept| =>
          seq(|concept[k]|, t requires 0 <= t < |concept[k]| => ticks[f][Trunc(concept[k][t])]))))
  }

  /** The trapezoids on the tick positions for the given cutoffs and
      slopes, read off every row's ticks. */
  function ConceptFromCutoff(ticks: seq<seq<real>>, c: seq<real>, slopes: seq<real>): Result<seq<seq<seq<real>>>>
    requires forall f :: 0 <= f < |ticks| ==> |ticks[f]| == 1001
    requires |c| >= 2 && |slopes| == |c| - 2
  {
    LookupTicks(ticks, TrapConcept(CutoffTicks(c), SlopeTicks(slopes), 0.0, 1000.0))
  }

  /** `estimateTrapezoidalConcept` as the program computes it. */
  function EstimateTrapezoidalConcept(ticks: seq<seq<real>>, numSets: nat, percents: seq<real>, slope: seq<real>)
    : (r: Result<seq<seq<seq<real>>>>)
    requires forall f :: 0 <= f < |ticks| ==> |ticks[f]| == 1001
    ensures r.Ok? ==> |r.value| == |ticks| && forall f :: 0 <= f < |ticks| ==> |r.value[f]| == numSets
  {
    var c := TickCutoff(numSets, percents);
    if c.Err? then Err(c.error)
    else
      var s := if |slope| != numSets - 1 then DefaultSlopes(c.value) else slope;
      ConceptFromCutoff(ticks, c.value, s)
  }

  /** `estimateTrapezoidalConcept` with both corrections: the run-by-run
      cutoff repair, and the default slope in the unit of user-given
      slopes. */
  function EstimateTrapezoidalConceptCorrected(ticks: seq<seq<real>>, numSets: nat, percents: seq<real>, slope: seq<real>)
    : (r: Result<seq<seq<seq<real>>>>)
    requires forall f :: 0 <= f < |ticks| ==> |ticks[f]| == 1001
    ensures r.Ok? ==> |r.value| == |ticks| && forall f :: 0 <= f < |ticks| ==> |r.value[f]| == numSets
  {
    var c := TickCutoffCorrected(numSets, percents);
    if c.Err? then Err(c.error)
    else
      var s := if |slope| != numSets - 1 then DefaultSlopesCorrected(c.value) else slope;
      ConceptFromCutoff(ticks, c.value, s)
  }

  /** The errors of the trapezoidal estimate: mismatched proportions with
      no sets divide by zero, no proportions at all raise IndexError, and
      proportions whose total does not round to 1 raise ValueError. */
  lemma TrapezoidalErrors(ticks: seq<seq<real>>, numSets: nat, percents: seq<real>, slope: seq<real>)
    requires forall f :: 0 <= f < |ticks| ==> |ticks[f]| == 1001
    ensures numSets == 0 && |percents| != 0 ==> EstimateTrapezoidalConcept(ticks, numSets, percents, slope) == Err(ZeroDivisionError)
    ensures numSets == 0 && |percents| == 0 ==> EstimateTrapezoidalConcept(ticks, numSets, percents, slope) == Err(IndexError)
    ensures numSets > 0 && |percents| == numSets && !(0.9995 <= Sum(percents) <= 1.0005) ==>
      EstimateTrapezoidalConcept(ticks, numSets, percents, slope) == Err(ValueError)
  {
    if |percents| == numSets {
      EstimateCutoffErrors([Iota(1001)], percents, 1000);
    }
  }

  /** The cutoffs on the tick positions run from -1 to 1001, for any
      non-negative proportions that sum to 1; when the grid row has at most
      one flat run they strictly increase and are the run-by-run repair of
      that row, as the corrected cutoffs are. */
  lemma {:induction false} TickCutoffShape(numSets: nat, percents: seq<real>)
    requires EffectivePercents(numSets, percents).Ok?
    requires var p := EffectivePercents(numSets, percents).value;
      |p| >= 1 && AllNonNegative(p) && Round3(Sum(p)) == 1.0
    ensures TickCutoff(numSets, percents).Ok?
    ensures var c := TickCutoff(numSets, percents).value;
      c[0] == -1.0 && c[numSets] == 1001.0
    ensures var p := EffectivePercents(numSets, percents).value;
      GridPlan([Iota(1001)], p, 1000).Ok? &&
      (AtMostOneRun(GridCutoffs(Iota(1001), GridIndices(p, 1000), 1000)) ==>
        StrictlyIncreasing(TickCutoff(numSets, percents).value) &&
        TickCutoff(numSets, percents).value == RepairRuns(GridCutoffs(Iota(1001), GridIndices(p, 1000), 1000)))
  {
    var p := EffectivePercents(numSets, percents).value;
    var rows := [Iota(1001)];
    assert GridSteps(1000) && |rows[0]| > 0;
    EstimateCutoffShape(rows, p, 1000, 0);
    TickCutoffIsRow(numSets, percents);
    IotaRange(1001);
    assert Floor(MinOf(rows[0])) == 0 && Ceil(MaxOf(rows[0])) == 1000;
  }

  lemma TickCutoffCorrectedIsRow(numSets: nat, percents: seq<real>)
    requires EffectivePercents(numSets, percents).Ok?
    requires EstimateCutoffCorrected([Iota(1001)], EffectivePercents(numSets, percents).value, 1000).Ok?
    ensures TickCutoffCorrected(numSets, percents)
      == Ok(EstimateCutoffCorrected([Iota(1001)], EffectivePercents(numSets, percents).value, 1000).value[0])
  {
  }

  lemma TickCutoffIsRow(numSets: nat, percents: seq<real>)
    requires EffectivePercents(numSets, percents).Ok?
    requires EstimateCutoff([Iota(1001)], EffectivePercents(numSets, percents).value, 1000).Ok?
    ensures TickCutoff(numSets, percents)
      == Ok(EstimateCutoff([Iota(1001)], EffectivePercents(numSets, percents).value, 1000).value[0])
  {
  }

  /** The corrected cutoffs on the tick positions are the run-by-run
      repair of the grid row. */
  lemma TickCutoffCorrectedRuns(numSets: nat, percents: seq<real>)
    requires EffectivePercents(numSets, percents).Ok?
    requires var p := EffectivePercents(numSets, percents).value;
      |p| >= 1 && AllNonNegative(p) && Round3(Sum(p)) == 1.0
    ensures var p := EffectivePercents(numSets, percents).value;
      && GridPlan([Iota(1001)], p, 1000).Ok?
      && TickCutoffCorrected(numSets, percents).Ok?
      && TickCutoffCorrected(numSets, percents).value == RepairRuns(GridCutoffs(Iota(1001), GridIndices(p, 1000), 1000))
  {
    var p := EffectivePercents(numSets, percents).value;
    EstimateCutoffCorrectedOk([Iota(1001)], p, 1000);
    var rc := EstimateCutoffCorrected([Iota(1001)], p, 1000);
    assert TickCutoffCorrected(numSets, percents) == Ok(rc.value[0]);
  }

  /** The corrected cutoffs on the tick positions run from -1 to 1001 and
      strictly increase, for any non-negative proportions that sum to 1. */
  lemma {:induction false} TickCutoffCorrectedShape(numSets: nat, percents: seq<real>)
    requires EffectivePercents(numSets, percents).Ok?
    requires var p := EffectivePercents(numSets, percents).value;
      |p| >= 1 && AllNonNegative(p) && Round3(Sum(p)) == 1.0
    ensures TickCutoffCorrected(numSets, percents).Ok?
    ensures var c := TickCutoffCorrected(numSets, percents).value;
      c[0] == -1.0 && c[numSets] == 1001.0 && StrictlyIncreasing(c)
  {
    var p := EffectivePercents(numSets, percents).value;
    EstimateCutoffCorrectedShape([Iota(1001)], p, 1000);
    IotaRange(1001);
  }

  // ---------------------------------------------------------------------
  // The finding: the default slope is scaled twice

  /** With two sets and the defaults, the program's cutoff sits at tick 500
      with the smallest gap 501, and the default slope 125.25 is scaled to
      125250 ticks; the first trapezoid's third corner is then tick
      -124750, which is not a tick, so the lookup raises KeyError for any
      feature. */
  lemma DefaultSlopeScaledTwice(ticks: seq<seq<real>>)
    requires |ticks| >= 1 && forall f :: 0 <= f < |ticks| ==> |ticks[f]| == 1001
    ensures EstimateTrapezoidalConcept(ticks, 2, [], []) == Err(KeyError)
  {
    var c := TwoSetCutoff();
    TwoSetOffTicks(c);
    ProgramLookup(ticks, 2, [], [], c);
  }

  lemma TwoSetOffTicks(c: seq<real>)
    requires c == [-1.0, 500.0, 1001.0]
    ensures !TickKey(TrapConcept(CutoffTicks(c), SlopeTicks(DefaultSlopes(c)), 0.0, 1000.0)[0][2])
  {
    TwoSetGap();
    assert SlopeTicks(DefaultSlopes(c)) == [125250.0] by {
      assert 1000.0 * (501.0 / 4.0) == 125250.0;
      assert RoundHalfEven(125250.0) == 125250;
    }
    TwoSetCentre();
    var concept := TrapConcept([500.0], [125250.0], 0.0, 1000.0);
    assert concept[0][2] == Round3(500.0 - 125250.0) == Round3((-124750) as real) by {
      assert TrapRow([500.0], [125250.0], 0.0, 1000.0, 0)[2] == Round3(500.0 - 125250.0);
    }
    Round3Integer(-124750);
  }

  /** With default slopes the program's concept is the lookup of the
      trapezoids laid out on its tick cutoffs. */
  lemma ProgramLookup(ticks: seq<seq<real>>, numSets: nat, percents: seq<real>, slope: seq<real>, c: seq<real>)
    requires forall f :: 0 <= f < |ticks| ==> |ticks[f]| == 1001
    requires |slope| != numSets - 1 && TickCutoff(numSets, percents) == Ok(c)
    ensures |c| >= 2
    ensures EstimateTrapezoidalConcept(ticks, numSets, percents, slope) ==
      LookupTicks(ticks, TrapConcept(CutoffTicks(c), SlopeTicks(DefaultSlopes(c)), 0.0, 1000.0))
  {
  }

  /** The program's default slope, a quarter of the smallest gap scaled by
      1000, spans more than 500 ticks once that gap exceeds 2.002 ticks.
      The first set's corners centre - slope and centre + slope then
      cannot both be ticks, so with default slopes and at least two sets
      the lookup raises KeyError for any non-empty ticks table. */
  lemma {:induction false} DefaultSlopeOffTicks(ticks: seq<seq<real>>, numSets: nat, percents: seq<real>, slope: seq<real>)
    requires |ticks| >= 1 && forall f :: 0 <= f < |ticks| ==> |ticks[f]| == 1001
    requires numSets >= 2 && |slope| != numSets - 1
    requires TickCutoff(numSets, percents).Ok? && MinGap(TickCutoff(numSets, percents).value) > 2.002
    ensures EstimateTrapezoidalConcept(ticks, numSets, percents, slope) == Err(KeyError)
  {
    var c := TickCutoff(numSets, percents).value;
    ProgramLookup(ticks, numSets, percents, slope, c);
    WideGapOffTicks(c);
  }

  /** Cutoffs with a smallest gap above 2.002: a corner of the first set
      of the program's default trapezoids is not a tick. */
  lemma {:induction false} WideGapOffTicks(c: seq<real>)
    requires |c| >= 3 && MinGap(c) > 2.002
    ensures var concept := TrapConcept(CutoffTicks(c), SlopeTicks(DefaultSlopes(c)), 0.0, 1000.0);
      !TickKey(concept[0][2]) || !TickKey(concept[0][3])
  {
    var centres, slopes := CutoffTicks(c), SlopeTicks(DefaultSlopes(c));
    var s := FirstSlopeWide(c);
    FirstTrapRow(centres, slopes, 0.0, 1000.0);
    OffTicks(centres[0], slopes[0], RoundHalfEven(c[1]), s);
  }

  lemma FirstSlopeWide(c: seq<real>) returns (s: int)
    requires |c| >= 3 && MinGap(c) > 2.002
    ensures s >= 501 && SlopeTicks(DefaultSlopes(c))[0] == s as real
  {
    var d := MinGap(c);
    assert DefaultSlopes(c)[0] == d / 4.0;
    s := RoundHalfEven(1000.0 * (d / 4.0));
    WideSlope(d, s);
  }

  lemma FirstTrapRow(centres: seq<real>, slopes: seq<real>, lo: real, hi: real)
    requires |slopes| == |centres| >= 1
    ensures var row := TrapConcept(centres, slopes, lo, hi)[0];
      row[2] == Round3(centres[0] - slopes[0]) && row[3] == Round3(centres[0] + slopes[0])
  {
    assert TrapConcept(centres, slopes, lo, hi)[0] == TrapRow(centres, slopes, lo, hi, 0);
  }

  lemma WideSlope(d: real, s: int)
    requires d > 2.002 && s == RoundHalfEven(1000.0 * (d / 4.0))
    ensures s >= 501
  {
    assert 1000.0 * (d / 4.0) == 250.0 * d;
  }

  /** Whole-number corners more than 500 apart from a common centre do not
      both lie on the ticks 0..1000. */
  lemma OffTicks(a: real, b: real, centre: int, s: int)
    requires a == centre as real && b == s as real && s >= 501
    ensures !TickKey(Round3(a - b)) || !TickKey(Round3(a + b))
  {
    Round3Integer(centre - s);
    Round3Integer(centre + s);
    assert a - b == (centre - s) as real && a + b == (centre + s) as real;
    if centre - s >= 0 {
      assert Trunc((centre + s) as real) == centre + s;
    } else {
      assert Trunc((centre - s) as real) == centre - s;
    }
  }

  /** With the default slope in the unit of user-given slopes, the same
      two sets get corners 375 and 625: the first set covers ticks 0..625,
      the second 375..1000. */
  lemma DefaultSlopeTwoSets(ticks: seq<seq<real>>)
    requires forall f :: 0 <= f < |ticks| ==> |ticks[f]| == 1001
    ensures EstimateTrapezoidalConceptCorrected(ticks, 2, [], []).Ok?
    ensures forall f :: 0 <= f < |ticks| ==>
      EstimateTrapezoidalConceptCorrected(ticks, 2, [], []).value[f] ==
        [[ticks[f][0], ticks[f][0], ticks[f][375], ticks[f][625]],
         [ticks[f][375], ticks[f][625], ticks[f][1000], ticks[f][1000]]]
  {
    var c := TwoSetCutoff();
    TwoSetGap();
    assert SlopeTicks(DefaultSlopesCorrected(c)) == [125.0] by {
      assert 1000.0 * (501.0 / 4000.0) == 125.25;
      assert RoundHalfEven(125.25) == 125;
    }
    TwoSetCentre();
    var concept := [[0.0, 0.0, 375.0, 625.0], [375.0, 625.0, 1000.0, 1000.0]];
    TwoSetConcept();
    assert EstimateTrapezoidalConceptCorrected(ticks, 2, [], []) == LookupTicks(ticks, concept);
    TwoSetLookup(ticks);
  }

  lemma TwoSetConcept()
    ensures TrapConcept([500.0], [125.0], 0.0, 1000.0) == [[0.0, 0.0, 375.0, 625.0], [375.0, 625.0, 1000.0, 1000.0]]
  {
    Round3Integer(375);
    Round3Integer(625);
    assert TrapRow([500.0], [125.0], 0.0, 1000.0, 0) == [0.0, 0.0, 375.0, 625.0];
    assert TrapRow([500.0], [125.0], 0.0, 1000.0, 1) == [375.0, 625.0, 1000.0, 1000.0];
  }

  lemma TwoSetLookup(ticks: seq<seq<real>>)
    requires forall f :: 0 <= f < |ticks| ==> |ticks[f]| == 1001
    ensures var r := LookupTicks(ticks, [[0.0, 0.0, 375.0, 625.0], [375.0, 625.0, 1000.0, 1000.0]]);
      && r.Ok?
      && forall f :: 0 <= f < |ticks| ==>
        r.value[f] == [[ticks[f][0], ticks[f][0], ticks[f][375], ticks[f][625]],
                       [ticks[f][375], ticks[f][625], ticks[f][1000], ticks[f][1000]]]
  {
    var concept := [[0.0, 0.0, 375.0, 625.0], [375.0, 625.0, 1000.0, 1000.0]];
    assert Trunc(375.0) == 375 && Trunc(625.0) == 625 && Trunc(1000.0) == 1000 && Trunc(0.0) == 0;
    assert forall k, t :: 0 <= k < |concept| && 0 <= t < |concept[k]| ==> TickKey(concept[k][t]);
    var r := LookupTicks(ticks, concept);
    forall f | 0 <= f < |ticks|
      ensures r.value[f] == [[ticks[f][0], ticks[f][0], ticks[f][375], ticks[f][625]],
                             [ticks[f][375], ticks[f][625], ticks[f][1000], ticks[f][1000]]]
    {
      assert |r.value[f]| == 2 && |r.value[f][0]| == 4 && |r.value[f][1]| == 4;
      assert r.value[f][0] == [ticks[f][0], ticks[f][0], ticks[f][375], ticks[f][625]] by {
        assert r.value[f][0][2] == ticks[f][Trunc(concept[0][2])];
        assert r.value[f][0][3] == ticks[f][Trunc(concept[0][3])];
        assert r.value[f][0][0] == ticks[f][Trunc(concept[0][0])];
        assert r.value[f][0][1] == ticks[f][Trunc(concept[0][1])];
      }
      assert r.value[f][1] == [ticks[f][375], ticks[f][625], ticks[f][1000], ticks[f][1000]] by {
        assert r.value[f][1][0] == ticks[f][Trunc(concept[1][0])];
        assert r.value[f][1][1] == ticks[f][Trunc(concept[1][1])];
        assert r.value[f][1][2] == ticks[f][Trunc(concept[1][2])];
        assert r.value[f][1][3] == ticks[f][Trunc(concept[1][3])];
      }
    }
  }

  /** Two equal sets: the cutoffs on the tick positions are -1, 500, 1001,
      with either repair. */
  lemma TwoSetCutoff() returns (c: seq<real>)
    ensures TickCutoff(2, []) == Ok(c) && TickCutoffCorrected(2, []) == Ok(c) && c == [-1.0, 500.0, 1001.0]
  {
    var p := [0.5, 0.5];
    HalfAndHalf();
    Round3Integer(1);
    TwoSetGrid();
    c := [-1.0, 500.0, 1001.0];
    assert PyIndex(500, 1001).Ok?;
    OneRowCutoffs([Iota(1001)], p, c);
    OneRowCutoffsCorrected([Iota(1001)], p, c);
    NoRunAgrees(c);
    TickCutoffIsRow(2, []);
    TickCutoffCorrectedIsRow(2, []);
  }

  /** A single row of values: the program returns `fixOverlapCutoff` of
      its grid row. */
  lemma OneRowCutoffs(rows: seq<seq<real>>, p: seq<real>, c: seq<real>)
    requires |rows| == 1 && |rows[0]| > 0
    requires |p| >= 1 && AllNonNegative(p) && Round3(Sum(p)) == 1.0
    requires var q := GridIndices(p, 1000);
      (forall i :: 0 <= i < |q| ==> PyIndex(q[i], 1001).Ok?) && c == GridCutoffs(rows[0], q, 1000)
    ensures EndsDistinct(c) && EstimateCutoff(rows, p, 1000).Ok?
    ensures EstimateCutoff(rows, p, 1000).value[0] == RepairRow(c)
  {
    EstimateCutoffOk(rows, p, 1000);
  }

  /** The same for the corrected pipeline. */
  lemma OneRowCutoffsCorrected(rows: seq<seq<real>>, p: seq<real>, c: seq<real>)
    requires |rows| == 1 && |rows[0]| > 0
    requires |p| >= 1 && AllNonNegative(p) && Round3(Sum(p)) == 1.0
    requires var q := GridIndices(p, 1000);
      (forall i :: 0 <= i < |q| ==> PyIndex(q[i], 1001).Ok?) && c == GridCutoffs(rows[0], q, 1000)
    ensures EstimateCutoffCorrected(rows, p, 1000).Ok?
    ensures EstimateCutoffCorrected(rows, p, 1000).value[0] == RepairRuns(c)
  {
    EstimateCutoffCorrectedOk(rows, p, 1000);
  }

  lemma HalfAndHalf()
    ensures EffectivePercents(2, []) == Ok([0.5, 0.5])
    ensures Sum([0.5, 0.5]) == 1.0
    ensures GridIndices([0.5, 0.5], 1000) == [500]
  {
    var e := EffectivePercents(2, []).value;
    assert |e| == 2 && e[0] == 0.5 && e[1] == 0.5;
    assert e == [0.5, 0.5];
    var p := [0.5, 0.5];
    assert p[..1] == [0.5];
    assert Sum([0.5]) == 0.5 by { assert [0.5][..0] == []; }
    assert p[..2] == p;
    assert GridIndex(p, 1000, 0) == 500;
  }

  lemma TwoSetGrid()
    ensures GridCutoffs(Iota(1001), [500], 1000) == [-1.0, 500.0, 1001.0]
  {
    IotaRange(1001);
    assert Linspace(0.0, 1000.0, 1001, 500) == 500.0;
    Round3Integer(500);
  }

  lemma TwoSetGap()
    ensures MinGap([-1.0, 500.0, 1001.0]) == 501.0
  {
  }

  lemma TwoSetCentre()
    ensures CutoffTicks([-1.0, 500.0, 1001.0]) == [500.0]
  {
    assert RoundHalfEven(500.0) == 500;
  }

  // ---------------------------------------------------------------------
  // The corrected default slope keeps every corner on a tick

  /** The trapezoids over the ticks 0..1000 have all their corners on
      ticks when every inner corner, centre minus and plus slope, rounds
      to a tick: the outer corners are the ticks 0 and 1000. */
  lemma {:induction false} TrapCornersOnTicks(centres: seq<real>, slopes: seq<real>)
    requires |slopes| == |centres|
    requires forall j :: 0 <= j < |centres| ==>
      TickKey(Round3(centres[j] - slopes[j])) && TickKey(Round3(centres[j] + slopes[j]))
    ensures var fc := TrapConcept(centres, slopes, 0.0, 1000.0);
      forall k, t :: 0 <= k < |fc| && 0 <= t < |fc[k]| ==> TickKey(fc[k][t])
  {
    var fc := TrapConcept(centres, slopes, 0.0, 1000.0);
    forall k, t | 0 <= k < |fc| && 0 <= t < |fc[k]|
      ensures TickKey(fc[k][t])
    {
      var row := TrapRow(centres, slopes, 0.0, 1000.0, k);
      assert fc[k] == row;
      if (t < 2 && k == 0) || (t >= 2 && k == |centres|) {
        assert row[t] == 0.0 || row[t] == 1000.0;
      } else if t < 2 {
        assert row[t] == Round3(centres[k - 1] - slopes[k - 1]) || row[t] == Round3(centres[k - 1] + slopes[k - 1]);
      } else {
        assert row[t] == Round3(centres[k] - slopes[k]) || row[t] == Round3(centres[k] + slopes[k]);
      }
    }
  }

  /** Whole-number corners within 0..1000 are ticks. */
  lemma WholeCornersOnTicks(a: real, b: real, centre: int, s: int)
    requires a == centre as real && b == s as real
    requires 0 <= s && 0 <= centre - s && centre + s <= 1000
    ensures TickKey(Round3(a - b)) && TickKey(Round3(a + b))
  {
    Round3Integer(centre - s);
    Round3Integer(centre + s);
    assert centre as real - s as real == (centre - s) as real;
    assert centre as real + s as real == (centre + s) as real;
    assert Trunc((centre - s) as real) == centre - s;
    assert Trunc((centre + s) as real) == centre + s;
  }

  /** A rounded cutoff minus and plus the rounded default slope stays on
      the ticks 0..1000, given a gap of at least d to both outer cutoffs -1
      and 1001. */
  lemma {:induction false} CornerOnTicks(x: real, d: real)
    requires 0.0 <= x <= 1000.0 && d > 0.0 && x + 1.0 >= d && 1001.0 - x >= d
    ensures var centre, s := RoundHalfEven(x), RoundHalfEven(1000.0 * (d / 4000.0));
      0 <= s && 0 <= centre - s && centre + s <= 1000
  {
    var centre := RoundHalfEven(x);
    assert 1000.0 * (d / 4000.0) == d / 4.0;
    var s := RoundHalfEven(d / 4.0);
    assert x - 0.5 <= centre as real <= x + 0.5;
    assert d / 4.0 - 0.5 <= s as real <= d / 4.0 + 0.5;
    if d < 8.0 / 3.0 {
      assert s <= 1;
      if s == 1 {
        assert d >= 2.0;
      }
    }
  }

  /** The corrected default: when the cutoffs on the tick positions lie
      within 0..1000 (no flat run reaches the outer cutoffs), every corner
      of the concept is a tick, so the lookup cannot fail. */
  lemma {:induction false} DefaultSlopeOnTicks(ticks: seq<seq<real>>, numSets: nat, percents: seq<real>, slope: seq<real>)
    requires forall f :: 0 <= f < |ticks| ==> |ticks[f]| == 1001
    requires |slope| != numSets - 1
    requires EffectivePercents(numSets, percents).Ok?
    requires var p := EffectivePercents(numSets, percents).value;
      |p| >= 1 && AllNonNegative(p) && Round3(Sum(p)) == 1.0
    requires TickCutoffCorrected(numSets, percents).Ok?
    requires var c := TickCutoffCorrected(numSets, percents).value;
      forall i :: 0 < i < numSets ==> 0.0 <= c[i] <= 1000.0
    ensures EstimateTrapezoidalConceptCorrected(ticks, numSets, percents, slope).Ok?
  {
    TickCutoffCorrectedShape(numSets, percents);
    var c := TickCutoffCorrected(numSets, percents).value;
    DefaultCornersOnTicks(c);
    var concept := TrapConcept(CutoffTicks(c), SlopeTicks(DefaultSlopesCorrected(c)), 0.0, 1000.0);
    assert EstimateTrapezoidalConceptCorrected(ticks, numSets, percents, slope) == LookupTicks(ticks, concept);
  }

  /** For cutoffs from -1 to 1001 that strictly increase with the inner
      ones within 0..1000, every corner of the default trapezoids is a
      tick. */
  lemma {:induction false} DefaultCornersOnTicks(c: seq<real>)
    requires |c| >= 2 && StrictlyIncreasing(c) && c[0] == -1.0 && c[|c| - 1] == 1001.0
    requires forall i :: 0 < i < |c| - 1 ==> 0.0 <= c[i] <= 1000.0
    ensures var fc := TrapConcept(CutoffTicks(c), SlopeTicks(DefaultSlopesCorrected(c)), 0.0, 1000.0);
      forall k, t :: 0 <= k < |fc| && 0 <= t < |fc[k]| ==> TickKey(fc[k][t])
  {
    DefaultTicksConcept(c, CutoffTicks(c), SlopeTicks(DefaultSlopesCorrected(c)));
  }

  lemma DefaultTicksConcept(c: seq<real>, centres: seq<real>, slopes: seq<real>)
    requires |c| >= 2 && StrictlyIncreasing(c) && c[0] == -1.0 && c[|c| - 1] == 1001.0
    requires forall i :: 0 < i < |c| - 1 ==> 0.0 <= c[i] <= 1000.0
    requires centres == CutoffTicks(c) && slopes == SlopeTicks(DefaultSlopesCorrected(c))
    ensures var fc := TrapConcept(centres, slopes, 0.0, 1000.0);
      forall k, t :: 0 <= k < |fc| && 0 <= t < |fc[k]| ==> TickKey(fc[k][t])
  {
    forall j | 0 <= j < |centres|
      ensures TickKey(Round3(centres[j] - slopes[j])) && TickKey(Round3(centres[j] + slopes[j]))
    {
      DefaultCornerOnTicks(c, centres, slopes, j);
    }
    TrapCornersOnTicks(centres, slopes);
  }

  lemma {:induction false} DefaultCornerOnTicks(c: seq<real>, centres: seq<real>, slopes: seq<real>, j: nat)
    requires |c| >= 2 && StrictlyIncreasing(c) && c[0] == -1.0 && c[|c| - 1] == 1001.0
    requires j < |c| - 2 && 0.0 <= c[j + 1] <= 1000.0
    requires centres == CutoffTicks(c) && slopes == SlopeTicks(DefaultSlopesCorrected(c))
    ensures TickKey(Round3(centres[j] - slopes[j])) && TickKey(Round3(centres[j] + slopes[j]))
  {
    var s := RoundHalfEven(1000.0 * (MinGap(c) / 4000.0));
    var centre := RoundHalfEven(c[j + 1]);
    var a, b := centres[j], slopes[j];
    SlopeTickAt(c, j);
    DefaultSlopeFits(c, j);
    WholeCornersOnTicks(a, b, centre, s);
  }

  /** Every default slope, in ticks, is a quarter of the smallest gap. */
  lemma SlopeTickAt(c: seq<real>, j: nat)
    requires |c| >= 2 && j < |c| - 2
    ensures SlopeTicks(DefaultSlopesCorrected(c))[j] == RoundHalfEven(1000.0 * (MinGap(c) / 4000.0)) as real
  {
    assert DefaultSlopesCorrected(c)[j] == MinGap(c) / 4000.0;
  }

  lemma {:induction false} DefaultSlopeFits(c: seq<real>, j: nat)
    requires |c| >= 2 && StrictlyIncreasing(c) && c[0] == -1.0 && c[|c| - 1] == 1001.0
    requires j < |c| - 2 && 0.0 <= c[j + 1] <= 1000.0
    ensures var centre, s := RoundHalfEven(c[j + 1]), RoundHalfEven(1000.0 * (MinGap(c) / 4000.0));
      0 <= s && 0 <= centre - s && centre + s <= 1000
  {
    var d := MinGap(c);
    MinGapPositive(c);
    FarFromEnds(c, d, j + 1);
    CornerOnTicks(c[j + 1], d);
  }

  /** An inner cutoff is at least the smallest gap away from both ends. */
  lemma {:induction false} FarFromEnds(c: seq<real>, d: real, i: nat)
    requires |c| >= 2 && 0 < i < |c| - 1 && StrictlyIncreasing(c) && d == MinGap(c)
    ensures c[i] - c[0] >= d && c[|c| - 1] - c[i] >= d
  {
    IncreasingBetween(c, 1, i);
    IncreasingBetween(c, i, |c| - 2);
  }

  lemma {:induction false} IncreasingBetween(c: seq<real>, i: nat, j: nat)
    requires StrictlyIncreasing(c) && i <= j < |c|
    ensures c[i] <= c[j]
    decreases j - i
  {
    if i < j {
      IncreasingBetween(c, i, j - 1);
    }
  }

  /** Strictly increasing cutoffs have a positive smallest gap. */
  lemma MinGapPositive(c: seq<real>)
    requires |c| >= 2 && StrictlyIncreasing(c)
    ensures MinGap(c) > 0.0
  {
    var gaps := seq(|c| - 1, i requires 0 <= i < |c| - 1 => c[i + 1] - c[i]);
    assert MinGap(c) in gaps;
    var k :| 0 <= k < |gaps| && gaps[k] == MinGap(c);
    assert c[k] < c[k + 1];
  }

  // ---------------------------------------------------------------------
  // estimatorByCutoff

  /** Width ticks need a range: some value somewhere in the matrix. */
  predicate TicksDefined(rows: seq<seq<Cell>>, cutoffBy: string)
  {
    cutoffBy == "width" ==> AllValues(rows) != []
  }

  /** `estimatorByCutoff` with trapezoids: orient the matrix, make the
      ticks, lay out the trapezoids.  A wrong `fuzzyBy` or `cutoffBy`
      raises ValueError, and a `functionType` other than "trapezoidal" (or
      "gauss") leaves the result unassigned (UnboundLocalError). */
  function EstimatorByCutoff(m: seq<seq<Cell>>, width: nat, labels: seq<real>, numSets: nat, functionType: string,
                             fuzzyBy: string, cutoffBy: string, percents: seq<real>, slope: seq<real>,
                             quantile: (seq<real>, nat) -> real): (r: Result<seq<seq<seq<real>>>>)
    requires Rectangular(m, width) && functionType != "gauss"
    requires Orient(m, width, labels, fuzzyBy).Ok? ==> TicksDefined(Orient(m, width, labels, fuzzyBy).value, cutoffBy)
    ensures !(fuzzyBy == "feature" || fuzzyBy == "sample" || fuzzyBy == "matrix") ==> r == Err(ValueError)
    ensures Orient(m, width, labels, fuzzyBy).Ok? && !(cutoffBy == "proportion" || cutoffBy == "width") ==> r == Err(ValueError)
    ensures (Orient(m, width, labels, fuzzyBy).Ok? && (cutoffBy == "proportion" || cutoffBy == "width") && functionType != "trapezoidal") ==>
      r == Err(UnboundLocalError)
    ensures r.Ok? ==> (|r.value| == |Orient(m, width, labels, fuzzyBy).value|
      && forall f :: 0 <= f < |r.value| ==> |r.value[f]| == numSets)
  {
    var rows := Orient(m, width, labels, fuzzyBy);
    if rows.Err? then Err(rows.error)
    else
      var ticks := Ticks(rows.value, cutoffBy, quantile);
      if ticks.Err? then Err(ticks.error)
      else if functionType == "trapezoidal" then EstimateTrapezoidalConcept(ticks.value, numSets, percents, slope)
      else Err(UnboundLocalError)
  }
}
