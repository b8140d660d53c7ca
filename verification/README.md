# A verified model of the fuzzifier's core

The fuzzifier turns crisp numbers into fuzzy-set memberships.  A *fuzzy
concept* is an ordered list of fuzzy sets.  Each set is a trapezoid
(a, b, c, d) or a Gaussian (mu, sigma).  The first set has a plateau at 1
on the left and the last set has one on the right.  Fuzzifying a series
of values gives a table with one column per set.  With `addIndicator`,
one 0/1 column per indicated label (NaN by default) comes first.  A row
whose memberships are all 0 gets a 1 in a fallback column.

This project models, in Dafny:

- **Membership evaluation** (`Membership`, `Fuzzifier`): the per-set
  trapezoid and Gaussian formulas, the arity and index errors, the
  clearing of labelled rows, the insertion of indicator columns and the
  zero-row fallback.  Both versions of `fuzzify` are modelled: the
  standalone one falls back to the last set, the command-line one (with
  `namePrefix`) to the second-to-last.
- **Concept construction** (`Cutoffs`, `Concepts`): cutoffs on a grid of
  1001 or 101 points followed by the flat-run repair `fixOverlapCutoff`
  (`RepairRow`), Gaussian widths `estimateSigma`, the expansion of cutoffs
  and slopes into trapezoids or Gaussians (`getFullConcept` /
  `getFinalConcept`), `getIntersection`, `getDefaultConcept` and the width
  floor of `fitMode`.
- **Concept estimators** (`Orientation`, `CutoffEstimator`,
  `ParameterEstimator`, `DefaultEstimator`): orientation by feature,
  sample or matrix with label masking; `estimatorByCutoff` with
  trapezoids; `estimatorByParameter` in "fix" mode; and both versions of
  `estimatorByDefault`.  The package version lays out the concept with a
  different left end and a different skip rule from the command-line one.
- **Fuzzy fold-change rule** (`FuzzyRule`): grouping five sets into four,
  the outer product of numerator and denominator groups, and the folding
  of the 4 x 4 table into eight classes.

Floats are modelled as exact reals.  Rounding to three decimals is
round-half-to-even on the exact value.  `exp`, `sqrt` and the constants
sqrt(2 ln 2) and sqrt(6 ln 10) are fields of a `MathLib` value that the
caller passes in.  The model relies only on the facts its `Valid()`
predicate states: exp maps non-positive numbers into (0, 1] and 0 to 1,
and sqrt is the non-negative square root.  The kernel density estimate
and the quantiles are inputs too.  Python exceptions are the `Err` case
of a `Result`.

The pipeline members (`EstimateCutoff`, `TickCutoff`,
`EstimateTrapezoidalConcept`, `EstimatorByCutoff`, `LegacyConcept`,
`EstimatorByDefaultLegacy`) do what the program does, including the three
defects listed under "## Findings".  Each defect also has a corrected
member, named with the suffix `Corrected` (`EstimateCutoffCorrected` with
the run-by-run repair `RepairRuns`, `TickCutoffCorrected`,
`DefaultSlopesCorrected`, `EstimateTrapezoidalConceptCorrected`,
`LegacyConceptCorrected`), and the intended properties are proved about
those.

Loops and in-place updates in the source are methods with loop
invariants.  Each method is proved equal to a specification function, and
the properties are lemmas about that function:

- `EvaluateSets`, `ClearNaNRows`, `InsertIndicators`, `FillFallback` and
  `Fuzzify`;
- `FixOverlapCutoff` and `AssignAll`;
- `EstimateSigma`;
- `GetFullConcept` and `GetDefaultConcept`;
- `FixTrapezoids`, which works on a shared `array2`;
- `EstimatorByDefault` and `EstimatorByDefaultLegacy`.

## Model

| member | source | states |
|---|---|---|
| `Numerics.Trunc` | estimator.py:27 | `int()` truncates toward zero: for x >= 0 the result is the largest whole number not above x, for x < 0 the smallest not below it |
| `Numerics.Floor` | estimator.py:22 | `np.floor`: the whole number r with r <= x < r + 1 |
| `Numerics.Ceil` | estimator.py:23 | `np.ceil`: the whole number r with r - 1 < x <= r |
| `Numerics.RoundHalfEven` | estimator.py:84 | rounding to a whole number lies within 0.5 of the input and is its floor or the next integer |
| `Numerics.Round3Close` | estimator.py:30 | rounding to three decimals moves a number by at most 0.0005 |
| `Numerics.Round3Monotone` | estimator.py:30 | rounding to three decimals keeps order |
| `Numerics.Round3Idempotent` | fuzzifier_ENABLE/interactive_APP/helperFunction_1dim.py:148 | rounding an already rounded number changes nothing |
| `Numerics.Clip01` | fuzzifier.py:37 | `clip(0, 1)` lies in [0, 1] and leaves values already there unchanged |
| `Numerics.Max0` | fuzzifier.py:50 | `clip(min = 0)` is non-negative, at least its input, and the input itself when that is non-negative |
| `Numerics.MinOf` | estimator.py:22 | the row minimum is an element of the row and at most every element |
| `Numerics.MaxOf` | estimator.py:23 | the row maximum is an element of the row and at least every element |
| `Numerics.LinspaceBetween` | estimator.py:14 | every `np.linspace` point lies between the two ends, and the first and last points are the ends |
| `Numerics.LinspaceIncreasing` | estimator.py:14 | `np.linspace` over an increasing range is strictly increasing |
| `Numerics.SumNonNegative` | fuzzifier.py:73 | a sum of non-negative memberships is non-negative, and it is 0 exactly when every term is 0 |
| `Membership.SetError` | fuzzifier.py:15-58 | a tuple of neither 2 nor 4 numbers raises ValueError; a Gaussian tuple never raises (a last trapezoid whose first set lacks a third parameter raises IndexError) |
| `Membership.DegenerateTrapIsZero` | fuzzifier.py:30-31 | a trapezoid with a = b = c = d gives membership 0 everywhere, in any position |
| `Membership.FirstTrapRamp` | fuzzifier.py:36-37 | the first trapezoid with c < d: 1 for x <= c, 0 for x >= d, (d - x) / (d - c) between, always in [0, 1] |
| `Membership.FirstTrapStep` | fuzzifier.py:34-35 | the first trapezoid with c = d is a step: 1 exactly when x < c, 0 exactly when x >= c |
| `Membership.LastTrapShape` | fuzzifier.py:38-45 | the last trapezoid is 0 everywhere exactly when a = b and the first set's c equals a; otherwise it is 0 for x <= a, 1 for x >= b (or exactly for x > b when a = b), always in [0, 1] |
| `Membership.MiddleTrapShape` | fuzzifier.py:46-56 | an inner trapezoid with a <= b <= c <= d is 1 on [b, c], 0 outside [a, d] and at the foot of each proper slope, linear on each slope, and within [0, 1] |
| `Membership.GaussShape` | fuzzifier.py:17-28 | a Gaussian membership is 0 or in [1e-5, 1]; the first set is 1 for x <= mu, the last for x >= mu, and every set is 1 at mu |
| `Membership.MembershipNonNegative` | fuzzifier.py:15-56 | every membership is non-negative, whatever the parameters |
| `Membership.MembershipInUnitInterval` | fuzzifier_ENABLE/cmd_fuzzifier/perform_fuzzification/fuzzification.py:38-61 | with ordered trapezoid corners every membership lies in [0, 1] |
| `Fuzzifier.EvaluateSets` | fuzzifier.py:15-58 | the loop over the sets raises the error of the first set that cannot be evaluated, and otherwise returns one column per set holding its membership of each value; a NaN value gets what the set's formula makes of NaN, which `NaNMembership` states |
| `Membership.NaNMembership` | fuzzifier.py:17-56 | a NaN value is NaN in a Gaussian set; in a trapezoid it is 0 where every term of the formula is a comparison or a constant (four equal corners, a step-shaped first or last set, a middle set with both sides vertical) and NaN where a slope term multiplies it |
| `Membership.NaNZeroOnlyForCrispSets` | fuzzifier.py:30-55 | a set that turns NaN into 0 is crisp: its membership of every number is 0 or 1 |
| `Fuzzifier.ClearNaNRows` | fuzzifier.py:59-60 | after `memberships.loc[isnan(raw)] = 0`, each set column holds the membership of a number and 0 for a NaN or labelled value |
| `Fuzzifier.InsertIndicators` | fuzzifier.py:61-72 | inserting the labels' columns at the front from last to first gives the labels' columns in label order before the set columns; a repeated label raises ValueError |
| `Fuzzifier.IndicatorClash` | fuzzifier.py:61-72 | an indicator name clashes with a column already inserted only when its label repeats in the list, and when it does not clash the labels from it on are distinct |
| `Fuzzifier.FillFallback` | fuzzifier.py:73 | the fallback loop sets the fallback column to 1 in exactly the rows whose cells sum to 0 and changes nothing else |
| `Fuzzifier.Fuzzify` | fuzzifier.py:6-74 | the whole procedure returns the table or the error that the specification function `FuzzifySpec` gives |
| `Fuzzifier.FuzzifyStandalone` | fuzzifier.py:6-74 | the standalone version names its columns `FS<k>` and falls back to the last set |
| `Fuzzifier.FuzzifyPrefixed` | fuzzifier_ENABLE/cmd_fuzzifier/perform_fuzzification/fuzzification.py:9-81 | the command-line version uses the given prefix and falls back to the second-to-last set |
| `Fuzzifier.FirstErrorIsEarliest` | fuzzifier_ENABLE/cmd_fuzzifier/perform_fuzzification/fuzzification.py:20-63 | the error raised is that of the first set in order that raises |
| `Fuzzifier.ArityError` | fuzzifier_ENABLE/cmd_fuzzifier/perform_fuzzification/fuzzification.py:62-63 | a tuple of neither 2 nor 4 numbers, with no earlier failing set, makes `fuzzify` raise ValueError |
| `Fuzzifier.DuplicateLabelError` | fuzzifier_ENABLE/cmd_fuzzifier/perform_fuzzification/fuzzification.py:67-78 | two equal indicator labels make `fuzzify` raise ValueError |
| `Fuzzifier.ColumnLayout` | fuzzifier_ENABLE/cmd_fuzzifier/perform_fuzzification/fuzzification.py:65-78 | the indicator columns come first, in the order of the labels, then the set columns numbered 1..n; every column has one cell per value |
| `Fuzzifier.AssembledMembership` | fuzzifier_ENABLE/cmd_fuzzifier/perform_fuzzification/fuzzification.py:65-66 | before the fallback, set column k holds the value's membership, or 0 for a NaN or labelled value |
| `Fuzzifier.AssembledIndicator` | fuzzifier_ENABLE/cmd_fuzzifier/perform_fuzzification/fuzzification.py:67-78 | indicator column j holds 1 exactly on the values that carry label j and 0 elsewhere |
| `Fuzzifier.MaskedRow` | fuzzifier.py:59-73 | a NaN or labelled value gets its indicators, 0 in every other set column, and 1 in the fallback column exactly when no label matches it |
| `Fuzzifier.FallbackRow` | fuzzifier.py:73 | the fallback step leaves a row with a non-zero total unchanged and writes 1 into the fallback column of a zero row |
| `Fuzzifier.NumberRow` | fuzzifier_ENABLE/cmd_fuzzifier/perform_fuzzification/fuzzification.py:80 | an unlabelled number gets 0 in the indicator columns and its memberships in the set columns; the fallback column (set n - 1 here, set n in the standalone version) holds 1 when all its memberships are 0 and its own membership otherwise |
| `Fuzzifier.RowsPositive` | fuzzifier.py:73 | after the fallback every row has a positive total, and a row that had total 0 has total exactly 1 |
| `Fuzzifier.CellsInUnitInterval` | fuzzifier.py:15-73 | with ordered trapezoid corners every cell of the table lies in [0, 1] |
| `Fuzzifier.DegenerateColumn` | fuzzifier_ENABLE/cmd_fuzzifier/perform_fuzzification/fuzzification.py:35-36 | a trapezoid with four equal corners gives an all-zero column, unless the fallback writes into it |
| `Orientation.Mask` | fuzzifier_ENABLE/cmd_fuzzifier/define_concepts/estimator_cutoff.py:136 | `replace(labelValues, nan)`: a cell becomes missing exactly when it was missing or is a label; every other cell is kept |
| `Orientation.Orient` | fuzzifier_ENABLE/cmd_fuzzifier/define_concepts/estimator_cutoff.py:134-142 | orientation succeeds exactly for "feature", "sample" and "matrix"; anything else is an error (ValueError) |
| `Orientation.OrientCells` | fuzzifier_ENABLE/cmd_fuzzifier/define_concepts/estimator_parameter.py:19-27 | masked cell (i, j) sits in row i for "feature", in row j for "sample", and at position j * rows + i of the single melted row for "matrix" |
| `Orientation.MeltCell` | fuzzifier_ENABLE/cmd_fuzzifier/define_concepts/estimator_parameter.py:25 | `melt()["value"]` lists the matrix column by column: cell (i, j) is at position j * rows + i |
| `Orientation.ValuesPresent` | fuzzifier_ENABLE/cmd_fuzzifier/define_concepts/estimator_parameter.py:34 | `skipna`/`dropna` keeps exactly the values present in the row |
| `Cutoffs.AssignEffect` | estimator.py:15 | the masked assignment writes each value at its position and keeps every other entry |
| `Cutoffs.AssignAll` | estimator.py:15 | the position-by-position assignment loop computes the masked assignment |
| `Cutoffs.FixOverlapCutoff` | estimator.py:7-16 | every row of the copy is the repaired row `RepairRow` of the same row of the input |
| `Cutoffs.RepairRowAt` | fuzzifier_ENABLE/cmd_fuzzifier/define_concepts/estimator_cutoff.py:14-16 | the overwritten positions receive the inner points of an evenly spaced line from the entry before the first to the entry after the last |
| `Cutoffs.RepairRowOff` | fuzzifier_ENABLE/interactive_APP/helperFunction.py:69-78 | every entry that is not overwritten is kept |
| `Cutoffs.RepairKeepsEnds` | fuzzifier_ENABLE/cmd_fuzzifier/define_concepts/estimator_cutoff.py:8-17 | both the repair as written and the corrected one keep the first and the last cutoff |
| `Cutoffs.SingleRunAgrees` | fuzzifier_ENABLE/interactive_APP/helperFunction_1dim.py:48-57 | with a single flat run, the repair as written and the corrected one both spread exactly that run |
| `Cutoffs.TwoRunsBreakOrder` | estimator.py:11-15 | the row -1, 50, 50, 900, 950, 950, 1001 comes out of the repair as written with 950 before 750.5, so it is no longer ordered |
| `Cutoffs.RepairRunsIncreasing` | estimator.py:7-16 | the corrected repair, run by run, turns a non-decreasing row whose outer pairs differ into a strictly increasing one |
| `Cutoffs.OneRunAgrees` | estimator.py:11-15 | on a non-decreasing row with at most one flat run and distinct outer pairs, `fixOverlapCutoff` and the run-by-run repair agree and the result strictly increases |
| `Cutoffs.PyIndex` | estimator.py:28 | Python indexing accepts -n <= i < n, counts a negative index from the end, and raises IndexError otherwise |
| `Cutoffs.EstimateCutoff` | estimator.py:20-33 | it succeeds exactly when `GridPlan` does, and a result has one row per input row, each with K + 1 cutoffs for K proportions; each row is `fixOverlapCutoff` (`RepairRow`) of the grid row, as `EstimateCutoffOk` states |
| `Cutoffs.GridPlan` | estimator.py:24-28 | the grid positions exist only when there are proportions whose total rounds to 1, are then `int(1000 * cumulative)`, and index the 1001-point grid whenever there is a row |
| `Cutoffs.EstimateCutoffCorrected` | estimator.py:20-33 | the same plan with the run-by-run repair: it succeeds exactly when `GridPlan` does, with one row of K + 1 cutoffs per input row |
| `Cutoffs.EstimateCutoffErrors` | estimator.py:24-26 | in both the program and the corrected pipeline, proportions whose total does not round to 1 raise ValueError and an empty list raises IndexError |
| `Cutoffs.RoundsToOne` | estimator.py:25 | `round(total, 3) == 1` holds exactly for totals in [0.9995, 1.0005] |
| `Cutoffs.GridIndicesInRange` | estimator.py:27 | for non-negative proportions whose total is at most 1.0005, every grid position int(steps * cumulative) is within 0..steps and they do not decrease |
| `Cutoffs.GridBounds` | estimator.py:22-31 | before the repair the row starts at floor(min) - 1, ends at ceil(max) + 1, and the inner cutoffs lie within [floor(min), ceil(max)] |
| `Cutoffs.GridNonDecreasing` | fuzzifier_ENABLE/interactive_APP/helperFunction_1dim.py:64-71 | the cutoffs read off the grid before the repair do not decrease |
| `Cutoffs.EstimateCutoffShape` | fuzzifier_ENABLE/cmd_fuzzifier/define_concepts/estimator_cutoff.py:26-35 | with non-negative proportions rounding to 1, the program succeeds and row f has K + 1 cutoffs from floor(min) - 1 to ceil(max) + 1; when its grid row has at most one flat run it strictly increases and equals the run-by-run repair |
| `Cutoffs.EstimateCutoffCorrectedShape` | fuzzifier_ENABLE/cmd_fuzzifier/define_concepts/estimator_cutoff.py:26-35 | with non-negative proportions rounding to 1, every row of the corrected cutoffs runs from floor(min) - 1 to ceil(max) + 1 and strictly increases, whatever flat runs the grid row has |
| `Cutoffs.EstimateCutoffOk` | fuzzifier_ENABLE/interactive_APP/helperFunction.py:86-94 | with non-negative proportions rounding to 1 the grid positions are in range and ordered, and every row of the program's result is `RepairRow` of its grid row, whose outer pairs differ (101 points here, 1001 in the command-line tools) |
| `Cutoffs.EstimateCutoffCorrectedOk` | estimator.py:24-32 | under the same conditions every row of the corrected result is `RepairRuns` of its grid row |
| `Cutoffs.EstimateCutoffTwoRuns` | estimator.py:20-33 | values 0 and 1000 with the proportions 0.05, 0, 0.85, 0.05, 0, 0.05 make the program return `RepairRow` of -1, 50, 50, 900, 950, 950, 1001, which is not ordered |
| `Concepts.EstimateSigma` | estimator.py:37-51 | one width per mean, in order: the rounded width of that mean among the means framed by the range bounds, whose caps `SigmaCaps` states |
| `Concepts.SigmaCaps` | fuzzifier_ENABLE/cmd_fuzzifier/define_concepts/estimator_cutoff.py:44-58 | each width is at most both neighbour gaps over sqrt(2 ln 2), and with more than two means at most the second-neighbour gaps over sqrt(6 ln 10) that the branch uses; it equals one of those caps |
| `Concepts.SigmaPositive` | fuzzifier_ENABLE/interactive_APP/helperFunction.py:117-131 | strictly increasing centres give positive widths before rounding |
| `Concepts.PaddedRowAgrees` | estimator.py:57-61 | away from the -inf/inf placeholders, the padded comprehension gives the concept's rows |
| `Concepts.GetFullConcept` | estimator.py:55-70 | "trap" gives the trapezoids of the cutoffs and slopes, "gauss" gives midpoint centres with their widths, anything else raises ValueError |
| `Concepts.TrapSharedCorners` | estimator.py:59-61 | the right pair of corners of row i is the left pair of row i + 1 |
| `Concepts.TrapClamped` | estimator.py:62-63 | the first row starts with (lo, lo), the last ends with (hi, hi), and every inner corner is the rounded cutoff minus or plus its slope |
| `Concepts.TrapOrdered` | fuzzifier_ENABLE/cmd_fuzzifier/define_concepts/estimator_cutoff.py:66-75 | cutoffs whose slope intervals are ordered and within the range give trapezoids with ordered corners |
| `Concepts.GaussCentreMidpoint` | estimator.py:64-67 | each Gaussian centre is the midpoint of consecutive cutoffs framed by the range bounds, so it lies between them |
| `Concepts.Intersection` | fuzzifier_ENABLE/interactive_APP/helperFunction.py:56-65 | "trap" and "gauss" give K + 1 points for K sets (2 for an empty concept), starting at the lower and ending at the upper range bound; any other type raises ValueError |
| `Concepts.IntersectionRecoversCutoffs` | fuzzifier_ENABLE/interactive_APP/helperFunction_1dim.py:36-45 | the trapezoid intersections of a concept built from cutoffs give back those cutoffs to within 0.0005 |
| `Concepts.GaussIntersectionBetween` | fuzzifier_ENABLE/interactive_APP/helperFunction.py:59-61 | with positive widths and ordered centres, entry i + 1 of the "gauss" intersection lies between the two centres, half-way when the widths are equal |
| `Concepts.DefaultRows` | fuzzifier_ENABLE/interactive_APP/helperFunction_1dim.py:146-147 | the rounded slices of the corner list are the half-steps either side of consecutive grid points |
| `Concepts.EndWritesFlatten` | fuzzifier_ENABLE/interactive_APP/helperFunction_1dim.py:148 | `trap[0][0] = trap[0][1]; trap[-1][3] = trap[-1][2]` turns the outer ramps into steps and changes nothing else |
| `Concepts.RoundingKeepsCorners` | fuzzifier_ENABLE/interactive_APP/helperFunction_1dim.py:148 | the second rounding leaves the default corners unchanged |
| `Concepts.GetDefaultConcept` | fuzzifier_ENABLE/interactive_APP/helperFunction_1dim.py:144-150 | 2s + 1 trapezoids of four corners each, the flattened grid corners, and Gaussian centres at each plateau's middle |
| `Concepts.DefaultLayout` | fuzzifier_ENABLE/interactive_APP/helperFunction_1dim.py:144-149 | the centres are -n + 2k + 1 with the middle set at 0; the concept is symmetric; corners are ordered with plateaus of width 1; only the first set starts with a step and only the last ends with one; neighbours share slope corners |
| `Concepts.SigmaFloor` | fuzzifier_ENABLE/interactive_APP/helperFunction_1dim.py:139-141 | the width that comes back is 0 exactly when it was 0; a positive width comes back as at least 0.001, and as its rounding when that is not 0 |
| `CutoffEstimator.WidthTicks` | estimator.py:127-128 | width ticks are 1001 rounded points |
| `CutoffEstimator.WidthTicksShape` | estimator.py:122-128 | width ticks run from floor(min) - 1 to ceil(max) + 1 and never decrease |
| `CutoffEstimator.ProportionTicks` | estimator.py:118-121 | proportion ticks are the 1001 rounded quantiles, with the first moved to its floor minus 1 and the last left unchanged |
| `CutoffEstimator.Ticks` | estimator.py:117-130 | "proportion" and "width" give 1001 ticks per row; any other `cutoffBy` raises ValueError |
| `CutoffEstimator.EffectivePercents` | estimator.py:75-78 | proportions that are not one per set fall back to equal shares 1 / K; this raises ZeroDivisionError exactly when K = 0 and proportions were given |
| `CutoffEstimator.TickCutoff` | estimator.py:79 | the cutoffs on tick positions 0..1000, through the program's `estimateCutoff`, are K + 1 numbers |
| `CutoffEstimator.TickCutoffCorrected` | estimator.py:79 | the same through the corrected `EstimateCutoffCorrected`: K + 1 numbers |
| `CutoffEstimator.MinGap` | estimator.py:83 | `cutoff.diff().iloc[1:].min()` is at most every gap between neighbouring cutoffs |
| `CutoffEstimator.LookupTicks` | estimator.py:86-87 | every corner is read from each row's ticks at `int(corner)`; when there is a row, a corner outside 0..1000 raises KeyError and nothing else does |
| `CutoffEstimator.EstimateTrapezoidalConcept` | estimator.py:74-88 | as written (cutoffs repaired by `fixOverlapCutoff`, default slope gap / 4 scaled by 1000): a result gives every row K trapezoids |
| `CutoffEstimator.EstimateTrapezoidalConceptCorrected` | estimator.py:74-88 | with the corrected cutoffs and default slope gap / 4000: a result gives every row K trapezoids |
| `CutoffEstimator.TrapezoidalErrors` | fuzzifier_ENABLE/cmd_fuzzifier/define_concepts/estimator_cutoff.py:89-102 | in the program, K = 0 with proportions raises ZeroDivisionError, with none IndexError; given proportions not rounding to 1 raise ValueError |
| `CutoffEstimator.TickCutoffShape` | fuzzifier_ENABLE/cmd_fuzzifier/define_concepts/estimator_cutoff.py:94 | the program's tick-position cutoffs run from -1 to 1001; when the grid row has at most one flat run they strictly increase and equal the run-by-run repair |
| `CutoffEstimator.TickCutoffCorrectedRuns` | estimator.py:79 | the corrected tick-position cutoffs are the run-by-run repair of the grid row |
| `CutoffEstimator.TickCutoffCorrectedShape` | fuzzifier_ENABLE/cmd_fuzzifier/define_concepts/estimator_cutoff.py:94 | the corrected tick-position cutoffs run from -1 to 1001 and strictly increase |
| `CutoffEstimator.DefaultSlopeScaledTwice` | estimator.py:83-84 | as written, two default sets get slope 125250 ticks and the lookup raises KeyError for any feature |
| `CutoffEstimator.ProgramLookup` | estimator.py:79-87 | with the default slopes, the program's estimate is the tick lookup of the trapezoids built from the rounded cutoffs and the slope gap / 4 scaled by 1000 |
| `CutoffEstimator.DefaultSlopeOffTicks` | estimator.py:83-87 | for any K >= 2 with default slopes and a smallest cutoff gap above 2.002, the program raises KeyError for every input with a row |
| `CutoffEstimator.TwoSetCutoff` | estimator.py:79 | two equal sets: both the program and the corrected pipeline give the tick-position cutoffs -1, 500, 1001 |
| `CutoffEstimator.DefaultSlopeTwoSets` | fuzzifier_ENABLE/cmd_fuzzifier/define_concepts/estimator_cutoff.py:95-101 | with the corrected default slope, two sets get the trapezoids at ticks (0, 0, 375, 625) and (375, 625, 1000, 1000) |
| `CutoffEstimator.TrapCornersOnTicks` | estimator.py:84-87 | when every inner corner rounds to a tick in 0..1000, every corner of the concept is a tick |
| `CutoffEstimator.DefaultCornersOnTicks` | fuzzifier_ENABLE/cmd_fuzzifier/define_concepts/estimator_cutoff.py:98-101 | with the corrected default slope and increasing cutoffs inside 0..1000, every corner is a tick |
| `CutoffEstimator.DefaultSlopeOnTicks` | estimator.py:80-87 | with the corrected default slope and cutoffs inside 0..1000, the trapezoidal estimate does not fail |
| `CutoffEstimator.EstimatorByCutoff` | fuzzifier_ENABLE/cmd_fuzzifier/define_concepts/estimator_cutoff.py:132-163 | as written: a wrong `fuzzyBy` or `cutoffBy` raises ValueError; a type other than "trapezoidal" leaves the result unbound; a result holds K trapezoids for every oriented row (with default slopes and wide gaps it raises KeyError, as `DefaultSlopeOffTicks` states) |
| `ParameterEstimator.ToParamArray` | fuzzifier_ENABLE/cmd_fuzzifier/define_concepts/estimator_parameter.py:13-18 | a list of lists or a numpy array becomes the table (ragged lists raise ValueError); anything else raises TypeError |
| `ParameterEstimator.LowerBound` | fuzzifier_ENABLE/cmd_fuzzifier/define_concepts/estimator_parameter.py:34 | the lower end is at most the first set's c and at most floor(min) - 1, so strictly below every value; a row without values gets the parameter itself; it is one of the two candidates |
| `ParameterEstimator.UpperBound` | fuzzifier_ENABLE/cmd_fuzzifier/define_concepts/estimator_parameter.py:35 | the upper end is at least the last set's b and at least ceil(max) + 1, so strictly above every value; a row without values gets the parameter itself; it is one of the two candidates |
| `ParameterEstimator.ClampedShape` | fuzzifier_ENABLE/cmd_fuzzifier/define_concepts/estimator_parameter.py:31-37 | the first set's a = b and the last set's c = d bracket every value of the row; every other parameter is the given one |
| `ParameterEstimator.ClampedOrdered` | estimator.py:159-165 | ordered trapezoids stay ordered after clamping when there are two or more sets, or when the row has a value |
| `ParameterEstimator.SingleSetEmptyRow` | estimator.py:160-164 | a single set and a row without values: the plateau writes reverse the trapezoid |
| `ParameterEstimator.ToLists` | fuzzifier_ENABLE/cmd_fuzzifier/define_concepts/estimator_parameter.py:37 | `tolist()` gives the table's entries row by row |
| `ParameterEstimator.SetPlateaus` | fuzzifier_ENABLE/cmd_fuzzifier/define_concepts/estimator_parameter.py:36 | the four writes put `minimum` on the first set's a, b and `maximum` on the last set's c, d, leaving the rest of the table as given |
| `ParameterEstimator.SnapshotIsClamped` | fuzzifier_ENABLE/cmd_fuzzifier/define_concepts/estimator_parameter.py:36-37 | after the four writes, the copy of the shared table is the clamped concept of that row |
| `ParameterEstimator.ClampRow` | fuzzifier_ENABLE/cmd_fuzzifier/define_concepts/estimator_parameter.py:34-37 | one pass of the loop keeps the shared table equal to the given parameters off the plateaus and returns the clamped concept of the row |
| `ParameterEstimator.FixTrapezoids` | fuzzifier_ENABLE/cmd_fuzzifier/define_concepts/estimator_parameter.py:31-37 | every row receives the clamped concept of its own values, although all rows share one table |
| `ParameterEstimator.EstimatorByParameter` | fuzzifier_ENABLE/cmd_fuzzifier/define_concepts/estimator_parameter.py:12-77 | the checks raise in the source's order, and valid arguments (a table of the type's arity, `paramBy` "fix", and at least one row for trapezoids) always succeed; Gaussian rows receive the parameters unchanged, trapezoid rows the clamped concept; "matrix" gives every input row the single concept |
| `DefaultEstimator.ArgMax` | fuzzifier_ENABLE/cmd_fuzzifier/define_concepts/estimator_default.py:44 | `idxmax` returns the first position of the largest density |
| `DefaultEstimator.ModeNearMean` | fuzzifier_ENABLE/cmd_fuzzifier/define_concepts/estimator_default.py:36-46 | the chosen mode is a row of the table within one row of the mean, and not the mean itself when the mean is at either end of two or more rows; for an inner mean it is at least as dense as both neighbours of the mean, and it is the densest row whenever that one is near the mean |
| `DefaultEstimator.Below` | fuzzifier_ENABLE/cmd_fuzzifier/define_concepts/estimator_default.py:55 | `values[values < mu]` keeps exactly the values below mu |
| `DefaultEstimator.Above` | fuzzifier_ENABLE/cmd_fuzzifier/define_concepts/estimator_default.py:56 | `values[values > mu]` keeps exactly the values above mu |
| `DefaultEstimator.Hypot` | fuzzifier_ENABLE/cmd_fuzzifier/define_concepts/estimator_default.py:57 | `sqrt(sigma1 ** 2 + sigma2 ** 2)` is non-negative and squares to the sum of squares |
| `DefaultEstimator.WidthPositive` | fuzzifier_ENABLE/cmd_fuzzifier/define_concepts/estimator_default.py:26-59 | the width is 1 or at least 0.0005, so never 0; a row with fewer than two values gets mu = 0 and sigma = 1; otherwise sigma is the spread whenever that does not round to 0 |
| `DefaultEstimator.LayoutShared` | fuzzifier_ENABLE/cmd_fuzzifier/define_concepts/estimator_default.py:60-62 | set k's first two corners are set k - 1's last two |
| `DefaultEstimator.LayoutOrdered` | fuzzifier_ENABLE/cmd_fuzzifier/define_concepts/estimator_default.py:60-62 | with positive factors and width and a slope factor in [0, 1], every set's corners are ordered and the sets move to the right |
| `DefaultEstimator.EdgesOutside` | fuzzifier_ENABLE/cmd_fuzzifier/define_concepts/estimator_default.py:63-64 | the stretched ends lie strictly outside the row's values and the inner corners they are compared with; a row without values gets -6 and 6 |
| `DefaultEstimator.BuildDefaultConcept` | fuzzifier_ENABLE/cmd_fuzzifier/define_concepts/estimator_default.py:60-66 | the concept is the layout with the outer plateaus stretched and the middle set replaced by [round(mu), round(sigma)] |
| `DefaultEstimator.DefaultConceptOrdered` | fuzzifier_ENABLE/cmd_fuzzifier/define_concepts/estimator_default.py:63-65 | for a row with values, every set other than the middle one has ordered corners |
| `DefaultEstimator.DefaultConceptOfRow` | fuzzifier_ENABLE/cmd_fuzzifier/define_concepts/estimator_default.py:25-66 | one row's concept is built from the settled mu and sigma |
| `DefaultEstimator.ConceptsOfRows` | fuzzifier_ENABLE/cmd_fuzzifier/define_concepts/estimator_default.py:24-66 | the loop gives every row its own default concept |
| `DefaultEstimator.EstimatorByDefault` | fuzzifier_ENABLE/cmd_fuzzifier/define_concepts/estimator_default.py:14-69 | an unknown `fuzzyBy` raises ValueError; no sets raise IndexError when there is a row; a known orientation with at least one set (or no rows) always succeeds, and every row, or every input row for "matrix", gets its default concept |
| `DefaultEstimator.StretchEnds` | estimator.py:248-250 | the end writes set the first set's a, b to `left` and the last set's c, d to `right`, put [round(mu), round(sigma)] in the middle, and keep every other corner |
| `DefaultEstimator.LegacyConceptOrdered` | estimator.py:243-250 | with the corrected left end (`LegacyConceptCorrected`), every non-middle set of a kept row has ordered corners, and the outer sets reach strictly beyond the row's values |
| `DefaultEstimator.LegacyConceptShape` | estimator.py:243-250 | as written (`LegacyConcept`): the first set is [m, m, c, d] with m = min(floor(min) - 1, d) below every value, ordered exactly when floor(min) - 1 <= c or c = d; the other non-middle sets are ordered; the last set ends above every value; and when floor(min) - 1 <= c the concept is the corrected one |
| `DefaultEstimator.LegacyLeftAsWritten` | estimator.py:248 | for the row -3, -1, 0, 1, 3 with five sets the first set comes out as [-5, -5, -7, -5] as written, and as [-7, -7, -7, -5] when left is taken against its third corner |
| `DefaultEstimator.LegacyRunKeys` | estimator.py:212-242 | a successful run keys exactly the rows with at least two values and a non-zero spread, each with its concept as the program writes it (`LegacyConcept`); a failure is UnboundLocalError or IndexError |
| `DefaultEstimator.LegacyRunStaysFailed` | estimator.py:219-225 | once a row has raised, later rows do not change the outcome |
| `DefaultEstimator.LegacyRunSucceeds` | estimator.py:219-225 | with at least one set and a non-singular density for every row the run does not fail |
| `DefaultEstimator.EstimatorByDefaultLegacy` | estimator.py:209-251 | the loop over the rows computes the keyed concepts, as the program writes them, or the error of the specification `LegacyRun` |
| `FuzzyRule.MembershipVector` | main_fuzzyRule.py:24 | the `einsum` reorders the five tables into one vector of five memberships per feature and sample |
| `FuzzyRule.GroupsMeaning` | main_fuzzyRule.py:29-32 | group 0 is 1 exactly when every membership is 0; the other groups carry all the membership, so the groups sum to the memberships plus that flag |
| `FuzzyRule.Outer` | main_fuzzyRule.py:33 | cell (k, l) of the distribution is numerator group k times denominator group l |
| `FuzzyRule.OuterTotal` | main_fuzzyRule.py:33 | the whole outer-product table sums to the product of the two group totals |
| `FuzzyRule.FoldChangeClasses` | main_fuzzyRule.py:34-39 | each of the eight outputs is the sum of the cells of its class: NA, -INF, INF, then how many groups the denominator lies above the numerator |
| `FuzzyRule.FoldChangeTotal` | main_fuzzyRule.py:34-39 | every one of the 16 cells is used exactly once, so the eight outputs sum to the whole table |
| `FuzzyRule.FuzzyFoldChangeTotal` | main_fuzzyRule.py:29-39 | the eight classes sum to the product of the grouped numerator and denominator totals |
| `FuzzyRule.FuzzyFoldChangeUnit` | main_fuzzyRule.py:33-39 | memberships summing to 1 on both sides give fold-change classes summing to 1 |
| `FuzzyRule.OutputTable` | main_fuzzyRule.py:40-42 | output file idx holds, for every feature and sample, the rounded sum of the class-idx cells, in the order NA, -INF, INF, --, -, o, +, ++ |

## Left out

- Quantile ("percentile") branches of `estimatorByParameter`, and the quantiles behind proportion ticks: pandas interpolation is foreign code, so quantiles are an input function.
- `estimateGaussianConcept` and the "gauss" branch of `estimatorByCutoff`: the call passes a list as a numpy dtype and cannot run as written. `EstimatorByCutoff` requires a type other than "gauss".
- The kernel density estimate, `argrelmax` and the `useOptimize` curve fit: the table of modes is an input (`Kde`), including the singular case.
- IEEE floats: values are exact reals, and a Gaussian width of 0 (a division by zero giving NaN or infinity in the program) is excluded: `EvaluateSets` and `Fuzzify` require `SigmasNonzero`, and the "gauss" branch of `Intersection` requires the widths of each pair of neighbouring sets to have a non-zero sum (the divisor of its weighted mean). Infinities in the data are not evaluated against sets.  `EstimateCutoff` and `EstimateCutoffCorrected` require every row to have a value; the program gives NaN cutoffs for a row without values (as the interactive application can pass after `dropna`), while every call the model covers passes the row 0..1000.  `EvaluateSets` takes NaN cells (with the results `NaNMembership` states), but in `Fuzzify` they reach the sets only through the indicator path, whose rows are then cleared to 0. `Fuzzifiable` requires every value to be a number unless indicators are on, so the NaN cells that `fuzzify` produces without indicators are not modelled.
- `fuzzify` with an empty concept: pandas creates a new column `FS0` (or `FS-1`) for the fallback; `FuzzifyPre` requires at least one set (two for the command-line version).
- Ragged parameter tables in `fuzzify`: each tuple is checked on its own, as the loop does.
- `Cutoffs.RepairRow` and `Cutoffs.FixOverlapCutoff`: a flat run that touches the first or last cutoff makes the program wrap to index -1 or read past the end; `EndsDistinct` requires the first two and the last two cutoffs to differ.
- `Cutoffs.ZeroDiffs`, `Cutoffs.RepairPositions`: their contracts state that every listed position is a zero difference, in increasing order, but not that every zero difference is listed; the repair lemmas use the function bodies.
- `Fuzzifier.Fuzzify` (and `Fuzzifier.FuzzifySpec`): three inputs of `fuzzify` are not covered. A Gaussian width of 0 is excluded by `SigmasNonzero` (see the IEEE line). Values that are NaN or labelled while indicators are off are excluded by `Fuzzifiable`. Indicator labels are compared by value, as stated in the line below.
- `Fuzzifier.InsertIndicators`, `Fuzzifier.IndicatorClash`, `Fuzzifier.DuplicateLabelError`: labels are compared as numbers, so an int and a float spelling of one number (`0` and `0.0`) count as a repeat and raise ValueError in the model.  The program names the columns `f"{prefix}0_{val}"`, which gives the distinct names `FS0_0` and `FS0_0.0`, so it keeps both columns; it raises only when the formatted names are equal.
- `CutoffEstimator.Ticks`, `CutoffEstimator.EstimatorByCutoff`: with `cutoffBy` "width" the requires (`TicksDefined`) demands at least one value somewhere in the matrix.  For an all-missing matrix the program does not raise: its range is [NaN, NaN] and every row gets NaN ticks from `np.linspace(nan, nan, 1001)` (estimator.py:116, 123-126).  That case is not modelled.
- `CutoffEstimator.ProportionTicks`: a row without values gets NaN ticks in the program; the quantile input of the model returns a number for every row, so that case is not modelled.
- The last proportion tick: the statement `ticks[1000] + np.ceil(ticks[1000]) + 1` (estimator.py:121, fuzzifier_ENABLE/cmd_fuzzifier/define_concepts/estimator_cutoff.py:148) computes a value and discards it, so the last tick stays the rounded maximum quantile.  It looks like an assignment to ceil + 1 was meant, mirroring the first tick.  `ProportionTicks` keeps the program's behaviour, and the model has no corrected variant.  The last set's plateau corners read this tick, so as written they stop at the largest value instead of reaching beyond it.
- `CutoffEstimator.EstimateTrapezoidalConcept`: the contract states only the shape; what the concept holds is stated by `ProgramLookup`, `DefaultSlopeOffTicks`, `DefaultSlopeScaledTwice` and `TrapezoidalErrors` (and for the corrected member by `DefaultSlopeTwoSets` and `DefaultSlopeOnTicks`).
- `Cutoffs.EstimateCutoffShape`, `CutoffEstimator.TickCutoffShape`: strict increase of the program's cutoffs is stated only for grid rows with at most one flat run, because with two runs the program's repair breaks the order (`EstimateCutoffTwoRuns`).
- `CutoffEstimator.DefaultSlopeOffTicks`: the KeyError is proved for a smallest cutoff gap above 2.002, which covers every case with fewer than about 500 sets; for smaller gaps some default corners land on ticks and the model states no outcome.
- `CutoffEstimator.WidthTicks`, `CutoffEstimator.TickCutoff`, `Cutoffs.EstimateCutoff`: their own contracts state only the shape; the values are stated by `WidthTicksShape`, `TickCutoffShape` and `EstimateCutoffShape`.
- The mode tie-break of `sort_values("density").index[1]` (estimator_default.py:46): the model takes the right neighbour on equal densities, as a stable sort puts it last.
- `DefaultEstimator.EdgesOutside`: for a row without values the command-line estimator uses -6 and 6 whatever the layout is, so those ends can lie inside the outer corners; the model keeps this and proves ordering only for rows with values.
- `ParameterEstimator.ClampedParams` keeps the program's reversal of a single set over a row without values (`SingleSetEmptyRow`).
- Vectorised pandas assignments (`newCutoff.loc[feature, columns[pos]] = vals`, `memberships.loc[...] = 0`) are modelled as element-by-element loops.
- File reading and writing of `main_fuzzyRule.py` and of the command-line tools; warnings; the Shiny application, plots, optimisation and hypothesis tests.
- `Numerics.MathLib`: `exp` and `sqrt` are only constrained as stated above, so no numeric value of a Gaussian membership other than 1 at the centre is derived.

## Findings

| source | as written | input that shows it | evidently intended | confidence | as-written member | corrected member |
|---|---|---|---|---|---|---|
| estimator.py:11-15 | `fixOverlapCutoff` overwrites all zero-difference positions at once with one evenly spaced line, from the entry before the first run to the entry after the last run, so the entries between two flat runs keep their old values | the values 0 and 1000 with the proportions 0.05, 0, 0.85, 0.05, 0, 0.05 give the grid row -1, 50, 50, 900, 950, 950, 1001: positions 1, 2 and 5 become 249.5, 500 and 750.5, and 950 at position 4 now precedes 750.5 | repair each flat run separately between its own neighbours, so a non-decreasing row becomes strictly increasing | high (not executed) | `Cutoffs.EstimateCutoffTwoRuns` | `Cutoffs.EstimateCutoffCorrectedShape` |
| estimator.py:83-84 | the default slope is a quarter of the smallest cutoff gap, already in ticks, and is then multiplied by 1000 again like a user-given slope | two sets with no proportions and no slopes: cutoff 500, smallest gap 501, slope 125.25 scaled to 125250 ticks; the corner 500 - 125250 is no tick, so the lookup raises KeyError for any feature | the default slope in the unit of user-given slopes (gap / 4000), giving corners 375 and 625 | high (not executed) | `CutoffEstimator.DefaultSlopeOffTicks` | `CutoffEstimator.DefaultSlopeOnTicks` |
| estimator.py:248 | `left = min(xRange[0], concept[0][3])` compares the range with the first set's last corner | the row -3, -1, 0, 1, 3 with a single mode at the mean 0: mu = 0, sigma = 2, five sets, first set [-11, -9, -7, -5], range start -4; left = -5 gives [-5, -5, -7, -5], whose second corner exceeds its third | compare the range start with the first set's third corner, the corner the command-line version uses at estimator_default.py:63 (which floors after taking the minimum and would give -8 here), giving [-7, -7, -7, -5] | high (not executed) | `DefaultEstimator.LegacyConceptShape` | `DefaultEstimator.LegacyConceptOrdered` |
