/** Fuzzification of a series of crisp values against one fuzzy concept.

    The result is a table with one column per fuzzy set (named by a prefix
    and the set's 1-based number), preceded, when indicators are asked for,
    by one 0/1 column per indicator label.  Rows whose memberships all come
    out 0 get a 1 in a fallback column. */
module Fuzzifier {
  import opened Numerics
  import opened Membership

  /** One crisp value: a number or one of the non-finite floats. */
  datatype Crisp = Num(v: real) | NaN | PosInf | NegInf

  /** A value to indicate by a column of its own. */
  datatype Label = LabelNone | LabelNaN | LabelPosInf | LabelNegInf | LabelNum(v: real)

  /** A column header: `<prefix>0_<label>` or `<prefix><k>`. */
  datatype ColumnName = IndicatorName(tag: Label) | SetName(k: nat)

  /** The further parameters: `addIndicator`, `indicateValue` (absent means
      `[nan]`) and `namePrefix`. */
  datatype Options = Options(addIndicator: bool, indicateValue: Option<seq<Label>>, namePrefix: string)

  /** Which set a row without any membership falls back to. */
  datatype FallbackRule = LastSet | SecondToLastSet

  /** Column names and, column by column, one value per crisp value. */
  datatype Table = Table(prefix: string, columns: seq<ColumnName>, cells: seq<seq<real>>)

  function Labels(opts: Options): seq<Label>
  {
    if opts.indicateValue.Some? then opts.indicateValue.value else [LabelNaN]
  }

  /** Does the crisp value x carry label l? `None` never matches a number. */
  predicate Matches(x: Crisp, l: Label)
  {
    match l
    case LabelNone => false
    case LabelNaN => x.NaN?
    case LabelPosInf => x.PosInf?
    case LabelNegInf => x.NegInf?
    case LabelNum(v) => x == Num(v)
  }

  predicate MatchesAny(x: Crisp, labels: seq<Label>)
  {
    exists i :: 0 <= i < |labels| && Matches(x, labels[i])
  }

  /** The values the sets are evaluated on: labelled values are replaced by
      NaN (written `None`) when indicators are on. */
  function CrispValues(raw: seq<Crisp>, opts: Options): (c: seq<Option<real>>)
    ensures |c| == |raw|
  {
    seq(|raw|, r requires 0 <= r < |raw| =>
      if raw[r].Num? && !(opts.addIndicator && MatchesAny(raw[r], Labels(opts))) then Some(raw[r].v) else None)
  }

  /** Every value is a number, or is NaN or labelled while indicators are on. */
  predicate Fuzzifiable(raw: seq<Crisp>, opts: Options)
  {
    forall r :: 0 <= r < |raw| ==>
      raw[r].Num? || (opts.addIndicator && (raw[r].NaN? || MatchesAny(raw[r], Labels(opts))))
  }

  /** The first error that evaluating the sets in order raises. */
  function FirstError(params: seq<seq<real>>, from: nat): Option<PyError>
    requires from <= |params|
    decreases |params| - from
  {
    if from == |params| then None
    else if SetError(params, from).Some? then SetError(params, from)
    else FirstError(params, from + 1)
  }

  /** Set `k` evaluated on every value; a NaN input gives what the set's
      formula makes of NaN. */
  function SetColumn(m: MathLib, params: seq<seq<real>>, k: nat, crisp: seq<Option<real>>): (col: seq<Option<real>>)
    requires k < |params| && SetError(params, k) == None && SigmasNonzero(params)
    ensures |col| == |crisp|
  {
    seq(|crisp|, r requires 0 <= r < |crisp| =>
      if crisp[r].Some? then Some(SetMembership(m, params, k, crisp[r].value)) else NaNMembership(params, k))
  }

  /** The set columns once NaN rows have been cleared to 0. */
  function RealCells(m: MathLib, params: seq<seq<real>>, crisp: seq<Option<real>>): (cells: seq<seq<real>>)
    requires SigmasNonzero(params) && FirstError(params, 0) == None
  {
    NoErrorAnywhere(params, 0);
    seq(|params|, k requires 0 <= k < |params| =>
      seq(|crisp|, r requires 0 <= r < |crisp| =>
        if crisp[r].Some? then SetMembership(m, params, k, crisp[r].value) else 0.0))
  }

  function IndicatorColumn(l: Label, raw: seq<Crisp>): seq<real>
  {
    seq(|raw|, r requires 0 <= r < |raw| => if Matches(raw[r], l) then 1.0 else 0.0)
  }

  function IndicatorColumns(labels: seq<Label>, raw: seq<Crisp>): seq<seq<real>>
  {
    seq(|labels|, i requires 0 <= i < |labels| => IndicatorColumn(labels[i], raw))
  }

  function IndicatorNames(labels: seq<Label>): seq<ColumnName>
  {
    seq(|labels|, i requires 0 <= i < |labels| => IndicatorName(labels[i]))
  }

  function SetNames(n: nat): seq<ColumnName>
  {
    seq(n, k requires 0 <= k < n => SetName(k + 1))
  }

  predicate Distinct(labels: seq<Label>)
  {
    forall p, q :: 0 <= p < q < |labels| ==> labels[p] != labels[q]
  }

  /** Every column has n cells. */
  predicate Rectangular(cells: seq<seq<real>>, n: nat)
  {
    forall j :: 0 <= j < |cells| ==> |cells[j]| == n
  }

  /** The values of row r across all columns. */
  function Row(cells: seq<seq<real>>, r: nat): seq<real>
    requires forall j :: 0 <= j < |cells| ==> r < |cells[j]|
  {
    seq(|cells|, j requires 0 <= j < |cells| => cells[j][r])
  }

  /** Column fb set to 1 in every row whose sum is 0. */
  function Fallback(cells: seq<seq<real>>, n: nat, fb: nat): (out: seq<seq<real>>)
    requires Rectangular(cells, n)
    ensures |out| == |cells| && Rectangular(out, n)
  {
    seq(|cells|, j requires 0 <= j < |cells| =>
      seq(n, r requires 0 <= r < n => if j == fb && Sum(Row(cells, r)) == 0.0 then 1.0 else cells[j][r]))
  }

  function IndicatorCount(opts: Options): nat
  {
    if opts.addIndicator then |Labels(opts)| else 0
  }

  /** The column of set n (fuzzifier.py) or of set n - 1 (fuzzification.py). */
  function FallbackColumn(opts: Options, sets: nat, rule: FallbackRule): int
  {
    IndicatorCount(opts) + sets - (if rule == LastSet then 1 else 2)
  }

  predicate FuzzifyPre(raw: seq<Crisp>, params: seq<seq<real>>, opts: Options, rule: FallbackRule)
  {
    && SigmasNonzero(params)
    && Fuzzifiable(raw, opts)
    && |params| >= (if rule == LastSet then 1 else 2)
  }

  /** The table before the fallback step. */
  function Assembled(m: MathLib, raw: seq<Crisp>, params: seq<seq<real>>, opts: Options): (cells: seq<seq<real>>)
    requires SigmasNonzero(params) && FirstError(params, 0) == None
    ensures |cells| == IndicatorCount(opts) + |params| && Rectangular(cells, |raw|)
  {
    (if opts.addIndicator then IndicatorColumns(Labels(opts), raw) else [])
      + RealCells(m, params, CrispValues(raw, opts))
  }

  /** What `fuzzify` returns or raises. */
  function FuzzifySpec(m: MathLib, raw: seq<Crisp>, params: seq<seq<real>>, opts: Options, rule: FallbackRule): Result<Table>
    requires FuzzifyPre(raw, params, opts, rule)
  {
    if FirstError(params, 0).Some? then Err(FirstError(params, 0).value)
    else if opts.addIndicator && !Distinct(Labels(opts)) then Err(ValueError)
    else
      var names := (if opts.addIndicator then IndicatorNames(Labels(opts)) else []) + SetNames(|params|);
      Ok(Table(opts.namePrefix, names,
        Fallback(Assembled(m, raw, params, opts), |raw|, FallbackColumn(opts, |params|, rule))))
  }

  // ---------------------------------------------------------------------
  // The engine

  /** Evaluates the sets in order; the first set whose tuple cannot be
      evaluated raises. */
  method EvaluateSets(m: MathLib, params: seq<seq<real>>, crisp: seq<Option<real>>)
    returns (result: Result<seq<seq<Option<real>>>>)
    requires SigmasNonzero(params)
    ensures FirstError(params, 0).Some? ==> result == Err(FirstError(params, 0).value)
    ensures FirstError(params, 0).None? ==> result.Ok? && |result.value| == |params|
    ensures result.Ok? ==> forall k :: 0 <= k < |params| ==>
      SetError(params, k) == None && result.value[k] == SetColumn(m, params, k, crisp)
  {
    var cols: seq<seq<Option<real>>> := [];
    var k := 0;
    while k < |params|
      invariant 0 <= k <= |params| && |cols| == k
      invariant FirstError(params, 0) == FirstError(params, k)
      invariant forall j :: 0 <= j < k ==> SetError(params, j) == None && cols[j] == SetColumn(m, params, j, crisp)
    {
      var e := SetError(params, k);
      if e.Some? {
        return Err(e.value);
      }
      cols := cols + [SetColumn(m, params, k, crisp)];
      k := k + 1;
    }
    return Ok(cols);
  }

  /** A column without NaN cells, as numbers. */
  function Numbers(col: seq<Option<real>>): (r: seq<real>)
    requires forall q :: 0 <= q < |col| ==> col[q].Some?
    ensures |r| == |col| && forall q :: 0 <= q < |col| ==> col[q] == Some(r[q])
  {
    seq(|col|, q requires 0 <= q < |col| => col[q].value)
  }

  /** Sets every cell of a NaN row to 0 and reads the cells as numbers. */
  method ClearNaNRows(m: MathLib, params: seq<seq<real>>, crisp: seq<Option<real>>, cols: seq<seq<Option<real>>>)
    returns (cells: seq<seq<real>>)
    requires SigmasNonzero(params) && FirstError(params, 0) == None && |cols| == |params|
    requires forall k :: 0 <= k < |params| ==> SetError(params, k) == None && cols[k] == SetColumn(m, params, k, crisp)
    ensures cells == RealCells(m, params, crisp)
  {
    var n := |crisp|;
    var cs := cols;
    var i := 0;
    while i < n
      invariant 0 <= i <= n && |cs| == |cols|
      invariant forall j :: 0 <= j < |cs| ==> |cs[j]| == n
      invariant forall j, q :: 0 <= j < |cs| && 0 <= q < n ==>
        cs[j][q] == if q < i && crisp[q].None? then Some(0.0) else cols[j][q]
    {
      if crisp[i].None? {
        cs := seq(|cs|, j requires 0 <= j < |cs| => cs[j][i := Some(0.0)]);
      }
      i := i + 1;
    }
    forall j, q | 0 <= j < |cs| && 0 <= q < |cs[j]|
      ensures cs[j][q] == Some(RealCells(m, params, crisp)[j][q])
    {
      assert cols[j] == SetColumn(m, params, j, crisp);
    }
    cells := seq(|cs|, j requires 0 <= j < |cs| => Numbers(cs[j]));
    forall j | 0 <= j < |params|
      ensures cells[j] == RealCells(m, params, crisp)[j]
    {
    }
  }

  /** Inserts one indicator column per label at the front, from the last
      label to the first; a label whose column already exists raises. */
  method InsertIndicators(labels: seq<Label>, raw: seq<Crisp>, names0: seq<ColumnName>, cells0: seq<seq<real>>)
    returns (result: Result<(seq<ColumnName>, seq<seq<real>>)>)
    requires forall p :: 0 <= p < |names0| ==> names0[p].SetName?
    ensures !Distinct(labels) ==> result == Err(ValueError)
    ensures Distinct(labels) ==> result == Ok((IndicatorNames(labels) + names0, IndicatorColumns(labels, raw) + cells0))
  {
    var names, cells := names0, cells0;
    var i := |labels|;
    while i > 0
      invariant 0 <= i <= |labels|
      invariant names == IndicatorNames(labels[i..]) + names0
      invariant cells == IndicatorColumns(labels[i..], raw) + cells0
      invariant Distinct(labels[i..])
    {
      i := i - 1;
      IndicatorClash(labels, names0, names, i);
      if IndicatorName(labels[i]) in names {
        return Err(ValueError);
      }
      IndicatorsCons(labels, raw, i);
      names := [IndicatorName(labels[i])] + names;
      cells := [IndicatorColumn(labels[i], raw)] + cells;
    }
    assert labels[0..] == labels;
    return Ok((names, cells));
  }

  /** The name of label i clashes with a column already present exactly
      when label i occurs again later. */
  lemma IndicatorClash(labels: seq<Label>, names0: seq<ColumnName>, names: seq<ColumnName>, i: nat)
    requires i < |labels| && forall p :: 0 <= p < |names0| ==> names0[p].SetName?
    requires names == IndicatorNames(labels[i + 1..]) + names0 && Distinct(labels[i + 1..])
    ensures IndicatorName(labels[i]) in names ==> !Distinct(labels)
    ensures IndicatorName(labels[i]) !in names ==> Distinct(labels[i..])
  {
    if IndicatorName(labels[i]) in names {
      var p :| 0 <= p < |names| && names[p] == IndicatorName(labels[i]);
      assert labels[i] == labels[i + 1 + p];
    } else {
      forall q | i < q < |labels|
        ensures labels[i] != labels[q]
      {
        assert names[q - i - 1] == IndicatorName(labels[q]);
      }
    }
  }

  /** The indicator names and columns of labels[i..] are those of labels[i]
      followed by those of labels[i + 1..]. */
  lemma IndicatorsCons(labels: seq<Label>, raw: seq<Crisp>, i: nat)
    requires i < |labels|
    ensures IndicatorNames(labels[i..]) == [IndicatorName(labels[i])] + IndicatorNames(labels[i + 1..])
    ensures IndicatorColumns(labels[i..], raw) == [IndicatorColumn(labels[i], raw)] + IndicatorColumns(labels[i + 1..], raw)
  {
  }

  /** Writes 1 into column fb of every row whose cells sum to 0. */
  method FillFallback(cells0: seq<seq<real>>, n: nat, fb: nat) returns (cells: seq<seq<real>>)
    requires Rectangular(cells0, n) && fb < |cells0|
    ensures cells == Fallback(cells0, n, fb)
  {
    var zero := seq(n, q requires 0 <= q < n => Sum(Row(cells0, q)) == 0.0);
    cells := cells0;
    var q := 0;
    while q < n
      invariant 0 <= q <= n && |cells| == |cells0| && Rectangular(cells, n)
      invariant forall j, p {:trigger cells[j][p]} :: 0 <= j < |cells| && 0 <= p < n ==>
        cells[j][p] == if j == fb && p < q && zero[p] then 1.0 else cells0[j][p]
    {
      ghost var prev := cells;
      if zero[q] {
        var column := cells[fb][q := 1.0];
        cells := cells[fb := column];
      }
      forall j, p | 0 <= j < |cells| && 0 <= p < n
        ensures cells[j][p] == if j == fb && p < q + 1 && zero[p] then 1.0 else cells0[j][p]
      {
        if j != fb {
          assert cells[j] == prev[j];
        } else if p != q {
          assert cells[j][p] == prev[j][p];
        } else if zero[q] {
          assert cells[j][p] == 1.0;
        } else {
          assert cells == prev;
        }
      }
      q := q + 1;
    }
    forall j | 0 <= j < |cells|
      ensures cells[j] == Fallback(cells0, n, fb)[j]
    {
      forall p | 0 <= p < n
        ensures cells[j][p] == Fallback(cells0, n, fb)[j][p]
      {
        assert zero[p] == (Sum(Row(cells0, p)) == 0.0);
      }
    }
  }

  /** `fuzzify`: evaluates the sets in order, clears labelled rows, inserts
      the indicator columns from the last label to the first, and fills in
      the fallback column. */
  method Fuzzify(m: MathLib, raw: seq<Crisp>, params: seq<seq<real>>, opts: Options, rule: FallbackRule)
    returns (result: Result<Table>)
    requires FuzzifyPre(raw, params, opts, rule)
    ensures result == FuzzifySpec(m, raw, params, opts, rule)
  {
    var crisp := CrispValues(raw, opts);
    var evaluated := EvaluateSets(m, params, crisp);
    if evaluated.Err? {
      return Err(evaluated.error);
    }
    var cells := ClearNaNRows(m, params, crisp, evaluated.value);
    var names := SetNames(|params|);
    if opts.addIndicator {
      var inserted := InsertIndicators(Labels(opts), raw, names, cells);
      if inserted.Err? {
        return Err(inserted.error);
      }
      names, cells := inserted.value.0, inserted.value.1;
    }
    assert cells == Assembled(m, raw, params, opts);
    assert names == (if opts.addIndicator then IndicatorNames(Labels(opts)) else []) + SetNames(|params|);
    cells := FillFallback(cells, |raw|, FallbackColumn(opts, |params|, rule));
    return Ok(Table(opts.namePrefix, names, cells));
  }

  /** `fuzzify` of fuzzifier.py: column names `FS<k>`, fallback to the last set. */
  method FuzzifyStandalone(m: MathLib, raw: seq<Crisp>, params: seq<seq<real>>, opts: Options)
    returns (result: Result<Table>)
    requires FuzzifyPre(raw, params, opts, LastSet)
    ensures result == FuzzifySpec(m, raw, params, opts.(namePrefix := "FS"), LastSet)
  {
    result := Fuzzify(m, raw, params, opts.(namePrefix := "FS"), LastSet);
  }

  /** `fuzzify` of fuzzification.py: a chosen prefix, fallback to the
      second-to-last set. */
  method FuzzifyPrefixed(m: MathLib, raw: seq<Crisp>, params: seq<seq<real>>, opts: Options)
    returns (result: Result<Table>)
    requires FuzzifyPre(raw, params, opts, SecondToLastSet)
    ensures result == FuzzifySpec(m, raw, params, opts, SecondToLastSet)
  {
    result := Fuzzify(m, raw, params, opts, SecondToLastSet);
  }

  // ---------------------------------------------------------------------
  // Errors

  lemma {:induction false} NoErrorAnywhere(params: seq<seq<real>>, from: nat)
    requires from <= |params| && FirstError(params, from) == None
    ensures forall k :: from <= k < |params| ==> SetError(params, k) == None
    decreases |params| - from
  {
    if from < |params| {
      NoErrorAnywhere(params, from + 1);
    }
  }

  /** The error raised is the one of the first set that raises. */
  lemma {:induction false} FirstErrorIsEarliest(params: seq<seq<real>>, from: nat, k: nat)
    requires from <= k < |params| && SetError(params, k).Some?
    requires forall j :: from <= j < k ==> SetError(params, j) == None
    ensures FirstError(params, from) == SetError(params, k)
    decreases k - from
  {
    if from < k {
      FirstErrorIsEarliest(params, from + 1, k);
    }
  }

  /** A tuple of neither 2 nor 4 numbers raises ValueError when no earlier
      set has raised. */
  lemma ArityError(m: MathLib, raw: seq<Crisp>, params: seq<seq<real>>, opts: Options, rule: FallbackRule, k: nat)
    requires FuzzifyPre(raw, params, opts, rule)
    requires k < |params| && |params[k]| != 2 && |params[k]| != 4
    requires forall j :: 0 <= j < k ==> SetError(params, j) == None
    ensures FuzzifySpec(m, raw, params, opts, rule) == Err(ValueError)
  {
    FirstErrorIsEarliest(params, 0, k);
  }

  /** Two equal labels make the second indicator insertion raise ValueError. */
  lemma DuplicateLabelError(m: MathLib, raw: seq<Crisp>, params: seq<seq<real>>, opts: Options, rule: FallbackRule, p: nat, q: nat)
    requires FuzzifyPre(raw, params, opts, rule) && FirstError(params, 0) == None
    requires opts.addIndicator && p < q < |Labels(opts)| && Labels(opts)[p] == Labels(opts)[q]
    ensures FuzzifySpec(m, raw, params, opts, rule) == Err(ValueError)
  {
  }

  // ---------------------------------------------------------------------
  // Shape of the table

  /** Indicator columns come first, in the order of the labels, and hold 1
      exactly on the values carrying their label; the set columns follow in
      order. */
  lemma ColumnLayout(m: MathLib, raw: seq<Crisp>, params: seq<seq<real>>, opts: Options, rule: FallbackRule)
    requires FuzzifyPre(raw, params, opts, rule)
    requires FuzzifySpec(m, raw, params, opts, rule).Ok?
    ensures var t := FuzzifySpec(m, raw, params, opts, rule).value;
      && |t.columns| == |t.cells| == IndicatorCount(opts) + |params|
      && (forall i :: 0 <= i < IndicatorCount(opts) ==> t.columns[i] == IndicatorName(Labels(opts)[i]))
      && (forall j :: IndicatorCount(opts) <= j < |t.columns| ==> t.columns[j] == SetName(j - IndicatorCount(opts) + 1))
      && (forall j :: 0 <= j < |t.cells| ==> |t.cells[j]| == |raw|)
  {
  }

  // ---------------------------------------------------------------------
  // Rows of the table

  /** The memberships of one number in every set of the concept. */
  function Memberships(m: MathLib, params: seq<seq<real>>, v: real): (ms: seq<real>)
    requires SigmasNonzero(params) && FirstError(params, 0) == None
    ensures |ms| == |params|
  {
    NoErrorAnywhere(params, 0);
    seq(|params|, k requires 0 <= k < |params| => SetMembership(m, params, k, v))
  }

  /** Before the fallback step, set column k holds the membership of the
      value, or 0 for a NaN or labelled value. */
  lemma AssembledMembership(m: MathLib, raw: seq<Crisp>, params: seq<seq<real>>, opts: Options, k: nat, r: nat)
    requires SigmasNonzero(params) && FirstError(params, 0) == None
    requires k < |params| && r < |raw|
    ensures var c := CrispValues(raw, opts)[r];
      Assembled(m, raw, params, opts)[IndicatorCount(opts) + k][r] ==
        if c.Some? then Memberships(m, params, c.value)[k] else 0.0
  {
    AssembledSet(m, raw, params, opts, k, r);
    RealCell(m, params, CrispValues(raw, opts), k, r);
  }

  /** Before the fallback step, indicator column j holds 1 exactly on the
      values carrying label j. */
  lemma AssembledIndicator(m: MathLib, raw: seq<Crisp>, params: seq<seq<real>>, opts: Options, j: nat, r: nat)
    requires SigmasNonzero(params) && FirstError(params, 0) == None
    requires j < IndicatorCount(opts) && r < |raw|
    ensures Assembled(m, raw, params, opts)[j][r] == if Matches(raw[r], Labels(opts)[j]) then 1.0 else 0.0
  {
    ConcatLeft(IndicatorColumns(Labels(opts), raw), RealCells(m, params, CrispValues(raw, opts)), j);
  }

  lemma AssembledSet(m: MathLib, raw: seq<Crisp>, params: seq<seq<real>>, opts: Options, k: nat, r: nat)
    requires SigmasNonzero(params) && FirstError(params, 0) == None
    requires k < |params| && r < |raw|
    ensures Assembled(m, raw, params, opts)[IndicatorCount(opts) + k][r] ==
      RealCells(m, params, CrispValues(raw, opts))[k][r]
  {
    var ind := if opts.addIndicator then IndicatorColumns(Labels(opts), raw) else [];
    ConcatRight(ind, RealCells(m, params, CrispValues(raw, opts)), k);
  }

  lemma ConcatLeft(ind: seq<seq<real>>, sets: seq<seq<real>>, j: nat)
    requires j < |ind|
    ensures (ind + sets)[j] == ind[j]
  {
  }

  lemma ConcatRight(ind: seq<seq<real>>, sets: seq<seq<real>>, k: nat)
    requires k < |sets|
    ensures (ind + sets)[|ind| + k] == sets[k]
  {
  }

  lemma RealCell(m: MathLib, params: seq<seq<real>>, crisp: seq<Option<real>>, k: nat, r: nat)
    requires SigmasNonzero(params) && FirstError(params, 0) == None
    requires k < |params| && r < |crisp|
    ensures RealCells(m, params, crisp)[k][r] ==
      if crisp[r].Some? then Memberships(m, params, crisp[r].value)[k] else 0.0
  {
  }

  /** Every cell before the fallback step is non-negative. */
  lemma AssembledNonNegative(m: MathLib, raw: seq<Crisp>, params: seq<seq<real>>, opts: Options, r: nat)
    requires m.Valid() && SigmasNonzero(params) && FirstError(params, 0) == None && r < |raw|
    ensures AllNonNegative(Row(Assembled(m, raw, params, opts), r))
  {
    var pre := Assembled(m, raw, params, opts);
    forall j | 0 <= j < |pre|
      ensures pre[j][r] >= 0.0
    {
      if j < IndicatorCount(opts) {
        AssembledIndicator(m, raw, params, opts, j, r);
      } else {
        AssembledMembership(m, raw, params, opts, j - IndicatorCount(opts), r);
      }
      NoErrorAnywhere(params, 0);
      if j >= IndicatorCount(opts) && CrispValues(raw, opts)[r].Some? {
        MembershipNonNegative(m, params, j - IndicatorCount(opts), CrispValues(raw, opts)[r].value);
      }
    }
  }

  /** A NaN or labelled value: 0 in every set column except the fallback
      column, its indicators in the indicator columns, and 1 in the fallback
      column exactly when no label matches it (a NaN without a NaN label). */
  lemma MaskedRow(m: MathLib, raw: seq<Crisp>, params: seq<seq<real>>, opts: Options, rule: FallbackRule, r: nat)
    requires FuzzifyPre(raw, params, opts, rule) && FuzzifySpec(m, raw, params, opts, rule).Ok?
    requires opts.addIndicator && r < |raw| && (raw[r].NaN? || MatchesAny(raw[r], Labels(opts)))
    ensures var t := FuzzifySpec(m, raw, params, opts, rule).value;
      var fb := FallbackColumn(opts, |params|, rule);
      && (forall j :: 0 <= j < |Labels(opts)| ==> t.cells[j][r] == if Matches(raw[r], Labels(opts)[j]) then 1.0 else 0.0)
      && (forall j :: |Labels(opts)| <= j < |t.cells| && j != fb ==> t.cells[j][r] == 0.0)
      && t.cells[fb][r] == if MatchesAny(raw[r], Labels(opts)) then 0.0 else 1.0
  {
    OkCells(m, raw, params, opts, rule);
    MaskedRowFallback(m, raw, params, opts, FallbackColumn(opts, |params|, rule), r);
  }

  /** MaskedRow, stated on the fallback step of the assembled table. */
  lemma MaskedRowFallback(m: MathLib, raw: seq<Crisp>, params: seq<seq<real>>, opts: Options, fb: nat, r: nat)
    requires SigmasNonzero(params) && FirstError(params, 0) == None
    requires opts.addIndicator && |Labels(opts)| <= fb < |Labels(opts)| + |params|
    requires r < |raw| && (raw[r].NaN? || MatchesAny(raw[r], Labels(opts)))
    ensures var out := Fallback(Assembled(m, raw, params, opts), |raw|, fb);
      && (forall j :: 0 <= j < |Labels(opts)| ==> out[j][r] == if Matches(raw[r], Labels(opts)[j]) then 1.0 else 0.0)
      && (forall j :: |Labels(opts)| <= j < |out| && j != fb ==> out[j][r] == 0.0)
      && out[fb][r] == if MatchesAny(raw[r], Labels(opts)) then 0.0 else 1.0
  {
    MaskedRowAssembled(m, raw, params, opts, r);
    FallbackOfLabelRow(Assembled(m, raw, params, opts), |raw|, fb, r, raw[r], Labels(opts));
  }

  /** The fallback step on a row that holds the indicators of `x` and 0
      everywhere else. */
  lemma FallbackOfLabelRow(cells: seq<seq<real>>, n: nat, fb: nat, r: nat, x: Crisp, labels: seq<Label>)
    requires Rectangular(cells, n) && r < n && |labels| <= fb < |cells|
    requires forall j :: 0 <= j < |cells| ==>
      cells[j][r] == if j < |labels| && Matches(x, labels[j]) then 1.0 else 0.0
    ensures var out := Fallback(cells, n, fb);
      && (forall j :: 0 <= j < |labels| ==> out[j][r] == if Matches(x, labels[j]) then 1.0 else 0.0)
      && (forall j :: |labels| <= j < |out| && j != fb ==> out[j][r] == 0.0)
      && out[fb][r] == if MatchesAny(x, labels) then 0.0 else 1.0
  {
    var row := Row(cells, r);
    assert forall j :: 0 <= j < |row| ==> row[j] == cells[j][r];
    SumNonNegative(row);
    if MatchesAny(x, labels) {
      var i :| 0 <= i < |labels| && Matches(x, labels[i]);
      assert row[i] == 1.0;
    }
    FallbackRow(cells, n, fb, r);
  }

  /** Before the fallback step, the row of a NaN or labelled value holds its
      indicators and 0 in every set column. */
  lemma MaskedRowAssembled(m: MathLib, raw: seq<Crisp>, params: seq<seq<real>>, opts: Options, r: nat)
    requires SigmasNonzero(params) && FirstError(params, 0) == None
    requires opts.addIndicator && r < |raw| && (raw[r].NaN? || MatchesAny(raw[r], Labels(opts)))
    ensures var row := Row(Assembled(m, raw, params, opts), r);
      forall j :: 0 <= j < |row| ==>
        row[j] == if j < |Labels(opts)| && Matches(raw[r], Labels(opts)[j]) then 1.0 else 0.0
  {
    var pre := Assembled(m, raw, params, opts);
    var row := Row(pre, r);
    forall j | 0 <= j < |row|
      ensures row[j] == if j < |Labels(opts)| && Matches(raw[r], Labels(opts)[j]) then 1.0 else 0.0
    {
      if j < IndicatorCount(opts) {
        AssembledIndicator(m, raw, params, opts, j, r);
      } else {
        AssembledMembership(m, raw, params, opts, j - IndicatorCount(opts), r);
      }
    }
  }

  /** The cells of a table that `fuzzify` returns. */
  lemma OkCells(m: MathLib, raw: seq<Crisp>, params: seq<seq<real>>, opts: Options, rule: FallbackRule)
    requires FuzzifyPre(raw, params, opts, rule) && FuzzifySpec(m, raw, params, opts, rule).Ok?
    ensures FirstError(params, 0) == None
    ensures 0 <= FallbackColumn(opts, |params|, rule) < IndicatorCount(opts) + |params|
    ensures FuzzifySpec(m, raw, params, opts, rule).value.cells ==
      Fallback(Assembled(m, raw, params, opts), |raw|, FallbackColumn(opts, |params|, rule))
  {
  }

  /** Row r after the fallback step: unchanged when its total is not 0,
      otherwise 1 in column fb. */
  lemma FallbackRow(cells: seq<seq<real>>, n: nat, fb: nat, r: nat)
    requires Rectangular(cells, n) && r < n
    ensures Sum(Row(cells, r)) != 0.0 ==> Row(Fallback(cells, n, fb), r) == Row(cells, r)
    ensures Sum(Row(cells, r)) == 0.0 ==> forall j :: 0 <= j < |cells| ==>
      Row(Fallback(cells, n, fb), r)[j] == if j == fb then 1.0 else Row(cells, r)[j]
  {
  }

  /** Before the fallback step, the row of a number without a label holds
      0 in the indicator columns and its memberships in the set columns. */
  lemma NumberRowAssembled(m: MathLib, raw: seq<Crisp>, params: seq<seq<real>>, opts: Options, r: nat)
    requires SigmasNonzero(params) && FirstError(params, 0) == None
    requires r < |raw| && raw[r].Num? && !(opts.addIndicator && MatchesAny(raw[r], Labels(opts)))
    ensures Row(Assembled(m, raw, params, opts), r) ==
      seq(IndicatorCount(opts), _ => 0.0) + Memberships(m, params, raw[r].v)
  {
    var pre := Assembled(m, raw, params, opts);
    var lead := IndicatorCount(opts);
    var expected := seq(lead, _ => 0.0) + Memberships(m, params, raw[r].v);
    assert CrispValues(raw, opts)[r] == Some(raw[r].v);
    forall j | 0 <= j < |pre|
      ensures Row(pre, r)[j] == expected[j]
    {
      if j < IndicatorCount(opts) {
        AssembledIndicator(m, raw, params, opts, j, r);
      } else {
        AssembledMembership(m, raw, params, opts, j - IndicatorCount(opts), r);
      }
      if j < lead {
        assert !Matches(raw[r], Labels(opts)[j]);
      }
    }
  }

  /** A number without a label: 0 in every indicator column, its membership
      in every set column except the fallback column, and in the fallback
      column 1 when all its memberships are 0, its own membership otherwise. */
  lemma NumberRow(m: MathLib, raw: seq<Crisp>, params: seq<seq<real>>, opts: Options, rule: FallbackRule, r: nat, j: nat)
    requires m.Valid()
    requires FuzzifyPre(raw, params, opts, rule) && FuzzifySpec(m, raw, params, opts, rule).Ok?
    requires r < |raw| && raw[r].Num? && !(opts.addIndicator && MatchesAny(raw[r], Labels(opts)))
    requires j < IndicatorCount(opts) + |params|
    ensures var cells := FuzzifySpec(m, raw, params, opts, rule).value.cells;
      var ms := Memberships(m, params, raw[r].v);
      var lead := IndicatorCount(opts);
      cells[j][r] ==
        if j < lead then 0.0
        else if j != FallbackColumn(opts, |params|, rule) then ms[j - lead]
        else if forall k :: 0 <= k < |ms| ==> ms[k] == 0.0 then 1.0
        else ms[j - lead]
  {
    OkCells(m, raw, params, opts, rule);
    NumberRowFallback(m, raw, params, opts, FallbackColumn(opts, |params|, rule), r, j);
  }

  /** NumberRow, stated on the fallback step of the assembled table. */
  lemma NumberRowFallback(m: MathLib, raw: seq<Crisp>, params: seq<seq<real>>, opts: Options, fb: nat, r: nat, j: nat)
    requires m.Valid() && SigmasNonzero(params) && FirstError(params, 0) == None
    requires IndicatorCount(opts) <= fb < IndicatorCount(opts) + |params|
    requires r < |raw| && raw[r].Num? && !(opts.addIndicator && MatchesAny(raw[r], Labels(opts)))
    requires j < IndicatorCount(opts) + |params|
    ensures var out := Fallback(Assembled(m, raw, params, opts), |raw|, fb);
      var ms := Memberships(m, params, raw[r].v);
      var lead := IndicatorCount(opts);
      out[j][r] ==
        if j < lead then 0.0
        else if j != fb then ms[j - lead]
        else if forall k :: 0 <= k < |ms| ==> ms[k] == 0.0 then 1.0
        else ms[j - lead]
  {
    NumberRowAssembled(m, raw, params, opts, r);
    MembershipsNonNegative(m, params, raw[r].v);
    FallbackOfRow(Assembled(m, raw, params, opts), |raw|, fb, r, IndicatorCount(opts), Memberships(m, params, raw[r].v), j);
  }

  /** No membership is negative. */
  lemma MembershipsNonNegative(m: MathLib, params: seq<seq<real>>, v: real)
    requires m.Valid() && SigmasNonzero(params) && FirstError(params, 0) == None
    ensures AllNonNegative(Memberships(m, params, v))
  {
    var ms := Memberships(m, params, v);
    forall k | 0 <= k < |ms|
      ensures ms[k] >= 0.0
    {
      NoErrorAnywhere(params, 0);
      MembershipNonNegative(m, params, k, v);
    }
  }

  /** The fallback step on a row made of `lead` zeros followed by
      non-negative memberships. */
  lemma FallbackOfRow(cells: seq<seq<real>>, n: nat, fb: nat, r: nat, lead: nat, ms: seq<real>, j: nat)
    requires Rectangular(cells, n) && r < n && lead <= fb < lead + |ms| && j < |cells|
    requires Row(cells, r) == seq(lead, _ => 0.0) + ms && AllNonNegative(ms)
    ensures Fallback(cells, n, fb)[j][r] ==
      if j < lead then 0.0
      else if j != fb then ms[j - lead]
      else if forall k :: 0 <= k < |ms| ==> ms[k] == 0.0 then 1.0
      else ms[j - lead]
  {
    var row := Row(cells, r);
    assert row[j] == cells[j][r];
    assert AllNonNegative(row);
    SumNonNegative(row);
    if Sum(row) == 0.0 {
      assert forall k :: 0 <= k < |ms| ==> ms[k] == row[lead + k];
    } else {
      var i :| 0 <= i < |row| && row[i] != 0.0;
      assert ms[i - lead] != 0.0;
    }
  }

  /** After the fallback step every row has a positive total, and a row that
      had none has total exactly 1. */
  lemma RowsPositive(m: MathLib, raw: seq<Crisp>, params: seq<seq<real>>, opts: Options, rule: FallbackRule, r: nat)
    requires m.Valid()
    requires FuzzifyPre(raw, params, opts, rule) && FuzzifySpec(m, raw, params, opts, rule).Ok?
    requires r < |raw|
    ensures var t := FuzzifySpec(m, raw, params, opts, rule).value;
      && Sum(Row(t.cells, r)) > 0.0
      && (Sum(Row(Assembled(m, raw, params, opts), r)) == 0.0 ==> Sum(Row(t.cells, r)) == 1.0)
  {
    OkCells(m, raw, params, opts, rule);
    var pre := Assembled(m, raw, params, opts);
    var fb := FallbackColumn(opts, |params|, rule);
    AssembledNonNegative(m, raw, params, opts, r);
    SumNonNegative(Row(pre, r));
    FallbackRow(pre, |raw|, fb, r);
    if Sum(Row(pre, r)) == 0.0 {
      SumSingle(Row(Fallback(pre, |raw|, fb), r), fb);
    }
  }

  /** With ordered trapezoids every cell of the table lies in [0, 1]. */
  lemma CellsInUnitInterval(m: MathLib, raw: seq<Crisp>, params: seq<seq<real>>, opts: Options, rule: FallbackRule, j: nat, r: nat)
    requires m.Valid()
    requires FuzzifyPre(raw, params, opts, rule) && FuzzifySpec(m, raw, params, opts, rule).Ok?
    requires forall k :: 0 <= k < |params| && |params[k]| == 4 ==> OrderedTrap(params[k])
    requires j < IndicatorCount(opts) + |params| && r < |raw|
    ensures 0.0 <= FuzzifySpec(m, raw, params, opts, rule).value.cells[j][r] <= 1.0
  {
    if j < IndicatorCount(opts) {
      AssembledIndicator(m, raw, params, opts, j, r);
    } else {
      AssembledMembership(m, raw, params, opts, j - IndicatorCount(opts), r);
    }
    NoErrorAnywhere(params, 0);
    var c := CrispValues(raw, opts)[r];
    if j >= IndicatorCount(opts) && c.Some? {
      MembershipInUnitInterval(m, params, j - IndicatorCount(opts), c.value);
    }
  }

  /** A trapezoid with four equal corners gives a column of zeros, unless it
      is the fallback column. */
  lemma DegenerateColumn(m: MathLib, raw: seq<Crisp>, params: seq<seq<real>>, opts: Options, rule: FallbackRule, k: nat, r: nat)
    requires FuzzifyPre(raw, params, opts, rule) && FuzzifySpec(m, raw, params, opts, rule).Ok?
    requires k < |params| && |params[k]| == 4 && params[k][0] == params[k][1] == params[k][2] == params[k][3]
    requires IndicatorCount(opts) + k != FallbackColumn(opts, |params|, rule) && r < |raw|
    ensures FuzzifySpec(m, raw, params, opts, rule).value.cells[IndicatorCount(opts) + k][r] == 0.0
  {
    AssembledMembership(m, raw, params, opts, k, r);
  }
}
