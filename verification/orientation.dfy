/** How the estimators see the crisp matrix: rows are the units a concept
    is estimated for (features, samples, or the whole matrix as a single
    row named "value"), and every labelled value is treated as missing. */
module Orientation {
  import opened Numerics

  /** A matrix cell; None is a missing value (NaN). */
  type Cell = Option<real>

  /** A data frame: every row has the same number of columns. */
  predicate Rectangular(m: seq<seq<Cell>>, width: nat)
  {
    forall i :: 0 <= i < |m| ==> |m[i]| == width
  }

  /** `mtx.replace(labelValues, np.nan)`: every value listed as a label
      becomes missing; everything else is kept. */
  function Mask(m: seq<seq<Cell>>, labels: seq<real>): (r: seq<seq<Cell>>)
    ensures |r| == |m| && forall i :: 0 <= i < |m| ==> |r[i]| == |m[i]|
    ensures forall i, j :: 0 <= i < |m| && 0 <= j < |m[i]| ==>
      (r[i][j].None? <==> m[i][j].None? || m[i][j].value in labels)
      && (r[i][j].Some? ==> r[i][j] == m[i][j])
  {
    seq(|m|, i requires 0 <= i < |m| =>
      seq(|m[i]|, j requires 0 <= j < |m[i]| =>
        if m[i][j].Some? && m[i][j].value in labels then None else m[i][j]))
  }

  function Column(m: seq<seq<Cell>>, width: nat, j: nat): (c: seq<Cell>)
    requires Rectangular(m, width) && j < width
    ensures |c| == |m|
  {
    seq(|m|, i requires 0 <= i < |m| => m[i][j])
  }

  /** `.T` */
  function Transpose(m: seq<seq<Cell>>, width: nat): (t: seq<seq<Cell>>)
    requires Rectangular(m, width)
    ensures |t| == width && Rectangular(t, |m|)
  {
    seq(width, j requires 0 <= j < width => Column(m, width, j))
  }

  /** `.melt()["value"]`: the columns one after the other. */
  function Melt(m: seq<seq<Cell>>, width: nat): (v: seq<Cell>)
    requires Rectangular(m, width)
  {
    MeltColumns(m, width, width)
  }

  /** The first k columns, one after the other. */
  function MeltColumns(m: seq<seq<Cell>>, width: nat, k: nat): (v: seq<Cell>)
    requires Rectangular(m, width) && k <= width
  {
    if k == 0 then [] else MeltColumns(m, width, k - 1) + Column(m, width, k - 1)
  }

  /** The rows a concept is estimated for: features, samples, or one row
      holding the whole matrix; any other choice raises ValueError. */
  function Orient(m: seq<seq<Cell>>, width: nat, labels: seq<real>, fuzzyBy: string): (r: Result<seq<seq<Cell>>>)
    requires Rectangular(m, width)
    ensures r.Ok? <==> fuzzyBy == "feature" || fuzzyBy == "sample" || fuzzyBy == "matrix"
  {
    var masked := Mask(m, labels);
    if fuzzyBy == "feature" then Ok(masked)
    else if fuzzyBy == "sample" then Ok(Transpose(masked, width))
    else if fuzzyBy == "matrix" then Ok([Melt(masked, width)])
    else Err(ValueError)
  }

  /** The number of entries the estimators return: one per row for
      "feature", one per column for "sample", and for "matrix" the single
      concept repeated for every row of the input. */
  function ResultCount(m: seq<seq<Cell>>, width: nat, fuzzyBy: string): nat
  {
    if fuzzyBy == "sample" then width else |m|
  }

  /** Where cell (i, j) of the masked matrix ends up: in row i for
      "feature", in row j for "sample", and at position j * |m| + i of the
      single row for "matrix" (column by column). */
  lemma {:induction false} OrientCells(m: seq<seq<Cell>>, width: nat, labels: seq<real>, fuzzyBy: string, i: nat, j: nat)
    requires Rectangular(m, width) && i < |m| && j < width
    requires Orient(m, width, labels, fuzzyBy).Ok?
    ensures var r := Orient(m, width, labels, fuzzyBy).value;
      var cell := Mask(m, labels)[i][j];
      && (fuzzyBy == "feature" ==> |r| == |m| && r[i][j] == cell)
      && (fuzzyBy == "sample" ==> |r| == width && |r[j]| == |m| && r[j][i] == cell)
      && (fuzzyBy == "matrix" ==> |r| == 1 && |r[0]| == width * |m| && j * |m| + i < width * |m| && r[0][j * |m| + i] == cell)
  {
    if fuzzyBy == "matrix" {
      MeltCell(Mask(m, labels), width, i, j);
    }
  }

  lemma {:induction false} MeltCell(m: seq<seq<Cell>>, width: nat, i: nat, j: nat)
    requires Rectangular(m, width) && i < |m| && j < width
    ensures |Melt(m, width)| == width * |m|
    ensures j * |m| + i < width * |m| && Melt(m, width)[j * |m| + i] == m[i][j]
  {
    MeltColumnsCell(m, width, width, i, j);
  }

  lemma {:induction false} MeltColumnsCell(m: seq<seq<Cell>>, width: nat, k: nat, i: nat, j: nat)
    requires Rectangular(m, width) && k <= width && i < |m| && j < k
    ensures |MeltColumns(m, width, k)| == k * |m|
    ensures j * |m| + i < k * |m| && MeltColumns(m, width, k)[j * |m| + i] == m[i][j]
  {
    var prefix := MeltColumns(m, width, k - 1);
    MeltLength(m, width, k - 1);
    assert k * |m| == (k - 1) * |m| + |m|;
    if j < k - 1 {
      MeltColumnsCell(m, width, k - 1, i, j);
    } else {
      assert j * |m| == |prefix|;
    }
  }

  lemma {:induction false} MeltLength(m: seq<seq<Cell>>, width: nat, k: nat)
    requires Rectangular(m, width) && k <= width
    ensures |MeltColumns(m, width, k)| == k * |m|
  {
    if k > 0 {
      MeltLength(m, width, k - 1);
      assert (k - 1) * |m| + |m| == k * |m|;
    }
  }

  /** `row.dropna()`: the values present, in order. */
  function Values(row: seq<Cell>): (v: seq<real>)
    ensures |v| <= |row|
  {
    if row == [] then []
    else Values(row[..|row| - 1]) + (if row[|row| - 1].Some? then [row[|row| - 1].value] else [])
  }

  /** The values kept are exactly the present cells. */
  lemma {:induction false} ValuesPresent(row: seq<Cell>)
    ensures forall x :: x in Values(row) <==> Some(x) in row
  {
    if row != [] {
      var init := row[..|row| - 1];
      ValuesPresent(init);
      assert row == init + [row[|row| - 1]];
    }
  }
}
