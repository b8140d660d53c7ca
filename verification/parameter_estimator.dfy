/** Concepts from given parameters (`estimatorByParameter`), "fix" mode:
    every row gets the same parameter table, except that the outer plateaus
    of the first and last trapezoid are stretched to cover the row's values. */
module ParameterEstimator {
  import opened Numerics
  import opened Orientation

  /** What the caller passes as `functionParams`. */
  datatype ParamsArg =
    | ListOfLists(lists: seq<seq<real>>)          // a Python list whose items are all lists
    | NdTable(rows: seq<seq<real>>, width: nat)   // a two-dimensional numpy array
    | NdVector(values: seq<real>)                 // a one-dimensional numpy array
    | OtherValue                                  // anything else

  /** The parameters as an array: a table with a second dimension, or a
      vector without one. */
  datatype ParamArray = Table(rows: seq<seq<real>>, width: nat) | Vector

  predicate HasWidth(rows: seq<seq<real>>, width: nat)
  {
    forall i :: 0 <= i < |rows| ==> |rows[i]| == width
  }

  /** A numpy table is rectangular by construction. */
  predicate WellFormedArg(arg: ParamsArg)
  {
    arg.NdTable? ==> HasWidth(arg.rows, arg.width)
  }

  /** `np.array(functionParams)` or `functionParams.copy()`: a list of
      lists becomes a table, except that lists of different lengths raise
      ValueError and the empty list becomes a vector; anything that is
      neither a list of lists nor a numpy array raises TypeError. */
  function ToParamArray(arg: ParamsArg): (r: Result<ParamArray>)
    requires WellFormedArg(arg)
    ensures r == Err(TypeError) <==> arg.OtherValue?
    ensures r.Ok? && r.value.Table? ==> HasWidth(r.value.rows, r.value.width)
    ensures arg.ListOfLists? ==>
      (r.Err? <==> exists i :: 0 <= i < |arg.lists| && |arg.lists[i]| != |arg.lists[0]|)
    ensures r.Ok? && r.value.Table? ==>
      (arg.NdTable? && r.value.rows == arg.rows) || (arg.ListOfLists? && r.value.rows == arg.lists)
  {
    match arg
    case ListOfLists(lists) =>
      if lists == [] then Ok(Vector)
      else if exists i :: 0 <= i < |lists| && |lists[i]| != |lists[0]| then Err(ValueError)
      else Ok(Table(lists, |lists[0]|))
    case NdTable(rows, width) => Ok(Table(rows, width))
    case NdVector(_) => Ok(Vector)
    case OtherValue => Err(TypeError)
  }

  /** The number of parameters per set: 4 for trapezoids, 2 for Gaussians. */
  function Arity(functionType: string): nat
  {
    if functionType == "trapezoidal" then 4 else 2
  }

  // ---------------------------------------------------------------------
  // Stretching the outer plateaus

  /** `min(paramsMin, floor(row.min()) - 1)`: a row without values has a
      NaN minimum, and Python's `min` then keeps its first argument. */
  function LowerBound(paramsMin: real, values: seq<real>): (lo: real)
    ensures lo <= paramsMin
    ensures forall i :: 0 <= i < |values| ==> lo < values[i]
    ensures lo == paramsMin || (values != [] && lo == (Floor(MinOf(values)) - 1) as real)
    ensures values != [] ==> lo <= (Floor(MinOf(values)) - 1) as real
    ensures values == [] ==> lo == paramsMin
  {
    if values == [] then paramsMin else Min(paramsMin, (Floor(MinOf(values)) - 1) as real)
  }

  /** `max(paramsMax, ceil(row.max()) + 1)`, likewise. */
  function UpperBound(paramsMax: real, values: seq<real>): (hi: real)
    ensures hi >= paramsMax
    ensures forall i :: 0 <= i < |values| ==> hi > values[i]
    ensures hi == paramsMax || (values != [] && hi == (Ceil(MaxOf(values)) + 1) as real)
    ensures values != [] ==> hi >= (Ceil(MaxOf(values)) + 1) as real
    ensures values == [] ==> hi == paramsMax
  {
    if values == [] then paramsMax else Max(paramsMax, (Ceil(MaxOf(values)) + 1) as real)
  }

  /** The concept a row with the given values receives. */
  function ClampedParams(p: seq<seq<real>>, values: seq<real>): (r: seq<seq<real>>)
    requires |p| >= 1 && HasWidth(p, 4)
  {
    var lo, hi := LowerBound(p[0][2], values), UpperBound(p[|p| - 1][1], values);
    seq(|p|, i requires 0 <= i < |p| =>
      seq(4, j requires 0 <= j < 4 =>
        if i == 0 && j < 2 then lo
        else if i == |p| - 1 && j >= 2 then hi
        else p[i][j]))
  }

  /** The stretched concept: the first set's a and b sit at or below its c
      and strictly below every value of the row, the last set's c and d at
      or above its b and strictly above every value; every other parameter
      is the given one. */
  lemma ClampedShape(p: seq<seq<real>>, values: seq<real>)
    requires |p| >= 1 && HasWidth(p, 4)
    ensures var r, last := ClampedParams(p, values), |p| - 1;
      && |r| == |p| && HasWidth(r, 4)
      && r[0][0] == r[0][1] && r[last][2] == r[last][3]
      && r[0][0] <= p[0][2] && r[last][3] >= p[last][1]
      && (forall v :: v in values ==> r[0][0] < v < r[last][3])
      && (forall i, j :: 0 <= i < |p| && 0 <= j < 4 && !(i == 0 && j < 2) && !(i == last && j >= 2) ==> r[i][j] == p[i][j])
  {
  }

  /** Ordered trapezoids stay ordered once stretched, as long as there are
      two or more of them; a single set is ordered too when the row has a
      value. */
  lemma ClampedOrdered(p: seq<seq<real>>, values: seq<real>)
    requires |p| >= 1 && HasWidth(p, 4)
    requires forall i :: 0 <= i < |p| ==> p[i][0] <= p[i][1] <= p[i][2] <= p[i][3]
    requires |p| >= 2 || values != []
    ensures var r := ClampedParams(p, values);
      forall i :: 0 <= i < |r| ==> r[i][0] <= r[i][1] <= r[i][2] <= r[i][3]
  {
    var r := ClampedParams(p, values);
    if |p| == 1 {
      assert values[0] in values;
      assert r[0][1] < values[0] < r[0][2];
    }
  }

  /** A single set and a row without values: the plateau ends swap and the
      trapezoid comes out reversed. */
  lemma SingleSetEmptyRow()
    ensures ClampedParams([[0.0, 1.0, 2.0, 3.0]], []) == [[2.0, 2.0, 1.0, 1.0]]
  {
    var r := ClampedParams([[0.0, 1.0, 2.0, 3.0]], []);
    assert r[0] == [2.0, 2.0, 1.0, 1.0];
  }

  /** The table as nested lists (`params.tolist()`). */
  function ToLists(a: array2<real>): (r: seq<seq<real>>)
    reads a
    ensures |r| == a.Length0 && HasWidth(r, a.Length1)
    ensures forall i, j :: 0 <= i < a.Length0 && 0 <= j < a.Length1 ==> r[i][j] == a[i, j]
  {
    seq(a.Length0, i requires 0 <= i < a.Length0 reads a =>
      seq(a.Length1, j requires 0 <= j < a.Length1 reads a => a[i, j]))
  }

  /** The table holds the given parameters everywhere but on the outer
      plateaus of the first and last set. */
  predicate AgreesOffPlateaus(params: array2<real>, p: seq<seq<real>>)
    requires |p| >= 1 && HasWidth(p, 4)
    reads params
  {
    && params.Length0 == |p| && params.Length1 == 4
    && forall i, j :: 0 <= i < |p| && 0 <= j < 4 && !(i == 0 && j < 2) && !(i == |p| - 1 && j >= 2) ==>
      params[i, j] == p[i][j]
  }

  /** The "fix" loop for trapezoids: one shared table, whose four outer
      plateau entries are overwritten for every row before a copy is taken. */
  method FixTrapezoids(p: seq<seq<real>>, rows: seq<seq<Cell>>) returns (allFC: seq<seq<seq<real>>>)
    requires |p| >= 1 && HasWidth(p, 4)
    ensures |allFC| == |rows|
    ensures forall f :: 0 <= f < |rows| ==> allFC[f] == ClampedParams(p, Values(rows[f]))
  {
    var params := new real[|p|, 4]((i, j) requires 0 <= i < |p| && 0 <= j < 4 => p[i][j]);
    var last := |p| - 1;
    var paramsMin, paramsMax := params[0, 2], params[last, 1];
    allFC := [];
    for f := 0 to |rows|
      invariant |allFC| == f
      invariant forall g :: 0 <= g < f ==> allFC[g] == ClampedParams(p, Values(rows[g]))
      invariant AgreesOffPlateaus(params, p)
    {
      var snapshot := ClampRow(params, p, paramsMin, paramsMax, Values(rows[f]));
      allFC := allFC + [snapshot];
    }
  }

  /** One pass of the loop: the plateau writes for a row with the given
      values, then the copy of the table. */
  method ClampRow(params: array2<real>, p: seq<seq<real>>, paramsMin: real, paramsMax: real, values: seq<real>)
    returns (snapshot: seq<seq<real>>)
    requires |p| >= 1 && HasWidth(p, 4) && AgreesOffPlateaus(params, p)
    requires paramsMin == p[0][2] && paramsMax == p[|p| - 1][1]
    modifies params
    ensures AgreesOffPlateaus(params, p)
    ensures snapshot == ClampedParams(p, values)
  {
    var minimum, maximum := LowerBound(paramsMin, values), UpperBound(paramsMax, values);
    SetPlateaus(params, p, minimum, maximum);
    snapshot := ToLists(params);
    SnapshotIsClamped(params, p, values);
  }

  /** `params[0, 0] = minimum; params[0, 1] = minimum; params[-1, 2] =
      maximum; params[-1, 3] = maximum` */
  method SetPlateaus(params: array2<real>, p: seq<seq<real>>, minimum: real, maximum: real)
    requires |p| >= 1 && HasWidth(p, 4) && AgreesOffPlateaus(params, p)
    modifies params
    ensures AgreesOffPlateaus(params, p)
    ensures params[0, 0] == params[0, 1] == minimum
    ensures params[|p| - 1, 2] == params[|p| - 1, 3] == maximum
  {
    var last := |p| - 1;
    params[0, 0] := minimum;
    params[0, 1] := minimum;
    params[last, 2] := maximum;
    params[last, 3] := maximum;
  }

  /** After the four plateau writes the table is the stretched concept. */
  lemma SnapshotIsClamped(params: array2<real>, p: seq<seq<real>>, values: seq<real>)
    requires |p| >= 1 && HasWidth(p, 4) && AgreesOffPlateaus(params, p)
    requires params[0, 0] == params[0, 1] == LowerBound(p[0][2], values)
    requires params[|p| - 1, 2] == params[|p| - 1, 3] == UpperBound(p[|p| - 1][1], values)
    ensures ToLists(params) == ClampedParams(p, values)
  {
    var snapshot, c := ToLists(params), ClampedParams(p, values);
    forall i | 0 <= i < |p|
      ensures snapshot[i] == c[i]
    {
      assert forall j :: 0 <= j < 4 ==> snapshot[i][j] == c[i][j];
    }
  }

  // ---------------------------------------------------------------------
  // estimatorByParameter

  predicate KnownFuzzyBy(fuzzyBy: string)
  {
    fuzzyBy == "feature" || fuzzyBy == "sample" || fuzzyBy == "matrix"
  }

  predicate KnownFunctionType(functionType: string)
  {
    functionType == "trapezoidal" || functionType == "gauss"
  }

  /** `estimatorByParameter` with `paramBy` other than "percentile".  The
      checks come in the program's order: the parameter argument, the
      orientation, the function type, the second dimension of the table
      and its arity, `paramBy`, and for trapezoids the first row.  With
      "matrix", every row of the input receives the single concept. */
  method EstimatorByParameter(m: seq<seq<Cell>>, width: nat, labels: seq<real>, functionType: string,
                              arg: ParamsArg, fuzzyBy: string, paramBy: string)
    returns (r: Result<seq<seq<seq<real>>>>)
    requires Rectangular(m, width) && WellFormedArg(arg) && paramBy != "percentile"
    ensures ToParamArray(arg).Err? ==> r == Err(ToParamArray(arg).error)
    ensures ToParamArray(arg).Ok? && !KnownFuzzyBy(fuzzyBy) ==> r == Err(ValueError)
    ensures ToParamArray(arg).Ok? && KnownFuzzyBy(fuzzyBy) ==> (
      var a := ToParamArray(arg).value;
      && (!KnownFunctionType(functionType) ==> r == Err(ValueError))
      && (KnownFunctionType(functionType) && a.Vector? ==> r == Err(IndexError))
      && (KnownFunctionType(functionType) && a.Table? && a.width != Arity(functionType) ==> r == Err(ValueError))
      && (KnownFunctionType(functionType) && a.Table? && a.width == Arity(functionType) && paramBy != "fix" ==> r == Err(ValueError))
      && (functionType == "trapezoidal" && a.Table? && a.width == 4 && paramBy == "fix" && a.rows == [] ==> r == Err(IndexError)))
    ensures r.Ok? ==> (ToParamArray(arg).Ok? && KnownFuzzyBy(fuzzyBy) && paramBy == "fix"
      && KnownFunctionType(functionType) && ToParamArray(arg).value.Table?
      && ToParamArray(arg).value.width == Arity(functionType))
    ensures (ToParamArray(arg).Ok? && KnownFuzzyBy(fuzzyBy) && KnownFunctionType(functionType)
      && ToParamArray(arg).value.Table? && ToParamArray(arg).value.width == Arity(functionType)
      && paramBy == "fix" && (functionType == "gauss" || ToParamArray(arg).value.rows != [])) ==> r.Ok?
    ensures r.Ok? ==> (
      var p, rows := ToParamArray(arg).value.rows, Orient(m, width, labels, fuzzyBy).value;
      && |r.value| == ResultCount(m, width, fuzzyBy)
      && (functionType == "gauss" ==> forall f :: 0 <= f < |r.value| ==> r.value[f] == p)
      && (functionType == "trapezoidal" ==> |p| >= 1 && forall f :: 0 <= f < |r.value| ==>
            r.value[f] == ClampedParams(p, Values(rows[if fuzzyBy == "matrix" then 0 else f]))))
  {
    var converted := ToParamArray(arg);
    if converted.Err? {
      return Err(converted.error);
    }
    var oriented := Orient(m, width, labels, fuzzyBy);
    if oriented.Err? {
      return Err(ValueError);
    }
    var a, rows := converted.value, oriented.value;
    if !KnownFunctionType(functionType) {
      return Err(ValueError);
    }
    if a.Vector? {
      return Err(IndexError);
    }
    if a.width != Arity(functionType) || paramBy != "fix" {
      return Err(ValueError);
    }
    var allFC: seq<seq<seq<real>>>;
    if functionType == "trapezoidal" {
      if a.rows == [] {
        return Err(IndexError);
      }
      allFC := FixTrapezoids(a.rows, rows);
    } else {
      allFC := seq(|rows|, _ => a.rows);
    }
    if fuzzyBy == "matrix" {
      allFC := seq(|m|, _ => allFC[0]);
    }
    return Ok(allFC);
  }
}
