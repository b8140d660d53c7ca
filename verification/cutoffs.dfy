/** Cutoffs between neighbouring fuzzy sets.

    A cutoff row of a feature is C0 < C1 <= ... <= C(K-1) < CK: the outer
    two frame the value range, the inner ones are read off an evenly spaced
    grid at the cumulative proportions of the K sets.  Equal neighbouring
    cutoffs ("flat runs") are then spread out evenly. */
module Cutoffs {
  import opened Numerics

  // ---------------------------------------------------------------------
  // Flat runs

  /** The positions i >= from whose entry equals the one before it, in
      increasing order (`np.where(cVal.diff() == 0)`). */
  function ZeroDiffs(c: seq<real>, from: nat): (idx: seq<nat>)
    requires 1 <= from
    decreases |c| - from
    ensures forall t :: 0 <= t < |idx| ==> from <= idx[t] < |c| && c[idx[t]] == c[idx[t] - 1]
    ensures forall t, u :: 0 <= t < u < |idx| ==> idx[t] < idx[u]
  {
    if from >= |c| then []
    else (if c[from] == c[from - 1] then [from] else []) + ZeroDiffs(c, from + 1)
  }

  /** Neither the first two nor the last two entries are equal, so every
      flat run has a neighbour on both sides. */
  predicate EndsDistinct(c: seq<real>)
  {
    |c| >= 2 ==> c[0] != c[1] && c[|c| - 2] != c[|c| - 1]
  }

  /** The positions the repair overwrites: the entry before the first
      zero difference, then every zero difference. */
  function RepairPositions(c: seq<real>): (pos: seq<nat>)
    requires EndsDistinct(c)
    ensures pos != [] ==> 1 <= pos[0] && pos[|pos| - 1] + 1 < |c|
    ensures forall t :: 0 <= t < |pos| ==> pos[t] < |c|
    ensures forall t, u :: 0 <= t < u < |pos| ==> pos[t] < pos[u]
  {
    var idx := ZeroDiffs(c, 1);
    if idx == [] then []
    else
      assert idx[0] >= 2;
      assert idx[|idx| - 1] < |c| - 1;
      [idx[0] - 1] + idx
  }

  /** Writes vals[t] at position pos[t], one position after the other. */
  function Assign(c: seq<real>, pos: seq<nat>, vals: seq<real>): (d: seq<real>)
    requires |vals| == |pos| && forall t :: 0 <= t < |pos| ==> pos[t] < |c|
    ensures |d| == |c|
  {
    if pos == [] then c
    else Assign(c, pos[..|pos| - 1], vals[..|vals| - 1])[pos[|pos| - 1] := vals[|vals| - 1]]
  }

  lemma {:induction false} AssignEffect(c: seq<real>, pos: seq<nat>, vals: seq<real>)
    requires |vals| == |pos| && forall t :: 0 <= t < |pos| ==> pos[t] < |c|
    requires forall t, u :: 0 <= t < u < |pos| ==> pos[t] < pos[u]
    ensures forall t :: 0 <= t < |pos| ==> Assign(c, pos, vals)[pos[t]] == vals[t]
    ensures forall j :: 0 <= j < |c| && j !in pos ==> Assign(c, pos, vals)[j] == c[j]
  {
    if pos != [] {
      var n := |pos| - 1;
      AssignEffect(c, pos[..n], vals[..n]);
      forall j | 0 <= j < |c| && j !in pos
        ensures Assign(c, pos, vals)[j] == c[j]
      {
        assert j !in pos[..n];
      }
    }
  }

  /** The values the repair writes: the inner points of an evenly spaced
      line from the entry just before the positions to the entry just after. */
  function RepairValues(c: seq<real>, pos: seq<nat>): (vals: seq<real>)
    requires pos != [] && 1 <= pos[0] < |c| && pos[|pos| - 1] + 1 < |c|
    ensures |vals| == |pos|
  {
    var lo, hi := c[pos[0] - 1], c[pos[|pos| - 1] + 1];
    seq(|pos|, t requires 0 <= t < |pos| => Linspace(lo, hi, |pos| + 2, t + 1))
  }

  /** One row of `fixOverlapCutoff`, as the program does it. */
  function RepairRow(c: seq<real>): (d: seq<real>)
    requires EndsDistinct(c)
    ensures |d| == |c|
  {
    var pos := RepairPositions(c);
    if pos == [] then c else Assign(c, pos, RepairValues(c, pos))
  }

  /** `fixOverlapCutoff`: repairs the rows of a cutoff table one by one,
      writing the spread-out values into a copy. */
  method FixOverlapCutoff(cutoff: seq<seq<real>>) returns (fixed: seq<seq<real>>)
    requires forall f :: 0 <= f < |cutoff| ==> EndsDistinct(cutoff[f])
    ensures |fixed| == |cutoff|
    ensures forall f :: 0 <= f < |cutoff| ==> fixed[f] == RepairRow(cutoff[f])
  {
    fixed := cutoff;
    for f := 0 to |cutoff|
      invariant |fixed| == |cutoff|
      invariant forall g :: 0 <= g < f ==> fixed[g] == RepairRow(cutoff[g])
      invariant forall g :: f <= g < |cutoff| ==> fixed[g] == cutoff[g]
    {
      var c := fixed[f];
      var pos := RepairPositions(c);
      if |pos| > 0 {
        var row := AssignAll(c, pos, RepairValues(c, pos));
        fixed := fixed[f := row];
      }
    }
  }

  /** The masked assignment `newCutoff.loc[feature, columns[pos]] = vals`,
      one position after the other. */
  method AssignAll(c: seq<real>, pos: seq<nat>, vals: seq<real>) returns (row: seq<real>)
    requires |vals| == |pos| && forall t :: 0 <= t < |pos| ==> pos[t] < |c|
    ensures row == Assign(c, pos, vals)
  {
    row := c;
    for t := 0 to |pos|
      invariant row == Assign(c, pos[..t], vals[..t])
    {
      assert pos[..t + 1][..t] == pos[..t] && vals[..t + 1][..t] == vals[..t];
      row := row[pos[t] := vals[t]];
    }
    assert pos[..|pos|] == pos && vals[..|vals|] == vals;
  }

  /** The repair spreads the overwritten entries evenly between the
      entries just outside them. */
  lemma {:induction false} RepairRowAt(c: seq<real>, t: nat)
    requires EndsDistinct(c) && t < |RepairPositions(c)|
    ensures var pos := RepairPositions(c);
      RepairRow(c)[pos[t]] == Linspace(c[pos[0] - 1], c[pos[|pos| - 1] + 1], |pos| + 2, t + 1)
  {
    var pos := RepairPositions(c);
    AssignEffect(c, pos, RepairValues(c, pos));
  }

  /** The repair keeps every entry it does not overwrite. */
  lemma {:induction false} RepairRowOff(c: seq<real>, j: nat)
    requires EndsDistinct(c) && j < |c| && j !in RepairPositions(c)
    ensures RepairRow(c)[j] == c[j]
  {
    var pos := RepairPositions(c);
    if pos != [] {
      AssignEffect(c, pos, RepairValues(c, pos));
    }
  }

  // ---------------------------------------------------------------------
  // Repair run by run

  /** The last position of the run of entries equal to c[s] that starts at s
      and has reached j. */
  function RunEnd(c: seq<real>, s: nat, j: nat): (e: nat)
    requires s <= j < |c| && forall k :: s <= k <= j ==> c[k] == c[s]
    decreases |c| - j
    ensures j <= e < |c| && forall k :: s <= k <= e ==> c[k] == c[s]
    ensures e + 1 == |c| || c[e + 1] != c[s]
  {
    if j + 1 < |c| && c[j + 1] == c[s] then RunEnd(c, s, j + 1) else j
  }

  /** Overwrites positions s..e with the inner points of an evenly spaced
      line from c[s - 1] to c[e + 1]. */
  function Spread(c: seq<real>, s: nat, e: nat): (d: seq<real>)
    requires 1 <= s <= e && e + 1 < |c|
    ensures |d| == |c|
  {
    seq(|c|, j requires 0 <= j < |c| =>
      if s <= j <= e then Linspace(c[s - 1], c[e + 1], e - s + 3, j - s + 1) else c[j])
  }

  /** Repairs every flat run from position i on, each one separately and
      from the left, so that a run's left neighbour is already repaired.
      A run that reaches the last entry has no right neighbour and is left
      as it is. */
  function RepairFrom(c: seq<real>, i: nat): (d: seq<real>)
    requires 1 <= i
    decreases |c| - i
    ensures |d| == |c|
  {
    if i >= |c| then c
    else if c[i] != c[i - 1] || i < 2 then RepairFrom(c, i + 1)
    else
      var e := RunEnd(c, i - 1, i);
      if e + 1 >= |c| then c
      else RepairFrom(Spread(c, i - 1, e), e + 1)
  }

  /** The corrected `fixOverlapCutoff` row repair. */
  function RepairRuns(c: seq<real>): (d: seq<real>)
    ensures |d| == |c|
  {
    RepairFrom(c, 1)
  }

  predicate NonDecreasing(c: seq<real>)
  {
    forall j :: 0 < j < |c| ==> c[j - 1] <= c[j]
  }

  predicate StrictlyIncreasing(c: seq<real>)
  {
    forall j :: 0 < j < |c| ==> c[j - 1] < c[j]
  }

  /** The state of the left-to-right repair at position i: the part before
      i is strictly increasing, the rest is still the original row, and an
      entry equal to its successor is original too. */
  ghost predicate RepairInvariant(c: seq<real>, d: seq<real>, i: nat)
  {
    && |d| == |c| && 1 <= i <= |c|
    && (forall j :: 0 < j < i ==> d[j - 1] < d[j])
    && (forall j :: i <= j < |c| ==> d[j] == c[j])
    && (i < |c| ==> d[i - 1] <= d[i])
    && (i < |c| && d[i - 1] == d[i] ==> d[i - 1] == c[i - 1])
    && (i == 1 && |c| >= 2 ==> d[0] < d[1])
  }

  lemma {:induction false} SpreadKeepsInvariant(c: seq<real>, d: seq<real>, i: nat, e: nat)
    requires NonDecreasing(c) && EndsDistinct(c) && |c| >= 2
    requires RepairInvariant(c, d, i) && 2 <= i < |c| && d[i] == d[i - 1]
    requires i <= e && e + 1 < |c| && (forall k :: i - 1 <= k <= e ==> d[k] == d[i - 1]) && d[e + 1] != d[i - 1]
    ensures RepairInvariant(c, Spread(d, i - 1, e), e + 1)
  {
    var s := i - 1;
    var n := Spread(d, s, e);
    var lo, hi := d[s - 1], d[e + 1];
    assert lo < d[s];
    assert d[e] <= d[e + 1] by {
      assert d[e] == c[e] && d[e + 1] == c[e + 1];
    }
    assert d[s] < hi;
    var count := e - s + 3;
    forall j | 0 < j < e + 1
      ensures n[j - 1] < n[j]
    {
      if j - 1 >= s {
        LinspaceIncreasing(lo, hi, count, j - 1 - s + 1, j - s + 1);
      } else if j == s {
        LinspaceIncreasing(lo, hi, count, 0, 1);
        LinspaceBetween(lo, hi, count, 0);
      }
    }
    LinspaceIncreasing(lo, hi, count, e - s + 1, e - s + 2);
    LinspaceBetween(lo, hi, count, e - s + 2);
  }

  /** A run that starts after the first entry of a row whose last two
      entries differ ends before the last entry. */
  lemma {:induction false} RunEndsInside(c: seq<real>, d: seq<real>, i: nat)
    requires EndsDistinct(c) && |c| >= 2
    requires RepairInvariant(c, d, i) && 2 <= i < |c| && d[i] == d[i - 1]
    ensures RunEnd(d, i - 1, i) + 1 < |d|
  {
  }

  lemma {:induction false} RepairFromIncreasing(c: seq<real>, d: seq<real>, i: nat)
    requires NonDecreasing(c) && EndsDistinct(c) && |c| >= 2
    requires RepairInvariant(c, d, i)
    ensures StrictlyIncreasing(RepairFrom(d, i))
    decreases |c| - i, 1
  {
    if i >= |c| {
      FinishedIncreasing(c, d, i);
    } else if d[i] != d[i - 1] || i < 2 {
      SkipIncreasing(c, d, i);
    } else {
      RunIncreasing(c, d, i);
    }
  }

  /** RepairFromIncreasing when position i starts no flat run. */
  lemma {:induction false} SkipIncreasing(c: seq<real>, d: seq<real>, i: nat)
    requires NonDecreasing(c) && EndsDistinct(c) && |c| >= 2
    requires RepairInvariant(c, d, i) && i < |c| && (d[i] != d[i - 1] || i < 2)
    ensures StrictlyIncreasing(RepairFrom(d, i))
    decreases |c| - i, 0
  {
    StepKeepsInvariant(c, d, i);
    RepairFromIncreasing(c, d, i + 1);
    SameIncreasing(RepairFrom(d, i), RepairFrom(d, i + 1));
  }

  /** RepairFromIncreasing when a flat run ends at position i. */
  lemma {:induction false} RunIncreasing(c: seq<real>, d: seq<real>, i: nat)
    requires NonDecreasing(c) && EndsDistinct(c) && |c| >= 2
    requires RepairInvariant(c, d, i) && 2 <= i < |c| && d[i] == d[i - 1]
    ensures StrictlyIncreasing(RepairFrom(d, i))
    decreases |c| - i, 0
  {
    var e := RunEnd(d, i - 1, i);
    RunEndsInside(c, d, i);
    RepairFromRun(d, i, e);
    SpreadThenRepair(c, d, i, e);
    SameIncreasing(RepairFrom(d, i), RepairFrom(Spread(d, i - 1, e), e + 1));
  }

  /** The run i - 1..e is spread, and the repair goes on after it. */
  lemma {:induction false} SpreadThenRepair(c: seq<real>, d: seq<real>, i: nat, e: nat)
    requires NonDecreasing(c) && EndsDistinct(c) && |c| >= 2
    requires RepairInvariant(c, d, i) && 2 <= i < |c| && d[i] == d[i - 1]
    requires i <= e && e + 1 < |c| && (forall k :: i - 1 <= k <= e ==> d[k] == d[i - 1]) && d[e + 1] != d[i - 1]
    ensures StrictlyIncreasing(RepairFrom(Spread(d, i - 1, e), e + 1))
    decreases |c| - e - 1, 2
  {
    var n := Spread(d, i - 1, e);
    SpreadKeepsInvariant(c, d, i, e);
    RepairFromIncreasing(c, n, e + 1);
  }

  /** At a flat run that has a right neighbour, the repair spreads the run
      and carries on after it. */
  lemma RepairFromRun(d: seq<real>, i: nat, e: nat)
    requires 2 <= i < |d| && d[i] == d[i - 1] && e == RunEnd(d, i - 1, i) && e + 1 < |d|
    ensures RepairFrom(d, i) == RepairFrom(Spread(d, i - 1, e), e + 1)
  {
  }

  lemma FinishedIncreasing(c: seq<real>, d: seq<real>, i: nat)
    requires RepairInvariant(c, d, i) && i >= |c|
    ensures StrictlyIncreasing(RepairFrom(d, i))
  {
  }

  lemma SameIncreasing(a: seq<real>, b: seq<real>)
    requires a == b && StrictlyIncreasing(b)
    ensures StrictlyIncreasing(a)
  {
  }

  /** Moving past an entry that differs from its predecessor (or past the
      second entry) keeps the repair state. */
  lemma StepKeepsInvariant(c: seq<real>, d: seq<real>, i: nat)
    requires NonDecreasing(c) && EndsDistinct(c) && |c| >= 2
    requires RepairInvariant(c, d, i) && i < |c| && (d[i] != d[i - 1] || i < 2)
    ensures RepairInvariant(c, d, i + 1)
  {
  }

  /** Run by run, the repair turns a non-decreasing row whose first two and
      last two entries differ into a strictly increasing one. */
  lemma {:induction false} RepairRunsIncreasing(c: seq<real>)
    requires NonDecreasing(c) && EndsDistinct(c)
    ensures StrictlyIncreasing(RepairRuns(c))
  {
    if |c| >= 2 {
      RepairFromIncreasing(c, c, 1);
    }
  }

  lemma {:induction false} RepairFromKeepsEnds(c: seq<real>, i: nat)
    requires 1 <= i && |c| >= 1
    ensures RepairFrom(c, i)[0] == c[0] && RepairFrom(c, i)[|c| - 1] == c[|c| - 1]
    decreases |c| - i
  {
    if i >= |c| {
    } else if c[i] != c[i - 1] || i < 2 {
      RepairFromKeepsEnds(c, i + 1);
    } else {
      var e := RunEnd(c, i - 1, i);
      if e + 1 < |c| {
        RepairFromKeepsEnds(Spread(c, i - 1, e), e + 1);
      }
    }
  }

  /** Both repairs keep the two outer cutoffs. */
  lemma {:induction false} RepairKeepsEnds(c: seq<real>)
    requires EndsDistinct(c) && |c| >= 2
    ensures RepairRuns(c)[0] == c[0] && RepairRuns(c)[|c| - 1] == c[|c| - 1]
    ensures RepairRow(c)[0] == c[0] && RepairRow(c)[|c| - 1] == c[|c| - 1]
  {
    RepairFromKeepsEnds(c, 1);
    EndsNotRepaired(c);
    RepairRowOff(c, 0);
    RepairRowOff(c, |c| - 1);
  }

  lemma EndsNotRepaired(c: seq<real>)
    requires EndsDistinct(c) && |c| >= 2
    ensures 0 !in RepairPositions(c) && |c| - 1 !in RepairPositions(c)
  {
    var pos := RepairPositions(c);
    if pos != [] {
      assert forall t :: 0 <= t < |pos| ==> pos[0] <= pos[t] <= pos[|pos| - 1] by {
        forall t | 0 <= t < |pos|
          ensures pos[0] <= pos[t] <= pos[|pos| - 1]
        {
          if 0 < t { assert pos[0] < pos[t]; }
          if t < |pos| - 1 { assert pos[t] < pos[|pos| - 1]; }
        }
      }
    }
  }

  /** A non-decreasing row with a single flat run s..e: both repairs
      spread exactly that run, so the program and the corrected repair
      agree. */
  lemma {:induction false} SingleRunAgrees(c: seq<real>, s: nat, e: nat)
    requires NonDecreasing(c) && EndsDistinct(c) && 1 <= s < e && e + 1 < |c|
    requires forall k :: s <= k <= e ==> c[k] == c[s]
    requires forall j :: 1 <= j < |c| && !(s < j <= e) ==> c[j] != c[j - 1]
    ensures RepairRow(c) == Spread(c, s, e)
    ensures RepairRuns(c) == Spread(c, s, e)
  {
    SingleRunRow(c, s, e);
    assert c[s - 1] < c[s] < c[e + 1] by {
      assert c[s - 1] <= c[s] && c[e] <= c[e + 1];
    }
    SingleRunFrom(c, s, e, 1);
  }

  lemma {:induction false} SingleRunRow(c: seq<real>, s: nat, e: nat)
    requires EndsDistinct(c) && 1 <= s < e && e + 1 < |c|
    requires forall k :: s <= k <= e ==> c[k] == c[s]
    requires forall j :: 1 <= j < |c| && !(s < j <= e) ==> c[j] != c[j - 1]
    ensures RepairRow(c) == Spread(c, s, e)
  {
    SingleRunPositions(c, s, e);
    forall j | 0 <= j < |c|
      ensures RepairRow(c)[j] == Spread(c, s, e)[j]
    {
      SingleRunRowAt(c, s, e, j);
    }
  }

  lemma {:induction false} SingleRunRowAt(c: seq<real>, s: nat, e: nat, j: nat)
    requires EndsDistinct(c) && 1 <= s < e && e + 1 < |c| && j < |c|
    requires var pos := RepairPositions(c);
      |pos| == e - s + 1 && forall t :: 0 <= t < |pos| ==> pos[t] == s + t
    ensures RepairRow(c)[j] == Spread(c, s, e)[j]
  {
    if s <= j <= e {
      SingleRunRowInside(c, s, e, j);
    } else {
      assert j !in RepairPositions(c);
      RepairRowOff(c, j);
    }
  }

  lemma SingleRunRowInside(c: seq<real>, s: nat, e: nat, j: nat)
    requires EndsDistinct(c) && 1 <= s <= j <= e && e + 1 < |c|
    requires var pos := RepairPositions(c);
      |pos| == e - s + 1 && forall t :: 0 <= t < |pos| ==> pos[t] == s + t
    ensures RepairRow(c)[j] == Spread(c, s, e)[j]
  {
    var pos := RepairPositions(c);
    assert pos[j - s] == j;
    assert pos[0] == s && pos[|pos| - 1] == e;
    RepairRowAt(c, j - s);
  }

  /** With a single flat run s..e the repair overwrites s..e. */
  lemma {:induction false} SingleRunPositions(c: seq<real>, s: nat, e: nat)
    requires EndsDistinct(c) && 1 <= s < e && e + 1 < |c|
    requires forall k :: s <= k <= e ==> c[k] == c[s]
    requires forall j :: 1 <= j < |c| && !(s < j <= e) ==> c[j] != c[j - 1]
    ensures var pos := RepairPositions(c);
      |pos| == e - s + 1 && forall t :: 0 <= t < |pos| ==> pos[t] == s + t
  {
    ZeroDiffsRange(c, 1, s, e);
  }

  /** In a row with a single flat run s..e the zero differences are s+1..e. */
  lemma {:induction false} ZeroDiffsRange(c: seq<real>, from: nat, s: nat, e: nat)
    requires 1 <= from <= s + 1 && s < e < |c|
    requires forall k :: s <= k <= e ==> c[k] == c[s]
    requires forall j :: from <= j < |c| && !(s < j <= e) ==> c[j] != c[j - 1]
    ensures |ZeroDiffs(c, from)| == e - s
    ensures forall t :: 0 <= t < e - s ==> ZeroDiffs(c, from)[t] == s + 1 + t
    decreases |c| - from
  {
    if from <= s {
      assert c[from] != c[from - 1];
      ZeroDiffsRange(c, from + 1, s, e);
    } else {
      ZeroDiffsTail(c, from, s, e);
    }
  }

  lemma {:induction false} ZeroDiffsTail(c: seq<real>, from: nat, s: nat, e: nat)
    requires s + 1 <= from <= e + 1 && e < |c|
    requires forall k :: s <= k <= e ==> c[k] == c[s]
    requires forall j :: from <= j < |c| && !(s < j <= e) ==> c[j] != c[j - 1]
    ensures |ZeroDiffs(c, from)| == e + 1 - from
    ensures forall t :: 0 <= t < e + 1 - from ==> ZeroDiffs(c, from)[t] == from + t
    decreases |c| - from
  {
    if from <= e {
      assert c[from] == c[from - 1];
      ZeroDiffsTail(c, from + 1, s, e);
      assert ZeroDiffs(c, from) == [from] + ZeroDiffs(c, from + 1);
    } else {
      ZeroDiffsNone(c, from);
    }
  }

  lemma {:induction false} ZeroDiffsNone(c: seq<real>, from: nat)
    requires 1 <= from && forall j :: from <= j < |c| ==> c[j] != c[j - 1]
    ensures ZeroDiffs(c, from) == []
    decreases |c| - from
  {
    if from < |c| {
      ZeroDiffsNone(c, from + 1);
    }
  }

  lemma {:induction false} SingleRunFrom(c: seq<real>, s: nat, e: nat, i: nat)
    requires 1 <= s < e && e + 1 < |c| && 1 <= i <= s + 1
    requires forall k :: s <= k <= e ==> c[k] == c[s]
    requires c[s - 1] < c[s] < c[e + 1]
    requires forall j :: 1 <= j < |c| && !(s < j <= e) ==> c[j] != c[j - 1]
    ensures RepairFrom(c, i) == Spread(c, s, e)
    decreases s + 1 - i
  {
    if i <= s {
      SingleRunFrom(c, s, e, i + 1);
    } else {
      assert c[i] == c[i - 1];
      var d := Spread(c, s, e);
      assert RunEnd(c, s, i) == e;
      SpreadLast(c, s, e);
      forall j | e <= j && 1 <= j < |d|
        ensures d[j] != d[j - 1]
      {
        if j > e + 1 {
          assert d[j] == c[j] && d[j - 1] == c[j - 1];
        } else if j == e {
          LinspaceIncreasing(c[s - 1], c[e + 1], e - s + 3, e - s, e - s + 1);
        }
      }
      RepairFromNoRuns(d, e + 1);
    }
  }

  lemma {:induction false} SpreadLast(c: seq<real>, s: nat, e: nat)
    requires 1 <= s <= e && e + 1 < |c| && c[s - 1] != c[e + 1]
    ensures Spread(c, s, e)[e] != c[e + 1]
  {
    var lo, hi := c[s - 1], c[e + 1];
    var count := e - s + 3;
    var step := (hi - lo) / (count - 1) as real;
    assert step != 0.0;
    assert Linspace(lo, hi, count, e - s + 1) == hi - step by {
      assert (e - s + 1) as real * step == (count - 1) as real * step - step;
      assert (count - 1) as real * step == hi - lo;
    }
  }

  lemma {:induction false} RepairFromNoRuns(d: seq<real>, i: nat)
    requires 1 <= i
    requires forall j :: i - 1 <= j && 1 <= j < |d| ==> d[j] != d[j - 1]
    ensures RepairFrom(d, i) == d
    decreases |d| - i
  {
    if i < |d| {
      RepairFromNoRuns(d, i + 1);
    }
  }

  /** The first position of the run of entries equal to c[k] that ends
      at k. */
  function RunStart(c: seq<real>, k: nat): (s: nat)
    requires k < |c|
    ensures s <= k && forall i :: s <= i <= k ==> c[i] == c[k]
    ensures s == 0 || c[s - 1] != c[k]
  {
    if k > 0 && c[k - 1] == c[k] then RunStart(c, k - 1) else k
  }

  /** With at most one flat run the program's repair and the run-by-run
      repair agree, and the row comes out strictly increasing. */
  lemma {:induction false} OneRunAgrees(c: seq<real>)
    requires NonDecreasing(c) && EndsDistinct(c) && AtMostOneRun(c)
    ensures RepairRow(c) == RepairRuns(c)
    ensures StrictlyIncreasing(RepairRow(c))
  {
    if forall j :: 1 <= j < |c| ==> c[j] != c[j - 1] {
      NoRunAgrees(c);
    } else {
      var k :| 1 <= k < |c| && c[k] == c[k - 1];
      var s, e := TheRun(c, k);
      SingleRunAgrees(c, s, e);
      RepairRunsIncreasing(c);
    }
  }

  /** Without flat runs neither repair changes the row. */
  lemma NoRunAgrees(c: seq<real>)
    requires NonDecreasing(c) && EndsDistinct(c)
    requires forall j :: 1 <= j < |c| ==> c[j] != c[j - 1]
    ensures RepairRow(c) == c && RepairRuns(c) == c && StrictlyIncreasing(c)
  {
    ZeroDiffsNone(c, 1);
    RepairFromNoRuns(c, 1);
  }

  /** The only flat run of a row, found from one of its zero differences. */
  lemma {:induction false} TheRun(c: seq<real>, k: nat) returns (s: nat, e: nat)
    requires NonDecreasing(c) && EndsDistinct(c) && AtMostOneRun(c) && 1 <= k < |c| && c[k] == c[k - 1]
    ensures 1 <= s < e && e + 1 < |c|
    ensures forall i :: s <= i <= e ==> c[i] == c[s]
    ensures forall j :: 1 <= j < |c| && !(s < j <= e) ==> c[j] != c[j - 1]
  {
    s := RunStart(c, k);
    assert s < k && c[s] == c[k];
    assert c[0] != c[1] && c[|c| - 2] != c[|c| - 1];
    e := RunEnd(c, s, k);
    forall j | 1 <= j < |c| && !(s < j <= e)
      ensures c[j] != c[j - 1]
    {
      OutsideTheRun(c, s, e, k, j);
      assert !IsZeroDiff(c, j);
    }
  }

  lemma {:induction false} OutsideTheRun(c: seq<real>, s: nat, e: nat, k: nat, j: nat)
    requires NonDecreasing(c) && AtMostOneRun(c) && 1 <= s < k <= e && e + 1 < |c|
    requires forall i :: s <= i <= e ==> c[i] == c[s]
    requires c[s - 1] != c[s] && c[e + 1] != c[s]
    requires 1 <= j < |c| && !(s < j <= e)
    ensures !IsZeroDiff(c, j)
  {
    assert IsZeroDiff(c, k) && c[k - 1] == c[s] && c[k] == c[s];
    if j <= s {
      NonDecreasingBetween(c, j - 1, s - 1);
      assert c[s - 1] <= c[s];
      assert c[j - 1] < c[k];
    } else {
      NonDecreasingBetween(c, e + 1, j);
      assert c[e] <= c[e + 1] && c[e] == c[s];
      assert c[k - 1] < c[j];
    }
  }

  lemma {:induction false} NonDecreasingBetween(c: seq<real>, i: nat, j: nat)
    requires NonDecreasing(c) && i <= j < |c|
    ensures c[i] <= c[j]
    decreases j - i
  {
    if i < j {
      NonDecreasingBetween(c, i, j - 1);
    }
  }

  // ---------------------------------------------------------------------
  // The finding: two flat runs

  /** Two flat runs: the program spreads 249.5, 500 and 750.5 over
      positions 1, 2 and 5 and leaves 900 and 950 in between, so the row is
      no longer ordered (950 at position 4, 750.5 at position 5). */
  lemma TwoRunsBreakOrder()
    ensures RepairRow([-1.0, 50.0, 50.0, 900.0, 950.0, 950.0, 1001.0])[4] == 950.0
    ensures RepairRow([-1.0, 50.0, 50.0, 900.0, 950.0, 950.0, 1001.0])[5] == 750.5
    ensures !NonDecreasing(RepairRow([-1.0, 50.0, 50.0, 900.0, 950.0, 950.0, 1001.0]))
  {
    TwoRunsCells([-1.0, 50.0, 50.0, 900.0, 950.0, 950.0, 1001.0]);
  }

  /** The program reaches that row: values 0 and 1000 with the proportions
      0.05, 0, 0.85, 0.05, 0, 0.05 put the inner cutoffs at grid points 50,
      50, 900, 950 and 950, and `estimateCutoff` returns a row that is not
      ordered. */
  lemma EstimateCutoffTwoRuns()
    ensures var r := EstimateCutoff([[0.0, 1000.0]], [0.05, 0.0, 0.85, 0.05, 0.0, 0.05], 1000);
      && r.Ok?
      && r.value[0] == RepairRow([-1.0, 50.0, 50.0, 900.0, 950.0, 950.0, 1001.0])
      && !NonDecreasing(r.value[0])
  {
    var p := [0.05, 0.0, 0.85, 0.05, 0.0, 0.05];
    TwoRunsIndices(p);
    Round3Integer(1);
    EstimateCutoffOk([[0.0, 1000.0]], p, 1000);
    TwoRunsGrid([0.0, 1000.0], [50, 50, 900, 950, 950]);
    TwoRunsBreakOrder();
  }

  /** The prefix sums 0.05, 0.05, 0.9, 0.95, 0.95 and 1 of the proportions
      give the grid positions 50, 50, 900, 950, 950. */
  lemma TwoRunsIndices(p: seq<real>)
    requires p == [0.05, 0.0, 0.85, 0.05, 0.0, 0.05]
    ensures AllNonNegative(p) && Sum(p) == 1.0
    ensures GridIndices(p, 1000) == [50, 50, 900, 950, 950]
  {
    SumPrefixStep(p, 1);
    SumPrefixStep(p, 2);
    SumPrefixStep(p, 3);
    SumPrefixStep(p, 4);
    SumPrefixStep(p, 5);
    SumPrefixStep(p, 6);
    assert p[..0] == [] && p[..6] == p;
    assert Sum(p[..1]) == 0.05 && Sum(p[..2]) == 0.05 && Sum(p[..3]) == 0.9;
    assert Sum(p[..4]) == 0.95 && Sum(p[..5]) == 0.95 && Sum(p) == 1.0;
    var q := GridIndices(p, 1000);
    assert q[0] == Trunc(50.0) == 50;
    assert q[1] == Trunc(50.0) == 50;
    assert q[2] == Trunc(900.0) == 900;
    assert q[3] == Trunc(950.0) == 950;
    assert q[4] == Trunc(950.0) == 950;
  }

  lemma SumPrefixStep(p: seq<real>, k: nat)
    requires 0 < k <= |p|
    ensures Sum(p[..k]) == Sum(p[..k - 1]) + p[k - 1]
  {
    assert p[..k][..k - 1] == p[..k - 1];
  }

  lemma TwoRunsGrid(values: seq<real>, q: seq<int>)
    requires values == [0.0, 1000.0] && q == [50, 50, 900, 950, 950]
    ensures forall i :: 0 <= i < |q| ==> PyIndex(q[i], 1001).Ok?
    ensures GridCutoffs(values, q, 1000) == [-1.0, 50.0, 50.0, 900.0, 950.0, 950.0, 1001.0]
  {
    assert MinOf(values) == 0.0 && MaxOf(values) == 1000.0 by {
      assert values[..1] == [0.0];
    }
    assert Floor(0.0) == 0 && Ceil(1000.0) == 1000;
    assert Linspace(0.0, 1000.0, 1001, 50) == 50.0;
    assert Linspace(0.0, 1000.0, 1001, 900) == 900.0;
    assert Linspace(0.0, 1000.0, 1001, 950) == 950.0;
    Round3Integer(50);
    Round3Integer(900);
    Round3Integer(950);
  }

  lemma TwoRunsCells(c: seq<real>)
    requires c == [-1.0, 50.0, 50.0, 900.0, 950.0, 950.0, 1001.0]
    ensures EndsDistinct(c) && RepairRow(c)[4] == 950.0 && RepairRow(c)[5] == 750.5
  {
    TwoRunsPositions();
    var pos := RepairPositions(c);
    assert pos == [1, 2, 5];
    RepairRowOff(c, 4);
    RepairRowAt(c, 2);
    assert pos[0] - 1 == 0 && pos[2] + 1 == 6 && |pos| + 2 == 5;
    assert RepairRow(c)[5] == Linspace(-1.0, 1001.0, 5, 3);
  }

  lemma TwoRunsPositions()
    ensures RepairPositions([-1.0, 50.0, 50.0, 900.0, 950.0, 950.0, 1001.0]) == [1, 2, 5]
  {
    TwoRunsZeroDiffs();
  }

  lemma TwoRunsZeroDiffs()
    ensures ZeroDiffs([-1.0, 50.0, 50.0, 900.0, 950.0, 950.0, 1001.0], 1) == [2, 5]
  {
    TwoRunsZeroDiffsFrom2();
  }

  lemma TwoRunsZeroDiffsFrom2()
    ensures ZeroDiffs([-1.0, 50.0, 50.0, 900.0, 950.0, 950.0, 1001.0], 2) == [2, 5]
  {
    var c := [-1.0, 50.0, 50.0, 900.0, 950.0, 950.0, 1001.0];
    TwoRunsZeroDiffsFrom3();
    assert c[2] == c[1];
    assert ZeroDiffs(c, 2) == [2] + ZeroDiffs(c, 3);
    assert [2] + [5] == [2, 5];
  }

  lemma TwoRunsZeroDiffsFrom3()
    ensures ZeroDiffs([-1.0, 50.0, 50.0, 900.0, 950.0, 950.0, 1001.0], 3) == [5]
  {
    TwoRunsZeroDiffsFrom4();
  }

  lemma TwoRunsZeroDiffsFrom4()
    ensures ZeroDiffs([-1.0, 50.0, 50.0, 900.0, 950.0, 950.0, 1001.0], 4) == [5]
  {
    TwoRunsZeroDiffsFrom5();
  }

  lemma TwoRunsZeroDiffsFrom5()
    ensures ZeroDiffs([-1.0, 50.0, 50.0, 900.0, 950.0, 950.0, 1001.0], 5) == [5]
  {
    var c := [-1.0, 50.0, 50.0, 900.0, 950.0, 950.0, 1001.0];
    assert ZeroDiffs(c, 7) == [];
    assert ZeroDiffs(c, 6) == [];
  }

  // ---------------------------------------------------------------------
  // The cutoff grid

  /** The grids the program reads cutoffs from have 101 or 1001 points. */
  predicate GridSteps(steps: nat)
  {
    steps == 100 || steps == 1000
  }

  /** Python's indexing of a sequence of length n: a negative index counts
      from the end; anything outside raises IndexError. */
  function PyIndex(i: int, n: nat): (r: Result<nat>)
    ensures r.Ok? <==> -(n as int) <= i < n
    ensures r.Ok? ==> r.value < n && (i >= 0 ==> r.value == i) && (i < 0 ==> r.value == i + n)
  {
    if 0 <= i < n then Ok(i)
    else if -(n as int) <= i < 0 then Ok(i + n)
    else Err(IndexError)
  }

  /** The grid positions of the inner cutoffs: int(steps * cumulative). */
  function GridIndices(percents: seq<real>, steps: nat): (q: seq<int>)
    requires |percents| >= 1
    ensures |q| == |percents| - 1
  {
    seq(|percents| - 1, i requires 0 <= i < |percents| - 1 => GridIndex(percents, steps, i))
  }

  function GridIndex(percents: seq<real>, steps: nat, i: nat): int
    requires i < |percents|
  {
    Trunc(steps as real * Sum(percents[..i + 1]))
  }

  /** The cutoff row of one feature before the flat-run repair. */
  function GridCutoffs(values: seq<real>, q: seq<int>, steps: nat): (c: seq<real>)
    requires |values| > 0 && steps >= 1
    requires forall i :: 0 <= i < |q| ==> PyIndex(q[i], steps + 1).Ok?
    ensures |c| == |q| + 2
  {
    var lo, hi := Floor(MinOf(values)), Ceil(MaxOf(values));
    [(lo - 1) as real]
      + seq(|q|, i requires 0 <= i < |q| => Round3(Linspace(lo as real, hi as real, steps + 1, PyIndex(q[i], steps + 1).value)))
      + [(hi + 1) as real]
  }

  /** The grid positions of the inner cutoffs, or the error `estimateCutoff`
      raises before it writes a row: no proportions (IndexError at
      `percents[0]`), a total that does not round to 1 (ValueError), a
      position outside the grid (IndexError, once a row is read). */
  function GridPlan(rows: seq<seq<real>>, percents: seq<real>, steps: nat): (r: Result<seq<int>>)
    ensures r.Ok? ==> |percents| >= 1 && Round3(Sum(percents)) == 1.0 && r.value == GridIndices(percents, steps)
    ensures r.Ok? && |rows| > 0 ==> forall i :: 0 <= i < |r.value| ==> PyIndex(r.value[i], steps + 1).Ok?
  {
    if |percents| == 0 then Err(IndexError)
    else if Round3(Sum(percents)) != 1.0 then Err(ValueError)
    else
      var q := GridIndices(percents, steps);
      if |rows| > 0 && exists i :: 0 <= i < |q| && PyIndex(q[i], steps + 1).Err? then Err(IndexError)
      else Ok(q)
  }

  /** `estimateCutoff` on the rows of a matrix (each row holds a feature's
      non-missing values), on a grid of steps + 1 points (1001 in the
      command-line tools, 101 in the interactive application), followed by
      the program's `fixOverlapCutoff`. */
  function EstimateCutoff(rows: seq<seq<real>>, percents: seq<real>, steps: nat): (r: Result<seq<seq<real>>>)
    requires steps >= 1 && forall f :: 0 <= f < |rows| ==> |rows[f]| > 0
    ensures r.Ok? <==> GridPlan(rows, percents, steps).Ok?
    ensures r.Ok? ==> |percents| >= 1 && |r.value| == |rows|
    ensures r.Ok? ==> forall f :: 0 <= f < |rows| ==> |r.value[f]| == |percents| + 1
  {
    var plan := GridPlan(rows, percents, steps);
    if plan.Err? then Err(plan.error)
    else
      Ok(seq(|rows|, f requires 0 <= f < |rows| =>
        GridBounds(rows[f], plan.value, steps);
        RepairRow(GridCutoffs(rows[f], plan.value, steps))))
  }

  /** The same with the run-by-run repair in place of `fixOverlapCutoff`. */
  function EstimateCutoffCorrected(rows: seq<seq<real>>, percents: seq<real>, steps: nat): (r: Result<seq<seq<real>>>)
    requires steps >= 1 && forall f :: 0 <= f < |rows| ==> |rows[f]| > 0
    ensures r.Ok? <==> GridPlan(rows, percents, steps).Ok?
    ensures r.Ok? ==> |percents| >= 1 && |r.value| == |rows|
    ensures r.Ok? ==> forall f :: 0 <= f < |rows| ==> |r.value[f]| == |percents| + 1
  {
    var plan := GridPlan(rows, percents, steps);
    if plan.Err? then Err(plan.error)
    else
      Ok(seq(|rows|, f requires 0 <= f < |rows| =>
        RepairRuns(GridCutoffs(rows[f], plan.value, steps))))
  }

  /** The inner cutoffs lie within [floor(min), ceil(max)], strictly inside
      the outer two. */
  lemma {:induction false} GridBounds(values: seq<real>, q: seq<int>, steps: nat)
    requires |values| > 0 && steps >= 1
    requires forall i :: 0 <= i < |q| ==> PyIndex(q[i], steps + 1).Ok?
    ensures var c := GridCutoffs(values, q, steps);
      var lo, hi := Floor(MinOf(values)), Ceil(MaxOf(values));
      && c[0] == (lo - 1) as real && c[|c| - 1] == (hi + 1) as real
      && (forall i :: 0 < i < |c| - 1 ==> lo as real <= c[i] <= hi as real)
      && EndsDistinct(c)
  {
    var c := GridCutoffs(values, q, steps);
    var lo, hi := Floor(MinOf(values)), Ceil(MaxOf(values));
    RangeOrdered(values);
    forall i | 0 < i < |c| - 1
      ensures lo as real <= c[i] <= hi as real
    {
      GridPointBounds(lo, hi, steps, PyIndex(q[i - 1], steps + 1).value);
    }
  }

  lemma {:induction false} RangeOrdered(values: seq<real>)
    requires |values| > 0
    ensures Floor(MinOf(values)) <= Ceil(MaxOf(values))
  {
    assert MinOf(values) <= values[0] <= MaxOf(values);
  }

  lemma {:induction false} GridPointBounds(lo: int, hi: int, steps: nat, k: nat)
    requires lo <= hi && 1 <= steps && k < steps + 1
    ensures lo as real <= Round3(Linspace(lo as real, hi as real, steps + 1, k)) <= hi as real
  {
    LinspaceBetween(lo as real, hi as real, steps + 1, k);
    Round3Between(Linspace(lo as real, hi as real, steps + 1, k), lo, hi);
  }

  /** Round-to-three-decimals gives exactly 1 on [0.9995, 1.0005]: the two
      ends are ties that go to the even 1000. */
  lemma {:induction false} RoundsToOne(x: real)
    ensures Round3(x) == 1.0 <==> 0.9995 <= x <= 1.0005
  {
    var y := x * 1000.0;
    var r := RoundHalfEven(y);
    assert Round3(x) == r as real / 1000.0;
    if 0.9995 <= x <= 1.0005 {
      assert 999.5 <= y <= 1000.5;
      assert y.Floor == 999 || y.Floor == 1000;
      assert r == 1000;
    } else if x < 0.9995 {
      assert y < 999.5;
      assert r <= 999;
    } else {
      assert y > 1000.5;
      assert r >= 1001;
    }
  }

  /** Proportions whose total does not round to 1 raise ValueError; no
      proportions at all raise IndexError. */
  lemma {:induction false} EstimateCutoffErrors(rows: seq<seq<real>>, percents: seq<real>, steps: nat)
    requires steps >= 1 && forall f :: 0 <= f < |rows| ==> |rows[f]| > 0
    ensures |percents| == 0 ==> EstimateCutoff(rows, percents, steps) == Err(IndexError)
    ensures |percents| > 0 && !(0.9995 <= Sum(percents) <= 1.0005) ==> EstimateCutoff(rows, percents, steps) == Err(ValueError)
    ensures |percents| == 0 ==> EstimateCutoffCorrected(rows, percents, steps) == Err(IndexError)
    ensures |percents| > 0 && !(0.9995 <= Sum(percents) <= 1.0005) ==> EstimateCutoffCorrected(rows, percents, steps) == Err(ValueError)
  {
    RoundsToOne(Sum(percents));
  }

  /** Non-negative proportions summing to 1 give in-range grid positions
      that do not decrease. */
  lemma {:induction false} GridIndicesInRange(percents: seq<real>, steps: nat)
    requires |percents| >= 1 && GridSteps(steps) && AllNonNegative(percents) && Sum(percents) <= 1.0005
    ensures var q := GridIndices(percents, steps);
      && (forall i :: 0 <= i < |q| ==> 0 <= q[i] <= steps)
      && (forall i :: 0 < i < |q| ==> q[i - 1] <= q[i])
  {
    var q := GridIndices(percents, steps);
    forall i | 0 <= i < |q|
      ensures 0 <= q[i] <= steps
    {
      GridIndexBounds(percents, steps, i);
    }
    forall i | 0 < i < |q|
      ensures q[i - 1] <= q[i]
    {
      GridIndexStep(percents, steps, i - 1);
    }
  }

  lemma {:induction false} GridIndexBounds(percents: seq<real>, steps: nat, i: nat)
    requires i < |percents| && GridSteps(steps) && AllNonNegative(percents) && Sum(percents) <= 1.0005
    ensures 0 <= GridIndex(percents, steps, i) <= steps
  {
    PrefixSumBounds(percents, i);
    ScaledInRange(steps, Sum(percents[..i + 1]));
  }

  lemma {:induction false} GridIndexStep(percents: seq<real>, steps: nat, i: nat)
    requires i + 1 < |percents| && GridSteps(steps) && AllNonNegative(percents)
    ensures GridIndex(percents, steps, i) <= GridIndex(percents, steps, i + 1)
  {
    PrefixSumBounds(percents, i + 1);
    PrefixSumBounds(percents, i);
    ScaledMonotone(steps, Sum(percents[..i + 1]), Sum(percents[..i + 2]));
  }

  lemma ScaledInRange(steps: nat, cum: real)
    requires GridSteps(steps) && 0.0 <= cum <= 1.0005
    ensures 0 <= Trunc(steps as real * cum) <= steps
  {
    var x := steps as real * cum;
    if steps == 100 {
      assert x == 100.0 * cum;
    } else {
      assert x == 1000.0 * cum;
    }
    assert 0.0 <= x < (steps + 1) as real;
  }

  lemma ScaledMonotone(steps: nat, a: real, b: real)
    requires GridSteps(steps) && 0.0 <= a <= b
    ensures Trunc(steps as real * a) <= Trunc(steps as real * b)
  {
    var x, y := steps as real * a, steps as real * b;
    if steps == 100 {
      assert x == 100.0 * a && y == 100.0 * b;
    } else {
      assert x == 1000.0 * a && y == 1000.0 * b;
    }
    TruncMonotone(x, y);
  }

  /** Prefix sums of non-negative numbers grow and stay below the total. */
  lemma {:induction false} PrefixSumBounds(p: seq<real>, i: nat)
    requires AllNonNegative(p) && i < |p|
    ensures 0.0 <= Sum(p[..i + 1]) <= Sum(p)
    ensures i > 0 ==> Sum(p[..i]) <= Sum(p[..i + 1])
  {
    assert p[..i + 1][..i] == p[..i];
    assert AllNonNegative(p[..i + 1]);
    SumNonNegative(p[..i + 1]);
    SumPrefixBelow(p, i + 1);
  }

  lemma {:induction false} SumPrefixBelow(p: seq<real>, n: nat)
    requires AllNonNegative(p) && n <= |p|
    ensures Sum(p[..n]) <= Sum(p)
    decreases |p| - n
  {
    if n < |p| {
      SumPrefixBelow(p, n + 1);
      assert p[..n + 1][..n] == p[..n];
    } else {
      assert p[..n] == p;
    }
  }

  /** At most one flat run: any two zero differences belong to the same
      run (in a non-decreasing row, everything between them is equal). */
  ghost predicate AtMostOneRun(c: seq<real>)
  {
    forall j, k {:trigger IsZeroDiff(c, j), IsZeroDiff(c, k)} ::
      j < k && IsZeroDiff(c, j) && IsZeroDiff(c, k) ==> c[j - 1] == c[k]
  }

  /** Entry j equals the one before it. */
  predicate IsZeroDiff(c: seq<real>, j: int)
  {
    0 < j < |c| && c[j - 1] == c[j]
  }

  /** With non-negative proportions the cutoff row the program returns
      for feature f starts at floor(min) - 1 and ends at ceil(max) + 1;
      when the grid row has at most one flat run, the row strictly
      increases and is the corrected row. */
  lemma {:induction false} EstimateCutoffShape(rows: seq<seq<real>>, percents: seq<real>, steps: nat, f: nat)
    requires GridSteps(steps) && forall g :: 0 <= g < |rows| ==> |rows[g]| > 0
    requires |percents| >= 1 && AllNonNegative(percents) && Round3(Sum(percents)) == 1.0 && f < |rows|
    ensures GridPlan(rows, percents, steps).Ok? && EstimateCutoff(rows, percents, steps).Ok?
    ensures var c := EstimateCutoff(rows, percents, steps).value[f];
      && |c| == |percents| + 1
      && c[0] == (Floor(MinOf(rows[f])) - 1) as real
      && c[|c| - 1] == (Ceil(MaxOf(rows[f])) + 1) as real
    ensures var g := GridCutoffs(rows[f], GridIndices(percents, steps), steps);
      AtMostOneRun(g) ==>
        StrictlyIncreasing(EstimateCutoff(rows, percents, steps).value[f]) &&
        EstimateCutoff(rows, percents, steps).value[f] == RepairRuns(g)
  {
    EstimateCutoffOk(rows, percents, steps);
    var q := GridIndices(percents, steps);
    var g := GridCutoffs(rows[f], q, steps);
    var c := EstimateCutoff(rows, percents, steps).value[f];
    assert c == RepairRow(g);
    ProgramRowShape(rows[f], q, steps, c);
  }

  /** The corrected pipeline: every row starts at floor(min) - 1, ends at
      ceil(max) + 1 and strictly increases, for any non-negative
      proportions that sum to 1. */
  lemma {:induction false} EstimateCutoffCorrectedShape(rows: seq<seq<real>>, percents: seq<real>, steps: nat)
    requires GridSteps(steps) && forall f :: 0 <= f < |rows| ==> |rows[f]| > 0
    requires |percents| >= 1 && AllNonNegative(percents) && Round3(Sum(percents)) == 1.0
    ensures EstimateCutoffCorrected(rows, percents, steps).Ok?
    ensures forall f :: 0 <= f < |rows| ==>
      var c := EstimateCutoffCorrected(rows, percents, steps).value[f];
      && |c| == |percents| + 1
      && c[0] == (Floor(MinOf(rows[f])) - 1) as real
      && c[|c| - 1] == (Ceil(MaxOf(rows[f])) + 1) as real
      && StrictlyIncreasing(c)
  {
    EstimateCutoffCorrectedOk(rows, percents, steps);
    var q := GridIndices(percents, steps);
    forall f | 0 <= f < |rows|
      ensures var c := EstimateCutoffCorrected(rows, percents, steps).value[f];
        && |c| == |percents| + 1
        && c[0] == (Floor(MinOf(rows[f])) - 1) as real
        && c[|c| - 1] == (Ceil(MaxOf(rows[f])) + 1) as real
        && StrictlyIncreasing(c)
    {
      CutoffRowShape(rows[f], q, steps, EstimateCutoffCorrected(rows, percents, steps).value[f]);
    }
  }

  /** With proportions that sum to 1, every grid position is in range and
      each row of the result is the grid row after `fixOverlapCutoff`. */
  lemma EstimateCutoffOk(rows: seq<seq<real>>, percents: seq<real>, steps: nat)
    requires GridSteps(steps) && forall f :: 0 <= f < |rows| ==> |rows[f]| > 0
    requires |percents| >= 1 && AllNonNegative(percents) && Round3(Sum(percents)) == 1.0
    ensures var q := GridIndices(percents, steps);
      && (forall i :: 0 <= i < |q| ==> 0 <= q[i] <= steps)
      && (forall i :: 0 < i < |q| ==> q[i - 1] <= q[i])
      && EstimateCutoff(rows, percents, steps).Ok?
      && forall f :: 0 <= f < |rows| ==>
        EndsDistinct(GridCutoffs(rows[f], q, steps)) &&
        EstimateCutoff(rows, percents, steps).value[f] == RepairRow(GridCutoffs(rows[f], q, steps))
  {
    RoundsToOne(Sum(percents));
    GridIndicesInRange(percents, steps);
    var q := GridIndices(percents, steps);
    assert forall i :: 0 <= i < |q| ==> PyIndex(q[i], steps + 1).Ok?;
    forall f | 0 <= f < |rows|
      ensures EndsDistinct(GridCutoffs(rows[f], q, steps))
    {
      GridBounds(rows[f], q, steps);
    }
  }

  /** The same for the corrected pipeline and the run-by-run repair. */
  lemma EstimateCutoffCorrectedOk(rows: seq<seq<real>>, percents: seq<real>, steps: nat)
    requires GridSteps(steps) && forall f :: 0 <= f < |rows| ==> |rows[f]| > 0
    requires |percents| >= 1 && AllNonNegative(percents) && Round3(Sum(percents)) == 1.0
    ensures var q := GridIndices(percents, steps);
      && (forall i :: 0 <= i < |q| ==> 0 <= q[i] <= steps)
      && (forall i :: 0 < i < |q| ==> q[i - 1] <= q[i])
      && EstimateCutoffCorrected(rows, percents, steps).Ok?
      && forall f :: 0 <= f < |rows| ==>
        EstimateCutoffCorrected(rows, percents, steps).value[f] == RepairRuns(GridCutoffs(rows[f], q, steps))
  {
    RoundsToOne(Sum(percents));
    GridIndicesInRange(percents, steps);
    var q := GridIndices(percents, steps);
    assert forall i :: 0 <= i < |q| ==> PyIndex(q[i], steps + 1).Ok?;
  }

  /** One feature's cutoff row from the program, for grid positions in
      range and in order. */
  lemma {:induction false} ProgramRowShape(values: seq<real>, q: seq<int>, steps: nat, c: seq<real>)
    requires |values| > 0 && steps >= 1
    requires forall i :: 0 <= i < |q| ==> 0 <= q[i] <= steps
    requires forall i :: 0 < i < |q| ==> q[i - 1] <= q[i]
    requires EndsDistinct(GridCutoffs(values, q, steps)) && c == RepairRow(GridCutoffs(values, q, steps))
    ensures |c| == |q| + 2
      && c[0] == (Floor(MinOf(values)) - 1) as real
      && c[|c| - 1] == (Ceil(MaxOf(values)) + 1) as real
    ensures AtMostOneRun(GridCutoffs(values, q, steps)) ==>
      StrictlyIncreasing(c) && c == RepairRuns(GridCutoffs(values, q, steps))
  {
    assert forall i :: 0 <= i < |q| ==> PyIndex(q[i], steps + 1).Ok?;
    GridBounds(values, q, steps);
    GridNonDecreasing(values, q, steps);
    RepairedGridShape(GridCutoffs(values, q, steps), c);
  }

  lemma RepairedGridShape(g: seq<real>, c: seq<real>)
    requires |g| >= 2 && EndsDistinct(g) && NonDecreasing(g) && c == RepairRow(g)
    ensures |c| == |g| && c[0] == g[0] && c[|c| - 1] == g[|g| - 1]
    ensures AtMostOneRun(g) ==> StrictlyIncreasing(c) && c == RepairRuns(g)
  {
    RepairKeepsEnds(g);
    if AtMostOneRun(g) {
      OneRunAgrees(g);
    }
  }

  /** One feature's repaired cutoff row, for grid positions in range and in
      order. */
  lemma {:induction false} CutoffRowShape(values: seq<real>, q: seq<int>, steps: nat, c: seq<real>)
    requires |values| > 0 && steps >= 1
    requires forall i :: 0 <= i < |q| ==> 0 <= q[i] <= steps
    requires forall i :: 0 < i < |q| ==> q[i - 1] <= q[i]
    requires c == RepairRuns(GridCutoffs(values, q, steps))
    ensures |c| == |q| + 2
      && c[0] == (Floor(MinOf(values)) - 1) as real
      && c[|c| - 1] == (Ceil(MaxOf(values)) + 1) as real
      && StrictlyIncreasing(c)
  {
    assert forall i :: 0 <= i < |q| ==> PyIndex(q[i], steps + 1).Ok?;
    var g := GridCutoffs(values, q, steps);
    GridBounds(values, q, steps);
    GridNonDecreasing(values, q, steps);
    RepairRunsIncreasing(g);
    RepairKeepsEnds(g);
  }

  lemma {:induction false} GridNonDecreasing(values: seq<real>, q: seq<int>, steps: nat)
    requires |values| > 0 && steps >= 1
    requires forall i :: 0 <= i < |q| ==> 0 <= q[i] <= steps
    requires forall i :: 0 < i < |q| ==> q[i - 1] <= q[i]
    ensures NonDecreasing(GridCutoffs(values, q, steps))
  {
    var c := GridCutoffs(values, q, steps);
    var lo, hi := Floor(MinOf(values)), Ceil(MaxOf(values));
    GridBounds(values, q, steps);
    RangeOrdered(values);
    forall j | 1 < j < |c| - 1
      ensures c[j - 1] <= c[j]
    {
      GridPointsOrdered(lo, hi, steps, q[j - 2], q[j - 1]);
    }
  }

  lemma {:induction false} GridPointsOrdered(lo: int, hi: int, steps: nat, a: int, b: int)
    requires lo <= hi && 1 <= steps && 0 <= a <= b <= steps
    ensures Round3(Linspace(lo as real, hi as real, steps + 1, a)) <= Round3(Linspace(lo as real, hi as real, steps + 1, b))
  {
    if a < b && lo < hi {
      LinspaceIncreasing(lo as real, hi as real, steps + 1, a, b);
    }
    Round3Monotone(Linspace(lo as real, hi as real, steps + 1, a), Linspace(lo as real, hi as real, steps + 1, b));
  }
}
