/** The fuzzy fold-change rule: the five memberships of a numerator and of
    a denominator value are grouped into four (no value, low, middle,
    high), their outer product spreads the unit of belief over a 4 x 4
    table, and the table is folded into eight fold-change classes by how
    far apart the two groups lie. */
module FuzzyRule {
  import opened Numerics

  /** The output files, one per class, in output order. */
  const AllSets: seq<string> := ["NA", "-INF", "INF", "--", "-", "o", "+", "++"]

  /** `np.einsum("ijk -> jki", ...)`: the five membership tables FS1..FS5
      seen as one vector of five memberships per feature and sample. */
  function MembershipVector(fv: seq<seq<seq<real>>>, i: nat, j: nat): (v: seq<real>)
    requires |fv| == 5 && forall s :: 0 <= s < 5 ==> i < |fv[s]| && j < |fv[s][i]|
    ensures |v| == 5 && forall s :: 0 <= s < 5 ==> v[s] == fv[s][i][j]
  {
    seq(5, s requires 0 <= s < 5 => fv[s][i][j])
  }

  /** The four groups of a membership vector: whether every membership is
      0 (as 1 or 0), FS1 + FS2, FS3, and FS4 + FS5. */
  function Groups(v: seq<real>): (g: seq<real>)
    requires |v| == 5
    ensures |g| == 4
  {
    [if v[0] == 0.0 && v[1] == 0.0 && v[2] == 0.0 && v[3] == 0.0 && v[4] == 0.0 then 1.0 else 0.0,
     v[0] + v[1], v[2], v[3] + v[4]]
  }

  /** The first group flags a vector with no membership at all; the other
      three carry all of the membership, so the groups add up to the
      memberships plus that flag. */
  lemma GroupsMeaning(v: seq<real>)
    requires |v| == 5
    ensures var g := Groups(v);
      && (g[0] == 1.0 <==> forall s :: 0 <= s < 5 ==> v[s] == 0.0)
      && (g[0] == 0.0 <==> exists s :: 0 <= s < 5 && v[s] != 0.0)
      && (g[0] == 1.0 ==> Sum(v) == 0.0)
      && Sum(g) == g[0] + Sum(v)
      && (AllNonNegative(v) ==> AllNonNegative(g))
  {
    var g := Groups(v);
    SumPrefixes(g);
    SumPrefixes(v);
    assert g[..4] == g && v[..5] == v;
    assert Sum(g) == g[0] + g[1] + g[2] + g[3];
    assert Sum(v) == v[0] + v[1] + v[2] + v[3] + v[4];
    if g[0] == 0.0 {
      assert v[0] != 0.0 || v[1] != 0.0 || v[2] != 0.0 || v[3] != 0.0 || v[4] != 0.0;
    }
  }

  /** `np.einsum("kij, lij -> ijkl", ...)`: the joint distribution of the
      numerator group k and the denominator group l. */
  function Outer(num: seq<real>, den: seq<real>): (dist: seq<seq<real>>)
    requires |num| == 4 && |den| == 4
    ensures |dist| == 4 && forall k :: 0 <= k < 4 ==> |dist[k]| == 4
    ensures forall k, l :: 0 <= k < 4 && 0 <= l < 4 ==> dist[k][l] == num[k] * den[l]
  {
    seq(4, k requires 0 <= k < 4 => Scale(num[k], den))
  }

  /** Every element of `s` times x. */
  function Scale(x: real, s: seq<real>): (t: seq<real>)
    ensures |t| == |s| && forall i :: 0 <= i < |s| ==> t[i] == x * s[i]
  {
    seq(|s|, i requires 0 <= i < |s| => x * s[i])
  }

  predicate Square4(dist: seq<seq<real>>)
  {
    |dist| == 4 && forall k :: 0 <= k < 4 ==> |dist[k]| == 4
  }

  /** The eight fold-change classes of a 4 x 4 table, in the order of
      `AllSets`. */
  function FoldChange(dist: seq<seq<real>>): (out: seq<real>)
    requires Square4(dist)
    ensures |out| == |AllSets|
  {
    [dist[0][0], dist[0][3], dist[3][0],
     dist[0][2] + dist[1][3],
     dist[0][1] + dist[1][2] + dist[2][3],
     dist[1][1] + dist[2][2] + dist[3][3],
     dist[1][0] + dist[2][1] + dist[3][2],
     dist[2][0] + dist[3][1]]
  }

  /** The class of cell (k, l), defined by what it means: both values
      missing is NA; a missing numerator against a high denominator is
      -INF and the reverse INF; otherwise the class is how many groups the
      denominator lies above the numerator, from "--" (two) through "o"
      (none) to "++" (two below). */
  function FoldClass(k: nat, l: nat): (c: nat)
    requires k < 4 && l < 4
    ensures c < |AllSets|
  {
    if k == 0 && l == 0 then 0
    else if l - k == 3 then 1
    else if k - l == 3 then 2
    else 5 - (l - k)
  }

  /** The sum of the cells of class c among the first n cells, taken row
      by row. */
  function ClassSum(dist: seq<seq<real>>, c: nat, n: nat): real
    requires Square4(dist) && n <= 16
  {
    if n == 0 then 0.0
    else ClassSum(dist, c, n - 1) + (if FoldClass((n - 1) / 4, (n - 1) % 4) == c then dist[(n - 1) / 4][(n - 1) % 4] else 0.0)
  }

  /** The sum of the first k rows. */
  function TableSum(dist: seq<seq<real>>, k: nat): real
    requires Square4(dist) && k <= 4
  {
    if k == 0 then 0.0 else TableSum(dist, k - 1) + Sum(dist[k - 1])
  }

  /** Each output is exactly the sum of the cells of its class: the rule
      folds the table by `FoldClass`. */
  lemma FoldChangeClasses(dist: seq<seq<real>>)
    requires Square4(dist)
    ensures forall c :: 0 <= c < 8 ==> FoldChange(dist)[c] == ClassSum(dist, c, 16)
  {
    forall c | 0 <= c < 8
      ensures FoldChange(dist)[c] == ClassSum(dist, c, 16)
    {
      ClassSumUnrolled(dist, c);
    }
  }

  lemma ClassSumUnrolled(dist: seq<seq<real>>, c: nat)
    requires Square4(dist) && c < 8
    ensures ClassSum(dist, c, 16) ==
      (if c == 0 then dist[0][0] else 0.0) + (if c == 4 then dist[0][1] else 0.0)
      + (if c == 3 then dist[0][2] else 0.0) + (if c == 1 then dist[0][3] else 0.0)
      + (if c == 6 then dist[1][0] else 0.0) + (if c == 5 then dist[1][1] else 0.0)
      + (if c == 4 then dist[1][2] else 0.0) + (if c == 3 then dist[1][3] else 0.0)
      + (if c == 7 then dist[2][0] else 0.0) + (if c == 6 then dist[2][1] else 0.0)
      + (if c == 5 then dist[2][2] else 0.0) + (if c == 4 then dist[2][3] else 0.0)
      + (if c == 2 then dist[3][0] else 0.0) + (if c == 7 then dist[3][1] else 0.0)
      + (if c == 6 then dist[3][2] else 0.0) + (if c == 5 then dist[3][3] else 0.0)
  {
    forall n | 0 < n <= 16
      ensures ClassSum(dist, c, n) == ClassSum(dist, c, n - 1) + (if FoldClass((n - 1) / 4, (n - 1) % 4) == c then dist[(n - 1) / 4][(n - 1) % 4] else 0.0)
    {
    }
  }

  /** Every cell is used exactly once: the eight outputs add up to the
      whole table. */
  lemma FoldChangeTotal(dist: seq<seq<real>>)
    requires Square4(dist)
    ensures Sum(FoldChange(dist)) == TableSum(dist, 4)
  {
    var out := FoldChange(dist);
    SumPrefixes(out);
    assert out[..8] == out;
    assert Sum(out) == out[0] + out[1] + out[2] + out[3] + out[4] + out[5] + out[6] + out[7];
    RowSum(dist, 0);
    RowSum(dist, 1);
    RowSum(dist, 2);
    RowSum(dist, 3);
    TableSumSteps(dist);
  }

  lemma TableSumSteps(dist: seq<seq<real>>)
    requires Square4(dist)
    ensures TableSum(dist, 4) == Sum(dist[0]) + Sum(dist[1]) + Sum(dist[2]) + Sum(dist[3])
  {
    assert TableSum(dist, 1) == Sum(dist[0]);
    assert TableSum(dist, 2) == Sum(dist[0]) + Sum(dist[1]);
    assert TableSum(dist, 3) == Sum(dist[0]) + Sum(dist[1]) + Sum(dist[2]);
  }

  lemma RowSum(dist: seq<seq<real>>, k: nat)
    requires Square4(dist) && k < 4
    ensures Sum(dist[k]) == dist[k][0] + dist[k][1] + dist[k][2] + dist[k][3]
  {
    SumPrefixes(dist[k]);
    assert dist[k][..4] == dist[k];
  }

  /** Unfolds `Sum` one element at a time. */
  lemma SumPrefixes(s: seq<real>)
    ensures forall n :: 0 < n <= |s| ==> Sum(s[..n]) == Sum(s[..n - 1]) + s[n - 1]
    ensures Sum(s[..0]) == 0.0
  {
    forall n | 0 < n <= |s|
      ensures Sum(s[..n]) == Sum(s[..n - 1]) + s[n - 1]
    {
      assert s[..n][..n - 1] == s[..n - 1];
    }
    assert s[..0] == [];
  }

  /** The whole table of an outer product is the product of the sums. */
  lemma OuterTotal(num: seq<real>, den: seq<real>)
    requires |num| == 4 && |den| == 4
    ensures TableSum(Outer(num, den), 4) == Sum(num) * Sum(den)
  {
    forall k | 0 <= k < 4
      ensures Outer(num, den)[k] == Scale(num[k], den)
    {
    }
    TableOfRows(Outer(num, den), num, den, Sum(den));
  }

  /** A table whose row k is den scaled by num[k] sums to Sum(num) * d,
      where d is Sum(den). */
  lemma TableOfRows(dist: seq<seq<real>>, num: seq<real>, den: seq<real>, d: real)
    requires Square4(dist) && |num| == 4 && d == Sum(den)
    requires forall k :: 0 <= k < 4 ==> dist[k] == Scale(num[k], den)
    ensures TableSum(dist, 4) == Sum(num) * d
  {
    RowsScaled(dist, num, den, d);
    RowsTotal(dist, num, d);
  }

  /** Row k of such a table sums to num[k] * d. */
  lemma RowsScaled(dist: seq<seq<real>>, num: seq<real>, den: seq<real>, d: real)
    requires Square4(dist) && |num| == 4 && d == Sum(den)
    requires forall k :: 0 <= k < 4 ==> dist[k] == Scale(num[k], den)
    ensures forall k :: 0 <= k < 4 ==> Sum(dist[k]) == num[k] * d
  {
    forall k | 0 <= k < 4
      ensures Sum(dist[k]) == num[k] * d
    {
      ScaledRow(dist[k], num[k], den, Sum(dist[k]), d);
    }
  }

  /** Rows summing to num[k] * x make a table summing to Sum(num) * x. */
  lemma RowsTotal(dist: seq<seq<real>>, num: seq<real>, x: real)
    requires Square4(dist) && |num| == 4
    requires forall k :: 0 <= k < 4 ==> Sum(dist[k]) == num[k] * x
    ensures TableSum(dist, 4) == Sum(num) * x
  {
    TableSumSteps(dist);
    SumOfFour(num);
    RowsCombine(dist, num, x, Sum(num), TableSum(dist, 4));
  }

  lemma RowsCombine(dist: seq<seq<real>>, num: seq<real>, x: real, s: real, t: real)
    requires Square4(dist) && |num| == 4
    requires forall k :: 0 <= k < 4 ==> Sum(dist[k]) == num[k] * x
    requires s == num[0] + num[1] + num[2] + num[3]
    requires t == Sum(dist[0]) + Sum(dist[1]) + Sum(dist[2]) + Sum(dist[3])
    ensures t == s * x
  {
    DistributeRight(num[0], num[1], num[2], num[3], x,
      Sum(dist[0]), Sum(dist[1]), Sum(dist[2]), Sum(dist[3]), s, t);
  }

  /** Multiplying every element multiplies the sum. */
  lemma {:induction false} ScaledSum(x: real, s: seq<real>)
    ensures Sum(Scale(x, s)) == x * Sum(s)
  {
    if s != [] {
      var init, last := s[..|s| - 1], s[|s| - 1];
      ScaledSum(x, init);
      ScaledLast(x, s);
      Distribute2(x, Sum(init), last, Sum(Scale(x, init)), Sum(Scale(x, s)), Sum(s));
    }
  }

  /** ScaledSum for a row already known to be a scaled copy of den. */
  lemma ScaledRow(row: seq<real>, x: real, den: seq<real>, a: real, b: real)
    requires row == Scale(x, den) && a == Sum(row) && b == Sum(den)
    ensures a == x * b
  {
    ScaledSum(x, den);
  }

  lemma ScaledLast(x: real, s: seq<real>)
    requires s != []
    ensures Sum(Scale(x, s)) == Sum(Scale(x, s[..|s| - 1])) + x * s[|s| - 1]
  {
    ScaleInit(x, s);
  }

  lemma ScaleInit(x: real, s: seq<real>)
    requires s != []
    ensures Scale(x, s)[..|s| - 1] == Scale(x, s[..|s| - 1])
  {
    var a, b := Scale(x, s)[..|s| - 1], Scale(x, s[..|s| - 1]);
    forall i | 0 <= i < |a|
      ensures a[i] == b[i]
    {
    }
  }

  lemma Distribute2(x: real, a: real, b: real, p: real, q: real, r: real)
    requires p == x * a && q == p + x * b && r == a + b
    ensures q == x * r
  {
  }

  lemma SumOfFour(s: seq<real>)
    requires |s| == 4
    ensures Sum(s) == s[0] + s[1] + s[2] + s[3]
  {
    SumPrefixes(s);
    assert s[..4] == s;
  }

  lemma DistributeRight(a0: real, a1: real, a2: real, a3: real, x: real,
                        r0: real, r1: real, r2: real, r3: real, s: real, r: real)
    requires r0 == a0 * x && r1 == a1 * x && r2 == a2 * x && r3 == a3 * x
    requires s == a0 + a1 + a2 + a3 && r == r0 + r1 + r2 + r3
    ensures r == s * x
  {
  }

  /** The fold-change memberships of one feature and sample. */
  function FuzzyFoldChange(num: seq<real>, den: seq<real>): (out: seq<real>)
    requires |num| == 5 && |den| == 5
    ensures |out| == |AllSets|
  {
    FoldChange(Outer(Groups(num), Groups(den)))
  }

  /** The eight classes share out exactly the product of the two grouped
      totals. */
  lemma FuzzyFoldChangeTotal(num: seq<real>, den: seq<real>)
    requires |num| == 5 && |den| == 5
    ensures Sum(FuzzyFoldChange(num, den)) == Sum(Groups(num)) * Sum(Groups(den))
  {
    var gn, gd := Groups(num), Groups(den);
    OuterTotal(gn, gd);
    FoldTotal(Outer(gn, gd), Sum(gn), Sum(gd));
  }

  lemma FoldTotal(dist: seq<seq<real>>, p: real, q: real)
    requires Square4(dist) && TableSum(dist, 4) == p * q
    ensures Sum(FoldChange(dist)) == p * q
  {
    FoldChangeTotal(dist);
  }

  /** For memberships that sum to 1 on both sides, as the fuzzifier
      produces for a value with some membership, the eight classes sum
      to 1. */
  lemma FuzzyFoldChangeUnit(num: seq<real>, den: seq<real>)
    requires |num| == 5 && |den| == 5 && Sum(num) == 1.0 && Sum(den) == 1.0
    ensures Sum(FuzzyFoldChange(num, den)) == 1.0
  {
    FuzzyFoldChangeTotal(num, den);
    GroupsMeaning(num);
    GroupsMeaning(den);
  }

  /** Output file `idx`: class idx of every feature and sample, rounded to
      three decimals. */
  function OutputTable(num: seq<seq<seq<real>>>, den: seq<seq<seq<real>>>, features: nat, samples: nat, idx: nat): (t: seq<seq<real>>)
    requires |num| == 5 && |den| == 5 && idx < |AllSets|
    requires forall s :: 0 <= s < 5 ==> |num[s]| == features && |den[s]| == features
    requires forall s, i :: 0 <= s < 5 && 0 <= i < features ==> |num[s][i]| == samples && |den[s][i]| == samples
    ensures |t| == features && forall i :: 0 <= i < features ==> |t[i]| == samples
    ensures forall i, j :: 0 <= i < features && 0 <= j < samples ==>
      t[i][j] == Round3(ClassSum(Outer(Groups(MembershipVector(num, i, j)), Groups(MembershipVector(den, i, j))), idx, 16))
  {
    FoldClasses();
    seq(features, i requires 0 <= i < features =>
      seq(samples, j requires 0 <= j < samples =>
        Round3(FuzzyFoldChange(MembershipVector(num, i, j), MembershipVector(den, i, j))[idx])))
  }

  lemma FoldClasses()
    ensures forall dist :: Square4(dist) ==> forall c :: 0 <= c < 8 ==> FoldChange(dist)[c] == ClassSum(dist, c, 16)
  {
    forall dist | Square4(dist)
      ensures forall c :: 0 <= c < 8 ==> FoldChange(dist)[c] == ClassSum(dist, c, 16)
    {
      FoldChangeClasses(dist);
    }
  }
}
