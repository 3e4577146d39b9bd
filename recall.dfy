/**
 * Per-row totals, per-class recall and the reported "balanced accuracy" of
 * `plot_confusion_matrix` (utils/util.py:143-154).
 */
module Recall {
  import opened Wrappers
  import opened Labels
  import opened Confusion

  /** `cm[i,i] / np.sum(row)` for a row with positive sum: a recall, so between 0 and 1. */
  function RecallOf(cm: seq<seq<nat>>, i: nat): (r: real)
    requires Square(cm) && i < |cm| && Sum(cm[i]) > 0
    ensures 0.0 <= r <= 1.0
  {
    SumBoundsElement(cm[i], i);
    cm[i][i] as real / Sum(cm[i]) as real
  }

  /** The list `accs` once the row loop has visited rows 0 .. n-1. */
  function Recalls(cm: seq<seq<nat>>, n: nat): (accs: seq<real>)
    requires Square(cm) && n <= |cm|
    ensures |accs| <= n
    ensures forall k :: 0 <= k < |accs| ==> 0.0 <= accs[k] <= 1.0
  {
    if n == 0 then []
    else Recalls(cm, n - 1) + (if Sum(cm[n - 1]) > 0 then [RecallOf(cm, n - 1)] else [])
  }

  /**
   * The rows among the first n whose sum is positive, in ascending order:
   * exactly the rows that contribute to `accs`.
   */
  function PositiveRows(cm: seq<seq<nat>>, n: nat): (rows: seq<int>)
    requires n <= |cm|
    ensures forall k :: 0 <= k < |rows| ==> 0 <= rows[k] < n && Sum(cm[rows[k]]) > 0
  {
    if n == 0 then []
    else PositiveRows(cm, n - 1) + (if Sum(cm[n - 1]) > 0 then [n - 1] else [])
  }

  /** Every visited row with a positive sum is listed. */
  lemma {:induction false} PositiveRowsComplete(cm: seq<seq<nat>>, n: nat, i: nat)
    requires i < n <= |cm| && Sum(cm[i]) > 0
    ensures i in PositiveRows(cm, n)
  {
    var rows := PositiveRows(cm, n - 1);
    if i < n - 1 {
      PositiveRowsComplete(cm, n - 1, i);
      var k :| 0 <= k < |rows| && rows[k] == i;
      assert PositiveRows(cm, n)[k] == i;
    } else {
      assert PositiveRows(cm, n) == rows + [i];
      assert PositiveRows(cm, n)[|rows|] == i;
    }
  }

  /** The positive rows are listed in ascending order. */
  lemma {:induction false} PositiveRowsSorted(cm: seq<seq<nat>>, n: nat)
    requires n <= |cm|
    ensures StrictlySorted(PositiveRows(cm, n))
  {
    if n > 0 {
      PositiveRowsSorted(cm, n - 1);
    }
  }

  /** Entry k of `accs` is the recall of the k-th row with positive sum. */
  lemma {:induction false} RecallsFollowPositiveRows(cm: seq<seq<nat>>, n: nat)
    requires Square(cm) && n <= |cm|
    ensures |Recalls(cm, n)| == |PositiveRows(cm, n)|
    ensures forall k :: 0 <= k < |Recalls(cm, n)| ==> Recalls(cm, n)[k] == RecallOf(cm, PositiveRows(cm, n)[k])
  {
    if n > 0 {
      RecallsFollowPositiveRows(cm, n - 1);
    }
  }

  lemma {:induction false} SortedNatsAtLeastIndex(rows: seq<int>, k: nat)
    requires StrictlySorted(rows) && k < |rows|
    requires forall m :: 0 <= m < |rows| ==> rows[m] >= 0
    ensures rows[k] >= k
  {
    if k > 0 { SortedNatsAtLeastIndex(rows, k - 1); }
  }

  lemma {:induction false} SortedNatsFixedPrefix(rows: seq<int>, k: nat, m: nat)
    requires StrictlySorted(rows) && m <= k < |rows|
    requires forall i :: 0 <= i < |rows| ==> rows[i] >= 0
    requires rows[k] == k
    ensures rows[m] == m
    decreases k - m
  {
    SortedNatsAtLeastIndex(rows, m);
    if m < k {
      SortedNatsFixedPrefix(rows, k, m + 1);
    }
  }

  /**
   * A row whose sum is zero is skipped, not recorded as 0: `accs` is shorter
   * than the matrix, and from that row on entry k of `accs` belongs to a row
   * further down than k.
   */
  lemma ZeroRowIsSkipped(cm: seq<seq<nat>>, z: nat)
    requires Square(cm) && z < |cm| && Sum(cm[z]) == 0
    ensures |Recalls(cm, |cm|)| < |cm|
    ensures forall k :: z <= k < |Recalls(cm, |cm|)| ==>
      exists r :: k < r < |cm| && Sum(cm[r]) > 0 && Recalls(cm, |cm|)[k] == RecallOf(cm, r)
  {
    var n := |cm|;
    var rows := PositiveRows(cm, n);
    assert |rows| < n && forall k :: z <= k < |rows| ==> rows[k] > k by {
      PositiveRowsPastZeroRow(cm, z);
    }
    assert |Recalls(cm, n)| == |rows| && forall k :: 0 <= k < |rows| ==> Recalls(cm, n)[k] == RecallOf(cm, rows[k]) by {
      RecallsFollowPositiveRows(cm, n);
    }
    forall k | z <= k < |rows|
      ensures exists r :: k < r < n && Sum(cm[r]) > 0 && Recalls(cm, n)[k] == RecallOf(cm, r)
    {
      var r := rows[k];
      assert k < r < n && Sum(cm[r]) > 0 && Recalls(cm, n)[k] == RecallOf(cm, r);
    }
  }

  /** Past a zero row z, the k-th positive row lies below row k, so fewer rows than the matrix's are positive. */
  lemma PositiveRowsPastZeroRow(cm: seq<seq<nat>>, z: nat)
    requires z < |cm| && Sum(cm[z]) == 0
    ensures |PositiveRows(cm, |cm|)| < |cm|
    ensures forall k :: z <= k < |PositiveRows(cm, |cm|)| ==> PositiveRows(cm, |cm|)[k] > k
  {
    var rows := PositiveRows(cm, |cm|);
    PositiveRowsSorted(cm, |cm|);
    assert z !in rows;
    forall k | z <= k < |rows| ensures rows[k] > k {
      SortedNatsAtLeastIndex(rows, k);
      if rows[k] == k {
        SortedNatsFixedPrefix(rows, k, z);
      }
    }
    if |rows| > z {
      assert rows[|rows| - 1] > |rows| - 1;
    }
  }

  /** With no zero row, `accs` has one entry per row and entry k is row k's recall. */
  lemma {:induction false} RecallsAlignedWithoutZeroRows(cm: seq<seq<nat>>, n: nat)
    requires Square(cm) && n <= |cm|
    requires forall i :: 0 <= i < n ==> Sum(cm[i]) > 0
    ensures |Recalls(cm, n)| == n
    ensures forall k :: 0 <= k < n ==> Recalls(cm, n)[k] == RecallOf(cm, k)
  {
    if n > 0 { RecallsAlignedWithoutZeroRows(cm, n - 1); }
  }

  /**
   * The row loop of utils/util.py:143-148: `row_sum_list` gets every row's
   * sum, `accs` the recall of every row whose sum is positive.
   */
  method RowStatistics(cm: seq<seq<nat>>) returns (rowSums: seq<nat>, accs: seq<real>)
    requires Square(cm)
    ensures |rowSums| == |cm|
    ensures forall i :: 0 <= i < |cm| ==> rowSums[i] == Sum(cm[i])
    ensures accs == Recalls(cm, |cm|)
  {
    rowSums, accs := [], [];
    var i := 0;
    while i < |cm|
      invariant 0 <= i <= |cm|
      invariant |rowSums| == i
      invariant forall k :: 0 <= k < i ==> rowSums[k] == Sum(cm[k])
      invariant accs == Recalls(cm, i)
    {
      var total := Sum(cm[i]);
      if total > 0 {
        accs := accs + [cm[i][i] as real / total as real];
      }
      rowSums := rowSums + [total];
      i := i + 1;
    }
  }

  /** Sum of a list of reals. */
  function SumR(s: seq<real>): real {
    if s == [] then 0.0 else SumR(s[..|s| - 1]) + s[|s| - 1]
  }

  /** `np.mean(accs)`; `None` for the NaN numpy gives on an empty list. */
  function Mean(s: seq<real>): (m: Option<real>)
    ensures m.None? <==> s == []
  {
    if s == [] then None else Some(SumR(s) / |s| as real)
  }

  lemma {:induction false} SumRBetween(s: seq<real>, lo: real, hi: real)
    requires forall k :: 0 <= k < |s| ==> lo <= s[k] <= hi
    ensures lo * |s| as real <= SumR(s) <= hi * |s| as real
  {
    if s != [] { SumRBetween(s[..|s| - 1], lo, hi); }
  }

  /** The mean of values between `lo` and `hi` is between `lo` and `hi`. */
  lemma MeanBetween(s: seq<real>, lo: real, hi: real)
    requires s != []
    requires forall k :: 0 <= k < |s| ==> lo <= s[k] <= hi
    ensures lo <= Mean(s).value <= hi
  {
    SumRBetween(s, lo, hi);
    QuotientBetween(SumR(s), |s| as real, lo, hi);
  }

  lemma QuotientBetween(x: real, n: real, lo: real, hi: real)
    requires n > 0.0 && lo * n <= x <= hi * n
    ensures lo <= x / n <= hi
  {
    assert x / n - lo == (x - lo * n) / n;
    assert hi - x / n == (hi * n - x) / n;
  }

  /**
   * The reported balanced accuracy is undefined (NaN) exactly when no row has
   * a positive sum, and otherwise lies between 0 and 1.
   */
  lemma BalancedAccuracyInUnitInterval(cm: seq<seq<nat>>)
    requires Square(cm)
    ensures Mean(Recalls(cm, |cm|)).None? <==> forall i :: 0 <= i < |cm| ==> Sum(cm[i]) == 0
    ensures Mean(Recalls(cm, |cm|)).Some? ==> 0.0 <= Mean(Recalls(cm, |cm|)).value <= 1.0
  {
    RecallsEmptyIffZeroRows(cm, |cm|);
    var accs := Recalls(cm, |cm|);
    if accs != [] {
      MeanBetween(accs, 0.0, 1.0);
    }
  }

  /** `accs` stays empty exactly as long as every visited row sums to zero. */
  lemma {:induction false} RecallsEmptyIffZeroRows(cm: seq<seq<nat>>, n: nat)
    requires Square(cm) && n <= |cm|
    ensures Recalls(cm, n) == [] <==> forall i :: 0 <= i < n ==> Sum(cm[i]) == 0
  {
    if n > 0 {
      RecallsEmptyIffZeroRows(cm, n - 1);
    }
  }

  /** `np.trace(cm)` restricted to the first n rows. */
  function Trace(cm: seq<seq<nat>>, n: nat): nat
    requires Square(cm) && n <= |cm|
  {
    if n == 0 then 0 else Trace(cm, n - 1) + cm[n - 1][n - 1]
  }

  /** `np.sum(cm)` restricted to the first n rows. */
  function Total(cm: seq<seq<nat>>, n: nat): nat
    requires n <= |cm|
  {
    if n == 0 then 0 else Total(cm, n - 1) + Sum(cm[n - 1])
  }

  /**
   * `np.trace(cm) / np.sum(cm)` (utils/util.py:152), the sample-weighted
   * accuracy; `None` for the NaN of an empty matrix.
   */
  function TraceOverTotal(cm: seq<seq<nat>>): (r: Option<real>)
    requires Square(cm)
    ensures r.None? <==> Total(cm, |cm|) == 0
    ensures r.Some? ==> 0.0 <= r.value <= 1.0
  {
    if Total(cm, |cm|) == 0 then None
    else
      TraceAtMostTotal(cm, |cm|);
      RatioAtMostOne(Trace(cm, |cm|) as real, Total(cm, |cm|) as real);
      Some(Trace(cm, |cm|) as real / Total(cm, |cm|) as real)
  }

  /** The diagonal of the first n rows is part of their total. */
  lemma {:induction false} TraceAtMostTotal(cm: seq<seq<nat>>, n: nat)
    requires Square(cm) && n <= |cm|
    ensures Trace(cm, n) <= Total(cm, n)
  {
    if n > 0 {
      TraceAtMostTotal(cm, n - 1);
      SumBoundsElement(cm[n - 1], n - 1);
    }
  }

  lemma {:induction false} SumRAppend(s: seq<real>, x: real)
    ensures SumR(s + [x]) == SumR(s) + x
  {
    assert (s + [x])[..|s|] == s;
  }

  lemma AddOverCommonDenominator(a: real, b: real, c: real)
    requires c > 0.0
    ensures a / c + b / c == (a + b) / c
  {
  }

  lemma NextMultiple(prev: nat, m: nat, k: nat)
    requires m > 0 && prev as real == (m - 1) as real * k as real
    ensures (prev + k) as real == m as real * k as real
  {
    assert m as real * k as real == (m - 1) as real * k as real + k as real;
  }

  lemma RatioStep(s: real, t: nat, c: nat, sp: nat)
    requires sp > 0 && s == t as real / sp as real
    ensures s + c as real / sp as real == (t + c) as real / sp as real
  {
    AddOverCommonDenominator(t as real, c as real, sp as real);
  }

  lemma PositiveProduct(a: real, b: real)
    requires a > 0.0 && b > 0.0
    ensures a * b > 0.0
  {
  }

  lemma MeanEqualsRatio(accs: seq<real>, n: nat, trace: nat, total: nat, support: nat)
    requires |accs| == n > 0 && support > 0
    requires SumR(accs) == trace as real / support as real
    requires total as real == n as real * support as real
    ensures total > 0 && Mean(accs) == Some(trace as real / total as real)
  {
    PositiveProduct(n as real, support as real);
    MeanFromSum(accs, n, trace as real, support as real, total as real);
  }

  lemma MeanFromSum(accs: seq<real>, n: nat, t: real, sp: real, total: real)
    requires |accs| == n > 0 && sp > 0.0
    requires SumR(accs) == t / sp
    requires total == n as real * sp
    ensures Mean(accs) == Some(t / total)
  {
    var m := n as real;
    assert t / (m * sp) == t / total;
    calc {
      Mean(accs);
      Some(SumR(accs) / m);
      Some((t / sp) / m);
      { DivideTwice(t, sp, m); }
      Some(t / (m * sp));
    }
  }

  lemma DivideBySelf(x: real)
    requires x > 0.0
    ensures x / x == 1.0
  {
  }

  lemma RatioAtMostOne(a: real, b: real)
    requires 0.0 <= a <= b && b > 0.0
    ensures 0.0 <= a / b <= 1.0
  {
  }

  lemma DivideTwice(t: real, s: real, m: real)
    requires s > 0.0 && m > 0.0
    ensures (t / s) / m == t / (m * s)
  {
  }

  lemma {:induction false} SumOfDiagonalRatios(cm: seq<seq<nat>>, n: nat, support: nat, accs: seq<real>)
    requires Square(cm) && n <= |cm| && support > 0
    requires |accs| == n
    requires forall k :: 0 <= k < n ==> accs[k] == cm[k][k] as real / support as real
    ensures SumR(accs) == Trace(cm, n) as real / support as real
  {
    if n > 0 {
      var prev := accs[..n - 1];
      SumOfDiagonalRatios(cm, n - 1, support, prev);
      assert accs == prev + [accs[n - 1]];
      SumRAppend(prev, accs[n - 1]);
      RatioStep(SumR(prev), Trace(cm, n - 1), cm[n - 1][n - 1], support);
    }
  }

  lemma RecallSumWithEqualSupport(cm: seq<seq<nat>>, support: nat)
    requires Square(cm) && support > 0
    requires forall i :: 0 <= i < |cm| ==> Sum(cm[i]) == support
    ensures |Recalls(cm, |cm|)| == |cm|
    ensures SumR(Recalls(cm, |cm|)) == Trace(cm, |cm|) as real / support as real
  {
    RecallsAlignedWithoutZeroRows(cm, |cm|);
    SumOfDiagonalRatios(cm, |cm|, support, Recalls(cm, |cm|));
  }

  lemma {:induction false} TotalWithEqualSupport(cm: seq<seq<nat>>, n: nat, support: nat)
    requires n <= |cm|
    requires forall i :: 0 <= i < |cm| ==> Sum(cm[i]) == support
    ensures Total(cm, n) as real == n as real * support as real
  {
    if n > 0 {
      var prev := Total(cm, n - 1);
      TotalWithEqualSupport(cm, n - 1, support);
      assert Total(cm, n) == prev + support by {
        assert Sum(cm[n - 1]) == support;
      }
      NextMultiple(prev, n, support);
    }
  }

  /**
   * The value computed and then discarded at utils/util.py:152 (trace over
   * total, the sample-weighted accuracy) agrees with the reported unweighted
   * mean of recalls when every class has the same number of true samples.
   */
  lemma BalancedMatchesAccuracyUnderEqualSupport(cm: seq<seq<nat>>, support: nat)
    requires Square(cm) && |cm| > 0 && support > 0
    requires forall i :: 0 <= i < |cm| ==> Sum(cm[i]) == support
    ensures Mean(Recalls(cm, |cm|)) == TraceOverTotal(cm)
  {
    var n := |cm|;
    RecallSumWithEqualSupport(cm, support);
    TotalWithEqualSupport(cm, n, support);
    MeanEqualsRatio(Recalls(cm, n), n, Trace(cm, n), Total(cm, n), support);
  }
}
