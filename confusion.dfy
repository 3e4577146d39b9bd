/**
 * The confusion matrix `plot_confusion_matrix` obtains from sklearn's
 * `confusion_matrix(y_true, y_pred)` (utils/util.py:141). With no `labels`
 * argument, sklearn indexes rows (true label) and columns (predicted label)
 * by the sorted distinct labels of both arrays together; this module takes
 * that documented behaviour as its definition.
 */
module Confusion {
  import opened Labels

  /** Number of samples `k` with `yTrue[k] == t` and `yPred[k] == p`. */
  function CountPairs(yTrue: seq<int>, yPred: seq<int>, t: int, p: int): (n: nat)
    requires |yTrue| == |yPred|
    ensures n <= Count(yTrue, t)
  {
    if yTrue == [] then 0
    else (if yTrue[0] == t && yPred[0] == p then 1 else 0) + CountPairs(yTrue[1..], yPred[1..], t, p)
  }

  /** One matrix row: the samples with true label `t`, split by predicted label over `cols`. */
  function Row(yTrue: seq<int>, yPred: seq<int>, t: int, cols: seq<int>): (r: seq<nat>)
    requires |yTrue| == |yPred|
    ensures |r| == |cols|
  {
    if cols == [] then [] else [CountPairs(yTrue, yPred, t, cols[0])] + Row(yTrue, yPred, t, cols[1..])
  }

  /** The matrix `cm` of utils/util.py:141-142: `cm[i][j]` counts samples with true label `labels[i]` predicted as `labels[j]`. */
  function ConfusionMatrix(yTrue: seq<int>, yPred: seq<int>): (cm: seq<seq<nat>>)
    requires |yTrue| == |yPred|
    ensures |cm| == |UniqueLabels(yTrue + yPred)|
    ensures Square(cm)
  {
    var labels := UniqueLabels(yTrue + yPred);
    seq(|labels|, i requires 0 <= i < |labels| => Row(yTrue, yPred, labels[i], labels))
  }

  /** Every row has as many cells as there are rows. */
  predicate Square(cm: seq<seq<nat>>) {
    forall i :: 0 <= i < |cm| ==> |cm[i]| == |cm|
  }

  /** `np.sum(row)`. */
  function Sum(s: seq<nat>): nat {
    if s == [] then 0 else s[0] + Sum(s[1..])
  }

  lemma {:induction false} SumBoundsElement(s: seq<nat>, k: nat)
    requires k < |s|
    ensures s[k] <= Sum(s)
  {
    if k > 0 { SumBoundsElement(s[1..], k - 1); }
  }

  lemma {:induction false} SumPositiveHasPositive(s: seq<nat>) returns (k: nat)
    requires Sum(s) > 0
    ensures k < |s| && s[k] > 0
  {
    if s[0] > 0 { k := 0; } else { k := SumPositiveHasPositive(s[1..]); k := k + 1; }
  }

  lemma {:induction false} RowAt(yTrue: seq<int>, yPred: seq<int>, t: int, cols: seq<int>, j: nat)
    requires |yTrue| == |yPred| && j < |cols|
    ensures Row(yTrue, yPred, t, cols)[j] == CountPairs(yTrue, yPred, t, cols[j])
  {
    if j > 0 { RowAt(yTrue, yPred, t, cols[1..], j - 1); }
  }

  /**
   * The matrix is square, has one row and column per distinct label, and
   * cell (i, j) counts the samples whose true label is the i-th distinct
   * label and whose predicted label is the j-th.
   */
  lemma ConfusionMatrixCells(yTrue: seq<int>, yPred: seq<int>)
    requires |yTrue| == |yPred|
    ensures var cm, labels := ConfusionMatrix(yTrue, yPred), UniqueLabels(yTrue + yPred);
      && |cm| == |labels|
      && Square(cm)
      && forall i, j :: 0 <= i < |cm| && 0 <= j < |cm| ==> cm[i][j] == CountPairs(yTrue, yPred, labels[i], labels[j])
  {
    var cm, labels := ConfusionMatrix(yTrue, yPred), UniqueLabels(yTrue + yPred);
    forall i, j | 0 <= i < |cm| && 0 <= j < |cm|
      ensures cm[i][j] == CountPairs(yTrue, yPred, labels[i], labels[j])
    {
      RowAt(yTrue, yPred, labels[i], labels, j);
    }
  }

  lemma {:induction false} RowPeel(yTrue: seq<int>, yPred: seq<int>, t: int, cols: seq<int>)
    requires |yTrue| == |yPred| > 0
    requires StrictlySorted(cols)
    ensures Sum(Row(yTrue, yPred, t, cols))
         == (if yTrue[0] == t && yPred[0] in cols then 1 else 0) + Sum(Row(yTrue[1..], yPred[1..], t, cols))
  {
    if cols != [] {
      RowPeel(yTrue, yPred, t, cols[1..]);
      assert yPred[0] in cols <==> yPred[0] == cols[0] || yPred[0] in cols[1..];
      if yPred[0] == cols[0] {
        assert yPred[0] !in cols[1..] by {
          forall k | 0 <= k < |cols[1..]| ensures cols[1..][k] != yPred[0] {
            assert cols[1..][k] == cols[k + 1];
          }
        }
      }
    }
  }

  lemma {:induction false} EmptyRowSum(t: int, cols: seq<int>)
    ensures Sum(Row([], [], t, cols)) == 0
  {
    if cols != [] { EmptyRowSum(t, cols[1..]); }
  }

  lemma {:induction false} RowSumCountsTrue(yTrue: seq<int>, yPred: seq<int>, t: int, cols: seq<int>)
    requires |yTrue| == |yPred|
    requires StrictlySorted(cols)
    requires forall k :: 0 <= k < |yPred| ==> yPred[k] in cols
    ensures Sum(Row(yTrue, yPred, t, cols)) == Count(yTrue, t)
  {
    if yTrue == [] {
      EmptyRowSum(t, cols);
    } else {
      RowPeel(yTrue, yPred, t, cols);
      RowSumCountsTrue(yTrue[1..], yPred[1..], t, cols);
    }
  }

  /** Row i sums to the number of samples whose true label is the i-th distinct label. */
  lemma RowSumIsSupport(yTrue: seq<int>, yPred: seq<int>, i: nat)
    requires |yTrue| == |yPred|
    requires i < |UniqueLabels(yTrue + yPred)|
    ensures Sum(ConfusionMatrix(yTrue, yPred)[i]) == Count(yTrue, UniqueLabels(yTrue + yPred)[i])
  {
    var labels := UniqueLabels(yTrue + yPred);
    forall k | 0 <= k < |yPred| ensures yPred[k] in labels {
      assert (yTrue + yPred)[|yTrue| + k] == yPred[k];
    }
    RowSumCountsTrue(yTrue, yPred, labels[i], labels);
  }

  /** Every sample is counted in the cell of its own (true, predicted) pair. */
  lemma {:induction false} SampleIsCounted(yTrue: seq<int>, yPred: seq<int>, k: nat)
    requires |yTrue| == |yPred| && k < |yTrue|
    ensures CountPairs(yTrue, yPred, yTrue[k], yPred[k]) > 0
  {
    if k > 0 { SampleIsCounted(yTrue[1..], yPred[1..], k - 1); }
  }

  /** When every prediction is right, off-diagonal pairs are never counted and diagonal pairs count the class. */
  lemma {:induction false} PerfectPairs(y: seq<int>, t: int, p: int)
    ensures CountPairs(y, y, t, p) == if t == p then Count(y, t) else 0
  {
    if y != [] { PerfectPairs(y[1..], t, p); }
  }

  /** When no prediction is right, no sample is counted on the diagonal. */
  lemma {:induction false} MissedPairs(yTrue: seq<int>, yPred: seq<int>, t: int)
    requires |yTrue| == |yPred|
    requires forall k :: 0 <= k < |yTrue| ==> yTrue[k] != yPred[k]
    ensures CountPairs(yTrue, yPred, t, t) == 0
  {
    if yTrue != [] {
      assert forall k :: 0 <= k < |yTrue| - 1 ==> yTrue[1..][k] == yTrue[k + 1] && yPred[1..][k] == yPred[k + 1];
      MissedPairs(yTrue[1..], yPred[1..], t);
    }
  }
}
