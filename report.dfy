/**
 * The numeric part of `plot_confusion_matrix` (utils/util.py:110-216) put
 * together: the class names shown, the dictionaries it prints, the title and
 * the annotation colours, with the exceptions it can raise on the way.
 */
module ConfusionReport {
  import opened Wrappers
  import opened Labels
  import opened Confusion
  import opened Recall
  import opened Display

  /** The plot title (utils/util.py:177-181). */
  datatype Title = Given(text: string) | NormalizedTitle | AverageRecall(percent: Option<real>)

  /** Everything the function computes before and while it draws. */
  datatype Summary<Name> = Summary(
    labels: seq<int>,                    // unique_labels(y_true, y_pred)
    cm: seq<seq<nat>>,                   // confusion_matrix(y_true, y_pred)
    rowSums: seq<nat>,                   // row_sum_list
    accs: seq<real>,                     // accs, before '%.2f' formatting
    balanced: Option<real>,              // balanced_accuracy, also balanced_accuracy_adjust
    classList: seq<Name>,                // class_list
    shown: seq<seq<Cell>>,               // the matrix handed to imshow
    title: Title,
    colours: seq<seq<Colour>>)           // colour of each cell's annotation

  /**
   * The loop of utils/util.py:160: the name of every label, in label order;
   * the first label that is not a valid index into `classes` raises IndexError.
   */
  method ClassList<Name>(labels: seq<int>, classes: seq<Name>) returns (r: Result<seq<Name>, Error>)
    ensures r.Success? <==> forall k :: 0 <= k < |labels| ==> InRange(|classes|, labels[k])
    ensures r.Success? ==> |r.value| == |labels|
    ensures r.Success? ==> forall k :: 0 <= k < |labels| ==> r.value[k] == classes[PyIndex(|classes|, labels[k])]
    ensures r.Failure? ==> exists k :: (0 <= k < |labels| && r.error == LabelOutOfRange(labels[k])
      && !InRange(|classes|, labels[k]) && forall m :: 0 <= m < k ==> InRange(|classes|, labels[m]))
  {
    var names: seq<Name> := [];
    for k := 0 to |labels|
      invariant |names| == k
      invariant forall m :: 0 <= m < k ==> InRange(|classes|, labels[m])
      invariant forall m :: 0 <= m < k ==> names[m] == classes[PyIndex(|classes|, labels[m])]
    {
      if !InRange(|classes|, labels[k]) {
        return Failure(LabelOutOfRange(labels[k]));
      }
      names := names + [classes[PyIndex(|classes|, labels[k])]];
    }
    return Success(names);
  }

  /** No later position within the first n holds the same key as position i. */
  predicate LastAt<K(==)>(keys: seq<K>, i: nat, n: nat) {
    forall j :: i < j < |keys| && j < n ==> keys[j] != keys[i]
  }

  /**
   * `dict(zip(keys, vals))`: `zip` stops at the shorter sequence, and a key
   * that repeats keeps the value paired with its last occurrence.
   */
  function ZipDict<K(==), V>(keys: seq<K>, vals: seq<V>): (d: map<K, V>)
    ensures forall k :: k in d ==> k in keys
  {
    var n := if |keys| < |vals| then |keys| else |vals|;
    if n == 0 then map[] else ZipDict(keys[..n - 1], vals[..n - 1])[keys[n - 1] := vals[n - 1]]
  }

  /** A key is in the dictionary exactly when it is paired with some value. */
  lemma {:induction false} ZipDictHasKey<K, V>(keys: seq<K>, vals: seq<V>, k: K)
    ensures k in ZipDict(keys, vals) <==> exists i :: 0 <= i < |keys| && i < |vals| && keys[i] == k
  {
    var n := if |keys| < |vals| then |keys| else |vals|;
    if n > 0 {
      var ks, vs := keys[..n - 1], vals[..n - 1];
      ZipDictHasKey(ks, vs, k);
      if k in ZipDict(ks, vs) {
        var i :| 0 <= i < |ks| && i < |vs| && ks[i] == k;
        assert keys[i] == k;
      }
      if exists i :: 0 <= i < |keys| && i < |vals| && keys[i] == k {
        var i :| 0 <= i < |keys| && i < |vals| && keys[i] == k;
        if i < n - 1 {
          assert ks[i] == k;
        }
      }
    }
  }

  /** The keys of `dict(zip(keys, vals))` are the keys that have a partner value. */
  lemma ZipDictKeys<K, V>(keys: seq<K>, vals: seq<V>)
    ensures forall k :: k in ZipDict(keys, vals) <==> exists i :: 0 <= i < |keys| && i < |vals| && keys[i] == k
  {
    forall k ensures k in ZipDict(keys, vals) <==> exists i :: 0 <= i < |keys| && i < |vals| && keys[i] == k {
      ZipDictHasKey(keys, vals, k);
    }
  }

  /** A key's last occurrence within the zipped prefix decides its value. */
  lemma {:induction false} ZipDictLastWins<K, V>(keys: seq<K>, vals: seq<V>, i: nat)
    requires i < |keys| && i < |vals| && LastAt(keys, i, |vals|)
    ensures keys[i] in ZipDict(keys, vals) && ZipDict(keys, vals)[keys[i]] == vals[i]
  {
    var n := if |keys| < |vals| then |keys| else |vals|;
    if i < n - 1 {
      var ks, vs := keys[..n - 1], vals[..n - 1];
      assert LastAt(ks, i, |vs|);
      ZipDictLastWins(ks, vs, i);
      assert keys[n - 1] != keys[i];
    }
  }

  /** `row_total_counts` (utils/util.py:163): the shown names zipped with `row_sum_list`. */
  function RowTotalCounts<K(==)>(classList: seq<K>, rowSums: seq<nat>): map<K, nat> {
    ZipDict(classList, rowSums)
  }

  /** `accuracy_per_cell` (utils/util.py:165): the shown names zipped with `accs`, before '%.2f' formatting. */
  function AccuracyPerCell<K(==)>(classList: seq<K>, accs: seq<real>): map<K, real> {
    ZipDict(classList, accs)
  }

  predicate Distinct<K(==)>(names: seq<K>) {
    forall i, j :: 0 <= i < j < |names| ==> names[i] != names[j]
  }

  /** With distinct names, `dict(zip(names, vals))` maps name i to value i for every i both cover. */
  lemma ZipDictDistinct<K, V>(names: seq<K>, vals: seq<V>)
    requires Distinct(names)
    ensures forall i :: 0 <= i < |names| && i < |vals| ==> names[i] in ZipDict(names, vals) && ZipDict(names, vals)[names[i]] == vals[i]
  {
    forall i | 0 <= i < |names| && i < |vals|
      ensures names[i] in ZipDict(names, vals) && ZipDict(names, vals)[names[i]] == vals[i]
    {
      ZipDictLastWins(names, vals, i);
    }
  }

  lemma RowTotalCountsDistinct<K>(classList: seq<K>, rowSums: seq<nat>)
    requires Distinct(classList) && |classList| == |rowSums|
    ensures forall i :: 0 <= i < |classList| ==>
      classList[i] in RowTotalCounts(classList, rowSums) && RowTotalCounts(classList, rowSums)[classList[i]] == rowSums[i]
  {
    ZipDictDistinct(classList, rowSums);
  }

  /**
   * `row_total_counts` (utils/util.py:163): with distinct class names, each
   * shown name is paired with its own row total, which is the number of
   * samples of that class.
   */
  lemma RowTotalCountsOneToOne<K>(yTrue: seq<int>, yPred: seq<int>, classList: seq<K>)
    requires |yTrue| == |yPred|
    requires |classList| == |UniqueLabels(yTrue + yPred)| && Distinct(classList)
    ensures var labels := UniqueLabels(yTrue + yPred);
      var cm := ConfusionMatrix(yTrue, yPred);
      var rowSums := seq(|cm|, i requires 0 <= i < |cm| => Sum(cm[i]));
      forall i :: 0 <= i < |labels| ==>
        classList[i] in RowTotalCounts(classList, rowSums) && RowTotalCounts(classList, rowSums)[classList[i]] == Count(yTrue, labels[i])
  {
    var labels := UniqueLabels(yTrue + yPred);
    var cm := ConfusionMatrix(yTrue, yPred);
    var rowSums := seq(|cm|, i requires 0 <= i < |cm| => Sum(cm[i]));
    var d := RowTotalCounts(classList, rowSums);
    assert forall i :: 0 <= i < |labels| ==> rowSums[i] == Count(yTrue, labels[i]) by {
      forall i | 0 <= i < |labels| ensures rowSums[i] == Count(yTrue, labels[i]) {
        RowSumIsSupport(yTrue, yPred, i);
      }
    }
    RowTotalCountsDistinct(classList, rowSums);
  }

  /**
   * `accuracy_per_cell` (utils/util.py:165) pairs names and `accs` by
   * position: name k gets entry k of `accs`, the recall of the k-th row with
   * a positive sum, and the names from position `|accs|` on, one per zero
   * row, are left out.
   */
  lemma AccuracyPerCellFollowsPositiveRows<K>(cm: seq<seq<nat>>, classList: seq<K>)
    requires Square(cm) && |classList| == |cm| && Distinct(classList)
    ensures |Recalls(cm, |cm|)| == |PositiveRows(cm, |cm|)|
    ensures forall k :: 0 <= k < |Recalls(cm, |cm|)| ==> (classList[k] in AccuracyPerCell(classList, Recalls(cm, |cm|))
      && AccuracyPerCell(classList, Recalls(cm, |cm|))[classList[k]] == RecallOf(cm, PositiveRows(cm, |cm|)[k]))
    ensures forall k :: |Recalls(cm, |cm|)| <= k < |cm| ==> classList[k] !in AccuracyPerCell(classList, Recalls(cm, |cm|))
  {
    RecallsFollowPositiveRows(cm, |cm|);
    AccuracyPerCellPositional(classList, Recalls(cm, |cm|));
  }

  /**
   * After a zero row, `accuracy_per_cell` leaves out at least the last name,
   * and from that row on each name gets the recall of a class further down
   * the list.
   */
  lemma AccuracyPerCellShifts<K>(cm: seq<seq<nat>>, classList: seq<K>, z: nat)
    requires Square(cm) && |classList| == |cm| && Distinct(classList)
    requires z < |cm| && Sum(cm[z]) == 0
    ensures |Recalls(cm, |cm|)| < |cm|
    ensures classList[|cm| - 1] !in AccuracyPerCell(classList, Recalls(cm, |cm|))
    ensures forall k :: z <= k < |Recalls(cm, |cm|)| ==> (classList[k] in AccuracyPerCell(classList, Recalls(cm, |cm|))
      && exists r :: k < r < |cm| && Sum(cm[r]) > 0 && AccuracyPerCell(classList, Recalls(cm, |cm|))[classList[k]] == RecallOf(cm, r))
  {
    var accs := Recalls(cm, |cm|);
    var d := AccuracyPerCell(classList, accs);
    assert |accs| < |cm| by {
      ZeroRowIsSkipped(cm, z);
    }
    AccuracyPerCellPositional(classList, accs);
    forall k | z <= k < |accs|
      ensures exists r :: k < r < |cm| && Sum(cm[r]) > 0 && d[classList[k]] == RecallOf(cm, r)
    {
      assert exists r :: k < r < |cm| && Sum(cm[r]) > 0 && accs[k] == RecallOf(cm, r) by {
        ZeroRowIsSkipped(cm, z);
      }
      var r :| k < r < |cm| && Sum(cm[r]) > 0 && accs[k] == RecallOf(cm, r);
      assert d[classList[k]] == RecallOf(cm, r);
    }
  }

  /** With distinct names, name k maps to `accs[k]`, and the names past the end of `accs` are absent. */
  lemma AccuracyPerCellPositional<K>(classList: seq<K>, accs: seq<real>)
    requires Distinct(classList) && |accs| <= |classList|
    ensures forall k :: 0 <= k < |accs| ==>
      classList[k] in AccuracyPerCell(classList, accs) && AccuracyPerCell(classList, accs)[classList[k]] == accs[k]
    ensures forall k :: |accs| <= k < |classList| ==> classList[k] !in AccuracyPerCell(classList, accs)
  {
    ZipDictDistinct(classList, accs);
    forall k | |accs| <= k < |classList| ensures classList[k] !in ZipDict(classList, accs) {
      ZipDictHasKey(classList, accs, classList[k]);
    }
  }

  /** The names of the given rows, in the same order. */
  function NamesOf<K>(classList: seq<K>, rows: seq<int>): (names: seq<K>)
    requires forall k :: 0 <= k < |rows| ==> 0 <= rows[k] < |classList|
    ensures |names| == |rows|
    ensures forall k :: 0 <= k < |rows| ==> names[k] == classList[rows[k]]
  {
    seq(|rows|, k requires 0 <= k < |rows| => classList[rows[k]])
  }

  /**
   * The per-class accuracy dictionary as evidently intended: the name of each
   * row that produced an entry of `accs`, paired with that entry.
   */
  function RecallPerClass<K(==)>(cm: seq<seq<nat>>, classList: seq<K>): map<K, real>
    requires Square(cm) && |classList| == |cm|
  {
    ZipDict(NamesOf(classList, PositiveRows(cm, |cm|)), Recalls(cm, |cm|))
  }

  /**
   * With distinct names, `RecallPerClass` has an entry for exactly the
   * classes with a positive row sum, and that entry is the class's own recall.
   */
  lemma RecallPerClassAligned<K>(cm: seq<seq<nat>>, classList: seq<K>)
    requires Square(cm) && |classList| == |cm| && Distinct(classList)
    ensures forall i :: 0 <= i < |cm| ==> (classList[i] in RecallPerClass(cm, classList) <==> Sum(cm[i]) > 0)
    ensures forall i :: 0 <= i < |cm| && Sum(cm[i]) > 0 ==> RecallPerClass(cm, classList)[classList[i]] == RecallOf(cm, i)
  {
    var d := RecallPerClass(cm, classList);
    forall i | 0 <= i < |cm| && Sum(cm[i]) > 0
      ensures classList[i] in d && d[classList[i]] == RecallOf(cm, i)
    {
      PositiveRowHasOwnRecall(cm, classList, i);
    }
    forall i | 0 <= i < |cm| && classList[i] in d ensures Sum(cm[i]) > 0 {
      var rows, accs := PositiveRows(cm, |cm|), Recalls(cm, |cm|);
      RecallsFollowPositiveRows(cm, |cm|);
      var names := NamesOf(classList, rows);
      ZipDictHasKey(names, accs, classList[i]);
      var k :| 0 <= k < |names| && k < |accs| && names[k] == classList[i];
      assert rows[k] == i;
    }
  }

  lemma PositiveRowHasOwnRecall<K>(cm: seq<seq<nat>>, classList: seq<K>, i: nat)
    requires Square(cm) && |classList| == |cm| && Distinct(classList)
    requires i < |cm| && Sum(cm[i]) > 0
    ensures classList[i] in RecallPerClass(cm, classList)
    ensures RecallPerClass(cm, classList)[classList[i]] == RecallOf(cm, i)
  {
    var rows, accs := PositiveRows(cm, |cm|), Recalls(cm, |cm|);
    RecallsFollowPositiveRows(cm, |cm|);
    var names := NamesOf(classList, rows);
    assert RecallPerClass(cm, classList) == ZipDict(names, accs);
    assert Distinct(names) by {
      PositiveRowsSorted(cm, |cm|);
      forall a, b | 0 <= a < b < |names| ensures names[a] != names[b] {
        assert rows[a] < rows[b];
      }
    }
    ZipDictDistinct(names, accs);
    PositiveRowsComplete(cm, |cm|, i);
    var k :| 0 <= k < |rows| && rows[k] == i;
    assert names[k] == classList[i];
  }

  /** The title rule of utils/util.py:177-181: a non-empty given title wins. */
  function ChooseTitle(title: Option<string>, normalize: bool, balanced: Option<real>): (t: Title)
    ensures t.Given? <==> title.Some? && title.value != ""
    ensures t.Given? ==> t.text == title.value
    ensures t.NormalizedTitle? <==> !t.Given? && normalize
    ensures t.AverageRecall? ==> (t.percent.Some? <==> balanced.Some?)
  {
    if title.Some? && title.value != "" then Given(title.value)
    else if normalize then NormalizedTitle
    else AverageRecall(if balanced.Some? then Some(balanced.value * 100.0) else None)
  }

  /**
   * With no title and no normalization the title shows the balanced
   * accuracy, the mean of the recalls, as a percentage between 0 and 100
   * (utils/util.py:150-153, 181); it is NaN exactly when every row sums to zero.
   */
  lemma DefaultTitleShowsMeanRecall(cm: seq<seq<nat>>, title: Option<string>)
    requires Square(cm)
    requires title.None? || title == Some("")
    ensures var t := ChooseTitle(title, false, Mean(Recalls(cm, |cm|)));
      && t.AverageRecall?
      && (t.percent.None? <==> forall i :: 0 <= i < |cm| ==> Sum(cm[i]) == 0)
      && (t.percent.Some? ==> t.percent.value == 100.0 * Mean(Recalls(cm, |cm|)).value && 0.0 <= t.percent.value <= 100.0)
  {
    BalancedAccuracyInUnitInterval(cm);
  }

  /** Every label is a valid Python index into a list of n names. */
  predicate AllInRange(ys: seq<int>, n: nat) {
    forall k :: 0 <= k < |ys| ==> InRange(n, ys[k])
  }

  /** y is the smallest label in ys that is not a valid index into n names. */
  predicate SmallestOutOfRange(ys: seq<int>, n: nat, y: int) {
    && y in ys
    && !InRange(n, y)
    && forall k :: 0 <= k < |ys| && ys[k] < y ==> InRange(n, ys[k])
  }

  /** Some predicted label never occurs as a true label. */
  predicate PredictedOnly(yTrue: seq<int>, yPred: seq<int>) {
    exists k :: 0 <= k < |yPred| && yPred[k] !in yTrue
  }

  /** The distinct labels are all in range exactly when every sample's label is. */
  lemma DistinctLabelsInRange(ys: seq<int>, n: nat)
    ensures AllInRange(UniqueLabels(ys), n) <==> AllInRange(ys, n)
  {
    var labels := UniqueLabels(ys);
    if AllInRange(ys, n) {
      forall k | 0 <= k < |labels| ensures InRange(n, labels[k]) {
        assert labels[k] in ys;
      }
    }
    if AllInRange(labels, n) {
      forall k | 0 <= k < |ys| ensures InRange(n, ys[k]) {
        assert ys[k] in labels;
      }
    }
  }

  /**
   * The label loop visits labels in ascending order, so the first one that
   * fails is the smallest out-of-range label among all samples.
   */
  lemma FirstFailingLabelIsSmallest(ys: seq<int>, n: nat, k: nat)
    requires k < |UniqueLabels(ys)| && !InRange(n, UniqueLabels(ys)[k])
    requires forall m :: 0 <= m < k ==> InRange(n, UniqueLabels(ys)[m])
    ensures SmallestOutOfRange(ys, n, UniqueLabels(ys)[k])
  {
    var labels := UniqueLabels(ys);
    assert labels[k] in labels;
    forall j | 0 <= j < |ys| && ys[j] < labels[k] ensures InRange(n, ys[j]) {
      assert ys[j] in labels;
      var m :| 0 <= m < |labels| && labels[m] == ys[j];
    }
  }

  /** The matrix has a row exactly when there is a sample. */
  lemma MatrixNonEmptyIffSamples(yTrue: seq<int>, yPred: seq<int>)
    requires |yTrue| == |yPred|
    ensures |ConfusionMatrix(yTrue, yPred)| > 0 <==> |yTrue| > 0
  {
    var labels := UniqueLabels(yTrue + yPred);
    if |yTrue| > 0 {
      assert (yTrue + yPred)[0] in labels;
    }
    if labels != [] {
      assert labels[0] in labels;
    }
  }

  /** Row i sums to zero exactly when its label occurs only among the predictions. */
  lemma ZeroRowIsPredictedOnlyLabel(yTrue: seq<int>, yPred: seq<int>, i: nat)
    requires |yTrue| == |yPred| && i < |UniqueLabels(yTrue + yPred)|
    ensures Sum(ConfusionMatrix(yTrue, yPred)[i]) == 0 <==> UniqueLabels(yTrue + yPred)[i] !in yTrue
    ensures UniqueLabels(yTrue + yPred)[i] in yTrue || UniqueLabels(yTrue + yPred)[i] in yPred
  {
    RowSumIsSupport(yTrue, yPred, i);
    assert UniqueLabels(yTrue + yPred)[i] in UniqueLabels(yTrue + yPred);
  }

  /** The first sample is counted in a cell of the matrix, which is therefore positive. */
  lemma SampleCell(yTrue: seq<int>, yPred: seq<int>) returns (i: nat, j: nat)
    requires |yTrue| == |yPred| > 0
    ensures i < |ConfusionMatrix(yTrue, yPred)| && j < |ConfusionMatrix(yTrue, yPred)|
    ensures ConfusionMatrix(yTrue, yPred)[i][j] > 0
  {
    var labels := UniqueLabels(yTrue + yPred);
    assert (yTrue + yPred)[0] in labels && (yTrue + yPred)[|yTrue|] in labels;
    i :| 0 <= i < |labels| && labels[i] == yTrue[0];
    j :| 0 <= j < |labels| && labels[j] == yPred[0];
    ConfusionMatrixCells(yTrue, yPred);
    SampleIsCounted(yTrue, yPred, 0);
  }

  /**
   * Without normalization the threshold of utils/util.py:205-207 is bound
   * exactly when there is at least one sample: every sample makes a positive
   * count.
   */
  lemma RawThresholdDefined(yTrue: seq<int>, yPred: seq<int>)
    requires |yTrue| == |yPred|
    ensures Threshold(Counts(ConfusionMatrix(yTrue, yPred))).Some? <==> |yTrue| > 0
  {
    var m: seq<seq<Cell>> := Counts(ConfusionMatrix(yTrue, yPred));
    MatrixNonEmptyIffSamples(yTrue, yPred);
    if |yTrue| > 0 {
      var i, j := SampleCell(yTrue, yPred);
      assert m[i][j].value > 0.0;
    }
  }

  /**
   * With normalization the threshold is bound exactly when there is a sample
   * and no label occurs only among the predictions: such a label's row is
   * all NaN, and then `cm.max()` is NaN and `cm.max() > 0` is false.
   */
  lemma NormalizedThresholdDefined(yTrue: seq<int>, yPred: seq<int>)
    requires |yTrue| == |yPred|
    ensures Threshold(Normalize(ConfusionMatrix(yTrue, yPred))).Some? <==> |yTrue| > 0 && !PredictedOnly(yTrue, yPred)
  {
    var cm, labels := ConfusionMatrix(yTrue, yPred), UniqueLabels(yTrue + yPred);
    var m: seq<seq<Cell>> := Normalize(cm);
    MatrixNonEmptyIffSamples(yTrue, yPred);
    if PredictedOnly(yTrue, yPred) {
      var k :| 0 <= k < |yPred| && yPred[k] !in yTrue;
      assert (yTrue + yPred)[|yTrue| + k] in labels;
      var i :| 0 <= i < |labels| && labels[i] == yPred[k];
      ZeroRowIsPredictedOnlyLabel(yTrue, yPred, i);
      assert m[i][0].NaN?;
    } else if |yTrue| > 0 {
      assert forall i :: 0 <= i < |cm| ==> Sum(cm[i]) > 0 by {
        forall i | 0 <= i < |cm| ensures Sum(cm[i]) > 0 {
          ZeroRowIsPredictedOnlyLabel(yTrue, yPred, i);
        }
      }
      var j := SumPositiveHasPositive(cm[0]);
      assert m[0][j].value > 0.0;
      assert !HasNaN(m);
    }
  }

  /** The displayed matrix: row-normalized ratios or the raw counts. */
  function Shown(cm: seq<seq<nat>>, normalize: bool): seq<seq<Cell>> {
    if normalize then Normalize(cm) else Counts(cm)
  }

  /**
   * The annotation loop reads an unbound `thresh` exactly when normalization
   * is on and some label occurs only among the predictions.
   */
  lemma ThresholdUnboundExactly(yTrue: seq<int>, yPred: seq<int>, normalize: bool)
    requires |yTrue| == |yPred|
    ensures var shown := Shown(ConfusionMatrix(yTrue, yPred), normalize);
      && (HasCell(shown) <==> |yTrue| > 0)
      && (Threshold(shown).None? && HasCell(shown) <==> normalize && PredictedOnly(yTrue, yPred))
  {
    var cm := ConfusionMatrix(yTrue, yPred);
    var shown := Shown(cm, normalize);
    MatrixNonEmptyIffSamples(yTrue, yPred);
    if |cm| > 0 {
      assert |shown[0]| > 0;
    }
    if normalize { NormalizedThresholdDefined(yTrue, yPred); } else { RawThresholdDefined(yTrue, yPred); }
  }

  /**
   * `plot_confusion_matrix` from its inputs to everything it computes
   * (utils/util.py:141-213), or the exception it raises: sklearn's
   * ValueError for arrays of different lengths, IndexError from
   * `classes[item]`, or UnboundLocalError when `thresh` was never bound.
   */
  method PlotConfusionMatrix<Name(==)>(yTrue: seq<int>, yPred: seq<int>, classes: seq<Name>, normalize: bool, title: Option<string>)
    returns (r: Result<Summary<Name>, Error>)
    ensures r == Failure(LengthMismatch) <==> |yTrue| != |yPred|
    ensures (r.Failure? && r.error.LabelOutOfRange?) <==> |yTrue| == |yPred| && !AllInRange(yTrue + yPred, |classes|)
    ensures r.Failure? && r.error.LabelOutOfRange? ==> SmallestOutOfRange(yTrue + yPred, |classes|, r.error.item)
    ensures r == Failure(ThresholdUnbound) <==>
      |yTrue| == |yPred| && AllInRange(yTrue + yPred, |classes|) && normalize && PredictedOnly(yTrue, yPred)
    ensures r.Success? ==> r.value.labels == UniqueLabels(yTrue + yPred) && r.value.cm == ConfusionMatrix(yTrue, yPred)
    ensures r.Success? ==> (|r.value.rowSums| == |r.value.labels|
      && forall i :: 0 <= i < |r.value.labels| ==> r.value.rowSums[i] == Count(yTrue, r.value.labels[i]))
    ensures r.Success? ==> r.value.accs == Recalls(r.value.cm, |r.value.cm|) && r.value.balanced == Mean(r.value.accs)
    ensures r.Success? ==> (AllInRange(r.value.labels, |classes|) && |r.value.classList| == |r.value.labels|
      && forall i :: 0 <= i < |r.value.labels| ==> r.value.classList[i] == classes[PyIndex(|classes|, r.value.labels[i])])
    ensures r.Success? ==> (r.value.shown == Shown(r.value.cm, normalize)
      && r.value.title == ChooseTitle(title, normalize, r.value.balanced))
    ensures r.Success? ==> ((|yTrue| > 0 <==> Threshold(r.value.shown).Some?)
      && r.value.colours == ColourGrid(r.value.shown, if |yTrue| > 0 then Threshold(r.value.shown).value else 0.0))
  {
    if |yTrue| != |yPred| {
      return Failure(LengthMismatch);
    }
    var labels := UniqueLabels(yTrue + yPred);
    var cm := ConfusionMatrix(yTrue, yPred);
    var rowSums, accs := RowStatistics(cm);
    var balanced := Mean(accs);
    assert AllInRange(labels, |classes|) <==> AllInRange(yTrue + yPred, |classes|) by {
      DistinctLabelsInRange(yTrue + yPred, |classes|);
    }
    var classList := ClassList(labels, classes);
    if classList.Failure? {
      var k :| 0 <= k < |labels| && classList.error == LabelOutOfRange(labels[k])
        && !InRange(|classes|, labels[k]) && forall m :: 0 <= m < k ==> InRange(|classes|, labels[m]);
      FirstFailingLabelIsSmallest(yTrue + yPred, |classes|, k);
      return Failure(classList.error);
    }
    var names := classList.value;
    var shown := Shown(cm, normalize);
    var shownTitle := ChooseTitle(title, normalize, balanced);
    var thresh := Threshold(shown);
    var colours := Annotate(shown, thresh);
    assert (HasCell(shown) <==> |yTrue| > 0)
      && (thresh.None? && HasCell(shown) <==> normalize && PredictedOnly(yTrue, yPred)) by {
      ThresholdUnboundExactly(yTrue, yPred, normalize);
    }
    if colours.Failure? {
      return Failure(colours.error);
    }
    assert forall i :: 0 <= i < |labels| ==> rowSums[i] == Count(yTrue, labels[i]) by {
      forall i | 0 <= i < |labels| ensures rowSums[i] == Count(yTrue, labels[i]) {
        RowSumIsSupport(yTrue, yPred, i);
      }
    }
    return Success(Summary(labels, cm, rowSums, accs, balanced, names, shown, shownTitle, colours.value));
  }
}
