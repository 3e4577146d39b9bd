/**
 * Whole-input consequences of the model: the extreme scores, a
 * two-class worked example, and an input on which
 * `accuracy_per_cell` names the wrong class.
 */
module Scenarios {
  import opened Wrappers
  import opened Labels
  import opened Confusion
  import opened Recall
  import opened ConfusionReport

  /** With every prediction right, the matrix is diagonal and the diagonal holds each class's count. */
  lemma PerfectCell(y: seq<int>, i: nat, j: nat)
    requires i < |UniqueLabels(y + y)| && j < |UniqueLabels(y + y)|
    ensures ConfusionMatrix(y, y)[i][j] == if i == j then Count(y, UniqueLabels(y + y)[i]) else 0
  {
    var labels := UniqueLabels(y + y);
    RowAt(y, y, labels[i], labels, j);
    if i < j { assert labels[i] < labels[j]; } else if j < i { assert labels[j] < labels[i]; }
    PerfectPairs(y, labels[i], labels[j]);
  }

  /** With every prediction right, every row has samples and its recall is 1. */
  lemma PerfectRecall(y: seq<int>, i: nat)
    requires i < |UniqueLabels(y + y)|
    ensures Sum(ConfusionMatrix(y, y)[i]) > 0 && RecallOf(ConfusionMatrix(y, y), i) == 1.0
  {
    var labels := UniqueLabels(y + y);
    var cm, c := ConfusionMatrix(y, y), Count(y, labels[i]);
    RowSumIsSupport(y, y, i);
    PerfectCell(y, i, i);
    assert labels[i] in y by {
      assert labels[i] in y + y;
    }
    assert c > 0;
    assert cm[i][i] == c && Sum(cm[i]) == c;
    DivideBySelf(c as real);
  }

  /** With every prediction right, `accs` holds a 1 for every class. */
  lemma PerfectRecallsAllOne(y: seq<int>)
    requires y != []
    ensures var cm := ConfusionMatrix(y, y);
      |cm| > 0 && Recalls(cm, |cm|) == seq(|cm|, _ => 1.0)
  {
    var cm := ConfusionMatrix(y, y);
    forall i | 0 <= i < |cm| ensures Sum(cm[i]) > 0 && RecallOf(cm, i) == 1.0 {
      PerfectRecall(y, i);
    }
    RecallsAlignedWithoutZeroRows(cm, |cm|);
    MatrixNonEmptyIffSamples(y, y);
  }

  /** Predicting the true labels yields a diagonal matrix of class counts. */
  lemma PerfectMatrixIsDiagonal(y: seq<int>)
    ensures var cm := ConfusionMatrix(y, y);
      forall i, j :: 0 <= i < |cm| && 0 <= j < |cm| ==> cm[i][j] == if i == j then Count(y, UniqueLabels(y + y)[i]) else 0
  {
    var cm := ConfusionMatrix(y, y);
    forall i, j | 0 <= i < |cm| && 0 <= j < |cm|
      ensures cm[i][j] == if i == j then Count(y, UniqueLabels(y + y)[i]) else 0
    {
      PerfectCell(y, i, j);
    }
  }

  /** Predicting the true labels yields recall 1 for every class and a balanced accuracy of 1. */
  lemma PerfectPredictionScoresOne(y: seq<int>)
    requires y != []
    ensures var cm := ConfusionMatrix(y, y);
      && Recalls(cm, |cm|) == seq(|cm|, _ => 1.0)
      && Mean(Recalls(cm, |cm|)) == Some(1.0)
  {
    PerfectRecallsAllOne(y);
    var cm := ConfusionMatrix(y, y);
    MeanBetween(Recalls(cm, |cm|), 1.0, 1.0);
  }

  /** With no prediction right, every row with samples has recall 0. */
  lemma MissedRecall(yTrue: seq<int>, yPred: seq<int>, i: nat)
    requires |yTrue| == |yPred|
    requires forall k :: 0 <= k < |yTrue| ==> yTrue[k] != yPred[k]
    requires i < |ConfusionMatrix(yTrue, yPred)| && Sum(ConfusionMatrix(yTrue, yPred)[i]) > 0
    ensures RecallOf(ConfusionMatrix(yTrue, yPred), i) == 0.0
  {
    var labels := UniqueLabels(yTrue + yPred);
    RowAt(yTrue, yPred, labels[i], labels, i);
    MissedPairs(yTrue, yPred, labels[i]);
  }

  /** With no prediction right, every recall is 0 and the balanced accuracy is 0. */
  lemma NoCorrectPredictionScoresZero(yTrue: seq<int>, yPred: seq<int>)
    requires |yTrue| == |yPred| > 0
    requires forall k :: 0 <= k < |yTrue| ==> yTrue[k] != yPred[k]
    ensures var cm := ConfusionMatrix(yTrue, yPred);
      && (forall k :: 0 <= k < |Recalls(cm, |cm|)| ==> Recalls(cm, |cm|)[k] == 0.0)
      && Mean(Recalls(cm, |cm|)) == Some(0.0)
  {
    var cm := ConfusionMatrix(yTrue, yPred);
    var rows, accs := PositiveRows(cm, |cm|), Recalls(cm, |cm|);
    assert forall k :: 0 <= k < |accs| ==> accs[k] == 0.0 by {
      RecallsFollowPositiveRows(cm, |cm|);
      forall k | 0 <= k < |accs| ensures accs[k] == 0.0 {
        MissedRecall(yTrue, yPred, rows[k]);
      }
    }
    assert accs != [] by {
      var i, j := SampleCell(yTrue, yPred);
      SumBoundsElement(cm[i], j);
      RecallsEmptyIffZeroRows(cm, |cm|);
    }
    MeanBetween(accs, 0.0, 0.0);
  }

  /** The worked example has the two labels 0 and 1. */
  lemma ExampleLabels()
    ensures UniqueLabels([0, 0, 1, 1, 1] + [0, 1, 1, 1, 0]) == [0, 1]
  {
    var ys := [0, 0, 1, 1, 1] + [0, 1, 1, 1, 0];
    assert ys == [0, 0, 1, 1, 1, 0, 1, 1, 1, 0];
    forall y ensures y in [0, 1] <==> y in ys {
      assert ys[0] == 0 && ys[2] == 1;
    }
    UniqueLabelsIsCanonical(ys, [0, 1]);
  }

  /** Row 0 of the worked example. */
  lemma ExampleCountsTop()
    ensures CountPairs([0, 0, 1, 1, 1], [0, 1, 1, 1, 0], 0, 0) == 1
    ensures CountPairs([0, 0, 1, 1, 1], [0, 1, 1, 1, 0], 0, 1) == 1
  {
  }

  /** Row 1 of the worked example. */
  lemma ExampleCountsBottom()
    ensures CountPairs([0, 0, 1, 1, 1], [0, 1, 1, 1, 0], 1, 0) == 1
    ensures CountPairs([0, 0, 1, 1, 1], [0, 1, 1, 1, 0], 1, 1) == 2
  {
  }

  /** The matrix of the worked example. */
  lemma ExampleMatrix()
    ensures ConfusionMatrix([0, 0, 1, 1, 1], [0, 1, 1, 1, 0]) == [[1, 1], [1, 2]]
  {
    var cm := ConfusionMatrix([0, 0, 1, 1, 1], [0, 1, 1, 1, 0]);
    ExampleLabels();
    ExampleCountsTop();
    ExampleCountsBottom();
    ConfusionMatrixCells([0, 0, 1, 1, 1], [0, 1, 1, 1, 0]);
    assert cm[0] == [1, 1] && cm[1] == [1, 2];
  }

  /** Recalls, their mean and the trace over the total for the worked example's matrix. */
  lemma ExampleScores()
    ensures Recalls([[1, 1], [1, 2]], 2) == [1.0 / 2.0, 2.0 / 3.0]
    ensures Mean(Recalls([[1, 1], [1, 2]], 2)) == Some(7.0 / 12.0)
    ensures TraceOverTotal([[1, 1], [1, 2]]) == Some(3.0 / 5.0)
  {
    var cm: seq<seq<nat>> := [[1, 1], [1, 2]];
    assert Sum(cm[0]) == 2 && Sum(cm[1]) == 3;
    assert Recalls(cm, 1) == [1.0 / 2.0];
    var accs := [1.0 / 2.0, 2.0 / 3.0];
    assert accs[..1] == [1.0 / 2.0];
    assert SumR(accs) == 7.0 / 6.0;
  }

  /** The accuracy dictionary of the worked example. */
  lemma ExampleDict()
    ensures ZipDict(["A", "B"], [1.0 / 2.0, 2.0 / 3.0]) == map["A" := 1.0 / 2.0, "B" := 2.0 / 3.0]
  {
    var keys, vals := ["A", "B"], [1.0 / 2.0, 2.0 / 3.0];
    assert keys[..1] == ["A"] && vals[..1] == [1.0 / 2.0];
    assert ZipDict(["A"], [1.0 / 2.0]) == map["A" := 1.0 / 2.0];
  }

  /**
   * A worked example: true labels [0,0,1,1,1] against predictions
   * [0,1,1,1,0] give the matrix [[1,1],[1,2]], recalls 1/2 and 2/3, a
   * balanced accuracy of 7/12 (about 0.583), and with names A and B the
   * accuracy dictionary {A: 1/2, B: 2/3}. The trace over the total, which
   * the function computes and discards, would have been 3/5.
   */
  lemma WorkedExample()
    ensures var cm := ConfusionMatrix([0, 0, 1, 1, 1], [0, 1, 1, 1, 0]);
      && cm == [[1, 1], [1, 2]]
      && Recalls(cm, 2) == [1.0 / 2.0, 2.0 / 3.0]
      && Mean(Recalls(cm, 2)) == Some(7.0 / 12.0)
      && TraceOverTotal(cm) == Some(3.0 / 5.0)
      && AccuracyPerCell(["A", "B"], Recalls(cm, 2)) == map["A" := 1.0 / 2.0, "B" := 2.0 / 3.0]
  {
    ExampleMatrix();
    ExampleScores();
    ExampleDict();
  }

  /**
   * The default title of the worked example shows the mean of the recalls,
   * 700/12 percent (about 58.33), not the trace over the total, which would
   * be 60 percent.
   */
  lemma WorkedExampleTitle()
    ensures var cm := ConfusionMatrix([0, 0, 1, 1, 1], [0, 1, 1, 1, 0]);
      && ChooseTitle(None, false, Mean(Recalls(cm, |cm|))) == AverageRecall(Some(700.0 / 12.0))
      && TraceOverTotal(cm) == Some(3.0 / 5.0)
      && 700.0 / 12.0 != 100.0 * (3.0 / 5.0)
  {
    ExampleMatrix();
    ExampleScores();
  }

  /** The counterexample's labels are 0 and 1. */
  lemma CounterexampleLabels()
    ensures UniqueLabels([1, 1] + [0, 1]) == [0, 1]
  {
    var ys := [1, 1] + [0, 1];
    assert ys == [1, 1, 0, 1];
    forall y ensures y in [0, 1] <==> y in ys {
      assert ys[0] == 1 && ys[2] == 0;
    }
    UniqueLabelsIsCanonical(ys, [0, 1]);
  }

  /** The counterexample's matrix: class 0 occurs only as a prediction, so its row is zero. */
  lemma CounterexampleMatrix()
    ensures ConfusionMatrix([1, 1], [0, 1]) == [[0, 0], [1, 1]]
  {
    var cm := ConfusionMatrix([1, 1], [0, 1]);
    CounterexampleLabels();
    assert CountPairs([1, 1], [0, 1], 0, 0) == 0 && CountPairs([1, 1], [0, 1], 0, 1) == 0;
    assert CountPairs([1, 1], [0, 1], 1, 0) == 1 && CountPairs([1, 1], [0, 1], 1, 1) == 1;
    ConfusionMatrixCells([1, 1], [0, 1]);
    assert cm[0] == [0, 0] && cm[1] == [1, 1];
  }

  /** Row 0 is skipped, so `accs` holds only row 1's recall. */
  lemma CounterexampleRecalls()
    ensures Recalls([[0, 0], [1, 1]], 2) == [1.0 / 2.0]
  {
    var cm: seq<seq<nat>> := [[0, 0], [1, 1]];
    assert Sum(cm[0]) == 0 && Sum(cm[1]) == 2;
    assert Recalls(cm, 1) == [];
    assert RecallOf(cm, 1) == 1.0 / 2.0;
  }

  /** Only row 1 has a positive sum. */
  lemma CounterexampleRows()
    ensures PositiveRows([[0, 0], [1, 1]], 2) == [1]
  {
    var cm: seq<seq<nat>> := [[0, 0], [1, 1]];
    assert Sum(cm[0]) == 0 && Sum(cm[1]) == 2;
    assert PositiveRows(cm, 1) == [];
  }

  /** `zip` pairs the single recall with the first name. */
  lemma CounterexampleZip<K>(a: K, b: K)
    ensures ZipDict([a, b], [1.0 / 2.0]) == map[a := 1.0 / 2.0]
  {
    assert [a, b][..1] == [a];
  }

  /** The corrected dictionary pairs the single recall with the second name. */
  lemma CounterexampleCorrected<K>(a: K, b: K)
    ensures RecallPerClass([[0, 0], [1, 1]], [a, b]) == map[b := 1.0 / 2.0]
  {
    var cm: seq<seq<nat>> := [[0, 0], [1, 1]];
    CounterexampleRecalls();
    CounterexampleRows();
    assert NamesOf([a, b], [1]) == [b];
    ZipSingle(b, 1.0 / 2.0);
  }

  /** Zipping one key with one value gives a one-entry dictionary. */
  lemma ZipSingle<K, V>(k: K, v: V)
    ensures ZipDict([k], [v]) == map[k := v]
  {
    assert [k][..0] == [];
  }

  /**
   * Counterexample to `accuracy_per_cell`: with true labels [1,1],
   * predictions [0,1] and two distinct names a and b, class a has no
   * samples, so `accs` holds only the recall 1/2 of class b, and `zip` pairs
   * it with a. The corrected `RecallPerClass` pairs it with b.
   */
  lemma AccuracyPerCellMisattributes<K>(a: K, b: K)
    requires a != b
    ensures var cm := ConfusionMatrix([1, 1], [0, 1]);
      && cm == [[0, 0], [1, 1]]
      && Recalls(cm, 2) == [1.0 / 2.0]
      && AccuracyPerCell([a, b], Recalls(cm, 2)) == map[a := 1.0 / 2.0]
      && RecallPerClass(cm, [a, b]) == map[b := 1.0 / 2.0]
  {
    CounterexampleMatrix();
    CounterexampleRecalls();
    CounterexampleZip(a, b);
    CounterexampleCorrected(a, b);
  }
}
