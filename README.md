# Confusion-matrix report, modelled in Dafny

This project models the numeric part of `plot_confusion_matrix` in
`utils/util.py`. Given integer true and predicted labels and a list of class
names, the function:

- builds the confusion matrix;
- collects each row's total and each class's recall, skipping classes with
  no true samples;
- reports the mean of the recalls as the "balanced accuracy";
- picks the class names for the labels that occur;
- builds two dictionaries from them with `dict(zip(...))`;
- optionally row-normalizes the matrix;
- chooses a title;
- colours every cell annotation white or black against half of the
  matrix maximum.

The model follows the code step by step. Every way the function can fail is
a `Result` error instead of a precondition:

- arrays of different lengths make sklearn raise (`LengthMismatch`);
- a label that is not a valid Python index into `classes` raises IndexError
  (`LabelOutOfRange`);
- a never-bound `thresh` raises UnboundLocalError (`ThresholdUnbound`).

Files, one module each:

- `wrappers.dfy`: `Option`, `Result` and the error kinds.
- `labels.dfy`: occurrence counts and the sorted distinct labels that
  `unique_labels` returns. Also Python list indexing, where negative indices
  count from the end.
- `confusion.dfy`: the confusion matrix. Cell (i, j) counts the samples
  whose true label is the i-th distinct label and whose predicted label is
  the j-th. This is how sklearn's `confusion_matrix` defines it without a
  `labels` argument; sklearn's code is not part of this model.
- `recall.dfy`: the row loop that builds `row_sum_list` and `accs`, the
  mean of `accs`, and the trace over total that is computed and then
  discarded.
- `display.dfy`:
  - numpy cells as exact reals with an explicit `NaN`, which a zero row
    yields under normalization;
  - the normalized matrix and numpy's NaN-propagating maximum;
  - the threshold and the annotation loop.
- `report.dfy`: the name loop, `dict(zip(...))`, the title rule and the
  whole function from inputs to result or exception.
- `scenarios.dfy`:
  - perfect and all-wrong predictions;
  - a worked two-class example;
  - a concrete input on which `accuracy_per_cell` pairs a name with the
    wrong recall.

Where the code and its intended behaviour differ, the model follows the
code:

- Negative labels index `classes` from the end instead of failing. Labels
  `-1` and `n-1` (with `n` names) then both get `classes[n-1]`, so the
  class list repeats a name. `row_total_counts` and `accuracy_per_cell` then
  keep only the value zipped with the later occurrence. This is why the
  one-to-one dictionary lemmas assume distinct shown names.
- With normalization on, a label that occurs only among the predictions
  gives an all-NaN row. `cm.max()` is then NaN, `thresh` is never bound,
  and the annotation loop raises. The threshold does not default to 0.
- An empty input gives a 0×0 matrix. `cm.max()` then raises the ValueError
  the code swallows, and the annotation loop runs zero times.
- `balanced_accuracy_adjust` is overwritten with the unweighted mean
  (utils/util.py:153). The title therefore shows the mean of the recalls,
  not the trace over the total.

## Model

| member | source | states |
|---|---|---|
| Labels.UniqueLabels | utils/util.py:160 | the labels are strictly ascending, and a value is among them exactly when it occurs in `y_true` or `y_pred` |
| Labels.UniqueLabelsIsCanonical | utils/util.py:160 | any strictly ascending sequence with exactly those elements equals `UniqueLabels`, so the label order is determined |
| Labels.PyIndex | utils/util.py:160 | `classes[item]` reads position `item` modulo the list length, which lies inside the list |
| Confusion.ConfusionMatrix | utils/util.py:141-142 | the matrix has one row per distinct label and every row has that many cells |
| Confusion.ConfusionMatrixCells | utils/util.py:141-142 | the matrix is square with one row and column per distinct label; cell (i, j) counts the samples with true label `labels[i]` and predicted label `labels[j]` |
| Confusion.RowSumIsSupport | utils/util.py:145-148 | row i sums to the number of samples whose true label is `labels[i]` |
| Confusion.SampleIsCounted | utils/util.py:141 | every sample is counted in the cell of its own (true, predicted) pair |
| Recall.RecallOf | utils/util.py:146-147 | `cm[i,i] / np.sum(row)` of a row with samples lies between 0 and 1 |
| Recall.RowStatistics | utils/util.py:143-148 | the loop leaves every row's sum in `row_sum_list`, in row order, and `accs` equal to the recalls of the rows with a positive sum |
| Recall.Recalls | utils/util.py:143-148 | `accs` has at most one entry per row, and every entry lies in [0, 1] |
| Recall.RecallsFollowPositiveRows | utils/util.py:145-147 | entry k of `accs` is the recall of the k-th row with a positive sum |
| Recall.RecallsAlignedWithoutZeroRows | utils/util.py:145-147 | when no row sums to zero, `accs` has one entry per row and entry k is row k's recall |
| Recall.ZeroRowIsSkipped | utils/util.py:145-147 | a zero row makes `accs` shorter than the matrix; from that row on, entry k belongs to a row below row k |
| Recall.RecallsEmptyIffZeroRows | utils/util.py:145-147 | `accs` is empty exactly when every row sums to zero |
| Recall.Mean | utils/util.py:150 | `np.mean(accs)` is undefined (NaN) exactly when `accs` is empty |
| Recall.MeanBetween | utils/util.py:150 | the mean of values between two bounds lies between them |
| Recall.BalancedAccuracyInUnitInterval | utils/util.py:150 | `np.mean(accs)` is NaN exactly when every row sums to zero, and otherwise lies in [0, 1] |
| Recall.BalancedMatchesAccuracyUnderEqualSupport | utils/util.py:150-153 | when every class has the same positive number of true samples, the reported mean of recalls equals the discarded trace over total |
| Recall.TraceOverTotal | utils/util.py:152 | `np.trace(cm) / np.sum(cm)` is NaN exactly when the matrix total is zero, and otherwise lies in [0, 1] |
| Display.Normalize | utils/util.py:171-172 | the normalized matrix has the shape of `cm`, and a cell is NaN exactly when its row sums to zero |
| Display.NormalizedRow | utils/util.py:171-172 | a row with samples normalizes to ratios in [0, 1] that sum to 1; a zero row normalizes to NaN in every cell |
| Display.MaxCell | utils/util.py:204-205 | `cm.max()` is NaN exactly when some cell is NaN; otherwise it is a cell no smaller than any other |
| Display.Threshold | utils/util.py:203-207 | `thresh` is bound exactly when no cell is NaN and some cell is positive; it is then positive and half the maximum |
| Display.Annotate | utils/util.py:209-213 | the loop raises exactly when `thresh` is unbound and the matrix has a cell; otherwise every cell is white exactly when its value exceeds `thresh` |
| Display.WhiteIffAboveHalfMaximum | utils/util.py:203-213 | with `thresh` bound, some cell is white, and a cell is white exactly when it exceeds half the matrix maximum |
| ConfusionReport.ClassList | utils/util.py:160-161 | the name loop succeeds exactly when every label is a valid index; the names follow the labels in order; otherwise it fails on the first invalid label |
| ConfusionReport.DistinctLabelsInRange | utils/util.py:160 | the distinct labels are all valid indices exactly when every sample's label is |
| ConfusionReport.FirstFailingLabelIsSmallest | utils/util.py:160 | the first label the loop cannot index is the smallest invalid label among all samples |
| ConfusionReport.ZipDict | utils/util.py:163-165 | every key of `dict(zip(keys, vals))` is one of `keys` |
| ConfusionReport.ZipDictHasKey | utils/util.py:163 | a key is in `dict(zip(keys, vals))` exactly when it has a partner within the shorter list |
| ConfusionReport.ZipDictLastWins | utils/util.py:163 | a key's last occurrence within the zipped prefix decides its value |
| ConfusionReport.ZipDictDistinct | utils/util.py:163-165 | with distinct names, name i maps to value i for every i both lists cover |
| ConfusionReport.RowTotalCountsOneToOne | utils/util.py:163 | with distinct shown names, `row_total_counts` maps every shown name to the number of samples of its class |
| ConfusionReport.AccuracyPerCellFollowsPositiveRows | utils/util.py:164-165 | with distinct names, `accuracy_per_cell` maps name k to the recall of the k-th row with a positive sum, and every name from position `len(accs)` on is absent |
| ConfusionReport.AccuracyPerCellShifts | utils/util.py:164-165 | after a zero row, `accuracy_per_cell` lacks the last name, and from that row on each name maps to the recall of a class further down |
| ConfusionReport.RecallPerClassAligned | utils/util.py:165 | the corrected dictionary has an entry for exactly the classes with samples, and each entry is that class's own recall |
| ConfusionReport.ChooseTitle | utils/util.py:177-181 | a non-empty given title is used as is; otherwise the title is the normalized one exactly when `normalize` is on, and else the average recall, which is NaN exactly when the balanced accuracy is |
| ConfusionReport.DefaultTitleShowsMeanRecall | utils/util.py:150-181 | with no title and no normalization, the title shows 100 times the mean of the recalls (not the trace over the total), a percentage in [0, 100], NaN exactly when every row sums to zero |
| ConfusionReport.MatrixNonEmptyIffSamples | utils/util.py:141 | the matrix has a row exactly when there is a sample |
| ConfusionReport.ZeroRowIsPredictedOnlyLabel | utils/util.py:145-148 | a row sums to zero exactly when its label occurs only among the predictions |
| ConfusionReport.RawThresholdDefined | utils/util.py:203-207 | without normalization, `thresh` is bound exactly when there is a sample |
| ConfusionReport.NormalizedThresholdDefined | utils/util.py:171-172 | with normalization, `thresh` is bound exactly when there is a sample and no label occurs only among the predictions |
| ConfusionReport.ThresholdUnboundExactly | utils/util.py:203-213 | the annotation loop reads an unbound `thresh` exactly when normalization is on and some label occurs only among the predictions |
| ConfusionReport.PlotConfusionMatrix | utils/util.py:110-216 | each exception is raised exactly under its condition, and an invalid label error names the smallest invalid label; on success it gives the labels, matrix, per-class support, recalls, their mean, names, displayed matrix, title and annotation colours |
| Scenarios.PerfectMatrixIsDiagonal | utils/util.py:141 | when every prediction is right, the matrix is diagonal with each class's count on the diagonal |
| Scenarios.PerfectPredictionScoresOne | utils/util.py:143-150 | when every prediction is right, every recall is 1 and the balanced accuracy is 1 |
| Scenarios.NoCorrectPredictionScoresZero | utils/util.py:143-150 | when no prediction is right, every recall is 0 and the balanced accuracy is 0 |
| Scenarios.WorkedExample | utils/util.py:141-165 | true labels [0,0,1,1,1] against predictions [0,1,1,1,0] give matrix [[1,1],[1,2]], recalls 1/2 and 2/3, balanced accuracy 7/12, and dictionary {A: 1/2, B: 2/3} |
| Scenarios.WorkedExampleTitle | utils/util.py:150-181 | in the worked example the default title shows 700/12 percent, the mean of the recalls, while the discarded trace over the total would show 60 percent |
| Scenarios.AccuracyPerCellMisattributes | utils/util.py:163-165 | on true labels [1,1] and predictions [0,1], `accuracy_per_cell` pairs the recall of the second class with the first name, and the corrected dictionary pairs it with the second |

## Left out

- Printing, `pprint`, figure creation, tick layout, `imshow` and `plt.show`: output only; the model returns what would be drawn (the displayed matrix, title and colours) instead.
- The '%.2f' and '.2f'/'d' string formatting of recalls, the title percentage and annotations: values are kept as exact reals.
- Floating-point rounding: cells, recalls and means are exact rationals; numpy's NaN is modelled explicitly as a `Cell` case and the NaN mean of an empty list as `None`.
- The `cmap` argument and the returned axes handle: plotting only.
- The `astype(int).reshape(-1)` conversion of the inputs: the model takes integer label sequences directly.
- sklearn's `confusion_matrix` and `unique_labels` are not part of this model; their documented behaviour for integer labels is taken as their definition.
- Class names are values of a type parameter with equality, not Python strings.
- Python dictionary insertion order: dictionaries are modelled as maps.
- The other functions of `utils/util.py` (`unnormTensor`, the visualisation helpers and `ensure_dir`) are outside this model.

## Findings

| source | as written | input that shows it | evidently intended | confidence | as-written member | corrected member |
|---|---|---|---|---|---|---|
| utils/util.py:163-165 | `dict(zip(classes, accs))` pairs names and recalls by position, but `accs` skips classes with no true samples, so later names get the wrong class's recall and the last name is dropped | y_true=[1,1], y_pred=[0,1], classes=[A,B]: `accs` is [1/2] (class B's recall) and the dictionary is {A: 1/2} | each class name paired with its own recall: {B: 1/2} | not executed | Scenarios.AccuracyPerCellMisattributes | ConfusionReport.RecallPerClassAligned |
