/**
 * The matrix as `plot_confusion_matrix` displays it: raw counts or
 * row-normalized ratios (utils/util.py:171-172), the colour threshold
 * `thresh` (lines 203-207) and the per-cell annotation colours (lines 209-213).
 */
module Display {
  import opened Wrappers
  import opened Confusion
  import opened Recall

  /** One float cell; `NaN` is what numpy yields for 0/0. */
  datatype Cell = Num(value: real) | NaN

  datatype Colour = White | Black

  /** The counts as plotted when `normalize` is false. */
  function Counts(cm: seq<seq<nat>>): (m: seq<seq<Cell>>)
  {
    seq(|cm|, i requires 0 <= i < |cm| => seq(|cm[i]|, j requires 0 <= j < |cm[i]| => Num(cm[i][j] as real)))
  }

  /**
   * `cm.astype('float') / cm.sum(axis=1)[:, np.newaxis]`: every cell divided
   * by its row sum; a row whose sum is zero becomes NaN throughout.
   */
  function Normalize(cm: seq<seq<nat>>): (m: seq<seq<Cell>>)
    ensures |m| == |cm| && forall i :: 0 <= i < |cm| ==> |m[i]| == |cm[i]|
    ensures forall i, j :: 0 <= i < |cm| && 0 <= j < |cm[i]| ==> (m[i][j].NaN? <==> Sum(cm[i]) == 0)
  {
    seq(|cm|, i requires 0 <= i < |cm| =>
      seq(|cm[i]|, j requires 0 <= j < |cm[i]| =>
        if Sum(cm[i]) > 0 then Num(cm[i][j] as real / Sum(cm[i]) as real) else NaN))
  }

  /** numpy's sum of a float row: NaN as soon as one cell is NaN. */
  function SumCells(row: seq<Cell>): Cell {
    if row == [] then Num(0.0)
    else
      var rest := SumCells(row[1..]);
      if row[0].NaN? || rest.NaN? then NaN else Num(row[0].value + rest.value)
  }

  lemma {:induction false} ScaledRowSum(s: seq<nat>, d: real)
    requires d > 0.0
    ensures SumCells(seq(|s|, j requires 0 <= j < |s| => Num(s[j] as real / d))) == Num(Sum(s) as real / d)
  {
    if s != [] {
      var scaled := seq(|s|, j requires 0 <= j < |s| => Num(s[j] as real / d));
      var tail := seq(|s| - 1, j requires 0 <= j < |s| - 1 => Num(s[1..][j] as real / d));
      assert scaled[1..] == tail;
      ScaledRowSum(s[1..], d);
      AddOverCommonDenominator(s[0] as real, Sum(s[1..]) as real, d);
    }
  }

  /**
   * A row with positive sum normalizes to ratios between 0 and 1 that sum to
   * 1; a row with zero sum normalizes to NaN in every cell.
   */
  lemma NormalizedRow(cm: seq<seq<nat>>, i: nat)
    requires i < |cm|
    ensures |Normalize(cm)[i]| == |cm[i]|
    ensures Sum(cm[i]) > 0 ==> SumCells(Normalize(cm)[i]) == Num(1.0)
    ensures Sum(cm[i]) > 0 ==> forall j :: 0 <= j < |cm[i]| ==>
      Normalize(cm)[i][j].Num? && 0.0 <= Normalize(cm)[i][j].value <= 1.0
    ensures Sum(cm[i]) == 0 ==> forall j :: 0 <= j < |cm[i]| ==> Normalize(cm)[i][j] == NaN
  {
    var s := Sum(cm[i]);
    if s > 0 {
      var d := s as real;
      assert SumCells(Normalize(cm)[i]) == Num(1.0) by {
        assert Normalize(cm)[i] == seq(|cm[i]|, j requires 0 <= j < |cm[i]| => Num(cm[i][j] as real / d));
        ScaledRowSum(cm[i], d);
        DivideBySelf(d);
      }
      forall j | 0 <= j < |cm[i]| ensures Normalize(cm)[i][j].Num? && 0.0 <= Normalize(cm)[i][j].value <= 1.0 {
        SumBoundsElement(cm[i], j);
        RatioAtMostOne(cm[i][j] as real, d);
      }
    }
  }

  /** Every row-major cell of the matrix, in order. */
  function Flatten(m: seq<seq<Cell>>): (cells: seq<Cell>)
    ensures forall c :: c in cells <==> exists i, j :: 0 <= i < |m| && 0 <= j < |m[i]| && m[i][j] == c
  {
    if m == [] then []
    else
      var rest := Flatten(m[1..]);
      assert forall i :: 0 < i < |m| ==> m[1..][i - 1] == m[i];
      m[0] + rest
  }

  /** numpy's `max` of a non-empty float array: NaN as soon as one element is NaN. */
  function MaxCell(cells: seq<Cell>): (mx: Cell)
    requires cells != []
    ensures mx.NaN? <==> NaN in cells
    ensures mx.Num? ==> mx in cells && forall c :: c in cells ==> c.Num? && c.value <= mx.value
  {
    if |cells| == 1 then cells[0]
    else
      var rest := MaxCell(cells[1..]);
      assert forall c :: c in cells <==> c == cells[0] || c in cells[1..];
      if cells[0].NaN? || rest.NaN? then NaN
      else if cells[0].value >= rest.value then cells[0] else rest
  }

  predicate HasNaN(m: seq<seq<Cell>>) {
    exists i, j :: 0 <= i < |m| && 0 <= j < |m[i]| && m[i][j].NaN?
  }

  predicate HasPositive(m: seq<seq<Cell>>) {
    exists i, j :: 0 <= i < |m| && 0 <= j < |m[i]| && m[i][j].Num? && m[i][j].value > 0.0
  }

  /** Some cell is a number no smaller than any other cell. */
  predicate IsMaximum(m: seq<seq<Cell>>, mx: real) {
    && (exists i, j :: 0 <= i < |m| && 0 <= j < |m[i]| && m[i][j] == Num(mx))
    && forall i, j :: 0 <= i < |m| && 0 <= j < |m[i]| ==> m[i][j].Num? && m[i][j].value <= mx
  }

  /**
   * `thresh = cm.max() / 2`, bound only when `cm.max() > 0`; `cm.max()` of an
   * empty matrix raises the ValueError the source swallows, and a NaN maximum
   * fails the comparison. The threshold exists exactly when no cell is NaN and
   * some cell is positive, and it is then half the maximum.
   */
  function Threshold(m: seq<seq<Cell>>): (t: Option<real>)
    ensures t.Some? <==> !HasNaN(m) && HasPositive(m)
    ensures t.Some? ==> t.value > 0.0 && IsMaximum(m, 2.0 * t.value)
  {
    var cells := Flatten(m);
    assert forall i, j :: 0 <= i < |m| && 0 <= j < |m[i]| ==> m[i][j] in cells;
    if cells == [] then None
    else
      var mx := MaxCell(cells);
      if mx.Num? && mx.value > 0.0 then Some(mx.value / 2.0) else None
  }

  /** The colour of one annotation: white exactly when the cell exceeds the threshold. */
  function ColourOf(c: Cell, thresh: real): Colour {
    if c.Num? && c.value > thresh then White else Black
  }

  /** The annotation colour of every cell for a given threshold. */
  function ColourGrid(m: seq<seq<Cell>>, thresh: real): (g: seq<seq<Colour>>)
  {
    seq(|m|, i requires 0 <= i < |m| => seq(|m[i]|, j requires 0 <= j < |m[i]| => ColourOf(m[i][j], thresh)))
  }

  predicate HasCell(m: seq<seq<Cell>>) {
    exists i :: 0 <= i < |m| && |m[i]| > 0
  }

  /**
   * The annotation loop of utils/util.py:209-213. Reading `thresh` while it
   * is unbound raises at the first cell; otherwise every cell gets its colour.
   */
  method Annotate(m: seq<seq<Cell>>, thresh: Option<real>) returns (r: Result<seq<seq<Colour>>, Error>)
    ensures r.Failure? <==> thresh.None? && HasCell(m)
    ensures r.Failure? ==> r.error == ThresholdUnbound
    ensures r.Success? ==> r.value == ColourGrid(m, if thresh.Some? then thresh.value else 0.0)
  {
    var t := if thresh.Some? then thresh.value else 0.0;
    var grid: seq<seq<Colour>> := [];
    var i := 0;
    while i < |m|
      invariant 0 <= i <= |m|
      invariant grid == ColourGrid(m, t)[..i]
      invariant thresh.None? ==> forall k :: 0 <= k < i ==> |m[k]| == 0
    {
      var row: seq<Colour> := [];
      var j := 0;
      while j < |m[i]|
        invariant 0 <= j <= |m[i]|
        invariant row == ColourGrid(m, t)[i][..j]
        invariant thresh.None? ==> j == 0
      {
        if thresh.None? {
          return Failure(ThresholdUnbound);
        }
        row := row + [ColourOf(m[i][j], t)];
        j := j + 1;
      }
      assert row == ColourGrid(m, t)[i];
      grid := grid + [row];
      i := i + 1;
    }
    assert grid == ColourGrid(m, t);
    r := Success(grid);
  }

  /** Under a defined threshold, a cell holding the matrix maximum is annotated white. */
  lemma MaximumIsWhite(m: seq<seq<Cell>>, i: nat, j: nat)
    requires Threshold(m).Some?
    requires i < |m| && j < |m[i]|
    requires m[i][j] == Num(2.0 * Threshold(m).value)
    ensures ColourGrid(m, Threshold(m).value)[i][j] == White
  {
  }

  /**
   * Under a defined threshold some cell is white, and a cell is white exactly
   * when its value is more than half of the maximum.
   */
  lemma WhiteIffAboveHalfMaximum(m: seq<seq<Cell>>)
    requires Threshold(m).Some?
    ensures exists i, j :: 0 <= i < |m| && 0 <= j < |m[i]| && ColourGrid(m, Threshold(m).value)[i][j] == White
    ensures forall mx, i, j :: IsMaximum(m, mx) && 0 <= i < |m| && 0 <= j < |m[i]| ==>
      (ColourGrid(m, Threshold(m).value)[i][j] == White <==> m[i][j].value > mx / 2.0)
  {
    var t := Threshold(m).value;
    var i, j :| 0 <= i < |m| && 0 <= j < |m[i]| && m[i][j] == Num(2.0 * t);
    MaximumIsWhite(m, i, j);
    forall mx | IsMaximum(m, mx) ensures mx == 2.0 * t {
      var a, b :| 0 <= a < |m| && 0 <= b < |m[a]| && m[a][b] == Num(mx);
      assert m[a][b].value <= 2.0 * t;
      assert m[i][j].value <= mx;
    }
  }
}
