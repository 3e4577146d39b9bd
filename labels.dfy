/**
 * Label bookkeeping used by `plot_confusion_matrix` (utils/util.py):
 * counting occurrences, the sorted distinct labels that sklearn's
 * `unique_labels` returns, and Python's list indexing `classes[item]`.
 */
module Labels {

  /** Number of occurrences of `x` in `s`. */
  function Count(s: seq<int>, x: int): (n: nat)
    ensures n <= |s|
    ensures n == 0 <==> x !in s
  {
    if s == [] then 0 else (if s[0] == x then 1 else 0) + Count(s[1..], x)
  }

  predicate StrictlySorted(s: seq<int>) {
    forall i, j :: 0 <= i < j < |s| ==> s[i] < s[j]
  }

  /** Inserts `x` into a strictly increasing sequence unless it is already there. */
  function Insert(s: seq<int>, x: int): (r: seq<int>)
    requires StrictlySorted(s)
    ensures StrictlySorted(r)
    ensures forall y :: y in r <==> y in s || y == x
  {
    if s == [] then [x]
    else if x < s[0] then [x] + s
    else if x == s[0] then s
    else
      var tail := Insert(s[1..], x);
      assert forall k :: 0 <= k < |tail| ==> s[0] < tail[k] by {
        forall k | 0 <= k < |tail| ensures s[0] < tail[k] {
          assert tail[k] in tail;
        }
      }
      [s[0]] + tail
  }

  /**
   * The labels `unique_labels(y_true, y_pred)` returns for integer label
   * arrays, called on `ys == y_true + y_pred`: every label that occurs, once,
   * in ascending order.
   */
  function UniqueLabels(ys: seq<int>): (r: seq<int>)
    ensures StrictlySorted(r)
    ensures forall y :: y in r <==> y in ys
  {
    if ys == [] then [] else Insert(UniqueLabels(ys[..|ys| - 1]), ys[|ys| - 1])
  }

  /** A strictly increasing sequence is determined by its elements. */
  lemma {:induction false} SortedSeqIsUnique(a: seq<int>, b: seq<int>)
    requires StrictlySorted(a) && StrictlySorted(b)
    requires forall y :: y in a <==> y in b
    ensures a == b
  {
    if a != [] { assert a[0] in a; }
    if b != [] { assert b[0] in b; }
    if a != [] && b != [] {
      assert a[0] == b[0];
      forall y ensures y in a[1..] <==> y in b[1..] {
        if y in a[1..] {
          var k :| 1 <= k < |a| && a[k] == y;
          assert y in b;
          var m :| 0 <= m < |b| && b[m] == y;
          assert m != 0;
          assert b[1..][m - 1] == y;
        }
        if y in b[1..] {
          var k :| 1 <= k < |b| && b[k] == y;
          assert y in a;
          var m :| 0 <= m < |a| && a[m] == y;
          assert m != 0;
          assert a[1..][m - 1] == y;
        }
      }
      SortedSeqIsUnique(a[1..], b[1..]);
    }
  }

  /** `UniqueLabels` is the one strictly increasing enumeration of the labels that occur. */
  lemma UniqueLabelsIsCanonical(ys: seq<int>, r: seq<int>)
    requires StrictlySorted(r)
    requires forall y :: y in r <==> y in ys
    ensures r == UniqueLabels(ys)
  {
    SortedSeqIsUnique(r, UniqueLabels(ys));
  }

  /** Python's `xs[i]` succeeds on a list of length `n` exactly when `-n <= i < n`. */
  predicate InRange(n: nat, i: int) {
    -(n as int) <= i < n
  }

  /** The position Python's `xs[i]` reads: a negative index counts from the end. */
  function PyIndex(n: nat, i: int): (k: nat)
    requires InRange(n, i)
    ensures k < n
    ensures k as int % n == i % n
  {
    if i >= 0 then i else n + i
  }
}
