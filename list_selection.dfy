/** The selection bookkeeping of the list ("dataSource") picker, on values.

    A picker holds `columns` (one sequence of labels per wheel), and for every column the selected
    row and the selected label. `Picker.PickerView` keeps this state in fields and its methods are
    proved to compute the functions below; the lemmas here state what those functions promise. */
module ListSelection {

  /** The state invariant: one row and one label per column, every row a valid index into its
      column, and every label the label at that row. */
  predicate Consistent(columns: seq<seq<string>>, rows: seq<int>, labels: seq<string>)
  {
    && |rows| == |columns|
    && |labels| == |columns|
    && forall i :: 0 <= i < |columns| ==> 0 <= rows[i] < |columns[i]| && labels[i] == columns[i][rows[i]]
  }

  /** The labels the initialiser collects: the first label of each column, in order, up to (not
      including) the first empty column, where it gives up. */
  function InitialLabels(columns: seq<seq<string>>): (labels: seq<string>)
    ensures |labels| <= |columns|
    ensures forall i :: 0 <= i < |labels| ==> columns[i] != [] && labels[i] == columns[i][0]
    ensures |labels| < |columns| ==> columns[|labels|] == []
  {
    if columns == [] || columns[0] == [] then [] else [columns[0][0]] + InitialLabels(columns[1..])
  }

  /** The three ensures of InitialLabels determine it: any label sequence that is a prefix of first
      labels and that stops only at an empty column or at the end is InitialLabels. */
  lemma {:induction false} InitialLabelsUnique(columns: seq<seq<string>>, labels: seq<string>)
    requires |labels| <= |columns|
    requires forall i :: 0 <= i < |labels| ==> columns[i] != [] && labels[i] == columns[i][0]
    requires |labels| < |columns| ==> columns[|labels|] == []
    ensures labels == InitialLabels(columns)
  {
    if columns != [] && columns[0] != [] {
      assert labels != [];
      InitialLabelsUnique(columns[1..], labels[1..]);
      assert labels == [labels[0]] + labels[1..];
    }
  }

  /** Construction: with every column non-empty, every row 0 with its first label is consistent. */
  lemma {:induction false} InitialConsistent(columns: seq<seq<string>>)
    requires forall i :: 0 <= i < |columns| ==> columns[i] != []
    ensures |InitialLabels(columns)| == |columns|
    ensures Consistent(columns, seq(|columns|, _ => 0), InitialLabels(columns))
  {
  }

  /** The labels at rows `picks[0..n)`, column by column. */
  function LabelsAt(columns: seq<seq<string>>, picks: seq<int>, n: nat): (labels: seq<string>)
    requires n <= |picks| && n <= |columns|
    requires forall k :: 0 <= k < n ==> 0 <= picks[k] < |columns[k]|
  {
    seq(n, k requires 0 <= k < n => columns[k][picks[k]])
  }

  // ---------------------------------------------------------------------------------------------
  // Picking a row

  /** Picking row `r` in column `c` keeps the state consistent; nothing in other columns moves. */
  lemma PickConsistent(columns: seq<seq<string>>, rows: seq<int>, labels: seq<string>, c: int, r: int)
    requires Consistent(columns, rows, labels)
    requires 0 <= c < |columns| && 0 <= r < |columns[c]|
    ensures Consistent(columns, rows[c := r], labels[c := columns[c][r]])
    ensures forall i :: 0 <= i < |columns| && i != c ==> rows[c := r][i] == rows[i] && labels[c := columns[c][r]][i] == labels[i]
  {
  }

  // ---------------------------------------------------------------------------------------------
  // The max-row clamp pass

  /** Where the clamp pass stops when it scans from column `from`: the first column whose row is
      strictly below its ceiling, or the column count when there is none. */
  function ClampStop(rows: seq<int>, ceilings: seq<int>, from: nat): (stop: nat)
    requires |rows| == |ceilings| && from <= |rows|
    ensures from <= stop <= |rows|
    ensures forall k :: from <= k < stop ==> rows[k] >= ceilings[k]
    ensures stop < |rows| ==> rows[stop] < ceilings[stop]
    decreases |rows| - from
  {
    if from == |rows| then from
    else if rows[from] < ceilings[from] then from
    else ClampStop(rows, ceilings, from + 1)
  }

  /** The stop position is the only position with the two properties ClampStop ensures. */
  lemma ClampStopUnique(rows: seq<int>, ceilings: seq<int>, s: nat)
    requires |rows| == |ceilings| && s <= |rows|
    requires forall k :: 0 <= k < s ==> rows[k] >= ceilings[k]
    requires s < |rows| ==> rows[s] < ceilings[s]
    ensures s == ClampStop(rows, ceilings, 0)
  {
  }

  /** What the source needs so that the pass does not index out of range: every ceiling the pass
      writes is non-negative. (A written ceiling is at most its column's row, hence below the
      column's length, once the state is consistent.) */
  predicate ClampSafe(rows: seq<int>, ceilings: seq<int>)
  {
    |rows| == |ceilings| && forall k :: 0 <= k < ClampStop(rows, ceilings, 0) ==> 0 <= ceilings[k]
  }

  /** The rows after the pass: columns before the stop take exactly their ceiling. */
  function ClampedRows(rows: seq<int>, ceilings: seq<int>): (rows': seq<int>)
    requires |rows| == |ceilings|
    ensures |rows'| == |rows|
    ensures forall k :: 0 <= k < ClampStop(rows, ceilings, 0) ==> rows'[k] == ceilings[k]
    ensures forall k :: ClampStop(rows, ceilings, 0) <= k < |rows| ==> rows'[k] == rows[k]
  {
    var stop := ClampStop(rows, ceilings, 0);
    ceilings[..stop] + rows[stop..]
  }

  /** The labels after the pass: columns before the stop take the label at their ceiling. */
  function ClampedLabels(columns: seq<seq<string>>, rows: seq<int>, labels: seq<string>, ceilings: seq<int>): (labels': seq<string>)
    requires Consistent(columns, rows, labels) && ClampSafe(rows, ceilings)
    ensures |labels'| == |labels|
    ensures forall k :: 0 <= k < ClampStop(rows, ceilings, 0) ==> labels'[k] == columns[k][ceilings[k]]
    ensures forall k :: ClampStop(rows, ceilings, 0) <= k < |labels| ==> labels'[k] == labels[k]
  {
    var stop := ClampStop(rows, ceilings, 0);
    LabelsAt(columns, ceilings, stop) + labels[stop..]
  }

  /** The pass keeps the state consistent, and it never moves a row down the wheel past where it
      was: every row stays or decreases. Columns from the stop on are untouched. */
  lemma ClampConsistentAndNonIncreasing(columns: seq<seq<string>>, rows: seq<int>, labels: seq<string>, ceilings: seq<int>)
    requires Consistent(columns, rows, labels) && ClampSafe(rows, ceilings)
    ensures Consistent(columns, ClampedRows(rows, ceilings), ClampedLabels(columns, rows, labels, ceilings))
    ensures forall k :: 0 <= k < |rows| ==> ClampedRows(rows, ceilings)[k] <= rows[k]
    ensures forall k :: ClampStop(rows, ceilings, 0) <= k < |rows| ==>
      ClampedRows(rows, ceilings)[k] == rows[k] && ClampedLabels(columns, rows, labels, ceilings)[k] == labels[k]
    ensures forall k :: 0 <= k < ClampStop(rows, ceilings, 0) ==> ClampedRows(rows, ceilings)[k] == ceilings[k]
  {
    var stop := ClampStop(rows, ceilings, 0);
    var rows', labels' := ClampedRows(rows, ceilings), ClampedLabels(columns, rows, labels, ceilings);
    assert |rows'| == |rows| && |labels'| == |rows|;
    forall k | 0 <= k < |rows|
      ensures 0 <= rows'[k] <= rows[k] && labels'[k] == columns[k][rows'[k]]
      ensures k >= stop ==> rows'[k] == rows[k] && labels'[k] == labels[k]
      ensures k < stop ==> rows'[k] == ceilings[k]
    {
      if k < stop {
        assert rows'[k] == ceilings[k] && labels'[k] == columns[k][ceilings[k]];
      } else {
        assert rows'[k] == rows[k] && labels'[k] == labels[k];
      }
    }
  }

  /** If the first column is below its ceiling the pass changes nothing at all. */
  lemma ClampFirstBelowIsNoop(columns: seq<seq<string>>, rows: seq<int>, labels: seq<string>, ceilings: seq<int>)
    requires Consistent(columns, rows, labels) && ClampSafe(rows, ceilings)
    requires |rows| > 0 && rows[0] < ceilings[0]
    ensures ClampedRows(rows, ceilings) == rows
    ensures ClampedLabels(columns, rows, labels, ceilings) == labels
  {
    assert ClampStop(rows, ceilings, 0) == 0;
  }

  /** `a` is lexicographically at most `b`: equal, or equal up to a column where `a` is smaller. */
  predicate LexAtMost(a: seq<int>, b: seq<int>)
    requires |a| == |b|
  {
    a == b || exists j :: 0 <= j < |a| && a[..j] == b[..j] && a[j] < b[j]
  }

  /** What the pass achieves: the selected rows, read as one multi-digit value, never exceed the
      ceilings read the same way (the ceilings are a lexicographic maximum, not a per-column one). */
  lemma ClampIsLexicographicBound(rows: seq<int>, ceilings: seq<int>)
    requires |rows| == |ceilings|
    ensures LexAtMost(ClampedRows(rows, ceilings), ceilings)
  {
    var stop := ClampStop(rows, ceilings, 0);
    var rows' := ClampedRows(rows, ceilings);
    if stop < |rows| {
      assert rows'[..stop] == ceilings[..stop];
      assert rows'[stop] == rows[stop] < ceilings[stop];
    } else {
      assert rows' == ceilings;
    }
  }

  /** Running the pass a second time changes neither the rows nor the labels. */
  lemma ClampIdempotent(columns: seq<seq<string>>, rows: seq<int>, labels: seq<string>, ceilings: seq<int>)
    requires Consistent(columns, rows, labels) && ClampSafe(rows, ceilings)
    ensures Consistent(columns, ClampedRows(rows, ceilings), ClampedLabels(columns, rows, labels, ceilings))
    ensures ClampSafe(ClampedRows(rows, ceilings), ceilings)
    ensures ClampedRows(ClampedRows(rows, ceilings), ceilings) == ClampedRows(rows, ceilings)
    ensures ClampedLabels(columns, ClampedRows(rows, ceilings), ClampedLabels(columns, rows, labels, ceilings), ceilings)
         == ClampedLabels(columns, rows, labels, ceilings)
  {
    ClampConsistentAndNonIncreasing(columns, rows, labels, ceilings);
    var stop := ClampStop(rows, ceilings, 0);
    var rows' := ClampedRows(rows, ceilings);
    assert forall k :: 0 <= k < stop ==> rows'[k] == ceilings[k];
    assert stop < |rows| ==> rows'[stop] == rows[stop];
    ClampStopUnique(rows', ceilings, stop);
    assert ClampedRows(rows', ceilings) == ceilings[..stop] + rows'[stop..];
    var labels' := ClampedLabels(columns, rows, labels, ceilings);
    ClampConsistentAndNonIncreasing(columns, rows', labels', ceilings);
  }

  /** A user pick followed by the clamp pass, repeated with the same row in the same column, ends
      in the same state as doing it once. */
  lemma PickThenClampIdempotent(columns: seq<seq<string>>, rows: seq<int>, labels: seq<string>, ceilings: seq<int>, c: int, r: int)
    requires Consistent(columns, rows, labels)
    requires 0 <= c < |columns| && 0 <= r < |columns[c]|
    requires ClampSafe(rows[c := r], ceilings)
    ensures Consistent(columns, rows[c := r], labels[c := columns[c][r]])
    ensures
      var rows1 := ClampedRows(rows[c := r], ceilings);
      var labels1 := ClampedLabels(columns, rows[c := r], labels[c := columns[c][r]], ceilings);
      && Consistent(columns, rows1, labels1)
      && ClampSafe(rows1[c := r], ceilings)
      && ClampedRows(rows1[c := r], ceilings) == rows1
      && ClampedLabels(columns, rows1[c := r], labels1[c := columns[c][r]], ceilings) == labels1
  {
    var x, xl := rows[c := r], labels[c := columns[c][r]];
    PickConsistent(columns, rows, labels, c, r);
    var s := ClampStop(x, ceilings, 0);
    ClampConsistentAndNonIncreasing(columns, x, xl, ceilings);
    var x1, xl1 := ClampedRows(x, ceilings), ClampedLabels(columns, x, xl, ceilings);
    PickConsistent(columns, x1, xl1, c, r);
    var y, yl := x1[c := r], xl1[c := columns[c][r]];
    forall k | 0 <= k < s ensures y[k] >= ceilings[k] {
      if k == c { assert y[k] == x[k]; }
    }
    assert s < |y| ==> y[s] == x[s];
    ClampStopUnique(y, ceilings, s);
    assert y[s..] == x[s..];
    assert yl[s..] == xl[s..];
  }

  // ---------------------------------------------------------------------------------------------
  // Programmatic jump (showSelectedRows)

  /** Where the jump stops: the first negative target row, or the length when there is none. */
  function FirstNegative(targets: seq<int>): (stop: nat)
    ensures stop <= |targets|
    ensures forall k :: 0 <= k < stop ==> targets[k] >= 0
    ensures stop < |targets| ==> targets[stop] < 0
  {
    if targets == [] || targets[0] < 0 then 0 else 1 + FirstNegative(targets[1..])
  }

  /** What the source needs so that the jump does not index out of range: every target it applies
      lies inside its column. */
  predicate JumpSafe(columns: seq<seq<string>>, targets: seq<int>)
  {
    |targets| == |columns| && forall k :: 0 <= k < FirstNegative(targets) ==> targets[k] < |columns[k]|
  }

  /** The rows after the jump: columns before the first negative target take that target. */
  function JumpedRows(rows: seq<int>, targets: seq<int>): (rows': seq<int>)
    requires |rows| == |targets|
    ensures |rows'| == |rows|
    ensures forall k :: 0 <= k < FirstNegative(targets) ==> rows'[k] == targets[k]
    ensures forall k :: FirstNegative(targets) <= k < |rows| ==> rows'[k] == rows[k]
  {
    var stop := FirstNegative(targets);
    targets[..stop] + rows[stop..]
  }

  /** The labels after the jump: columns before the first negative target take the label there. */
  function JumpedLabels(columns: seq<seq<string>>, labels: seq<string>, targets: seq<int>): (labels': seq<string>)
    requires |labels| == |columns| && JumpSafe(columns, targets)
    ensures |labels'| == |labels|
    ensures forall k :: 0 <= k < FirstNegative(targets) ==> labels'[k] == columns[k][targets[k]]
    ensures forall k :: FirstNegative(targets) <= k < |labels| ==> labels'[k] == labels[k]
  {
    var stop := FirstNegative(targets);
    LabelsAt(columns, targets, stop) + labels[stop..]
  }

  /** The jump keeps the state consistent: columns before the first negative target take that row
      and its label; that column and every later one keep their row and label. */
  lemma JumpConsistent(columns: seq<seq<string>>, rows: seq<int>, labels: seq<string>, targets: seq<int>)
    requires Consistent(columns, rows, labels) && JumpSafe(columns, targets)
    ensures Consistent(columns, JumpedRows(rows, targets), JumpedLabels(columns, labels, targets))
    ensures forall k :: 0 <= k < FirstNegative(targets) ==>
      JumpedRows(rows, targets)[k] == targets[k] && JumpedLabels(columns, labels, targets)[k] == columns[k][targets[k]]
    ensures forall k :: FirstNegative(targets) <= k < |rows| ==>
      JumpedRows(rows, targets)[k] == rows[k] && JumpedLabels(columns, labels, targets)[k] == labels[k]
  {
    var stop := FirstNegative(targets);
    var rows', labels' := JumpedRows(rows, targets), JumpedLabels(columns, labels, targets);
    forall k | 0 <= k < |rows|
      ensures 0 <= rows'[k] < |columns[k]| && labels'[k] == columns[k][rows'[k]]
      ensures k < stop ==> rows'[k] == targets[k]
      ensures k >= stop ==> rows'[k] == rows[k] && labels'[k] == labels[k]
    {
      if k < stop {
        assert rows'[k] == targets[k] && labels'[k] == columns[k][targets[k]];
      } else {
        assert rows'[k] == rows[k] && labels'[k] == labels[k];
      }
    }
  }

  /** With no negative target the jump lands exactly on the targets. */
  lemma JumpAllNonNegative(columns: seq<seq<string>>, rows: seq<int>, labels: seq<string>, targets: seq<int>)
    requires Consistent(columns, rows, labels) && JumpSafe(columns, targets)
    requires forall k :: 0 <= k < |targets| ==> targets[k] >= 0
    ensures JumpedRows(rows, targets) == targets
    ensures JumpedLabels(columns, labels, targets) == LabelsAt(columns, targets, |targets|)
  {
    assert targets[..FirstNegative(targets)] == targets;
  }
}
