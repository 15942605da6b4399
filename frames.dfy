/** The labelled two-dimensional tables the pipeline reshapes, the pure operations on
    them and the in-place frame object the cleanup calls mutate. */
module Frames {
  import opened Wrappers
  import opened Seqs

  /** One numeric observation; `None` stands for a missing (NaN) value. */
  type Cell = Option<real>

  /** A labelled table, stored column by column: `data[c][i]` is the cell in row `i`
      (row name `index[i]`) and column `c` (column name `columns[c]`). Both axes keep
      their labels even when the other axis is empty, as a pandas frame does. */
  datatype Table = Table(index: seq<string>, columns: seq<string>, data: seq<seq<Cell>>)

  /** Every column holds one cell per row name. */
  predicate WellFormed(t: Table)
  {
    |t.data| == |t.columns| && forall c :: 0 <= c < |t.data| ==> |t.data[c]| == |t.index|
  }

  /** `.T`: rows become columns and columns become rows; the cell at (row i, column c)
      afterwards is the cell at (row c, column i) before. */
  function Transpose(t: Table): (r: Table)
    requires WellFormed(t)
    ensures WellFormed(r)
    ensures r.index == t.columns && r.columns == t.index
    ensures forall i, c :: 0 <= i < |t.index| && 0 <= c < |t.columns| ==> r.data[i][c] == t.data[c][i]
  {
    Table(t.columns, t.index,
          seq(|t.index|, i requires 0 <= i < |t.index| =>
            seq(|t.columns|, c requires 0 <= c < |t.columns| => t.data[c][i])))
  }

  /** Transposing back restores the table, labels of empty axes included. */
  lemma TransposeTwice(t: Table)
    requires WellFormed(t)
    ensures Transpose(Transpose(t)) == t
  {
    var back := Transpose(Transpose(t));
    assert |back.data| == |t.data|;
    forall c | 0 <= c < |t.data| ensures back.data[c] == t.data[c] {
      assert |back.data[c]| == |t.data[c]|;
    }
  }

  /** The columns at positions `keep`, in that order; rows are untouched. */
  function SelectColumns(t: Table, keep: seq<nat>): (r: Table)
    requires WellFormed(t)
    requires forall k :: 0 <= k < |keep| ==> keep[k] < |t.columns|
    ensures WellFormed(r)
    ensures r.index == t.index && |r.columns| == |keep|
    ensures forall k :: 0 <= k < |keep| ==> r.columns[k] == t.columns[keep[k]] && r.data[k] == t.data[keep[k]]
  {
    Table(t.index,
          seq(|keep|, k requires 0 <= k < |keep| => t.columns[keep[k]]),
          seq(|keep|, k requires 0 <= k < |keep| => t.data[keep[k]]))
  }

  /** Selecting every column position in order is the identity. */
  lemma SelectAllColumns(t: Table)
    requires WellFormed(t)
    ensures SelectColumns(t, Range(|t.columns|)) == t
  {
  }

  /** The rows at positions `keep`, in that order; columns are untouched. */
  function SelectRows(t: Table, keep: seq<nat>): (r: Table)
    requires WellFormed(t)
    requires forall k :: 0 <= k < |keep| ==> keep[k] < |t.index|
    ensures WellFormed(r)
    ensures r.columns == t.columns && |r.index| == |keep|
    ensures forall k :: 0 <= k < |keep| ==> r.index[k] == t.index[keep[k]]
    ensures forall c, k :: 0 <= c < |t.columns| && 0 <= k < |keep| ==> r.data[c][k] == t.data[c][keep[k]]
  {
    Table(seq(|keep|, k requires 0 <= k < |keep| => t.index[keep[k]]),
          t.columns,
          seq(|t.data|, c requires 0 <= c < |t.data| =>
            seq(|keep|, k requires 0 <= k < |keep| => t.data[c][keep[k]])))
  }

  /** Selecting every row position in order is the identity. */
  lemma SelectAllRows(t: Table)
    requires WellFormed(t)
    ensures SelectRows(t, Range(|t.index|)) == t
  {
    var r := SelectRows(t, Range(|t.index|));
    forall c | 0 <= c < |t.data| ensures r.data[c] == t.data[c] {
    }
  }

  /** Positions of the columns not labelled `name`. */
  function ColumnsOtherThan(t: Table, name: string): (keep: seq<nat>)
  {
    Positions(|t.columns|, (j: nat) => j < |t.columns| && t.columns[j] != name)
  }

  /** `drop(columns=[label], errors='ignore')`: every column labelled `name` goes, every
      other column stays, unchanged and in order; the rows are untouched. */
  function DropColumn(t: Table, name: string): (r: Table)
    requires WellFormed(t)
    ensures WellFormed(r)
    ensures r.index == t.index
    ensures name !in r.columns
    ensures var keep := ColumnsOtherThan(t, name);
      StrictlyIncreasing(keep) &&
      (forall j :: 0 <= j < |t.columns| ==> (j in keep <==> t.columns[j] != name)) &&
      |r.columns| == |keep| &&
      forall k :: 0 <= k < |keep| ==>
        keep[k] < |t.columns| && r.columns[k] == t.columns[keep[k]] && r.data[k] == t.data[keep[k]]
  {
    var keep := ColumnsOtherThan(t, name);
    var r := SelectColumns(t, keep);
    assert forall k :: 0 <= k < |keep| ==> keep[k] in keep;
    r
  }

  /** A name the table does not have is not an error: the table comes back unchanged. */
  lemma DropAbsentColumn(t: Table, name: string)
    requires WellFormed(t)
    requires name !in t.columns
    ensures DropColumn(t, name) == t
  {
    PositionsAll(|t.columns|, (j: nat) => j < |t.columns| && t.columns[j] != name);
    SelectAllColumns(t);
  }

  /** Row `i` holds at least one present (non-missing) cell. */
  predicate RowHasValue(t: Table, i: nat)
  {
    exists c :: 0 <= c < |t.data| && i < |t.data[c]| && t.data[c][i].Some?
  }

  /** Positions of the rows that hold at least one present cell. */
  function RowsWithValue(t: Table): (keep: seq<nat>)
  {
    Positions(|t.index|, (i: nat) => RowHasValue(t, i))
  }

  /** `dropna(axis=0, how='all')`: a row goes exactly when every one of its cells is
      missing (so a row of a table without columns goes too); the other rows stay,
      unchanged and in order, and the columns are untouched. */
  function DropMissingRows(t: Table): (r: Table)
    requires WellFormed(t)
    ensures WellFormed(r)
    ensures r.columns == t.columns
    ensures forall k :: 0 <= k < |r.index| ==> RowHasValue(r, k)
    ensures var keep := RowsWithValue(t);
      StrictlyIncreasing(keep) &&
      (forall i :: 0 <= i < |t.index| ==> (i in keep <==> RowHasValue(t, i))) &&
      |r.index| == |keep| &&
      forall k :: 0 <= k < |keep| ==>
        keep[k] < |t.index| && r.index[k] == t.index[keep[k]] &&
        forall c :: 0 <= c < |t.columns| ==> r.data[c][k] == t.data[c][keep[k]]
  {
    var keep := RowsWithValue(t);
    assert forall k :: 0 <= k < |keep| ==> keep[k] in keep;
    var r := SelectRows(t, keep);
    SelectedRowsHaveValue(t, keep);
    r
  }

  lemma SelectedRowsHaveValue(t: Table, keep: seq<nat>)
    requires WellFormed(t)
    requires forall k :: 0 <= k < |keep| ==> keep[k] < |t.index| && RowHasValue(t, keep[k])
    ensures forall k :: 0 <= k < |keep| ==> RowHasValue(SelectRows(t, keep), k)
  {
    var r := SelectRows(t, keep);
    forall k | 0 <= k < |keep| ensures RowHasValue(r, k) {
      var c :| 0 <= c < |t.data| && keep[k] < |t.data[c]| && t.data[c][keep[k]].Some?;
      assert r.data[c][k] == t.data[c][keep[k]];
    }
  }

  /** A missing cell becomes `Some(v)`; a present one is left alone. */
  function Fill(x: Cell, v: real): Cell
  {
    if x.None? then Some(v) else x
  }

  /** No cell is missing. */
  predicate Complete(t: Table)
  {
    forall c, i :: 0 <= c < |t.data| && 0 <= i < |t.data[c]| ==> t.data[c][i].Some?
  }

  /** `fillna(v)`: afterwards no cell is missing; present cells keep their value and
      missing ones hold `v`; the labels are untouched. */
  function FillMissing(t: Table, v: real): (r: Table)
    requires WellFormed(t)
    ensures WellFormed(r) && Complete(r)
    ensures r.index == t.index && r.columns == t.columns
    ensures forall c, i :: 0 <= c < |t.columns| && 0 <= i < |t.index| ==>
      (t.data[c][i].Some? ==> r.data[c][i] == t.data[c][i]) &&
      (t.data[c][i].None? ==> r.data[c][i] == Some(v))
  {
    Table(t.index, t.columns,
          seq(|t.data|, c requires 0 <= c < |t.data| =>
            seq(|t.data[c]|, i requires 0 <= i < |t.data[c]| => Fill(t.data[c][i], v))))
  }

  /** Filling a table that has nothing missing changes nothing. */
  lemma FillComplete(t: Table, v: real)
    requires WellFormed(t) && Complete(t)
    ensures FillMissing(t, v) == t
  {
    var r := FillMissing(t, v);
    forall c | 0 <= c < |t.data| ensures r.data[c] == t.data[c] {
    }
  }

  /** Column `c` holds a cell that is not 0 (pandas' `!= 0` is also true of NaN). */
  predicate HasNonzero(t: Table, c: nat)
  {
    c < |t.data| && exists i :: 0 <= i < |t.data[c]| && t.data[c][i] != Some(0.0)
  }

  /** Positions of the columns with a cell that is not 0. */
  function NonzeroPositions(t: Table): (keep: seq<nat>)
  {
    Positions(|t.columns|, (c: nat) => HasNonzero(t, c))
  }

  /** `t.loc[:, (t != 0).any(axis=0)]`: exactly the columns with a nonzero cell, in
      order and unchanged; the row labels are untouched. */
  function NonzeroColumns(t: Table): (r: Table)
    requires WellFormed(t)
    ensures WellFormed(r)
    ensures r.index == t.index
    ensures forall k :: 0 <= k < |r.columns| ==> HasNonzero(r, k)
    ensures var keep := NonzeroPositions(t);
      StrictlyIncreasing(keep) &&
      (forall j :: 0 <= j < |t.columns| ==> (j in keep <==> HasNonzero(t, j))) &&
      |r.columns| == |keep| &&
      forall k :: 0 <= k < |keep| ==>
        keep[k] < |t.columns| && r.columns[k] == t.columns[keep[k]] && r.data[k] == t.data[keep[k]]
  {
    var keep := NonzeroPositions(t);
    assert forall k :: 0 <= k < |keep| ==> keep[k] in keep;
    SelectedColumnsNonzero(t, keep);
    SelectColumns(t, keep)
  }

  lemma SelectedColumnsNonzero(t: Table, keep: seq<nat>)
    requires WellFormed(t)
    requires forall k :: 0 <= k < |keep| ==> keep[k] < |t.columns| && HasNonzero(t, keep[k])
    ensures forall k :: 0 <= k < |keep| ==> HasNonzero(SelectColumns(t, keep), k)
  {
    var r := SelectColumns(t, keep);
    forall k | 0 <= k < |keep| ensures HasNonzero(r, k) {
      var i :| 0 <= i < |t.data[keep[k]]| && t.data[keep[k]][i] != Some(0.0);
      assert r.data[k][i] == t.data[keep[k]][i];
    }
  }

  /** The name of the aggregate column that the cleanup removes. */
  const TOTAL: string := "Total"

  /** The cleanup both scripts apply after the transpose, in their order. It keeps
      exactly the fuel labels other than `Total` and only removes years. */
  function Clean(t: Table): (r: Table)
    requires WellFormed(t)
    ensures forall c :: c in r.columns <==> c in t.columns && c != TOTAL
    ensures forall i :: 0 <= i < |r.index| ==> r.index[i] in t.index
  {
    DropColumnMembers(t, TOTAL);
    DropMissingRowsIndex(DropColumn(t, TOTAL));
    FillMissing(DropMissingRows(DropColumn(t, TOTAL)), 0.0)
  }

  /** The labels left by a column drop are exactly the other labels. */
  lemma DropColumnMembers(t: Table, name: string)
    requires WellFormed(t)
    ensures forall c :: c in DropColumn(t, name).columns <==> c in t.columns && c != name
  {
    var r := DropColumn(t, name);
    var keep := ColumnsOtherThan(t, name);
    forall c | c in r.columns ensures c in t.columns {
      var k :| 0 <= k < |r.columns| && r.columns[k] == c;
      assert t.columns[keep[k]] == c;
    }
    forall c | c in t.columns && c != name ensures c in r.columns {
      var j :| 0 <= j < |t.columns| && t.columns[j] == c;
      assert j in keep;
      var k :| 0 <= k < |keep| && keep[k] == j;
      assert r.columns[k] == c;
    }
  }

  /** Every row label left by the row drop was a row label before. */
  lemma DropMissingRowsIndex(t: Table)
    requires WellFormed(t)
    ensures forall i :: 0 <= i < |DropMissingRows(t).index| ==> DropMissingRows(t).index[i] in t.index
  {
    var d := DropMissingRows(t);
    var keep := RowsWithValue(t);
    forall i | 0 <= i < |d.index| ensures d.index[i] in t.index {
      assert d.index[i] == t.index[keep[i]];
    }
  }

  /** What the cleanup leaves: no `Total` column, no missing cell, and, when there is any
      column at all, a year row only if it had a present value. A table whose columns
      are all gone has no rows left either. */
  lemma CleanShape(t: Table)
    requires WellFormed(t)
    ensures WellFormed(Clean(t)) && Complete(Clean(t))
    ensures TOTAL !in Clean(t).columns
    ensures |Clean(t).columns| == 0 ==> |Clean(t).index| == 0
  {
    var d := DropMissingRows(DropColumn(t, TOTAL));
    assert |d.index| > 0 ==> RowHasValue(d, 0);
  }

  /** Running the cleanup twice gives the same table as running it once. */
  lemma CleanIdempotent(t: Table)
    requires WellFormed(t)
    ensures Clean(Clean(t)) == Clean(t)
  {
    var c := Clean(t);
    CleanShape(t);
    DropAbsentColumn(c, TOTAL);
    assert DropColumn(c, TOTAL) == c;
    CompleteRowsKept(c);
    assert DropMissingRows(c) == c;
    FillComplete(c, 0.0);
  }

  /** In a complete table every row is kept by the row drop: each column supplies a
      present cell, and a table without columns has no rows to drop. */
  lemma CompleteRowsKept(t: Table)
    requires WellFormed(t) && Complete(t)
    requires |t.columns| == 0 ==> |t.index| == 0
    ensures DropMissingRows(t) == t
  {
    forall i | 0 <= i < |t.index| ensures RowHasValue(t, i) {
      assert t.data[0][i].Some?;
    }
    PositionsAll(|t.index|, (i: nat) => RowHasValue(t, i));
    SelectAllRows(t);
  }

  /** A year whose fuels are all missing is dropped; the other keeps both values. */
  lemma CleanExample(t: Table)
    requires t == Table(["2020", "2021"], ["Coal", "Oil"], [[Some(150.0), None], [Some(200.0), None]])
    ensures Clean(t) == Table(["2020"], ["Coal", "Oil"], [[Some(150.0)], [Some(200.0)]])
  {
    ExampleNoTotal(t);
    var d := ExampleDrop(t);
    FillComplete(d, 0.0);
  }

  lemma ExampleNoTotal(t: Table)
    requires t == Table(["2020", "2021"], ["Coal", "Oil"], [[Some(150.0), None], [Some(200.0), None]])
    ensures DropColumn(t, TOTAL) == t
  {
    assert TOTAL !in t.columns by {
      assert t.columns[0][0] != TOTAL[0] && t.columns[1][0] != TOTAL[0];
    }
    DropAbsentColumn(t, TOTAL);
  }

  lemma ExampleDrop(t: Table) returns (d: Table)
    requires t == Table(["2020", "2021"], ["Coal", "Oil"], [[Some(150.0), None], [Some(200.0), None]])
    ensures d == DropMissingRows(t) && WellFormed(d) && Complete(d)
    ensures d == Table(["2020"], ["Coal", "Oil"], [[Some(150.0)], [Some(200.0)]])
  {
    ExampleRows(t);
    d := DropMissingRows(t);
    assert d.index == ["2020"];
    assert d.data[0] == [Some(150.0)] && d.data[1] == [Some(200.0)];
  }

  lemma ExampleRows(t: Table)
    requires t == Table(["2020", "2021"], ["Coal", "Oil"], [[Some(150.0), None], [Some(200.0), None]])
    ensures RowsWithValue(t) == [0]
  {
    assert RowHasValue(t, 0) by { assert t.data[0][0].Some?; }
    assert !RowHasValue(t, 1) by { assert t.data[0][1].None? && t.data[1][1].None?; }
    var q := (i: nat) => RowHasValue(t, i);
    assert Range(2) == [0, 1];
    var tail: seq<nat> := [1];
    assert Keep(tail, q) == [];
    assert Range(2)[1..] == tail;
  }

  /** A pandas frame as the scripts mutate it with `inplace=True`. */
  class Frame {
    var index: seq<string>
    var columns: seq<string>
    var data: seq<seq<Cell>>

    /** The table the frame currently holds. */
    function Value(): Table
      reads this
    {
      Table(index, columns, data)
    }

    ghost predicate Valid()
      reads this
    {
      WellFormed(Value())
    }

    constructor (t: Table)
      requires WellFormed(t)
      ensures Valid() && Value() == t
    {
      index, columns, data := t.index, t.columns, t.data;
    }

    /** `drop(columns=[label], errors='ignore', inplace=True)`. */
    method Drop(name: string)
      requires Valid()
      modifies this
      ensures Valid() && Value() == DropColumn(old(Value()), name)
    {
      var r := DropColumn(Value(), name);
      index, columns, data := r.index, r.columns, r.data;
    }

    /** `dropna(axis=0, how='all', inplace=True)`. */
    method DropNaAll()
      requires Valid()
      modifies this
      ensures Valid() && Value() == DropMissingRows(old(Value()))
    {
      var r := DropMissingRows(Value());
      index, columns, data := r.index, r.columns, r.data;
    }

    /** `fillna(v, inplace=True)`. */
    method FillNa(v: real)
      requires Valid()
      modifies this
      ensures Valid() && Value() == FillMissing(old(Value()), v)
    {
      var r := FillMissing(Value(), v);
      index, columns, data := r.index, r.columns, r.data;
    }
  }
}
