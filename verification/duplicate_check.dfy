/** The duplicate check: the number of rows equal, cell by cell, to some
    earlier row. The first row of each group of equal rows is not counted,
    and a missing cell equals a missing cell. */
module DuplicateCheck {
  import opened Seqs
  import opened Cells
  import opened Frame

  /** A row as the tuple of values it is compared by. */
  function RowKey(cells: seq<Cell>): (k: seq<Key>)
    ensures |k| == |cells|
    ensures forall j :: 0 <= j < |cells| ==> k[j] == KeyOf(cells[j])
  {
    Map(cells, KeyOf)
  }

  /** Two rows have the same tuple exactly when their cells are pairwise equal
      the way Python compares them. */
  lemma RowKeyEqIff(a: seq<Cell>, b: seq<Cell>)
    requires |a| == |b|
    ensures RowKey(a) == RowKey(b) <==> forall j :: 0 <= j < |a| ==> SameValue(a[j], b[j])
  {
    forall j | 0 <= j < |a|
      ensures KeyOf(a[j]) == KeyOf(b[j]) <==> SameValue(a[j], b[j])
    {
      KeyOfDecidesSameValue(a[j], b[j]);
    }
    if forall j :: 0 <= j < |a| ==> SameValue(a[j], b[j]) {
      assert forall j :: 0 <= j < |a| ==> RowKey(a)[j] == RowKey(b)[j];
    }
  }

  function Tuples(t: Table): seq<seq<Key>> {
    Map(t.cells, RowKey)
  }

  /** Rows equal to an earlier row. A table without columns has no rows to
      compare and reports none. */
  function DuplicateCount(t: Table): (n: nat)
    ensures n <= |t.cells|
    ensures |t.cells| <= 1 ==> n == 0
  {
    if |t.columns| == 0 then 0 else Dups(Tuples(t))
  }

  /** With at least one column, the count is the number of rows minus the
      number of distinct row tuples. */
  lemma DuplicateCountIsRowsMinusDistinct(t: Table)
    requires |t.columns| > 0
    ensures DuplicateCount(t) == |t.cells| - |Dedup(Tuples(t))|
  {
    DupsPlusDedup(Tuples(t));
  }

  /** Rows `i` and `i2` of `t` are equal cell by cell. */
  predicate RowsEqual(t: Table, i: nat, i2: nat)
    requires Rectangular(t) && i < |t.cells| && i2 < |t.cells|
  {
    forall j :: 0 <= j < |t.columns| ==> SameValue(t.cells[i][j], t.cells[i2][j])
  }

  /** With at least one column, the count is zero exactly when no two rows
      are equal cell by cell. */
  lemma DuplicateCountZeroIff(t: Table)
    requires Rectangular(t) && |t.columns| > 0
    ensures DuplicateCount(t) == 0 <==>
      forall i, i2 :: 0 <= i < i2 < |t.cells| ==> !RowsEqual(t, i, i2)
  {
    var ts := Tuples(t);
    DupsZeroIffDistinct(ts);
    forall i, i2 | 0 <= i < i2 < |t.cells|
      ensures ts[i] == ts[i2] <==> RowsEqual(t, i, i2)
    {
      RowKeyEqIff(t.cells[i], t.cells[i2]);
    }
  }

  /** Reordering the rows does not change the count. */
  lemma DuplicateCountRowPerm(t1: Table, t2: Table)
    requires |t1.columns| == |t2.columns|
    requires multiset(t1.cells) == multiset(t2.cells)
    ensures DuplicateCount(t1) == DuplicateCount(t2)
  {
    MapPerm(t1.cells, t2.cells, RowKey);
    DupsPerm(Tuples(t1), Tuples(t2));
  }

  /** Two rows have equal tuples under `cols` exactly when they agree on every key in `cols`. */
  lemma TupleEqIff(r1: Row, r2: Row, cols: seq<string>)
    ensures RowKey(RowVector(r1, cols)) == RowKey(RowVector(r2, cols)) <==>
      forall k :: k in cols ==> KeyOf(CellAt(r1, k)) == KeyOf(CellAt(r2, k))
  {
    var a, b := RowKey(RowVector(r1, cols)), RowKey(RowVector(r2, cols));
    if a == b {
      forall k | k in cols
        ensures KeyOf(CellAt(r1, k)) == KeyOf(CellAt(r2, k))
      {
        var j :| 0 <= j < |cols| && cols[j] == k;
        assert a[j] == b[j];
      }
    }
    if forall k :: k in cols ==> KeyOf(CellAt(r1, k)) == KeyOf(CellAt(r2, k)) {
      assert forall j :: 0 <= j < |cols| ==> a[j] == b[j];
    }
  }

  /** Laying the rows out under another order of the same columns does not
      change the count. */
  lemma DuplicateCountColumnOrder(rows: seq<Row>, c1: seq<string>, c2: seq<string>)
    requires multiset(c1) == multiset(c2)
    ensures DuplicateCount(TableOf(rows, c1)) == DuplicateCount(TableOf(rows, c2))
  {
    assert |c1| == |multiset(c1)| == |c2|;
    var ts1, ts2 := Tuples(TableOf(rows, c1)), Tuples(TableOf(rows, c2));
    forall i, i' | 0 <= i < |rows| && 0 <= i' < |rows|
      ensures ts1[i] == ts1[i'] <==> ts2[i] == ts2[i']
    {
      TupleEqIff(rows[i], rows[i'], c1);
      TupleEqIff(rows[i], rows[i'], c2);
      assert forall k :: k in c1 <==> k in c2 by {
        forall k
          ensures k in c1 <==> k in c2
        {
          assert k in c1 <==> k in multiset(c1);
          assert k in c2 <==> k in multiset(c2);
        }
      }
    }
    DupsFollowEquality(ts1, ts2);
  }
}
