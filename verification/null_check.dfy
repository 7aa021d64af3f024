/** The null check: the number of missing cells in the whole table. */
module NullCheck {
  import opened Seqs
  import opened Cells
  import opened Frame

  function NullsIn(cells: seq<Cell>): nat {
    Count(cells, (c: Cell) => c.Null?)
  }

  /** Missing cells, summed over the rows. */
  function NullCount(t: Table): (n: nat)
    requires Rectangular(t)
    ensures n <= |t.cells| * |t.columns|
  {
    var perRow := Map(t.cells, NullsIn);
    SumNatBound(perRow, |t.columns|);
    SumNat(perRow)
  }

  /** Summing the missing cells column by column, as `isnull().sum().sum()`
      does, gives the same total as summing them row by row. */
  lemma {:induction false} NullCountByColumns(t: Table)
    requires Rectangular(t)
    ensures NullCount(t) == SumNat(Map(AllColumns(t), NullsIn))
    decreases |t.cells|
  {
    var byColumn := Map(AllColumns(t), NullsIn);
    if |t.cells| == 0 {
      SumNatZeroIffAllZero(byColumn);
    } else {
      var rest := Table(t.columns, t.cells[1..]);
      NullCountByColumns(rest);
      var restByColumn := Map(AllColumns(rest), NullsIn);
      var top: seq<nat> := seq(|t.columns|, j requires 0 <= j < |t.columns| =>
        if t.cells[0][j].Null? then 1 else 0);
      forall j | 0 <= j < |t.columns|
        ensures byColumn[j] == restByColumn[j] + top[j]
      {
        assert Column(t, j)[1..] == Column(rest, j);
      }
      SumNatAdd(restByColumn, top, byColumn);
      SumNatIndicator(t.cells[0], (c: Cell) => c.Null?, top);
      assert Map(t.cells, NullsIn) == [NullsIn(t.cells[0])] + Map(rest.cells, NullsIn);
    }
  }

  /** The count is zero exactly when no cell is missing. */
  lemma NullCountZeroIff(t: Table)
    requires Rectangular(t)
    ensures NullCount(t) == 0 <==>
      forall i, j :: 0 <= i < |t.cells| && 0 <= j < |t.columns| ==> t.cells[i][j] != Null
  {
    var perRow := Map(t.cells, NullsIn);
    SumNatZeroIffAllZero(perRow);
    forall i | 0 <= i < |t.cells|
      ensures perRow[i] == 0 <==> forall j :: 0 <= j < |t.columns| ==> t.cells[i][j] != Null
    {
      CountZeroIffNone(t.cells[i], (c: Cell) => c.Null?);
    }
  }

  /** A table whose every cell is missing counts each of its rows x columns cells. */
  lemma {:induction false} AllNullCount(t: Table)
    requires Rectangular(t)
    requires forall i, j :: 0 <= i < |t.cells| && 0 <= j < |t.columns| ==> t.cells[i][j] == Null
    ensures NullCount(t) == |t.cells| * |t.columns|
    decreases |t.cells|
  {
    if |t.cells| > 0 {
      var rest := Table(t.columns, t.cells[1..]);
      AllNullCount(rest);
      CountFullIffAll(t.cells[0], (c: Cell) => c.Null?);
      assert Map(t.cells, NullsIn) == [NullsIn(t.cells[0])] + Map(rest.cells, NullsIn);
      assert |t.cells| * |t.columns| == |t.columns| + |rest.cells| * |t.columns|;
    }
  }

  /** Reordering the rows does not change the count. */
  lemma NullCountRowPerm(t1: Table, t2: Table)
    requires Rectangular(t1) && Rectangular(t2)
    requires multiset(t1.cells) == multiset(t2.cells)
    ensures NullCount(t1) == NullCount(t2)
  {
    MapPerm(t1.cells, t2.cells, NullsIn);
    SumNatPerm(Map(t1.cells, NullsIn), Map(t2.cells, NullsIn));
  }

  /** Laying the rows out under another order of the same columns does not
      change the count. */
  lemma NullCountColumnOrder(rows: seq<Row>, c1: seq<string>, c2: seq<string>)
    requires multiset(c1) == multiset(c2)
    ensures NullCount(TableOf(rows, c1)) == NullCount(TableOf(rows, c2))
  {
    var t1, t2 := TableOf(rows, c1), TableOf(rows, c2);
    forall i | 0 <= i < |rows|
      ensures NullsIn(t1.cells[i]) == NullsIn(t2.cells[i])
    {
      RowVectorPerm(rows[i], c1, c2);
      CountPerm(t1.cells[i], t2.cells[i], (c: Cell) => c.Null?);
    }
    assert Map(t1.cells, NullsIn) == Map(t2.cells, NullsIn);
  }
}
