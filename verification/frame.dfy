/** Turning the stored rows into a table: each row is a decoded JSON object,
    the table's columns are the union of all keys in order of first
    appearance, and a row lacking a key has a null cell in that column. */
module Frame {
  import opened Wrappers
  import opened Seqs
  import opened Cells

  /** One decoded JSON object: its members in document order. */
  type Row = seq<(string, Cell)>

  predicate HasKey(row: Row, k: string) {
    exists i :: 0 <= i < |row| && row[i].0 == k
  }

  /** The value bound to `k`. With a repeated key the last binding wins, as
      in a decoded JSON object. */
  function Lookup(row: Row, k: string): (r: Option<Cell>)
    ensures r.None? <==> !HasKey(row, k)
    ensures r.Some? ==>
      exists i :: 0 <= i < |row| && row[i] == (k, r.value) &&
        forall j :: i < j < |row| ==> row[j].0 != k
  {
    if |row| == 0 then None
    else
      var n := |row| - 1;
      if row[n].0 == k then Some(row[n].1)
      else
        var r := Lookup(row[..n], k);
        assert forall i :: 0 <= i < n ==> row[..n][i] == row[i];
        r
  }

  /** The cell of `row` in column `k`: its value, or null when the key is missing. */
  function CellAt(row: Row, k: string): (c: Cell)
    ensures !HasKey(row, k) ==> c == Null
    ensures HasKey(row, k) ==> Lookup(row, k) == Some(c)
  {
    match Lookup(row, k)
    case None => Null
    case Some(c) => c
  }

  /** Two rows bind every key to the same value, whatever the order of their members. */
  ghost predicate SameBindings(r1: Row, r2: Row) {
    forall k :: Lookup(r1, k) == Lookup(r2, k)
  }

  function RowKeys(row: Row): (ks: seq<string>)
    ensures |ks| == |row|
    ensures forall i :: 0 <= i < |row| ==> ks[i] == row[i].0
  {
    Map(row, (p: (string, Cell)) => p.0)
  }

  /** All keys of all rows, rows in order and keys in document order. */
  function AllKeys(rows: seq<Row>): seq<string> {
    if |rows| == 0 then [] else RowKeys(rows[0]) + AllKeys(rows[1..])
  }

  lemma {:induction false} AllKeysMembership(rows: seq<Row>, k: string)
    ensures k in AllKeys(rows) <==> exists i :: 0 <= i < |rows| && HasKey(rows[i], k)
  {
    if |rows| > 0 {
      AllKeysMembership(rows[1..], k);
      assert forall i :: 1 <= i < |rows| ==> rows[1..][i - 1] == rows[i];
      if HasKey(rows[0], k) {
        var w :| 0 <= w < |rows[0]| && rows[0][w].0 == k;
        assert RowKeys(rows[0])[w] == k;
      }
      if k in RowKeys(rows[0]) {
        var w :| 0 <= w < |rows[0]| && RowKeys(rows[0])[w] == k;
        assert rows[0][w].0 == k;
      }
    }
  }

  /** The column names: every key of every row, once each. */
  function Columns(rows: seq<Row>): (cols: seq<string>)
    ensures Distinct(cols)
    ensures forall k :: k in cols <==> exists i :: 0 <= i < |rows| && HasKey(rows[i], k)
  {
    var cols := Dedup(AllKeys(rows));
    assert forall k :: k in cols <==> k in AllKeys(rows) by {
      forall k
        ensures k in cols <==> k in AllKeys(rows)
      {
        if k in AllKeys(rows) {
          var w :| 0 <= w < |AllKeys(rows)| && AllKeys(rows)[w] == k;
          assert AllKeys(rows)[w] in cols;
        }
        if k in cols {
          var w :| 0 <= w < |cols| && cols[w] == k;
          assert cols[w] in AllKeys(rows);
        }
      }
    }
    forall k
      ensures k in AllKeys(rows) <==> exists i :: 0 <= i < |rows| && HasKey(rows[i], k)
    {
      AllKeysMembership(rows, k);
    }
    cols
  }

  /** Columns are listed in the order in which their keys first appear when
      the rows are read in order. */
  lemma ColumnsInFirstSeenOrder(rows: seq<Row>, i: int, j: int, a: int, b: int)
    requires 0 <= i < j < |Columns(rows)|
    requires IsFirstIndex(AllKeys(rows), Columns(rows)[i], a)
    requires IsFirstIndex(AllKeys(rows), Columns(rows)[j], b)
    ensures a < b
  {
    DedupFirstSeenOrder(AllKeys(rows), i, j, a, b);
  }

  /** A table: column names and one sequence of cells per row. */
  datatype Table = Table(columns: seq<string>, cells: seq<seq<Cell>>)

  predicate Rectangular(t: Table) {
    forall i :: 0 <= i < |t.cells| ==> |t.cells[i]| == |t.columns|
  }

  /** The cells of `row` under the columns `cols`, in column order. */
  function RowVector(row: Row, cols: seq<string>): (v: seq<Cell>)
    ensures |v| == |cols|
    ensures forall j :: 0 <= j < |cols| ==> v[j] == CellAt(row, cols[j])
  {
    Map(cols, k => CellAt(row, k))
  }

  /** The rows laid out under a chosen order of columns. */
  function TableOf(rows: seq<Row>, cols: seq<string>): (t: Table)
    ensures t.columns == cols && |t.cells| == |rows| && Rectangular(t)
    ensures forall i :: 0 <= i < |rows| ==> t.cells[i] == RowVector(rows[i], cols)
  {
    Table(cols, Map(rows, r => RowVector(r, cols)))
  }

  /** The table the rows make: rectangular, one column per distinct key, a
      missing key giving a null cell and a present key giving its value. */
  function Normalize(rows: seq<Row>): (t: Table)
    ensures Rectangular(t) && |t.cells| == |rows|
    ensures Distinct(t.columns)
    ensures forall k :: k in t.columns <==> exists i :: 0 <= i < |rows| && HasKey(rows[i], k)
    ensures forall i, j :: 0 <= i < |rows| && 0 <= j < |t.columns| ==>
      (!HasKey(rows[i], t.columns[j]) ==> t.cells[i][j] == Null) &&
      (HasKey(rows[i], t.columns[j]) ==> Lookup(rows[i], t.columns[j]) == Some(t.cells[i][j]))
  {
    TableOf(rows, Columns(rows))
  }

  /** The cells of column `j`, top to bottom. */
  function Column(t: Table, j: nat): (col: seq<Cell>)
    requires Rectangular(t) && j < |t.columns|
    ensures |col| == |t.cells|
    ensures forall i :: 0 <= i < |t.cells| ==> col[i] == t.cells[i][j]
  {
    seq(|t.cells|, i requires 0 <= i < |t.cells| => t.cells[i][j])
  }

  /** The columns of `t`, left to right. */
  function AllColumns(t: Table): (cs: seq<seq<Cell>>)
    requires Rectangular(t)
    ensures |cs| == |t.columns|
    ensures forall j :: 0 <= j < |cs| ==> cs[j] == Column(t, j) && |cs[j]| == |t.cells|
  {
    seq(|t.columns|, j requires 0 <= j < |t.columns| => Column(t, j))
  }

  /** The cells the rows hold under key `k`, top to bottom. */
  function KeyColumn(rows: seq<Row>, k: string): (col: seq<Cell>)
    ensures |col| == |rows|
    ensures forall i :: 0 <= i < |rows| ==> col[i] == CellAt(rows[i], k)
  {
    Map(rows, r => CellAt(r, k))
  }

  lemma ColumnOfTableOf(rows: seq<Row>, cols: seq<string>, j: nat)
    requires j < |cols|
    ensures Column(TableOf(rows, cols), j) == KeyColumn(rows, cols[j])
  {
  }

  // ---------------------------------------------------------------------------
  // What does not depend on order
  // ---------------------------------------------------------------------------

  /** Two orders of the same distinct column names are permutations of each other. */
  lemma ColumnOrdersArePerm(c1: seq<string>, c2: seq<string>)
    requires Distinct(c1) && Distinct(c2)
    requires forall k :: k in c1 <==> k in c2
    ensures multiset(c1) == multiset(c2)
  {
    DistinctSameElementsArePerm(c1, c2);
  }

  /** Reordering the columns reorders each row's cells. */
  lemma RowVectorPerm(row: Row, c1: seq<string>, c2: seq<string>)
    requires multiset(c1) == multiset(c2)
    ensures multiset(RowVector(row, c1)) == multiset(RowVector(row, c2))
  {
    MapPerm(c1, c2, k => CellAt(row, k));
  }

  /** Reordering the rows reorders the table's rows and each column's cells. */
  lemma TableOfRowPerm(r1: seq<Row>, r2: seq<Row>, cols: seq<string>)
    requires multiset(r1) == multiset(r2)
    ensures multiset(TableOf(r1, cols).cells) == multiset(TableOf(r2, cols).cells)
    ensures forall k :: multiset(KeyColumn(r1, k)) == multiset(KeyColumn(r2, k))
  {
    MapPerm(r1, r2, r => RowVector(r, cols));
    forall k
      ensures multiset(KeyColumn(r1, k)) == multiset(KeyColumn(r2, k))
    {
      MapPerm(r1, r2, r => CellAt(r, k));
    }
  }

  /** Reordered rows carry the same keys, so they give the same column names,
      possibly in another order. */
  lemma ColumnsRowPerm(r1: seq<Row>, r2: seq<Row>)
    requires multiset(r1) == multiset(r2)
    ensures multiset(Columns(r1)) == multiset(Columns(r2))
  {
    forall k
      ensures k in Columns(r1) <==> k in Columns(r2)
    {
      if k in Columns(r1) {
        var i :| 0 <= i < |r1| && HasKey(r1[i], k);
        assert r1[i] in multiset(r2);
        var w :| 0 <= w < |r2| && r2[w] == r1[i];
      }
      if k in Columns(r2) {
        var i :| 0 <= i < |r2| && HasKey(r2[i], k);
        assert r2[i] in multiset(r1);
        var w :| 0 <= w < |r1| && r1[w] == r2[i];
      }
    }
    ColumnOrdersArePerm(Columns(r1), Columns(r2));
  }

  /** Rows that bind the same keys to the same values, member order aside,
      give the same column names and the same cells under any column order. */
  lemma SameBindingsRows(r1: seq<Row>, r2: seq<Row>, cols: seq<string>)
    requires |r1| == |r2|
    requires forall i :: 0 <= i < |r1| ==> SameBindings(r1[i], r2[i])
    ensures TableOf(r1, cols) == TableOf(r2, cols)
    ensures multiset(Columns(r1)) == multiset(Columns(r2))
  {
    forall i, k | 0 <= i < |r1|
      ensures HasKey(r1[i], k) <==> HasKey(r2[i], k)
      ensures CellAt(r1[i], k) == CellAt(r2[i], k)
    {
      assert Lookup(r1[i], k) == Lookup(r2[i], k);
    }
    forall i | 0 <= i < |r1|
      ensures RowVector(r1[i], cols) == RowVector(r2[i], cols)
    {
      assert forall j :: 0 <= j < |cols| ==> CellAt(r1[i], cols[j]) == CellAt(r2[i], cols[j]);
    }
    assert TableOf(r1, cols).cells == TableOf(r2, cols).cells;
    ColumnOrdersArePerm(Columns(r1), Columns(r2));
  }
}
