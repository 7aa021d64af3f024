/** The data-quality engine: the stored rows of a dataset become a table,
    and three counts are reported for it, always in the same order. */
module QualityEngine {
  import opened Wrappers
  import opened Seqs
  import opened Cells
  import opened Frame
  import opened NullCheck
  import opened DuplicateCheck
  import opened AnomalyCheck

  /** One entry of the engine's result: a check's key and its issue count. */
  datatype CheckResult = CheckResult(name: string, count: nat)

  const CheckNames: seq<string> := ["null_check", "duplicate_check", "anomaly_check"]

  /** The three counts of a table, in reporting order. */
  function TableChecks(t: Table): (r: seq<CheckResult>)
    requires Rectangular(t)
    ensures |r| == |CheckNames|
    ensures forall i :: 0 <= i < |r| ==> r[i].name == CheckNames[i]
  {
    [CheckResult("null_check", NullCount(t)),
     CheckResult("duplicate_check", DuplicateCount(t)),
     CheckResult("anomaly_check", AnomalyCount(t))]
  }

  /** The engine: exactly the keys null_check, duplicate_check and
      anomaly_check, in that order. */
  function RunDataQualityChecks(rows: seq<Row>): (r: seq<CheckResult>)
    ensures |r| == |CheckNames|
    ensures forall i :: 0 <= i < |r| ==> r[i].name == CheckNames[i]
  {
    TableChecks(Normalize(rows))
  }

  /** Each count is at most the number of cells, or of rows, it ranges over. */
  lemma EngineCountBounds(rows: seq<Row>)
    ensures RunDataQualityChecks(rows)[0].count <= |rows| * |Columns(rows)|
    ensures RunDataQualityChecks(rows)[1].count <= |rows|
    ensures RunDataQualityChecks(rows)[2].count <= |rows| * |Columns(rows)|
  {
    var t := Normalize(rows);
    AnomalyCountBounds(t);
    NumericColumnsAtMostColumns(t);
    MulMono(|rows|, NumericColumnCount(t), |Columns(rows)|);
  }

  lemma NumericColumnsAtMostColumns(t: Table)
    requires Rectangular(t)
    ensures NumericColumnCount(t) <= |t.columns|
  {
  }

  lemma MulMono(a: nat, b: nat, c: nat)
    requires b <= c
    ensures a * b <= a * c
  {
  }

  // ---------------------------------------------------------------------------
  // The result does not depend on the order rows come back from storage,
  // nor on the order of the members inside each stored row
  // ---------------------------------------------------------------------------

  lemma TableChecksColumnOrder(rows: seq<Row>, c1: seq<string>, c2: seq<string>)
    requires multiset(c1) == multiset(c2)
    ensures TableChecks(TableOf(rows, c1)) == TableChecks(TableOf(rows, c2))
  {
    NullCountColumnOrder(rows, c1, c2);
    DuplicateCountColumnOrder(rows, c1, c2);
    AnomalyCountColumnOrder(rows, c1, c2);
  }

  lemma TableChecksRowPerm(r1: seq<Row>, r2: seq<Row>, cols: seq<string>)
    requires multiset(r1) == multiset(r2)
    ensures TableChecks(TableOf(r1, cols)) == TableChecks(TableOf(r2, cols))
  {
    TableOfRowPerm(r1, r2, cols);
    NullCountRowPerm(TableOf(r1, cols), TableOf(r2, cols));
    DuplicateCountRowPerm(TableOf(r1, cols), TableOf(r2, cols));
    AnomalyCountRowPerm(r1, r2, cols);
  }

  /** Any reordering of the rows gives the same result. */
  lemma EngineRowOrderFree(r1: seq<Row>, r2: seq<Row>)
    requires multiset(r1) == multiset(r2)
    ensures RunDataQualityChecks(r1) == RunDataQualityChecks(r2)
  {
    ColumnsRowPerm(r1, r2);
    TableChecksRowPerm(r1, r2, Columns(r1));
    TableChecksColumnOrder(r2, Columns(r1), Columns(r2));
  }

  /** Rows that bind the same keys to the same values give the same result,
      whatever the order of the members within each row. */
  lemma EngineMemberOrderFree(r1: seq<Row>, r2: seq<Row>)
    requires |r1| == |r2|
    requires forall i :: 0 <= i < |r1| ==> SameBindings(r1[i], r2[i])
    ensures RunDataQualityChecks(r1) == RunDataQualityChecks(r2)
  {
    SameBindingsRows(r1, r2, Columns(r1));
    TableChecksColumnOrder(r2, Columns(r1), Columns(r2));
  }

  // ---------------------------------------------------------------------------
  // Particular inputs
  // ---------------------------------------------------------------------------

  /** No rows: every count is zero. */
  lemma EngineOnNoRows()
    ensures forall i :: 0 <= i < 3 ==> RunDataQualityChecks([])[i].count == 0
  {
    var t := Normalize([]);
    AnomalyCountBounds(t);
  }

  /** Two equal rows and a third missing one value. */
  const ThreeRows: seq<Row> := [
    [("a", Int(1)), ("b", Int(2))],
    [("a", Int(1)), ("b", Int(2))],
    [("a", Null), ("b", Int(2))]
  ]

  const ThreeRowsLaidOut: Table :=
    Table(["a", "b"], [[Int(1), Int(2)], [Int(1), Int(2)], [Null, Int(2)]])

  lemma RowKeysOfPair(c: Cell, d: Cell)
    ensures RowKeys([("a", c), ("b", d)]) == ["a", "b"]
  {
  }

  lemma ThreeRowsColumns()
    ensures Columns(ThreeRows) == ["a", "b"]
  {
    var rows := ThreeRows;
    RowKeysOfPair(Int(1), Int(2));
    RowKeysOfPair(Null, Int(2));
    assert AllKeys(rows[2..]) == ["a", "b"];
    assert AllKeys(rows[1..]) == ["a", "b", "a", "b"];
    RepeatedPairDedup(AllKeys(rows));
  }

  lemma RepeatedPairDedup(s: seq<string>)
    requires s == ["a", "b", "a", "b", "a", "b"]
    ensures Dedup(s) == ["a", "b"]
  {
    assert s[..1][..0] == [];
    assert Dedup(s[..1]) == ["a"];
    assert s[..2][..1] == s[..1];
    assert Dedup(s[..2]) == ["a", "b"];
    assert s[..3][..2] == s[..2];
    assert Dedup(s[..3]) == ["a", "b"];
    assert s[..4][..3] == s[..3];
    assert Dedup(s[..4]) == ["a", "b"];
    assert s[..5][..4] == s[..4];
    assert Dedup(s[..5]) == ["a", "b"];
    assert s[..5] == s[..|s| - 1];
  }

  lemma RowVectorOfPair(c: Cell, d: Cell)
    ensures RowVector([("a", c), ("b", d)], ["a", "b"]) == [c, d]
  {
    var row: Row := [("a", c), ("b", d)];
    assert row[..1] == [("a", c)];
    assert Lookup(row, "a") == Some(c);
    assert Lookup(row, "b") == Some(d);
  }

  lemma ThreeRowsUnderColumns()
    ensures TableOf(ThreeRows, ["a", "b"]) == ThreeRowsLaidOut
  {
    var rows, cols := ThreeRows, ["a", "b"];
    RowVectorOfPair(Int(1), Int(2));
    RowVectorOfPair(Null, Int(2));
    var t := TableOf(rows, cols);
    assert t.cells[0] == [Int(1), Int(2)];
    assert t.cells[1] == [Int(1), Int(2)];
    assert t.cells[2] == [Null, Int(2)];
  }

  lemma ThreeRowsTable()
    ensures Normalize(ThreeRows) == ThreeRowsLaidOut
  {
    ThreeRowsColumns();
    ThreeRowsUnderColumns();
  }

  lemma ThreeRowsNulls()
    ensures NullCount(ThreeRowsLaidOut) == 1
  {
    var t := ThreeRowsLaidOut;
    assert NullsIn([Int(1), Int(2)]) == 0;
    assert NullsIn([Null, Int(2)]) == 1;
    assert Map(t.cells, NullsIn) == [0, 0, 1];
    assert SumNat([0, 0, 1]) == 1;
  }

  lemma ThreeRowsDuplicates()
    ensures DuplicateCount(ThreeRowsLaidOut) == 1
  {
    var t := ThreeRowsLaidOut;
    var x, y := [NumKey(1.0), NumKey(2.0)], [NullKey, NumKey(2.0)];
    assert RowKey([Int(1), Int(2)]) == x;
    assert RowKey([Null, Int(2)]) == y;
    var ts := Tuples(t);
    assert ts == [x, x, y];
    assert ts[..2][..1] == [x];
    assert ts[..2] == [x, x];
    assert Dups(ts[..2]) == 1;
    assert y !in ts[..2];
  }

  lemma ThreeRowsAnomalies()
    ensures AnomalyCount(Normalize(ThreeRows)) == 0
  {
    FewRowsHaveNoAnomalies(Normalize(ThreeRows));
  }

  /** One missing cell, one repeated row, and no anomaly since neither
      column has enough values to show one. */
  lemma EngineOnThreeRows()
    ensures RunDataQualityChecks(ThreeRows) ==
      [CheckResult("null_check", 1), CheckResult("duplicate_check", 1), CheckResult("anomaly_check", 0)]
  {
    ThreeRowsTable();
    ThreeRowsNulls();
    ThreeRowsDuplicates();
    ThreeRowsAnomalies();
  }
}
