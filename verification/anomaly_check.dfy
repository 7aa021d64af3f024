/** The anomaly check: over the numeric columns only, the number of values
    lying more than three sample standard deviations from their column's
    mean, summed over the columns. */
module AnomalyCheck {
  import opened Seqs
  import opened Cells
  import opened Frame
  import opened RealArith
  import opened Stats

  function NumberCount(col: seq<Cell>): nat {
    Count(col, IsNumber)
  }

  function PresentCount(col: seq<Cell>): nat {
    Count(col, IsPresent)
  }

  /** A column counts as numeric when it holds at least one number and every
      value present in it is an integer or a float: a boolean, a string or a
      mix of those with numbers makes it non-numeric, and a column with only
      missing values is not numeric either. */
  predicate IsNumericColumn(col: seq<Cell>) {
    NumberCount(col) > 0 && NumberCount(col) == PresentCount(col)
  }

  lemma IsNumericColumnIff(col: seq<Cell>)
    ensures IsNumericColumn(col) <==>
      (exists i :: 0 <= i < |col| && IsNumber(col[i])) &&
      (forall i :: 0 <= i < |col| && IsPresent(col[i]) ==> IsNumber(col[i]))
  {
    CountZeroIffNone(col, IsNumber);
    CountEqIffConverse(col, IsNumber, IsPresent);
  }

  /** The numbers of a column, top to bottom, missing values skipped. */
  function NumericValues(col: seq<Cell>): (xs: seq<real>)
    ensures |xs| == NumberCount(col)
  {
    if |col| == 0 then []
    else (if IsNumber(col[0]) then [NumberValue(col[0])] else []) + NumericValues(col[1..])
  }

  /** Anomalies in one column: none unless it is numeric, none below two
      values or with zero spread, otherwise the values flagged by the squared
      three-sigma test. */
  function ColumnAnomalies(col: seq<Cell>): (n: nat)
    ensures n <= NumberCount(col)
    ensures n <= |col|
  {
    if IsNumericColumn(col) then Outliers(NumericValues(col)) else 0
  }

  /** Anomalies over the whole table: the per-column counts added up. */
  function AnomalyCount(t: Table): (n: nat)
    requires Rectangular(t)
    ensures n <= |t.cells| * |t.columns|
  {
    var perColumn := Map(AllColumns(t), ColumnAnomalies);
    SumNatBound(perColumn, |t.cells|);
    SumNat(perColumn)
  }

  // ---------------------------------------------------------------------------
  // Which columns and values can contribute
  // ---------------------------------------------------------------------------

  /** A column holding a boolean or a string, or no number at all, contributes nothing. */
  lemma NonNumericColumnContributesNothing(col: seq<Cell>)
    requires (exists i :: 0 <= i < |col| && (col[i].Bool? || col[i].Text?)) ||
             (forall i :: 0 <= i < |col| ==> !IsNumber(col[i]))
    ensures ColumnAnomalies(col) == 0
  {
    IsNumericColumnIff(col);
  }

  /** A column with at most ten numbers contributes nothing: with n values no
      value can lie more than (n-1)/sqrt(n) standard deviations from the mean. */
  lemma SmallColumnContributesNothing(col: seq<Cell>)
    requires NumberCount(col) <= 10
    ensures ColumnAnomalies(col) == 0
  {
    NoOutliersBelowEleven(NumericValues(col));
  }

  /** A table of at most ten rows reports no anomaly at all. */
  lemma FewRowsHaveNoAnomalies(t: Table)
    requires Rectangular(t) && |t.cells| <= 10
    ensures AnomalyCount(t) == 0
  {
    var perColumn := Map(AllColumns(t), ColumnAnomalies);
    forall j | 0 <= j < |perColumn|
      ensures perColumn[j] == 0
    {
      SmallColumnContributesNothing(AllColumns(t)[j]);
    }
    SumNatZeroIffAllZero(perColumn);
  }

  lemma {:induction false} NumericValuesFrom(col: seq<Cell>, k: nat)
    requires k < |NumericValues(col)|
    ensures exists i :: 0 <= i < |col| && IsNumber(col[i]) && NumberValue(col[i]) == NumericValues(col)[k]
  {
    var head: seq<real> := if IsNumber(col[0]) then [NumberValue(col[0])] else [];
    if k < |head| {
      assert IsNumber(col[0]) && NumberValue(col[0]) == NumericValues(col)[k];
    } else {
      NumericValuesFrom(col[1..], k - |head|);
      var i :| 0 <= i < |col[1..]| && IsNumber(col[1..][i]) && NumberValue(col[1..][i]) == NumericValues(col[1..])[k - |head|];
      assert col[1..][i] == col[i + 1];
    }
  }

  /** A column whose numbers all have the same value contributes nothing, however long. */
  lemma ConstantColumnContributesNothing(col: seq<Cell>)
    requires forall i, i2 :: 0 <= i < |col| && 0 <= i2 < |col| && IsNumber(col[i]) && IsNumber(col[i2]) ==>
      NumberValue(col[i]) == NumberValue(col[i2])
    ensures ColumnAnomalies(col) == 0
  {
    var xs := NumericValues(col);
    forall k | 0 <= k < |xs|
      ensures xs[k] == xs[0]
    {
      NumericValuesFrom(col, k);
      NumericValuesFrom(col, 0);
    }
    ConstantHasNoOutliers(xs);
  }

  /** In a numeric column of at least two values with standard deviation
      `sigma > 0`, the flagged values are exactly those strictly below
      mean - 3*sigma or strictly above mean + 3*sigma; a value on either bound
      is not flagged and a missing value is never looked at. */
  lemma FlaggedIffBeyondThreeSigma(col: seq<Cell>, sigma: real)
    requires IsNumericColumn(col) && NumberCount(col) >= 2
    requires sigma > 0.0 && Sq(sigma) == Variance(NumericValues(col))
    ensures ColumnAnomalies(col) == Count(NumericValues(col), BeyondThreeSigmaOf(Mean(NumericValues(col)), sigma))
  {
    var xs := NumericValues(col);
    var m, v := Mean(xs), Variance(xs);
    assert v != 0.0;
    forall i | 0 <= i < |xs|
      ensures OutsideOf(m, v)(xs[i]) <==> BeyondThreeSigmaOf(m, sigma)(xs[i])
    {
      OutsideIffBeyondThreeSigma(xs[i], m, v, sigma);
    }
    CountExt(xs, OutsideOf(m, v), BeyondThreeSigmaOf(m, sigma));
  }

  // ---------------------------------------------------------------------------
  // Bounds
  // ---------------------------------------------------------------------------

  /** The numbers a column offers to the test: all of them if it is numeric, none otherwise. */
  function NumericCells(col: seq<Cell>): (n: nat)
    ensures n <= |col|
  {
    if IsNumericColumn(col) then NumberCount(col) else 0
  }

  function NumericCellCount(t: Table): nat
    requires Rectangular(t)
  {
    SumNat(Map(AllColumns(t), NumericCells))
  }

  function NumericColumnCount(t: Table): nat
    requires Rectangular(t)
  {
    Count(AllColumns(t), IsNumericColumn)
  }

  lemma {:induction false} NumericCellsBound(cs: seq<seq<Cell>>, r: nat)
    requires forall j :: 0 <= j < |cs| ==> |cs[j]| == r
    ensures SumNat(Map(cs, NumericCells)) <= r * Count(cs, IsNumericColumn)
  {
    if |cs| > 0 {
      NumericCellsBound(cs[1..], r);
      assert Map(cs, NumericCells) == [NumericCells(cs[0])] + Map(cs[1..], NumericCells);
      var c := Count(cs[1..], IsNumericColumn);
      if IsNumericColumn(cs[0]) {
        assert Count(cs, IsNumericColumn) == c + 1;
        assert r * (c + 1) == r + r * c;
      } else {
        assert Count(cs, IsNumericColumn) == c;
      }
    }
  }

  /** The table's anomaly count is at most its number of numeric cells in
      numeric columns, which is at most rows x numeric columns. */
  lemma AnomalyCountBounds(t: Table)
    requires Rectangular(t)
    ensures AnomalyCount(t) <= NumericCellCount(t)
    ensures NumericCellCount(t) <= |t.cells| * NumericColumnCount(t)
  {
    var cs := AllColumns(t);
    SumNatMono(Map(cs, ColumnAnomalies), Map(cs, NumericCells));
    NumericCellsBound(cs, |t.cells|);
  }

  // ---------------------------------------------------------------------------
  // What does not depend on order
  // ---------------------------------------------------------------------------

  lemma {:induction false} NumericValuesConcat(a: seq<Cell>, b: seq<Cell>)
    ensures NumericValues(a + b) == NumericValues(a) + NumericValues(b)
  {
    if |a| == 0 {
      assert a + b == b;
    } else {
      assert (a + b)[1..] == a[1..] + b;
      NumericValuesConcat(a[1..], b);
    }
  }

  lemma NumericValuesRemoveAt(s: seq<Cell>, k: nat)
    requires k < |s|
    ensures multiset(NumericValues(s)) ==
      multiset(NumericValues(RemoveAt(s, k))) + multiset(NumericValues([s[k]]))
  {
    SplitAt(s, k);
    NumericValuesConcat(s[..k], [s[k]] + s[k + 1..]);
    NumericValuesConcat([s[k]], s[k + 1..]);
    NumericValuesConcat(s[..k], s[k + 1..]);
  }

  lemma {:induction false} NumericValuesPerm(a: seq<Cell>, b: seq<Cell>)
    requires multiset(a) == multiset(b)
    ensures multiset(NumericValues(a)) == multiset(NumericValues(b))
    decreases |a|
  {
    if |a| == 0 {
      assert |b| == |multiset(b)| == 0;
    } else {
      var k := PermHead(a, b);
      NumericValuesPerm(a[1..], RemoveAt(b, k));
      NumericValuesRemoveAt(b, k);
      NumericValuesConcat([a[0]], a[1..]);
      assert a == [a[0]] + a[1..];
    }
  }

  /** A column's contribution does not depend on the order of its cells. */
  lemma ColumnAnomaliesPerm(a: seq<Cell>, b: seq<Cell>)
    requires multiset(a) == multiset(b)
    ensures ColumnAnomalies(a) == ColumnAnomalies(b)
  {
    CountPerm(a, b, IsNumber);
    CountPerm(a, b, IsPresent);
    NumericValuesPerm(a, b);
    OutliersPerm(NumericValues(a), NumericValues(b));
  }

  /** The contribution of the column named `k` when the rows are `rows`. */
  function KeyAnomalies(rows: seq<Row>): string -> nat {
    k => ColumnAnomalies(KeyColumn(rows, k))
  }

  lemma AnomalyCountOfTableOf(rows: seq<Row>, cols: seq<string>)
    ensures AnomalyCount(TableOf(rows, cols)) == SumNat(Map(cols, KeyAnomalies(rows)))
  {
    var t := TableOf(rows, cols);
    forall j | 0 <= j < |cols|
      ensures ColumnAnomalies(AllColumns(t)[j]) == KeyAnomalies(rows)(cols[j])
    {
      ColumnOfTableOf(rows, cols, j);
    }
    assert Map(AllColumns(t), ColumnAnomalies) == Map(cols, KeyAnomalies(rows));
  }

  /** Laying the rows out under another order of the same columns does not
      change the count. */
  lemma AnomalyCountColumnOrder(rows: seq<Row>, c1: seq<string>, c2: seq<string>)
    requires multiset(c1) == multiset(c2)
    ensures AnomalyCount(TableOf(rows, c1)) == AnomalyCount(TableOf(rows, c2))
  {
    AnomalyCountOfTableOf(rows, c1);
    AnomalyCountOfTableOf(rows, c2);
    MapPerm(c1, c2, KeyAnomalies(rows));
    SumNatPerm(Map(c1, KeyAnomalies(rows)), Map(c2, KeyAnomalies(rows)));
  }

  lemma KeyAnomaliesRowPerm(r1: seq<Row>, r2: seq<Row>, k: string)
    requires multiset(r1) == multiset(r2)
    ensures KeyAnomalies(r1)(k) == KeyAnomalies(r2)(k)
  {
    MapPerm(r1, r2, r => CellAt(r, k));
    ColumnAnomaliesPerm(KeyColumn(r1, k), KeyColumn(r2, k));
  }

  /** Reordering the rows does not change the count. */
  lemma AnomalyCountRowPerm(r1: seq<Row>, r2: seq<Row>, cols: seq<string>)
    requires multiset(r1) == multiset(r2)
    ensures AnomalyCount(TableOf(r1, cols)) == AnomalyCount(TableOf(r2, cols))
  {
    AnomalyCountOfTableOf(r1, cols);
    AnomalyCountOfTableOf(r2, cols);
    forall j | 0 <= j < |cols|
      ensures Map(cols, KeyAnomalies(r1))[j] == Map(cols, KeyAnomalies(r2))[j]
    {
      KeyAnomaliesRowPerm(r1, r2, cols[j]);
    }
    assert Map(cols, KeyAnomalies(r1)) == Map(cols, KeyAnomalies(r2));
  }
}
