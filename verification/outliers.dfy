/** `detect_outliers`: the rows whose value in a numeric column lies strictly
    outside the interquartile fences `[Q1 - 1.5 IQR, Q3 + 1.5 IQR]`, with the
    quartiles taken over the table passed in. */
module Outliers {
  import opened Wrappers
  import opened Sequences
  import Stats
  import opened Table

  /** The numeric columns of the cleaned table that never hold a missing
      value (`sex` may, and is not offered here). */
  datatype Column = Survived | Pclass | Age | SibSp | Parch | Fare

  function ColumnValue(row: Record, col: Column): real {
    match col
    case Survived => row.survived as real
    case Pclass => row.pclass as real
    case Age => row.age
    case SibSp => row.sibsp as real
    case Parch => row.parch as real
    case Fare => row.fare
  }

  /** `df[column]` as a sequence of numbers, in row order. */
  function ColumnValues(df: seq<Record>, col: Column): (xs: seq<real>)
    ensures |xs| == |df|
    ensures forall i :: 0 <= i < |df| ==> xs[i] == ColumnValue(df[i], col)
  {
    seq(|df|, i requires 0 <= i < |df| => ColumnValue(df[i], col))
  }

  datatype Fences = Fences(lower: real, upper: real)

  /** The fences built from the column's first and third quartiles; `None`
      for an empty column, whose quartiles are NaN. */
  function IqrFences(xs: seq<real>): (f: Option<Fences>)
    ensures f.Some? <==> xs != []
    ensures f.Some? ==>
      var q1, q3 := Stats.Quantile(xs, 0.25).value, Stats.Quantile(xs, 0.75).value;
      && f.value.lower == q1 - 1.5 * (q3 - q1)
      && f.value.upper == q3 + 1.5 * (q3 - q1)
      && f.value.lower <= q1 <= q3 <= f.value.upper
  {
    if xs == [] then None
    else
      var q1 := Stats.Quantile(xs, 0.25).value;
      var q3 := Stats.Quantile(xs, 0.75).value;
      Stats.QuantileMonotone(xs, 0.25, 0.75);
      var iqr := q3 - q1;
      Some(Fences(q1 - 1.5 * iqr, q3 + 1.5 * iqr))
  }

  predicate Outside(v: real, f: Fences) {
    v < f.lower || v > f.upper
  }

  /** The boolean mask `(df[column] < lower) | (df[column] > upper)`. */
  function OutsideMask(col: Column, f: Fences): Record -> bool {
    row => Outside(ColumnValue(row, col), f)
  }

  /** A row lies strictly outside the fences of `df`'s column; nothing is
      an outlier of an empty table, whose fences are NaN. */
  predicate IsOutlier(df: seq<Record>, col: Column, row: Record) {
    var f := IqrFences(ColumnValues(df, col));
    f.Some? && Outside(ColumnValue(row, col), f.value)
  }

  /** `df[(df[column] < lower_bound) | (df[column] > upper_bound)]`. On an
      empty table the NaN bounds make every comparison false. */
  function DetectOutliers(df: seq<Record>, col: Column): (r: seq<Record>)
    ensures Subsequence(r, df)
    ensures df == [] ==> r == []
    ensures forall row :: row in r <==> row in df && IsOutlier(df, col, row)
    ensures forall row :: multiset(r)[row] == (if IsOutlier(df, col, row) then multiset(df)[row] else 0)
    ensures df != [] ==> forall row :: row in r ==>
      var xs := ColumnValues(df, col);
      ColumnValue(row, col) < Stats.Quantile(xs, 0.25).value || ColumnValue(row, col) > Stats.Quantile(xs, 0.75).value
  {
    match IqrFences(ColumnValues(df, col))
    case None => []
    case Some(f) => Select(df, OutsideMask(col, f))
  }

  /** No other order-preserving subsequence of the table holds exactly the
      rows outside the fences, every copy of each. */
  lemma DetectOutliersUnique(df: seq<Record>, col: Column, r: seq<Record>)
    requires Subsequence(r, df)
    requires forall row :: multiset(r)[row] == (if IsOutlier(df, col, row) then multiset(df)[row] else 0)
    ensures r == DetectOutliers(df, col)
  {
    if df == [] {
      assert |ColumnValues(df, col)| == 0;
      assert IqrFences(ColumnValues(df, col)).None?;
      assert r == [];
    } else {
      var f := IqrFences(ColumnValues(df, col)).value;
      assert forall row :: IsOutlier(df, col, row) == OutsideMask(col, f)(row);
      SelectUnique(r, df, OutsideMask(col, f));
      assert DetectOutliers(df, col) == Select(df, OutsideMask(col, f));
    }
  }

  /** The fences of a column whose values all equal `v` collapse onto `v`. */
  lemma ConstantFences(xs: seq<real>, v: real)
    requires xs != []
    requires forall i :: 0 <= i < |xs| ==> xs[i] == v
    ensures IqrFences(xs) == Some(Fences(v, v))
  {
    var q1, q3 := Stats.Quantile(xs, 0.25).value, Stats.Quantile(xs, 0.75).value;
    assert Stats.InRange(xs, q1) && Stats.InRange(xs, q3);
    assert q1 == v && q3 == v;
    var f := IqrFences(xs).value;
    assert f.lower == q1 - 1.5 * (q3 - q1);
    assert f.upper == q3 + 1.5 * (q3 - q1);
    assert q3 - q1 == 0.0;
    assert f.lower == v && f.upper == v;
    assert IqrFences(xs) == Some(f);
  }

  /** A column whose values are all equal has IQR 0, fences equal to that
      value, and therefore no outliers. */
  lemma ConstantColumnHasNoOutliers(df: seq<Record>, col: Column)
    requires forall i, j :: 0 <= i < |df| && 0 <= j < |df| ==> ColumnValue(df[i], col) == ColumnValue(df[j], col)
    ensures DetectOutliers(df, col) == []
  {
    if df != [] {
      var v := ColumnValue(df[0], col);
      var xs := ColumnValues(df, col);
      ConstantFences(xs, v);
    }
  }
}
