/** `processamento.cleaner`: filling nulls and clipping outliers, column by
    column. */
module Cleaner {
  import opened Common
  import opened Frames
  import opened Stats

  // ---------------------------------------------------------------------------
  // Forward and backward fill

  /** The value `ffill` carries into row `i`: the cell itself, or else the
      value carried into the row before. */
  function Carried(col: Column, i: nat): (r: Cell)
    requires i < |col|
    decreases i
  {
    if col[i].Some? || i == 0 then col[i] else Carried(col, i - 1)
  }

  /** The value `bfill` pulls into row `i`: the cell itself, or else the
      value pulled into the row after. */
  function Pulled(col: Column, i: nat): (r: Cell)
    requires i < |col|
    decreases |col| - i
  {
    if col[i].Some? || i == |col| - 1 then col[i] else Pulled(col, i + 1)
  }

  /** `Series.ffill`. */
  function FFill(col: Column): (r: Column)
    ensures |r| == |col|
  {
    seq(|col|, i requires 0 <= i < |col| => Carried(col, i))
  }

  /** `Series.bfill`. */
  function BFill(col: Column): (r: Column)
    ensures |r| == |col|
  {
    seq(|col|, i requires 0 <= i < |col| => Pulled(col, i))
  }

  /** `df.ffill().bfill()` on one column. */
  function Fill(col: Column): (r: Column)
    ensures |r| == |col|
  {
    BFill(FFill(col))
  }

  /** `col[j]` is the nearest value at or before row `i`. */
  ghost predicate NearestBefore(col: Column, j: int, i: int) {
    0 <= j <= i < |col| && col[j].Some? && forall k :: j < k <= i ==> col[k].None?
  }

  /** `col[j]` is the nearest value at or after row `i`. */
  ghost predicate NearestAfter(col: Column, i: int, j: int) {
    0 <= i <= j < |col| && col[j].Some? && forall k :: i <= k < j ==> col[k].None?
  }

  /** Forward fill leaves values alone, fills a null exactly when some value
      precedes it, and fills it with the nearest such value. */
  lemma {:induction false} FFillSpec(col: Column, i: nat)
    requires i < |col|
    ensures col[i].Some? ==> FFill(col)[i] == col[i]
    ensures FFill(col)[i].Some? <==> exists j :: 0 <= j <= i && col[j].Some?
    ensures forall j :: NearestBefore(col, j, i) ==> FFill(col)[i] == col[j]
  {
    if col[i].None? && 0 < i {
      FFillSpec(col, i - 1);
      assert FFill(col)[i] == FFill(col)[i - 1];
      forall j | NearestBefore(col, j, i)
        ensures FFill(col)[i] == col[j]
      {
        assert NearestBefore(col, j, i - 1);
      }
      if FFill(col)[i].Some? {
        var j :| 0 <= j <= i - 1 && col[j].Some?;
      }
    } else if col[i].Some? {
      forall j | NearestBefore(col, j, i)
        ensures FFill(col)[i] == col[j]
      {
        assert j == i;
      }
    }
  }

  /** Backward fill leaves values alone, fills a null exactly when some value
      follows it, and fills it with the nearest such value. */
  lemma {:induction false} BFillSpec(col: Column, i: nat)
    requires i < |col|
    ensures col[i].Some? ==> BFill(col)[i] == col[i]
    ensures BFill(col)[i].Some? <==> exists j :: i <= j < |col| && col[j].Some?
    ensures forall j :: NearestAfter(col, i, j) ==> BFill(col)[i] == col[j]
    decreases |col| - i
  {
    if col[i].None? && i < |col| - 1 {
      BFillSpec(col, i + 1);
      assert BFill(col)[i] == BFill(col)[i + 1];
      forall j | NearestAfter(col, i, j)
        ensures BFill(col)[i] == col[j]
      {
        assert NearestAfter(col, i + 1, j);
      }
      if BFill(col)[i].Some? {
        var j :| i + 1 <= j < |col| && col[j].Some?;
      }
    } else if col[i].Some? {
      forall j | NearestAfter(col, i, j)
        ensures BFill(col)[i] == col[j]
      {
        assert j == i;
      }
    }
  }

  /** `ffill` then `bfill`: values stay; a null takes the nearest earlier
      value, or the first later one when none precedes it; and a cell ends up
      null exactly when its whole column is null. */
  lemma FillSpec(col: Column, i: nat)
    requires i < |col|
    ensures col[i].Some? ==> Fill(col)[i] == col[i]
    ensures Fill(col)[i].Some? <==> HasValue(col)
    ensures forall j :: NearestBefore(col, j, i) ==> Fill(col)[i] == col[j]
    ensures (forall k :: 0 <= k <= i ==> col[k].None?) ==>
      forall j :: NearestAfter(col, i, j) ==> Fill(col)[i] == col[j]
  {
    var f := FFill(col);
    FFillSpec(col, i);
    BFillSpec(f, i);
    if f[i].None? {
      forall j | i <= j < |col|
        ensures f[j].Some? <==> exists k :: 0 <= k <= j && col[k].Some?
        ensures col[j].Some? ==> f[j] == col[j]
      {
        FFillSpec(col, j);
      }
      if HasValue(col) {
        var j :| 0 <= j < |col| && col[j].Some?;
        assert f[j].Some?;
      }
      if Fill(col)[i].Some? {
        var j :| i <= j < |col| && f[j].Some?;
        var k :| 0 <= k <= j && col[k].Some?;
      }
      forall j | NearestAfter(col, i, j)
        ensures Fill(col)[i] == col[j]
      {
        forall k | i <= k < j
          ensures f[k].None?
        {
          FFillSpec(col, k);
          assert forall m :: 0 <= m <= k ==> col[m].None? by {
            forall m | 0 <= m <= k
              ensures col[m].None?
            {
              assert m < i || i <= m < j;
            }
          }
        }
        assert NearestAfter(f, i, j);
      }
    }
  }

  /** Filling is idempotent: a second `ffill().bfill()` changes nothing. */
  lemma FillIdempotent(col: Column)
    ensures Fill(Fill(col)) == Fill(col)
  {
    var r := Fill(col);
    forall i | 0 <= i < |col|
      ensures Fill(r)[i] == r[i]
    {
      FillSpec(col, i);
      if r[i].Some? {
        FillSpec(r, i);
      } else {
        forall k | 0 <= k < |col|
          ensures r[k].None?
        {
          FillSpec(col, k);
        }
        FillSpec(r, i);
      }
    }
  }

  // ---------------------------------------------------------------------------
  // Dropping incomplete rows

  /** The positions below `n` of the rows with no null, in increasing order. */
  function KeptRows(f: DataFrame, n: nat): (rows: seq<nat>)
    ensures forall k :: 0 <= k < |rows| ==> rows[k] < n && CompleteRow(f, rows[k])
    ensures forall k, l :: 0 <= k < l < |rows| ==> rows[k] < rows[l]
    ensures forall i :: 0 <= i < n && CompleteRow(f, i) ==> i in rows
  {
    if n == 0 then []
    else if CompleteRow(f, n - 1) then KeptRows(f, n - 1) + [n - 1]
    else KeptRows(f, n - 1)
  }

  /** `df.dropna()`: the rows with no null, in their order, labels included. */
  function DropNa(f: DataFrame): (r: DataFrame)
    requires WellFormed(f)
    ensures WellFormed(r) && NoNulls(r)
    ensures r.kind == f.kind && |r.columns| == |f.columns| && |r.labels| <= |f.labels|
  {
    var rows := KeptRows(f, |f.labels|);
    RowsWithin(rows, |f.labels|);
    DataFrame(
      f.kind,
      seq(|rows|, k requires 0 <= k < |rows| => f.labels[rows[k]]),
      seq(|f.columns|, c requires 0 <= c < |f.columns| =>
        seq(|rows|, k requires 0 <= k < |rows| => f.columns[c][rows[k]])))
  }

  /** A strictly increasing sequence of positions below `n` has at most `n`
      elements. */
  lemma {:induction false} RowsWithin(rows: seq<nat>, n: nat)
    requires forall k :: 0 <= k < |rows| ==> rows[k] < n
    requires forall k, l :: 0 <= k < l < |rows| ==> rows[k] < rows[l]
    ensures |rows| <= n
  {
    if 0 < |rows| {
      var init := rows[..|rows| - 1];
      assert forall k :: 0 <= k < |init| ==> init[k] < rows[|rows| - 1];
      RowsWithin(init, rows[|rows| - 1]);
    }
  }

  /** `dropna` keeps exactly the complete rows, in order, with their cells and
      labels; a table without nulls comes back whole. */
  lemma DropNaSpec(f: DataFrame)
    requires WellFormed(f)
    ensures var rows := KeptRows(f, |f.labels|);
      && |DropNa(f).labels| == |rows|
      && (forall i :: 0 <= i < |f.labels| ==> (i in rows <==> CompleteRow(f, i)))
      && (forall k :: 0 <= k < |rows| ==> DropNa(f).labels[k] == f.labels[rows[k]])
      && (forall c, k :: 0 <= c < |f.columns| && 0 <= k < |rows| ==>
            DropNa(f).columns[c][k] == f.columns[c][rows[k]])
    ensures NoNulls(f) ==> DropNa(f) == f
  {
    var rows := KeptRows(f, |f.labels|);
    if NoNulls(f) {
      var n := |f.labels|;
      assert forall i :: 0 <= i < n ==> i in rows;
      RowsAreAll(rows, n);
      assert DropNa(f).labels == f.labels;
      assert forall c :: 0 <= c < |f.columns| ==> DropNa(f).columns[c] == f.columns[c];
    }
  }

  /** A strictly increasing sequence of positions below `n` that contains
      every one of them is `0, 1, ..., n - 1`. */
  lemma {:induction false} RowsAreAll(rows: seq<nat>, n: nat)
    requires forall k :: 0 <= k < |rows| ==> rows[k] < n
    requires forall k, l :: 0 <= k < l < |rows| ==> rows[k] < rows[l]
    requires forall i :: 0 <= i < n ==> i in rows
    ensures |rows| == n && forall k :: 0 <= k < n ==> rows[k] == k
  {
    RowsWithin(rows, n);
    if 0 < n {
      var m := n - 1;
      assert m in rows;
      var last :| 0 <= last < |rows| && rows[last] == m;
      assert rows[|rows| - 1] < n;
      assert last == |rows| - 1;
      var init := rows[..|rows| - 1];
      forall i | 0 <= i < m
        ensures i in init
      {
        assert i in rows;
        var k :| 0 <= k < |rows| && rows[k] == i;
      }
      RowsAreAll(init, m);
    }
  }

  // ---------------------------------------------------------------------------
  // preencher_valores_nulos

  /** Every column of the table, forward- then backward-filled. */
  function FillColumns(f: DataFrame): (r: DataFrame)
    requires WellFormed(f)
    ensures WellFormed(r)
    ensures r.kind == f.kind && r.labels == f.labels && |r.columns| == |f.columns|
  {
    DataFrame(f.kind, f.labels, seq(|f.columns|, c requires 0 <= c < |f.columns| => Fill(f.columns[c])))
  }

  /** `preencher_valores_nulos`: `'ffill'` forward- then backward-fills every
      column, `'interpolate'` hands the table to pandas' interpolation (a
      parameter here), and any other method drops the incomplete rows. The
      method defaults to `'ffill'`, as in the code. */
  function FillNulls(f: DataFrame, interpolate: DataFrame -> DataFrame, how: string := "ffill"): (r: DataFrame)
    requires WellFormed(f)
    ensures how == "ffill" ==> r == FillColumns(f)
    ensures how == "interpolate" ==> r == interpolate(f)
    ensures how != "ffill" && how != "interpolate" ==> r == DropNa(f)
  {
    if how == "ffill" then FillColumns(f)
    else if how == "interpolate" then interpolate(f)
    else DropNa(f)
  }

  /** With `'ffill'` (the default), values stay where they are, and a cell is null afterwards
      exactly when its whole column was null. */
  lemma FillNullsFfill(f: DataFrame, interpolate: DataFrame -> DataFrame, c: nat, i: nat)
    requires WellFormed(f) && c < |f.columns| && i < |f.labels|
    ensures f.columns[c][i].Some? ==> FillNulls(f, interpolate).columns[c][i] == f.columns[c][i]
    ensures FillNulls(f, interpolate).columns[c][i].Some? <==> HasValue(f.columns[c])
  {
    FillSpec(f.columns[c], i);
  }

  /** With `'ffill'`, a table none of whose columns is entirely null comes out
      with no nulls at all. */
  lemma FillNullsFfillComplete(f: DataFrame, interpolate: DataFrame -> DataFrame)
    requires WellFormed(f)
    requires forall c :: 0 <= c < |f.columns| ==> HasValue(f.columns[c])
    ensures NoNulls(FillNulls(f, interpolate))
  {
    var r := FillNulls(f, interpolate);
    forall c, i | 0 <= c < |r.columns| && 0 <= i < |r.columns[c]|
      ensures r.columns[c][i].Some?
    {
      FillNullsFfill(f, interpolate, c, i);
    }
  }

  /** Any method other than `'ffill'` and `'interpolate'` leaves no nulls, and
      leaves a table without nulls as it was. */
  lemma FillNullsDrop(f: DataFrame, how: string, interpolate: DataFrame -> DataFrame)
    requires WellFormed(f) && how != "ffill" && how != "interpolate"
    ensures NoNulls(FillNulls(f, interpolate, how))
    ensures NoNulls(f) ==> FillNulls(f, interpolate, how) == f
  {
    DropNaSpec(f);
  }

  // ---------------------------------------------------------------------------
  // remover_outliers

  /** `clip(lower=lo, upper=hi)` on one value. */
  function Clamp(x: real, lo: real, hi: real): (r: real)
    requires lo <= hi
    ensures lo <= r <= hi
    ensures lo <= x <= hi ==> r == x
  {
    if x < lo then lo else if hi < x then hi else x
  }

  /** Clipping never reverses the order of two values. */
  lemma ClampMonotone(x: real, y: real, lo: real, hi: real)
    requires lo <= hi && x <= y
    ensures Clamp(x, lo, hi) <= Clamp(y, lo, hi)
  {
  }

  /** The non-null values of a column, in order: what `quantile` looks at. */
  function Values(col: Column): (v: seq<real>)
    ensures |v| <= |col|
    ensures forall i :: 0 <= i < |col| && col[i].Some? ==> col[i].value in v
    ensures forall x :: x in v ==> Some(x) in col
    ensures forall x :: multiset(v)[x] == multiset(col)[Some(x)]
  {
    if |col| == 0 then []
    else
      var init := Values(col[..|col| - 1]);
      assert forall i :: 0 <= i < |col| - 1 ==> col[..|col| - 1][i] == col[i];
      assert forall x :: Some(x) in col[..|col| - 1] ==> Some(x) in col;
      assert col == col[..|col| - 1] + [col[|col| - 1]];
      assert multiset(col) == multiset(col[..|col| - 1]) + multiset{col[|col| - 1]};
      match col[|col| - 1]
      case None => init
      case Some(x) => init + [x]
  }

  /** `df.quantile(0.01)` and `df.quantile(0.99)` for one column: absent (NaN)
      when the column has no value. */
  function Bounds(col: Column): (b: Option<(real, real)>)
    ensures b.None? <==> !HasValue(col)
    ensures b.Some? ==> b.value == (Quantile(Values(col), 0.01), Quantile(Values(col), 0.99))
    ensures b.Some? ==> b.value.0 <= b.value.1
  {
    var v := Values(col);
    if |v| == 0 then
      assert forall i :: 0 <= i < |col| ==> col[i].None?;
      None
    else
      assert HasValue(col) by {
        assert Some(v[0]) in col;
      }
      QuantileMonotone(v, 0.01, 0.99);
      Some((Quantile(v, 0.01), Quantile(v, 0.99)))
  }

  /** One column of `remover_outliers`: every value clipped to the column's
      1% and 99% quantiles. A column with no value is left as it is. */
  function ClipColumn(col: Column): (r: Column)
    ensures |r| == |col|
  {
    match Bounds(col)
    case None => col
    case Some((lo, hi)) =>
      seq(|col|, i requires 0 <= i < |col| =>
        match col[i]
        case None => None
        case Some(x) => Some(Clamp(x, lo, hi)))
  }

  /** `remover_outliers`: every column clipped to its own `[q01, q99]`. The
      z-scores against `z_thresh` are computed and then never used. */
  function RemoveOutliers(f: DataFrame, zThresh: real := 3.0): (r: DataFrame)
    requires WellFormed(f)
    ensures WellFormed(r)
    ensures r.kind == f.kind && r.labels == f.labels && |r.columns| == |f.columns|
  {
    DataFrame(f.kind, f.labels, seq(|f.columns|, c requires 0 <= c < |f.columns| => ClipColumn(f.columns[c])))
  }

  /** Each cell after `remover_outliers`: nulls stay null, every value lands in
      its column's `[q01, q99]`, and values already inside are unchanged. */
  lemma RemoveOutliersSpec(f: DataFrame, zThresh: real, c: nat, i: nat)
    requires WellFormed(f) && c < |f.columns| && i < |f.labels|
    ensures var x := f.columns[c][i];
      var y := RemoveOutliers(f, zThresh).columns[c][i];
      && (y.Some? <==> x.Some?)
      && (x.Some? ==> (Bounds(f.columns[c]).Some?
            && Bounds(f.columns[c]).value.0 <= y.value <= Bounds(f.columns[c]).value.1))
      && (x.Some? && Bounds(f.columns[c]).value.0 <= x.value <= Bounds(f.columns[c]).value.1 ==> y == x)
  {
    if f.columns[c][i].Some? {
      assert HasValue(f.columns[c]);
    }
  }

  /** Clipping keeps the order of the values within a column. */
  lemma RemoveOutliersMonotone(f: DataFrame, zThresh: real, c: nat, i: nat, j: nat)
    requires WellFormed(f) && c < |f.columns| && i < |f.labels| && j < |f.labels|
    requires f.columns[c][i].Some? && f.columns[c][j].Some?
    requires f.columns[c][i].value <= f.columns[c][j].value
    ensures RemoveOutliers(f, zThresh).columns[c][i].value <= RemoveOutliers(f, zThresh).columns[c][j].value
  {
    assert HasValue(f.columns[c]);
    var b := Bounds(f.columns[c]).value;
    ClampMonotone(f.columns[c][i].value, f.columns[c][j].value, b.0, b.1);
  }

  /** The threshold has no effect on the result. */
  lemma RemoveOutliersIgnoresThreshold(f: DataFrame, z1: real, z2: real)
    requires WellFormed(f)
    ensures RemoveOutliers(f, z1) == RemoveOutliers(f, z2)
  {
  }
}
