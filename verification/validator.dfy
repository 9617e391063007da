/** `processamento.validator.validar_dados`: whether a table is ready for
    modelling. The checks run in order and the first that fails decides. */
module Validator {
  import opened Frames

  /** Fewest rows for a statistically meaningful sample. */
  const MinRows: nat := 30

  /** The outcome, with the reason the code prints before returning `False`. */
  datatype Verdict = Ready | HasNulls | TooFewRows | NotDatetime

  /** `df.isnull().any().any()`: scans every column, cell by cell. */
  method AnyNull(f: DataFrame) returns (found: bool)
    ensures found <==> !NoNulls(f)
  {
    var c := 0;
    found := false;
    while c < |f.columns| && !found
      invariant 0 <= c <= |f.columns|
      invariant !found ==> forall d, i :: 0 <= d < c && 0 <= i < |f.columns[d]| ==> f.columns[d][i].Some?
      invariant found ==> !NoNulls(f)
    {
      var col := f.columns[c];
      var i := 0;
      while i < |col| && !found
        invariant 0 <= i <= |col|
        invariant !found ==> forall k :: 0 <= k < i ==> col[k].Some?
        invariant found ==> !NoNulls(f)
      {
        if col[i].None? {
          found := true;
        }
        i := i + 1;
      }
      c := c + 1;
    }
  }

  /** `validar_dados`: nulls are rejected first, then fewer than `MinRows`
      rows, then an index that is not a `DatetimeIndex`. */
  method ValidateData(f: DataFrame) returns (ok: bool, verdict: Verdict)
    ensures verdict == HasNulls <==> !NoNulls(f)
    ensures verdict == TooFewRows <==> NoNulls(f) && |f.labels| < MinRows
    ensures verdict == NotDatetime <==> NoNulls(f) && MinRows <= |f.labels| && f.kind != DatetimeIndex
    ensures ok <==> verdict == Ready
    ensures ok <==> NoNulls(f) && MinRows <= |f.labels| && f.kind == DatetimeIndex
  {
    var nulls := AnyNull(f);
    if nulls {
      return false, HasNulls;
    }
    if |f.labels| < MinRows {
      return false, TooFewRows;
    }
    if f.kind != DatetimeIndex {
      return false, NotDatetime;
    }
    return true, Ready;
  }
}
