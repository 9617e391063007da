/** The tables the cleaning and validation code works on: numeric columns of
    optional cells (a null is `None`) over a common row index. */
module Frames {
  import opened Common

  /** Whether the row index is a `pandas.DatetimeIndex`. */
  datatype IndexKind = DatetimeIndex | OtherIndex

  type Cell = Option<real>
  type Column = seq<Cell>

  /** A `pandas.DataFrame` of numeric columns: the row labels (timestamps,
      say), the kind of index, and one column of cells per name. */
  datatype DataFrame = DataFrame(kind: IndexKind, labels: seq<int>, columns: seq<Column>)

  /** Every column has one cell per row label, as in any DataFrame. */
  ghost predicate WellFormed(f: DataFrame) {
    forall c :: 0 <= c < |f.columns| ==> |f.columns[c]| == |f.labels|
  }

  /** `not df.isnull().any().any()`. */
  ghost predicate NoNulls(f: DataFrame) {
    forall c, i :: 0 <= c < |f.columns| && 0 <= i < |f.columns[c]| ==> f.columns[c][i].Some?
  }

  /** Row `i` has a value in every column. */
  predicate CompleteRow(f: DataFrame, i: nat) {
    forall c :: 0 <= c < |f.columns| ==> i < |f.columns[c]| && f.columns[c][i].Some?
  }

  /** The column has at least one non-null cell. */
  ghost predicate HasValue(col: Column) {
    exists j :: 0 <= j < |col| && col[j].Some?
  }
}
