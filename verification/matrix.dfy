/** Dense matrices as sequences of equally long rows. */
module Matrix {

  /** `m` has `rows` rows of `cols` entries each. */
  ghost predicate IsMatrix<T>(m: seq<seq<T>>, rows: nat, cols: nat) {
    |m| == rows && forall i :: 0 <= i < rows ==> |m[i]| == cols
  }

  /** `ndarray.T`. The column count is passed in because a matrix without rows
      has no row to read it from (numpy keeps it in the array's shape). */
  function Transpose<T>(m: seq<seq<T>>, cols: nat): (r: seq<seq<T>>)
    requires IsMatrix(m, |m|, cols)
    ensures IsMatrix(r, cols, |m|)
    ensures forall i, j :: 0 <= i < |m| && 0 <= j < cols ==> r[j][i] == m[i][j]
  {
    seq(cols, j requires 0 <= j < cols => seq(|m|, i requires 0 <= i < |m| => m[i][j]))
  }

  /** Transposing twice gives the matrix back. */
  lemma TransposeInvolution<T>(m: seq<seq<T>>, cols: nat)
    requires IsMatrix(m, |m|, cols)
    ensures Transpose(Transpose(m, cols), |m|) == m
  {
    var r := Transpose(Transpose(m, cols), |m|);
    assert |r| == |m|;
    forall i | 0 <= i < |m|
      ensures r[i] == m[i]
    {
      assert |r[i]| == |m[i]|;
    }
  }
}
