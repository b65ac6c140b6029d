/** Small shared vocabulary: failure-carrying results, predicates on
    sequences and two-dimensional arrays held as sequences of rows. */
module Common {

  datatype Option<+T> = None | Some(value: T)

  datatype Result<+T, +E> = Ok(value: T) | Err(error: E)

  /** No value occurs twice. */
  predicate Distinct<T(==)>(s: seq<T>) {
    forall i, j :: 0 <= i < j < |s| ==> s[i] != s[j]
  }

  /** Every element is smaller than the next one. */
  predicate StrictlyIncreasing(s: seq<real>) {
    forall i, j :: 0 <= i < j < |s| ==> s[i] < s[j]
  }

  /** The elements of `s` back to front (numpy's `a[::-1]`). */
  function Reversed<T>(s: seq<T>): (r: seq<T>)
    ensures |r| == |s|
    ensures forall i :: 0 <= i < |s| ==> r[i] == s[|s| - 1 - i]
  {
    seq(|s|, i requires 0 <= i < |s| => s[|s| - 1 - i])
  }

  /** A two-dimensional array, stored row by row. */
  type Matrix<T> = seq<seq<T>>

  /** `m` has `rows` rows of `cols` entries each. */
  predicate IsMatrix<T>(m: Matrix<T>, rows: nat, cols: nat) {
    |m| == rows && forall i :: 0 <= i < rows ==> |m[i]| == cols
  }

  lemma StrictlyIncreasingIsDistinct(s: seq<real>)
    requires StrictlyIncreasing(s)
    ensures Distinct(s)
  {
  }
}
