/** Dense matrix blocks and the segment-wise products the block matrices and
    the PCG solver use (internal::pcg_axy, pcg_axpy, pcg_atxpy and the
    matching axpy / atxpy of matrix_operations.h). A block is stored column
    by column, as Eigen stores it: column c of the block is `columns[c]`. */
module DenseBlocks {

  datatype Mat = Mat(rows: nat, cols: nat, columns: seq<seq<real>>)
  {
    predicate Valid()
    {
      |columns| == cols && forall c :: 0 <= c < cols ==> |columns[c]| == rows
    }

    function At(r: nat, c: nat): real
      requires Valid() && r < rows && c < cols
    {
      columns[c][r]
    }
  }

  /** The rows x cols block of zeros (setZero). */
  function Zero(rows: nat, cols: nat): (m: Mat)
    ensures m.Valid() && m.rows == rows && m.cols == cols
    ensures forall r, c :: 0 <= r < rows && 0 <= c < cols ==> m.At(r, c) == 0.0
  {
    Mat(rows, cols, seq(cols, c => Zeros(rows)))
  }

  /** The n x n identity block. */
  function Identity(n: nat): (m: Mat)
    ensures m.Valid() && m.rows == n && m.cols == n
    ensures forall r, c :: 0 <= r < n && 0 <= c < n ==> m.At(r, c) == if r == c then 1.0 else 0.0
  {
    Mat(n, n, seq(n, c => seq(n, r => if r == c then 1.0 else 0.0)))
  }

  function Zeros(n: nat): (v: seq<real>)
    ensures |v| == n && forall i :: 0 <= i < n ==> v[i] == 0.0
  {
    seq(n, i => 0.0)
  }

  function Transpose(m: Mat): (t: Mat)
    requires m.Valid()
    ensures t.Valid() && t.rows == m.cols && t.cols == m.rows
    ensures forall r, c :: 0 <= r < t.rows && 0 <= c < t.cols ==> t.At(r, c) == m.At(c, r)
  {
    Mat(m.cols, m.rows, seq(m.rows, r requires 0 <= r < m.rows => seq(m.cols, c requires 0 <= c < m.cols => m.columns[c][r])))
  }

  function Dot(u: seq<real>, v: seq<real>): real
    requires |u| == |v|
  {
    if |u| == 0 then 0.0 else u[0] * v[0] + Dot(u[1..], v[1..])
  }

  /** Row r of the block. */
  function Row(m: Mat, r: nat): (v: seq<real>)
    requires m.Valid() && r < m.rows
    ensures |v| == m.cols && forall c :: 0 <= c < m.cols ==> v[c] == m.At(r, c)
  {
    seq(m.cols, c requires 0 <= c < m.cols => m.columns[c][r])
  }

  /** A * x. */
  function MulVec(m: Mat, x: seq<real>): (y: seq<real>)
    requires m.Valid() && |x| == m.cols
    ensures |y| == m.rows
  {
    seq(m.rows, r requires 0 <= r < m.rows => Dot(Row(m, r), x))
  }

  /** A^T * x, one column of A at a time. */
  function TransposeMulVec(m: Mat, x: seq<real>): (y: seq<real>)
    requires m.Valid() && |x| == m.rows
    ensures |y| == m.cols
  {
    seq(m.cols, c requires 0 <= c < m.cols => Dot(m.columns[c], x))
  }

  /** The segment [off, off + n) of x. */
  function Segment(x: seq<real>, off: int, n: nat): (s: seq<real>)
    requires 0 <= off && off + n <= |x|
    ensures |s| == n
  {
    x[off..off + n]
  }

  /** y with its segment at `off` replaced by v (y.segment(off, |v|) = v). */
  function SetSegment(y: seq<real>, off: int, v: seq<real>): (r: seq<real>)
    requires 0 <= off && off + |v| <= |y|
    ensures |r| == |y|
    ensures forall i :: 0 <= i < |y| ==> r[i] == if off <= i < off + |v| then v[i - off] else y[i]
  {
    y[..off] + v + y[off + |v|..]
  }

  /** y with v added onto its segment at `off` (y.segment(off, |v|) += v). */
  function AddSegment(y: seq<real>, off: int, v: seq<real>): (r: seq<real>)
    requires 0 <= off && off + |v| <= |y|
    ensures |r| == |y|
    ensures forall i :: 0 <= i < |y| ==> r[i] == if off <= i < off + |v| then y[i] + v[i - off] else y[i]
  {
    seq(|y|, i requires 0 <= i < |y| => if off <= i < off + |v| then y[i] + v[i - off] else y[i])
  }

  /** pcg_axy: y.segment(yoff, rows) = A * x.segment(xoff, cols). */
  function Axy(a: Mat, x: seq<real>, xoff: int, y: seq<real>, yoff: int): seq<real>
    requires a.Valid() && 0 <= xoff && xoff + a.cols <= |x| && 0 <= yoff && yoff + a.rows <= |y|
  {
    SetSegment(y, yoff, MulVec(a, Segment(x, xoff, a.cols)))
  }

  /** pcg_axpy / axpy: y.segment(yoff, rows) += A * x.segment(xoff, cols). */
  function Axpy(a: Mat, x: seq<real>, xoff: int, y: seq<real>, yoff: int): seq<real>
    requires a.Valid() && 0 <= xoff && xoff + a.cols <= |x| && 0 <= yoff && yoff + a.rows <= |y|
  {
    AddSegment(y, yoff, MulVec(a, Segment(x, xoff, a.cols)))
  }

  /** pcg_atxpy / atxpy: y.segment(yoff, cols) += A^T * x.segment(xoff, rows). */
  function Atxpy(a: Mat, x: seq<real>, xoff: int, y: seq<real>, yoff: int): seq<real>
    requires a.Valid() && 0 <= xoff && xoff + a.rows <= |x| && 0 <= yoff && yoff + a.cols <= |y|
  {
    AddSegment(y, yoff, TransposeMulVec(a, Segment(x, xoff, a.rows)))
  }

  /** The transposed product is the plain product with the transposed block. */
  lemma AtxpyIsAxpyOfTranspose(a: Mat, x: seq<real>, xoff: int, y: seq<real>, yoff: int)
    requires a.Valid() && 0 <= xoff && xoff + a.rows <= |x| && 0 <= yoff && yoff + a.cols <= |y|
    ensures Atxpy(a, x, xoff, y, yoff) == Axpy(Transpose(a), x, xoff, y, yoff)
  {
    var t := Transpose(a);
    forall c | 0 <= c < a.cols
      ensures Row(t, c) == a.columns[c]
    {
    }
    assert TransposeMulVec(a, Segment(x, xoff, a.rows)) == MulVec(t, Segment(x, xoff, t.cols));
  }

  lemma {:induction false} DotZeroRight(u: seq<real>, v: seq<real>)
    requires |u| == |v| && forall i :: 0 <= i < |v| ==> v[i] == 0.0
    ensures Dot(u, v) == 0.0
  {
    if |u| > 0 {
      DotZeroRight(u[1..], v[1..]);
    }
  }

  /** Dot with a unit vector picks out one coordinate. */
  lemma {:induction false} DotUnit(u: seq<real>, v: seq<real>, k: nat)
    requires |u| == |v| && k < |v|
    requires forall i :: 0 <= i < |v| ==> v[i] == if i == k then 1.0 else 0.0
    ensures Dot(u, v) == u[k]
  {
    if k == 0 {
      DotZeroRight(u[1..], v[1..]);
    } else {
      DotUnit(u[1..], v[1..], k - 1);
    }
  }

  /** The identity block reproduces its input. */
  lemma IdentityMulVec(n: nat, x: seq<real>)
    requires |x| == n
    ensures MulVec(Identity(n), x) == x
  {
    var id := Identity(n);
    forall r | 0 <= r < n
      ensures MulVec(id, x)[r] == x[r]
    {
      DotUnit(x, Row(id, r), r);
      DotCommutes(Row(id, r), x);
    }
  }

  lemma {:induction false} DotCommutes(u: seq<real>, v: seq<real>)
    requires |u| == |v|
    ensures Dot(u, v) == Dot(v, u)
  {
    if |u| > 0 {
      DotCommutes(u[1..], v[1..]);
    }
  }

  /** A zero block adds nothing. */
  lemma AxpyZeroBlock(rows: nat, cols: nat, x: seq<real>, xoff: int, y: seq<real>, yoff: int)
    requires 0 <= xoff && xoff + cols <= |x| && 0 <= yoff && yoff + rows <= |y|
    ensures Axpy(Zero(rows, cols), x, xoff, y, yoff) == y
  {
    var z := Zero(rows, cols);
    forall r | 0 <= r < rows
      ensures MulVec(z, Segment(x, xoff, cols))[r] == 0.0
    {
      DotCommutes(Row(z, r), Segment(x, xoff, cols));
      DotZeroRight(Segment(x, xoff, cols), Row(z, r));
    }
  }

  /** In-place pcg_axpy / axpy on a vector held in an array. */
  method AxpyInPlace(a: Mat, x: seq<real>, xoff: int, y: array<real>, yoff: int)
    requires a.Valid() && 0 <= xoff && xoff + a.cols <= |x| && 0 <= yoff && yoff + a.rows <= y.Length
    modifies y
    ensures y[..] == Axpy(a, x, xoff, old(y[..]), yoff)
  {
    ghost var y0 := y[..];
    var v := MulVec(a, Segment(x, xoff, a.cols));
    for i := 0 to a.rows
      invariant forall k :: 0 <= k < y.Length ==> y[k] == if yoff <= k < yoff + i then y0[k] + v[k - yoff] else y0[k]
    {
      y[yoff + i] := y[yoff + i] + v[i];
    }
  }

  /** In-place pcg_atxpy / atxpy on a vector held in an array. */
  method AtxpyInPlace(a: Mat, x: seq<real>, xoff: int, y: array<real>, yoff: int)
    requires a.Valid() && 0 <= xoff && xoff + a.rows <= |x| && 0 <= yoff && yoff + a.cols <= y.Length
    modifies y
    ensures y[..] == Atxpy(a, x, xoff, old(y[..]), yoff)
  {
    ghost var y0 := y[..];
    var v := TransposeMulVec(a, Segment(x, xoff, a.rows));
    for i := 0 to a.cols
      invariant forall k :: 0 <= k < y.Length ==> y[k] == if yoff <= k < yoff + i then y0[k] + v[k - yoff] else y0[k]
    {
      y[yoff + i] := y[yoff + i] + v[i];
    }
  }
}
