/** SparseBlockMatrixDiagonal: a block-diagonal matrix, one square block per
    entry of a single block-index vector that serves as both the row and
    the column layout. */
module SparseBlockDiagonal {
  import opened BlockLayout
  import opened DenseBlocks

  /** Block i is a square block as wide as block i of the layout, and no
      block lies beyond the layout. */
  predicate DiagonalFits(idx: seq<int>, diag: seq<Mat>)
  {
    Monotone(idx) && |diag| <= |idx| &&
    forall i :: 0 <= i < |diag| ==>
      diag[i].Valid() && diag[i].rows == DimOfBlock(idx, i) && diag[i].cols == DimOfBlock(idx, i)
  }

  /** The blocks fit the source and destination vectors. */
  predicate FitsVectors(idx: seq<int>, diag: seq<Mat>, src: seq<real>, y: seq<real>)
  {
    DiagonalFits(idx, diag) && |src| == Size(idx) && |y| == Size(idx)
  }

  lemma BlockInside(idx: seq<int>, diag: seq<Mat>, src: seq<real>, y: seq<real>, i: nat)
    requires FitsVectors(idx, diag, src, y) && i < |diag|
    ensures 0 <= BaseOfBlock(idx, i) && BaseOfBlock(idx, i) + diag[i].cols <= |src|
    ensures BaseOfBlock(idx, i) + diag[i].rows <= |y|
  {
  }

  /** The first n blocks of multiply(): y.segment(base(i), dim(i)) +=
      A_i * src.segment(base(i), dim(i)) for i = 0 .. n-1. */
  function DiagonalProduct(idx: seq<int>, diag: seq<Mat>, src: seq<real>, y: seq<real>, n: nat): (r: seq<real>)
    requires FitsVectors(idx, diag, src, y) && n <= |diag|
    ensures |r| == |y|
  {
    if n == 0 then y
    else
      var prev := DiagonalProduct(idx, diag, src, y, n - 1);
      BlockInside(idx, diag, src, y, n - 1);
      Axpy(diag[n - 1], src, BaseOfBlock(idx, n - 1), prev, BaseOfBlock(idx, n - 1))
  }

  /** What block i adds at scalar index k of its own segment. */
  function BlockTerm(idx: seq<int>, diag: seq<Mat>, src: seq<real>, y: seq<real>, i: nat, k: int): real
    requires FitsVectors(idx, diag, src, y) && i < |diag|
    requires BaseOfBlock(idx, i) <= k < idx[i]
  {
    BlockInside(idx, diag, src, y, i);
    MulVec(diag[i], Segment(src, BaseOfBlock(idx, i), diag[i].cols))[k - BaseOfBlock(idx, i)]
  }

  /** Block n - 1 changes only its own segment. */
  lemma DiagonalProductStep(idx: seq<int>, diag: seq<Mat>, src: seq<real>, y: seq<real>, n: nat, k: int)
    requires FitsVectors(idx, diag, src, y) && 0 < n <= |diag| && 0 <= k < |y|
    ensures BaseOfBlock(idx, n - 1) <= k < idx[n - 1] ==>
      DiagonalProduct(idx, diag, src, y, n)[k] ==
      DiagonalProduct(idx, diag, src, y, n - 1)[k] + BlockTerm(idx, diag, src, y, n - 1, k)
    ensures !(BaseOfBlock(idx, n - 1) <= k < idx[n - 1]) ==>
      DiagonalProduct(idx, diag, src, y, n)[k] == DiagonalProduct(idx, diag, src, y, n - 1)[k]
  {
    var b := BaseOfBlock(idx, n - 1);
    BlockInside(idx, diag, src, y, n - 1);
    var v := MulVec(diag[n - 1], Segment(src, b, diag[n - 1].cols));
    assert DiagonalProduct(idx, diag, src, y, n) == AddSegment(DiagonalProduct(idx, diag, src, y, n - 1), b, v);
  }

  /** Indices past the first n blocks are left as they were. */
  lemma {:induction false} DiagonalProductBeyond(idx: seq<int>, diag: seq<Mat>, src: seq<real>, y: seq<real>, n: nat, k: int)
    requires FitsVectors(idx, diag, src, y) && n <= |diag|
    requires 0 <= k < |y| && (n == 0 || idx[n - 1] <= k)
    ensures DiagonalProduct(idx, diag, src, y, n)[k] == y[k]
  {
    if n > 0 {
      assert n - 1 == 0 || idx[n - 2] <= idx[n - 1];
      DiagonalProductStep(idx, diag, src, y, n, k);
      DiagonalProductBeyond(idx, diag, src, y, n - 1, k);
    }
  }

  /** Blocks after the first m leave the segments of the first m alone. */
  lemma {:induction false} DiagonalProductSettled(idx: seq<int>, diag: seq<Mat>, src: seq<real>, y: seq<real>, m: nat, n: nat, k: int)
    requires FitsVectors(idx, diag, src, y) && 0 < m <= n <= |diag|
    requires 0 <= k < idx[m - 1]
    ensures DiagonalProduct(idx, diag, src, y, n)[k] == DiagonalProduct(idx, diag, src, y, m)[k]
  {
    if m < n {
      assert idx[m - 1] <= idx[n - 2] == BaseOfBlock(idx, n - 1);
      assert idx[m - 1] <= Size(idx) == |y|;
      DiagonalProductStep(idx, diag, src, y, n, k);
      DiagonalProductSettled(idx, diag, src, y, m, n - 1, k);
    }
  }

  /** Block-diagonal: inside the segment of block i only block i has added
      anything, reading the source segment at the same offset. */
  lemma DiagonalProductInBlock(idx: seq<int>, diag: seq<Mat>, src: seq<real>, y: seq<real>, n: nat, i: nat, k: int)
    requires FitsVectors(idx, diag, src, y) && i < n <= |diag|
    requires BaseOfBlock(idx, i) <= k < idx[i]
    ensures DiagonalProduct(idx, diag, src, y, n)[k] == y[k] + BlockTerm(idx, diag, src, y, i, k)
  {
    assert idx[i] <= Size(idx) == |y|;
    DiagonalProductSettled(idx, diag, src, y, i + 1, n, k);
    DiagonalProductStep(idx, diag, src, y, i + 1, k);
    DiagonalProductBeyond(idx, diag, src, y, i, k);
  }

  /** From a zero destination, identity blocks covering the whole layout
      reproduce the source. */
  lemma IdentityBlocksReproduceSource(idx: seq<int>, diag: seq<Mat>, src: seq<real>)
    requires DiagonalFits(idx, diag) && |diag| == |idx| && |src| == Size(idx)
    requires forall i :: 0 <= i < |diag| ==> diag[i] == Identity(DimOfBlock(idx, i))
    ensures DiagonalProduct(idx, diag, src, Zeros(Size(idx)), |diag|) == src
  {
    var y := Zeros(Size(idx));
    forall k | 0 <= k < |src|
      ensures DiagonalProduct(idx, diag, src, y, |diag|)[k] == src[k]
    {
      EveryIndexInABlock(idx, k);
      var i :| 0 <= i < |idx| && BaseOfBlock(idx, i) <= k < idx[i];
      DiagonalProductInBlock(idx, diag, src, y, |diag|, i, k);
      BlockInside(idx, diag, src, y, i);
      IdentityMulVec(DimOfBlock(idx, i), Segment(src, BaseOfBlock(idx, i), diag[i].cols));
    }
  }

  /** One step of multiply(): block i reads and accumulates at the same
      offset, baseOfBlock(i). */
  method MultiplyBlock(idx: seq<int>, diag: seq<Mat>, src: seq<real>, ghost y0: seq<real>, i: nat,
                       d: array<real>, destOffset: int)
    requires FitsVectors(idx, diag, src, y0) && i < |diag|
    requires destOffset == BaseOfBlock(idx, i)
    requires d[..] == DiagonalProduct(idx, diag, src, y0, i)
    modifies d
    ensures d[..] == DiagonalProduct(idx, diag, src, y0, i + 1)
  {
    var srcOffset := destOffset;
    BlockInside(idx, diag, src, y0, i);
    AxpyInPlace(diag[i], src, srcOffset, d, destOffset);
  }

  class SparseBlockMatrixDiagonal {
    const blockIndices: seq<int>
    /** The diagonal blocks, block i covering scalar rows and columns
        baseOfBlock(i) .. blockIndices[i] - 1. */
    var diagonal: seq<Mat>

    constructor (indices: seq<int>)
      ensures blockIndices == indices && diagonal == []
    {
      blockIndices := indices;
      diagonal := [];
    }

    /** cols(): the last block boundary, or 0 without blocks. */
    function Cols(): (n: int)
      ensures n == (if |blockIndices| == 0 then 0 else blockIndices[|blockIndices| - 1])
      ensures Monotone(blockIndices) ==> 0 <= n
    {
      Size(blockIndices)
    }

    /** rows(): the same as cols(), the matrix being square. */
    function Rows(): (n: int)
      ensures n == Cols()
    {
      Size(blockIndices)
    }

    /** diagonal() used for writing: the blocks are replaced. */
    method SetDiagonal(blocks: seq<Mat>)
      modifies this
      ensures diagonal == blocks
    {
      diagonal := blocks;
    }

    /** multiply(dest, src): dest += A * src block by block; a null dest is
        first allocated with cols() zeros. */
    method Multiply(dest: array?<real>, src: seq<real>) returns (d: array<real>)
      requires DiagonalFits(blockIndices, diagonal) && |src| == Rows()
      requires dest != null ==> dest.Length == Cols()
      modifies dest
      ensures dest != null ==> d == dest
      ensures dest == null ==> fresh(d)
      ensures d[..] == DiagonalProduct(blockIndices, diagonal, src,
                         if dest == null then Zeros(Cols()) else old(dest[..]), |diagonal|)
    {
      if dest == null {
        d := new real[Cols()](_ => 0.0);
        assert d[..] == Zeros(Cols());
      } else {
        d := dest;
      }
      ghost var y0 := d[..];
      assert y0 == if dest == null then Zeros(Cols()) else old(dest[..]);
      assert FitsVectors(blockIndices, diagonal, src, y0);
      for i := 0 to |diagonal|
        invariant FitsVectors(blockIndices, diagonal, src, y0)
        invariant d[..] == DiagonalProduct(blockIndices, diagonal, src, y0, i)
      {
        var destOffset := if i > 0 then blockIndices[i - 1] else 0;
        MultiplyBlock(blockIndices, diagonal, src, y0, i, d, destOffset);
      }
    }
  }
}
