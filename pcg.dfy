/** LinearSolverPCG of g2o/solvers/pcg/linear_solver_pcg.hpp: conjugate
    gradients on the block Hessian with a block-Jacobi preconditioner. The
    solver copies the diagonal blocks (with their inverses) and the blocks
    above the diagonal of the block matrix into flat lists, multiplies with
    the symmetric matrix they stand for block by block, and iterates until
    the preconditioned residual falls to a threshold or an iteration cap is
    reached. */
module PcgModel {
  import opened Sequences
  import opened BlockLayout
  import opened DenseBlocks
  import opened SparseBlockCCS

  /** A pointer into the block matrix, as sparseMat_ keeps them: block `pos`
      (in stored order) of block column `col`. */
  datatype BlockRef = BlockRef(col: nat, pos: nat)

  /** An entry of indices_: the scalar row base and the scalar column base
      of a block above the diagonal. */
  datatype Offset = Offset(row: int, col: int)

  /* ---------------------------------------------------------------------
     Block extraction: what solve copies out of the matrix
     --------------------------------------------------------------------- */

  /** Every block row is a block row of the matrix, and every block column
      has its boundary, so the row and column bases can be looked up. */
  predicate Indexable(A: Blocks)
  {
    |A.cols| <= |A.colIdx| &&
    forall i, k :: 0 <= i < |A.cols| && 0 <= k < |A.cols[i]| ==> 0 <= A.cols[i][k].row < |A.rowIdx|
  }

  /** Where the scan of a column stops: the position of the first block
      whose block row equals the column, or the column's length. */
  function FirstDiagonal(col: seq<RowBlock>, i: int): (p: nat)
    ensures p <= |col|
    ensures forall k :: 0 <= k < p ==> col[k].row != i
    ensures p < |col| ==> col[p].row == i
  {
    if |col| == 0 then 0
    else if col[0].row == i then 0
    else 1 + FirstDiagonal(col[1..], i)
  }

  predicate HasDiagonal(A: Blocks, i: nat)
    requires i < |A.cols|
  {
    FirstDiagonal(A.cols[i], i) < |A.cols[i]|
  }

  /** What block column i adds to diag_: its diagonal block, if it has one. */
  function ColumnDiag(A: Blocks, i: nat): seq<Mat>
    requires i < |A.cols|
  {
    if HasDiagonal(A, i) then [A.cols[i][FirstDiagonal(A.cols[i], i)].block] else []
  }

  /** diag_ after the first n block columns. */
  function DiagBlocks(A: Blocks, n: nat): seq<Mat>
    requires n <= |A.cols|
  {
    if n == 0 then [] else DiagBlocks(A, n - 1) + ColumnDiag(A, n - 1)
  }

  /** J_: the inverse of each block, in order. */
  function Invert(inverse: Mat -> Mat, ms: seq<Mat>): (js: seq<Mat>)
    ensures |js| == |ms|
  {
    seq(|ms|, k requires 0 <= k < |ms| => inverse(ms[k]))
  }

  /** The offsets block column i adds to indices_: one per block before the
      first k, each at its row base and at the column's base. */
  function ColumnOffsets(A: Blocks, i: nat, k: nat): (os: seq<Offset>)
    requires Indexable(A) && i < |A.cols| && k <= |A.cols[i]|
    ensures |os| == k
  {
    seq(k, j requires 0 <= j < k => Offset(BaseOfBlock(A.rowIdx, A.cols[i][j].row), BaseOfBlock(A.colIdx, i)))
  }

  /** The pointers block column i adds to sparseMat_ for its first k blocks. */
  function ColumnRefs(i: nat, k: nat): (rs: seq<BlockRef>)
    ensures |rs| == k
  {
    seq(k, j requires 0 <= j < k => BlockRef(i, j))
  }

  /** indices_ after the first n block columns of a first call. */
  function UpperOffsets(A: Blocks, n: nat): seq<Offset>
    requires Indexable(A) && n <= |A.cols|
  {
    if n == 0 then [] else UpperOffsets(A, n - 1) + ColumnOffsets(A, n - 1, FirstDiagonal(A.cols[n - 1], n - 1))
  }

  /** sparseMat_ after the first n block columns of a first call. */
  function UpperRefs(A: Blocks, n: nat): seq<BlockRef>
    requires n <= |A.cols|
  {
    if n == 0 then [] else UpperRefs(A, n - 1) + ColumnRefs(n - 1, FirstDiagonal(A.cols[n - 1], n - 1))
  }

  /** A pointer names a block the scan records for its column, and the
      offset beside it is that block's row base and its column's base. */
  predicate UpperEntry(A: Blocks, ref: BlockRef, off: Offset)
  {
    ref.col < |A.cols| && ref.col < |A.colIdx| && ref.pos < FirstDiagonal(A.cols[ref.col], ref.col) &&
    0 <= A.cols[ref.col][ref.pos].row < |A.rowIdx| &&
    off == Offset(BaseOfBlock(A.rowIdx, A.cols[ref.col][ref.pos].row), BaseOfBlock(A.colIdx, ref.col))
  }

  lemma InvertAppend(inverse: Mat -> Mat, a: seq<Mat>, b: seq<Mat>)
    ensures Invert(inverse, a + b) == Invert(inverse, a) + Invert(inverse, b)
  {
  }

  lemma ColumnOffsetsSnoc(A: Blocks, i: nat, k: nat)
    requires Indexable(A) && i < |A.cols| && k < |A.cols[i]|
    ensures ColumnOffsets(A, i, k + 1)
         == ColumnOffsets(A, i, k) + [Offset(BaseOfBlock(A.rowIdx, A.cols[i][k].row), BaseOfBlock(A.colIdx, i))]
  {
  }

  lemma ColumnRefsSnoc(i: nat, k: nat)
    ensures ColumnRefs(i, k + 1) == ColumnRefs(i, k) + [BlockRef(i, k)]
  {
  }

  /** The scan of one block column (the inner loop of solve): walk the
      blocks in stored order; at the first block on the diagonal push it and
      its inverse and stop; before that, push each block's offsets and
      pointer when indices are required. */
  method ScanColumn(A: Blocks, i: nat, colBase: int, indexRequired: bool, inverse: Mat -> Mat,
                    diag0: seq<Mat>, inv0: seq<Mat>, offsets0: seq<Offset>, refs0: seq<BlockRef>)
    returns (diag: seq<Mat>, inv: seq<Mat>, offsets: seq<Offset>, refs: seq<BlockRef>)
    requires Indexable(A) && i < |A.cols| && colBase == BaseOfBlock(A.colIdx, i)
    ensures diag == diag0 + ColumnDiag(A, i) && inv == inv0 + Invert(inverse, ColumnDiag(A, i))
    ensures offsets == offsets0 + (if indexRequired then ColumnOffsets(A, i, FirstDiagonal(A.cols[i], i)) else [])
    ensures refs == refs0 + (if indexRequired then ColumnRefs(i, FirstDiagonal(A.cols[i], i)) else [])
  {
    diag, inv, offsets, refs := diag0, inv0, offsets0, refs0;
    var col := A.cols[i];
    ghost var p := FirstDiagonal(col, i);
    var k := 0;
    while k < |col|
      invariant k <= p
      invariant diag == diag0 && inv == inv0
      invariant indexRequired ==> offsets == offsets0 + ColumnOffsets(A, i, k) && refs == refs0 + ColumnRefs(i, k)
      invariant !indexRequired ==> offsets == offsets0 && refs == refs0
    {
      if col[k].row == i {
        assert k == p;
        diag := diag + [col[k].block];
        inv := inv + [inverse(col[k].block)];
        break;
      }
      if indexRequired {
        var rowBase := if col[k].row > 0 then A.rowIdx[col[k].row - 1] else 0;
        ColumnOffsetsSnoc(A, i, k);
        ColumnRefsSnoc(i, k);
        AppendAssoc(offsets0, ColumnOffsets(A, i, k), [Offset(rowBase, colBase)]);
        AppendAssoc(refs0, ColumnRefs(i, k), [BlockRef(i, k)]);
        offsets := offsets + [Offset(rowBase, colBase)];
        refs := refs + [BlockRef(i, k)];
      }
      k := k + 1;
    }
    if !indexRequired {
      EmptyAppend(offsets0);
      EmptyAppend(refs0);
    }
  }

  /** The scan of all block columns (solve's outer loop): diag_ and J_ are
      rebuilt, indices_ and sparseMat_ only grow when indices are required. */
  method Scan(A: Blocks, indexRequired: bool, inverse: Mat -> Mat, offsets0: seq<Offset>, refs0: seq<BlockRef>)
    returns (diag: seq<Mat>, inv: seq<Mat>, offsets: seq<Offset>, refs: seq<BlockRef>)
    requires Indexable(A)
    ensures diag == DiagBlocks(A, |A.cols|) && inv == Invert(inverse, diag)
    ensures offsets == if indexRequired then offsets0 + UpperOffsets(A, |A.cols|) else offsets0
    ensures refs == if indexRequired then refs0 + UpperRefs(A, |A.cols|) else refs0
  {
    diag, inv, offsets, refs := [], [], offsets0, refs0;
    var colIdx := 0;
    var i := 0;
    while i < |A.cols|
      invariant i <= |A.cols|
      invariant i < |A.colIdx| ==> colIdx == BaseOfBlock(A.colIdx, i)
      invariant diag == DiagBlocks(A, i) && inv == Invert(inverse, diag)
      invariant offsets == if indexRequired then offsets0 + UpperOffsets(A, i) else offsets0
      invariant refs == if indexRequired then refs0 + UpperRefs(A, i) else refs0
    {
      ghost var before := diag;
      ghost var offs := offsets;
      ghost var rs := refs;
      diag, inv, offsets, refs := ScanColumn(A, i, colIdx, indexRequired, inverse, diag, inv, offsets, refs);
      InvertAppend(inverse, before, ColumnDiag(A, i));
      if indexRequired {
        AppendAssoc(offsets0, UpperOffsets(A, i), ColumnOffsets(A, i, FirstDiagonal(A.cols[i], i)));
        AppendAssoc(refs0, UpperRefs(A, i), ColumnRefs(i, FirstDiagonal(A.cols[i], i)));
      } else {
        EmptyAppend(offs);
        EmptyAppend(rs);
      }
      colIdx := A.colIdx[i];
      i := i + 1;
    }
  }

  /** With every block column holding a diagonal block, diag_ holds exactly
      one block per column, column k's first block on the diagonal at k. */
  lemma {:induction false} DiagBlocksAll(A: Blocks, m: nat)
    requires m <= |A.cols| && forall i :: 0 <= i < m ==> HasDiagonal(A, i)
    ensures |DiagBlocks(A, m)| == m
    ensures forall k :: 0 <= k < m ==> HasDiagonal(A, k) && DiagBlocks(A, m)[k] == A.cols[k][FirstDiagonal(A.cols[k], k)].block
  {
    if m > 0 {
      DiagBlocksAll(A, m - 1);
    }
  }

  lemma UpperEntriesStep(A: Blocks, j: nat, m: nat)
    requires Indexable(A) && m == j + 1 && m <= |A.cols|
    requires |UpperOffsets(A, j)| == |UpperRefs(A, j)|
    requires forall k :: 0 <= k < |UpperRefs(A, j)| ==>
      UpperEntry(A, UpperRefs(A, j)[k], UpperOffsets(A, j)[k]) && UpperRefs(A, j)[k].col < j
    ensures |UpperOffsets(A, m)| == |UpperRefs(A, m)|
    ensures forall k :: 0 <= k < |UpperRefs(A, m)| ==>
      UpperEntry(A, UpperRefs(A, m)[k], UpperOffsets(A, m)[k]) && UpperRefs(A, m)[k].col < m
  {
    var p := FirstDiagonal(A.cols[j], j);
    var os, rs := UpperOffsets(A, j), UpperRefs(A, j);
    var co, cr := ColumnOffsets(A, j, p), ColumnRefs(j, p);
    forall k | 0 <= k < |rs| + p
      ensures UpperEntry(A, (rs + cr)[k], (os + co)[k]) && (rs + cr)[k].col < m
    {
      if k >= |rs| {
        assert (rs + cr)[k] == BlockRef(j, k - |rs|);
        assert (os + co)[k] == co[k - |rs|];
      } else {
        assert (rs + cr)[k] == rs[k] && (os + co)[k] == os[k];
      }
    }
  }

  /** sparseMat_ and indices_ of a first call run side by side: every
      pointer names a block that lies before its column's diagonal block
      (above the diagonal, when the column is sorted by block row), with
      that block's row base and its column's base beside it; and every
      such block is recorded. */
  lemma {:induction false} UpperEntries(A: Blocks, m: nat)
    requires Indexable(A) && m <= |A.cols|
    ensures |UpperOffsets(A, m)| == |UpperRefs(A, m)|
    ensures forall k :: 0 <= k < |UpperRefs(A, m)| ==>
      UpperEntry(A, UpperRefs(A, m)[k], UpperOffsets(A, m)[k]) && UpperRefs(A, m)[k].col < m
    ensures forall i, j :: 0 <= i < m && 0 <= j < FirstDiagonal(A.cols[i], i) ==> BlockRef(i, j) in UpperRefs(A, m)
  {
    if m > 0 {
      UpperEntries(A, m - 1);
      UpperEntriesStep(A, m - 1, m);
      forall i, j | 0 <= i < m && 0 <= j < FirstDiagonal(A.cols[i], i)
        ensures BlockRef(i, j) in UpperRefs(A, m)
      {
        if i == m - 1 {
          assert ColumnRefs(i, FirstDiagonal(A.cols[i], i))[j] == BlockRef(i, j);
        }
      }
    }
  }

  /** A recorded block of a column sorted by block row, with a diagonal
      block, lies strictly above the diagonal. */
  lemma UpperAboveDiagonal(A: Blocks, ref: BlockRef, off: Offset)
    requires UpperEntry(A, ref, off) && ColumnSorted(A.cols[ref.col]) && HasDiagonal(A, ref.col)
    ensures A.cols[ref.col][ref.pos].row < ref.col
  {
    var p := FirstDiagonal(A.cols[ref.col], ref.col);
    assert A.cols[ref.col][p].row == ref.col;
  }

  /* ---------------------------------------------------------------------
     multDiag and mult
     --------------------------------------------------------------------- */

  /** Diagonal block i fits: it multiplies the segment of a vector of
      length n that starts at the boundary before column i into the segment
      of a vector of length m there. */
  predicate DiagFits(colIdx: seq<int>, blocks: seq<Mat>, n: nat, m: nat)
  {
    |blocks| <= |colIdx| &&
    forall i :: 0 <= i < |blocks| ==>
      blocks[i].Valid() && 0 <= BaseOfBlock(colIdx, i) &&
      BaseOfBlock(colIdx, i) + blocks[i].cols <= n && BaseOfBlock(colIdx, i) + blocks[i].rows <= m
  }

  /** dest after multDiag has applied the blocks in order. */
  function DiagProduct(colIdx: seq<int>, blocks: seq<Mat>, src: seq<real>, dest: seq<real>): (r: seq<real>)
    requires DiagFits(colIdx, blocks, |src|, |dest|)
    ensures |r| == |dest|
    decreases |blocks|
  {
    if |blocks| == 0 then dest
    else
      var k := |blocks| - 1;
      assert DiagFits(colIdx, blocks[..k], |src|, |dest|);
      var base := BaseOfBlock(colIdx, k);
      Axy(blocks[k], src, base, DiagProduct(colIdx, blocks[..k], src, dest), base)
  }

  /** Where the diagonal blocks end: the boundary after the last of m blocks. */
  function Covered(colIdx: seq<int>, m: nat): int
    requires m <= |colIdx|
  {
    if m == 0 then 0 else colIdx[m - 1]
  }

  /** Square diagonal blocks, block i as wide as block column i. */
  predicate Tiles(colIdx: seq<int>, blocks: seq<Mat>)
  {
    Monotone(colIdx) && |blocks| <= |colIdx| &&
    forall i :: 0 <= i < |blocks| ==>
      blocks[i].Valid() && blocks[i].rows == DimOfBlock(colIdx, i) && blocks[i].cols == DimOfBlock(colIdx, i)
  }

  lemma TilesFit(colIdx: seq<int>, blocks: seq<Mat>, n: nat, m: nat)
    requires Tiles(colIdx, blocks) && Covered(colIdx, |blocks|) <= n && Covered(colIdx, |blocks|) <= m
    ensures DiagFits(colIdx, blocks, n, m)
  {
    forall i | 0 <= i < |blocks|
      ensures BaseOfBlock(colIdx, i) + blocks[i].cols <= n && BaseOfBlock(colIdx, i) + blocks[i].rows <= m
    {
      assert colIdx[i] <= colIdx[|blocks| - 1];
    }
  }

  /** multDiag on square blocks that tile the vector: segment i of the
      result is block i times segment i of src, where segment i starts at
      the previous column boundary (0 for the first); past the last block
      dest is left as it was. */
  lemma {:induction false} DiagProductTiles(colIdx: seq<int>, blocks: seq<Mat>, src: seq<real>, dest: seq<real>)
    requires Tiles(colIdx, blocks) && Covered(colIdx, |blocks|) <= |src| && Covered(colIdx, |blocks|) <= |dest|
    ensures DiagFits(colIdx, blocks, |src|, |dest|)
    ensures forall i :: 0 <= i < |blocks| ==>
      Segment(DiagProduct(colIdx, blocks, src, dest), BaseOfBlock(colIdx, i), blocks[i].rows)
        == MulVec(blocks[i], Segment(src, BaseOfBlock(colIdx, i), blocks[i].cols))
    ensures forall k :: Covered(colIdx, |blocks|) <= k < |dest| ==> DiagProduct(colIdx, blocks, src, dest)[k] == dest[k]
  {
    TilesFit(colIdx, blocks, |src|, |dest|);
    if |blocks| > 0 {
      var L := |blocks| - 1;
      var pre := blocks[..L];
      assert Tiles(colIdx, pre);
      if L > 0 {
        assert colIdx[L - 1] <= colIdx[L];
      }
      DiagProductTiles(colIdx, pre, src, dest);
      var prev := DiagProduct(colIdx, pre, src, dest);
      var res := DiagProduct(colIdx, blocks, src, dest);
      var base := BaseOfBlock(colIdx, L);
      var v := MulVec(blocks[L], Segment(src, base, blocks[L].cols));
      assert res == SetSegment(prev, base, v);
      forall i | 0 <= i < |blocks|
        ensures Segment(res, BaseOfBlock(colIdx, i), blocks[i].rows)
             == MulVec(blocks[i], Segment(src, BaseOfBlock(colIdx, i), blocks[i].cols))
      {
        if i < L {
          assert colIdx[i] <= colIdx[L - 1];
          assert pre[i] == blocks[i];
          SetSegmentElsewhere(prev, base, v, BaseOfBlock(colIdx, i), blocks[i].rows);
        } else {
          SetSegmentThere(prev, base, v);
        }
      }
    }
  }

  /** Writing a segment leaves a segment wholly before it as it was. */
  lemma SetSegmentElsewhere(y: seq<real>, off: int, v: seq<real>, at: int, n: nat)
    requires 0 <= off && off + |v| <= |y| && 0 <= at && at + n <= off
    ensures Segment(SetSegment(y, off, v), at, n) == Segment(y, at, n)
  {
  }

  /** Writing a segment leaves it holding what was written. */
  lemma SetSegmentThere(y: seq<real>, off: int, v: seq<real>)
    requires 0 <= off && off + |v| <= |y|
    ensures Segment(SetSegment(y, off, v), off, |v|) == v
  {
  }

  /** The blocks above the diagonal fit: block k multiplies the segment at
      one offset into the segment at the other, both ways round, inside
      vectors of length n. */
  predicate UpperFits(offsets: seq<Offset>, blocks: seq<Mat>, n: nat)
  {
    |offsets| == |blocks| &&
    forall k :: 0 <= k < |blocks| ==>
      blocks[k].Valid() && 0 <= offsets[k].row && 0 <= offsets[k].col &&
      offsets[k].row + blocks[k].rows <= n && offsets[k].col + blocks[k].cols <= n
  }

  /** dest after mult's second loop: for each stored block A at (r, c),
      dest[r] += A·src[c], then dest[c] += Aᵀ·src[r]. */
  function UpperProduct(offsets: seq<Offset>, blocks: seq<Mat>, src: seq<real>, dest: seq<real>): (r: seq<real>)
    requires |src| == |dest| && UpperFits(offsets, blocks, |dest|)
    ensures |r| == |dest|
    decreases |blocks|
  {
    if |blocks| == 0 then dest
    else
      var k := |blocks| - 1;
      assert UpperFits(offsets[..k], blocks[..k], |dest|);
      var y := UpperProduct(offsets[..k], blocks[..k], src, dest);
      Atxpy(blocks[k], src, offsets[k].row, Axpy(blocks[k], src, offsets[k].col, y, offsets[k].row), offsets[k].col)
  }

  lemma UpperFitsPrefix(offsets: seq<Offset>, blocks: seq<Mat>, n: nat, i: nat)
    requires UpperFits(offsets, blocks, n) && i <= |blocks|
    ensures UpperFits(offsets[..i], blocks[..i], n)
  {
  }

  /** One more block of mult's loop. */
  lemma UpperProductSnoc(offsets: seq<Offset>, blocks: seq<Mat>, i: nat, src: seq<real>, dest: seq<real>)
    requires |src| == |dest| && UpperFits(offsets, blocks, |dest|) && i < |blocks|
    ensures UpperFits(offsets[..i], blocks[..i], |dest|) && UpperFits(offsets[..i + 1], blocks[..i + 1], |dest|)
    ensures UpperProduct(offsets[..i + 1], blocks[..i + 1], src, dest)
         == Atxpy(blocks[i], src, offsets[i].row,
                  Axpy(blocks[i], src, offsets[i].col, UpperProduct(offsets[..i], blocks[..i], src, dest), offsets[i].row),
                  offsets[i].col)
  {
    UpperFitsPrefix(offsets, blocks, |dest|, i);
    UpperFitsPrefix(offsets, blocks, |dest|, i + 1);
    assert offsets[..i + 1][..i] == offsets[..i] && blocks[..i + 1][..i] == blocks[..i];
  }

  /** A block placed at scalar row `row` and scalar column `col` of a full
      (not triangular) block matrix. */
  datatype Placed = Placed(row: int, col: int, block: Mat)

  predicate PlacedFit(p: Placed, n: nat)
  {
    p.block.Valid() && 0 <= p.row && 0 <= p.col && p.row + p.block.rows <= n && p.col + p.block.cols <= n
  }

  predicate PlacedFits(ps: seq<Placed>, n: nat)
  {
    forall k :: 0 <= k < |ps| ==> PlacedFit(ps[k], n)
  }

  /** dest plus the product of a full block list with src: each block adds
      its product with src's segment at its column onto dest's segment at
      its row. */
  function PlacedProduct(ps: seq<Placed>, src: seq<real>, dest: seq<real>): (r: seq<real>)
    requires |src| == |dest| && PlacedFits(ps, |dest|)
    ensures |r| == |dest|
    decreases |ps|
  {
    if |ps| == 0 then dest
    else
      var k := |ps| - 1;
      assert PlacedFits(ps[..k], |dest|);
      Axpy(ps[k].block, src, ps[k].col, PlacedProduct(ps[..k], src, dest), ps[k].row)
  }

  /** The full block list that upper storage stands for: every stored block
      A at (r, c) together with its mirror image Aᵀ at (c, r). */
  function Mirrored(offsets: seq<Offset>, blocks: seq<Mat>): (ps: seq<Placed>)
    requires |offsets| == |blocks| && forall k :: 0 <= k < |blocks| ==> blocks[k].Valid()
    ensures |ps| == 2 * |blocks|
    decreases |blocks|
  {
    if |blocks| == 0 then []
    else
      var k := |blocks| - 1;
      Mirrored(offsets[..k], blocks[..k]) +
        [Placed(offsets[k].row, offsets[k].col, blocks[k]), Placed(offsets[k].col, offsets[k].row, Transpose(blocks[k]))]
  }

  lemma {:induction false} MirroredFits(offsets: seq<Offset>, blocks: seq<Mat>, n: nat)
    requires UpperFits(offsets, blocks, n)
    ensures PlacedFits(Mirrored(offsets, blocks), n)
  {
    if |blocks| > 0 {
      var k := |blocks| - 1;
      assert UpperFits(offsets[..k], blocks[..k], n);
      MirroredFits(offsets[..k], blocks[..k], n);
    }
  }

  lemma PlacedProductSnoc(ps: seq<Placed>, p: Placed, src: seq<real>, dest: seq<real>)
    requires |src| == |dest| && PlacedFits(ps + [p], |dest|)
    ensures PlacedFits(ps, |dest|) && PlacedFit(p, |dest|)
    ensures PlacedProduct(ps + [p], src, dest) == Axpy(p.block, src, p.col, PlacedProduct(ps, src, dest), p.row)
  {
    assert (ps + [p])[..|ps|] == ps;
    assert (ps + [p])[|ps|] == p;
  }

  /** mult's loop over the upper blocks is the product with the symmetric
      matrix: the same as multiplying with every stored block and with its
      transpose at the mirrored position. */
  lemma {:induction false} UpperProductIsMirrored(offsets: seq<Offset>, blocks: seq<Mat>, src: seq<real>, dest: seq<real>)
    requires |src| == |dest| && UpperFits(offsets, blocks, |dest|)
    ensures PlacedFits(Mirrored(offsets, blocks), |dest|)
    ensures UpperProduct(offsets, blocks, src, dest) == PlacedProduct(Mirrored(offsets, blocks), src, dest)
  {
    MirroredFits(offsets, blocks, |dest|);
    if |blocks| > 0 {
      var k := |blocks| - 1;
      assert UpperFits(offsets[..k], blocks[..k], |dest|);
      UpperProductIsMirrored(offsets[..k], blocks[..k], src, dest);
      var pre := Mirrored(offsets[..k], blocks[..k]);
      var p1 := Placed(offsets[k].row, offsets[k].col, blocks[k]);
      var p2 := Placed(offsets[k].col, offsets[k].row, Transpose(blocks[k]));
      assert Mirrored(offsets, blocks) == (pre + [p1]) + [p2];
      PlacedProductSnoc(pre + [p1], p2, src, dest);
      PlacedProductSnoc(pre, p1, src, dest);
      var y := UpperProduct(offsets[..k], blocks[..k], src, dest);
      var y1 := Axpy(blocks[k], src, offsets[k].col, y, offsets[k].row);
      assert UpperProduct(offsets, blocks, src, dest) == Atxpy(blocks[k], src, offsets[k].row, y1, offsets[k].col);
      AtxpyIsAxpyOfTranspose(blocks[k], src, offsets[k].row, y1, offsets[k].col);
    }
  }

  /** The operator solve works with: the column boundaries, the diagonal
      blocks, their inverses, and the blocks above the diagonal with their
      offsets. */
  datatype Operator = Operator(colIdx: seq<int>, diag: seq<Mat>, inverses: seq<Mat>, offsets: seq<Offset>, upper: seq<Mat>)
  {
    predicate Fits(n: nat)
    {
      DiagFits(colIdx, diag, n, n) && DiagFits(colIdx, inverses, n, n) && UpperFits(offsets, upper, n)
    }
  }

  /** dest after mult: the diagonal product, then the upper blocks. */
  function Apply(op: Operator, src: seq<real>, dest: seq<real>): (r: seq<real>)
    requires |src| == |dest| && op.Fits(|dest|)
    ensures |r| == |dest|
  {
    UpperProduct(op.offsets, op.upper, src, DiagProduct(op.colIdx, op.diag, src, dest))
  }

  /** The pointers name blocks of the matrix. */
  predicate RefsIn(A: Blocks, refs: seq<BlockRef>)
  {
    forall k :: 0 <= k < |refs| ==> refs[k].col < |A.cols| && refs[k].pos < |A.cols[refs[k].col]|
  }

  /** The blocks the pointers name. */
  function Resolve(A: Blocks, refs: seq<BlockRef>): (ms: seq<Mat>)
    requires RefsIn(A, refs)
    ensures |ms| == |refs|
  {
    seq(|refs|, k requires 0 <= k < |refs| => A.cols[refs[k].col][refs[k].pos].block)
  }

  /* ---------------------------------------------------------------------
     The conjugate gradient iteration
     --------------------------------------------------------------------- */

  function Scaled(a: real, v: seq<real>): (w: seq<real>)
    ensures |w| == |v|
  {
    seq(|v|, i requires 0 <= i < |v| => a * v[i])
  }

  function Plus(u: seq<real>, v: seq<real>): (w: seq<real>)
    requires |u| == |v|
    ensures |w| == |u|
  {
    seq(|u|, i requires 0 <= i < |u| => u[i] + v[i])
  }

  function Minus(u: seq<real>, v: seq<real>): (w: seq<real>)
    requires |u| == |v|
    ensures |w| == |u|
  {
    seq(|u|, i requires 0 <= i < |u| => u[i] - v[i])
  }

  /** Division, given as a parameter: it is real division for a non-zero
      divisor (what IEEE division yields for a zero divisor is not modelled). */
  ghost predicate IsDivision(div: (real, real) -> real)
  {
    forall a, b :: b != 0.0 ==> div(a, b) == a / b
  }

  /** The vectors and scalars of the loop: the solution x, the residual r,
      the search direction d, the work vectors q and s, dn = r·s and the
      number of iterations done. */
  datatype State = State(x: seq<real>, r: seq<real>, d: seq<real>, q: seq<real>, s: seq<real>, dn: real, iteration: nat)
  {
    predicate Sized(n: nat)
    {
      |x| == n && |r| == n && |d| == n && |q| == n && |s| == n
    }
  }

  /** The state before the loop: x zeroed, r = b, d = J·r, q and s zeroed,
      dn = r·d. */
  function Start(op: Operator, b: seq<real>): (st: State)
    requires op.Fits(|b|)
    ensures st.Sized(|b|) && st.iteration == 0
  {
    var d := DiagProduct(op.colIdx, op.inverses, b, Zeros(|b|));
    State(Zeros(|b|), b, d, Zeros(|b|), Zeros(|b|), Dot(b, d), 0)
  }

  /** One iteration of the loop body. */
  function Step(op: Operator, div: (real, real) -> real, st: State): (t: State)
    requires op.Fits(|st.x|) && st.Sized(|st.x|)
    ensures t.Sized(|st.x|) && t.iteration == st.iteration + 1
  {
    var q := Apply(op, st.d, st.q);
    var a := div(st.dn, Dot(st.d, q));
    var r := Minus(st.r, Scaled(a, q));
    var s := DiagProduct(op.colIdx, op.inverses, r, st.s);
    var dn := Dot(r, s);
    State(Plus(st.x, Scaled(a, st.d)), r, Plus(s, Scaled(div(dn, st.dn), st.d)), q, s, dn, st.iteration + 1)
  }

  /** The loop from state st on: iterate while fewer than maxIter iterations
      are done and dn is above d0. It never runs past the cap, and when it
      stops before the cap, dn has reached d0. */
  function Run(op: Operator, div: (real, real) -> real, d0: real, maxIter: int, st: State): (t: State)
    requires op.Fits(|st.x|) && st.Sized(|st.x|)
    ensures t.Sized(|st.x|) && st.iteration <= t.iteration
    ensures st.iteration <= maxIter ==> t.iteration <= maxIter
    ensures t.iteration < maxIter ==> t.dn <= d0
    ensures st.dn <= d0 ==> t == st
    decreases if st.iteration < maxIter then maxIter - st.iteration else 0
  {
    if st.iteration < maxIter && !(st.dn <= d0) then Run(op, div, d0, maxIter, Step(op, div, st)) else st
  }

  /** The stopping threshold: tolerance·dn₀, raised to the residual of the
      previous call when absolute tolerance is on and that residual is
      positive and larger. It is the larger of the two candidates that
      apply. */
  function Threshold(tolerance: real, dn: real, absoluteTolerance: bool, residual: real): real
  {
    var d0 := tolerance * dn;
    if absoluteTolerance && residual > 0.0 && residual > d0 then residual else d0
  }

  /** The threshold is the relative one, or the previous residual when that
      applies and is larger: the least value at or above every candidate
      that applies. */
  lemma ThresholdIsLargest(tolerance: real, dn: real, absoluteTolerance: bool, residual: real, d0: real)
    requires d0 == Threshold(tolerance, dn, absoluteTolerance, residual)
    ensures tolerance * dn <= d0
    ensures absoluteTolerance && 0.0 < residual ==> residual <= d0
    ensures d0 == tolerance * dn || (absoluteTolerance && 0.0 < residual && d0 == residual)
  {
  }

  /** The iteration cap: the configured one, or the number of rows when the
      configured one is negative. */
  function IterationCap(maxIter: int, rows: int): (cap: int)
    ensures 0 <= maxIter ==> cap == maxIter
    ensures maxIter < 0 ==> cap == rows
    ensures 0 <= rows ==> 0 <= cap
  {
    if maxIter < 0 then rows else maxIter
  }

  /** The inverse of a square block is a square block of the same size. */
  ghost predicate KeepsShape(inverse: Mat -> Mat)
  {
    forall m: Mat :: m.Valid() && m.rows == m.cols ==>
      inverse(m).Valid() && inverse(m).rows == m.rows && inverse(m).cols == m.cols
  }

  /** What solve demands of the matrix: a well-formed block matrix with the
      same layout for rows and columns, a boundary for every block column,
      and a diagonal block in every column. */
  predicate Hessian(A: Blocks)
  {
    A.WellFormed(false) && Indexable(A) && A.rowIdx == A.colIdx && |A.cols| == |A.colIdx| &&
    forall i :: 0 <= i < |A.cols| ==> HasDiagonal(A, i)
  }

  /** The diagonal block of column i of a Hessian is square, as wide as
      the column. */
  lemma DiagonalBlockFits(A: Blocks, i: nat)
    requires Hessian(A) && i < |A.cols|
    ensures HasDiagonal(A, i)
    ensures var b := A.cols[i][FirstDiagonal(A.cols[i], i)].block;
      b.Valid() && b.rows == DimOfBlock(A.colIdx, i) && b.cols == DimOfBlock(A.colIdx, i)
  {
    assert HasDiagonal(A, i);
    var p := FirstDiagonal(A.cols[i], i);
    assert A.Fits(i, A.cols[i][p], false);
  }

  /** The diagonal blocks of a Hessian tile it. */
  lemma DiagonalTiles(A: Blocks)
    requires Hessian(A)
    ensures Tiles(A.colIdx, DiagBlocks(A, |A.cols|))
    ensures |DiagBlocks(A, |A.cols|)| == |A.cols| && Covered(A.colIdx, |A.cols|) == Size(A.colIdx)
  {
    var ds := DiagBlocks(A, |A.cols|);
    DiagBlocksAll(A, |A.cols|);
    forall i | 0 <= i < |ds|
      ensures ds[i].Valid() && ds[i].rows == DimOfBlock(A.colIdx, i) && ds[i].cols == DimOfBlock(A.colIdx, i)
    {
      DiagonalBlockFits(A, i);
    }
  }

  /** Inverses of square tiling blocks tile as well. */
  lemma InverseTiles(colIdx: seq<int>, ds: seq<Mat>, inverse: Mat -> Mat)
    requires Tiles(colIdx, ds) && KeepsShape(inverse)
    ensures Tiles(colIdx, Invert(inverse, ds))
  {
    var js := Invert(inverse, ds);
    forall i | 0 <= i < |js|
      ensures js[i].Valid() && js[i].rows == DimOfBlock(colIdx, i) && js[i].cols == DimOfBlock(colIdx, i)
    {
      assert js[i] == inverse(ds[i]);
    }
  }

  lemma UpperFitsHessian(A: Blocks, n: nat)
    requires Hessian(A) && n == Size(A.colIdx)
    ensures Indexable(A) && RefsIn(A, UpperRefs(A, |A.cols|))
    ensures UpperFits(UpperOffsets(A, |A.cols|), Resolve(A, UpperRefs(A, |A.cols|)), n)
  {
    var m := |A.cols|;
    UpperEntries(A, m);
    var rs, os := UpperRefs(A, m), UpperOffsets(A, m);
    var bs := Resolve(A, rs);
    forall k | 0 <= k < |rs|
      ensures bs[k].Valid() && 0 <= os[k].row && 0 <= os[k].col && os[k].row + bs[k].rows <= n && os[k].col + bs[k].cols <= n
    {
      assert UpperEntry(A, rs[k], os[k]);
      var b := A.cols[rs[k].col][rs[k].pos];
      assert A.Fits(rs[k].col, b, false);
      assert A.rowIdx[b.row] <= n && A.colIdx[rs[k].col] <= n;
    }
  }

  /** What solve leaves in the solver's lists for A: the diagonal blocks
      and their inverses, and the whole upper structure, together making an
      operator that fits vectors of size n. */
  ghost predicate Extracted(A: Blocks, inverse: Mat -> Mat, n: nat, diag: seq<Mat>, inverses: seq<Mat>,
                            offsets: seq<Offset>, refs: seq<BlockRef>)
  {
    && Indexable(A)
    && diag == DiagBlocks(A, |A.cols|) && inverses == Invert(inverse, diag)
    && offsets == UpperOffsets(A, |A.cols|) && refs == UpperRefs(A, |A.cols|)
    && RefsIn(A, refs) && Operator(A.colIdx, diag, inverses, offsets, Resolve(A, refs)).Fits(n)
  }

  /** The lists solve extracts from a Hessian make an operator that fits
      vectors of the matrix's size. */
  lemma OperatorFits(A: Blocks, inverse: Mat -> Mat, n: nat, diag: seq<Mat>, inverses: seq<Mat>,
                     offsets: seq<Offset>, refs: seq<BlockRef>)
    requires Hessian(A) && KeepsShape(inverse) && n == Size(A.colIdx)
    requires diag == DiagBlocks(A, |A.cols|) && inverses == Invert(inverse, diag)
    requires offsets == UpperOffsets(A, |A.cols|) && refs == UpperRefs(A, |A.cols|)
    ensures Extracted(A, inverse, n, diag, inverses, offsets, refs)
  {
    DiagonalTiles(A);
    InverseTiles(A.colIdx, diag, inverse);
    UpperFitsHessian(A, n);
    TilesFit(A.colIdx, diag, n, n);
    TilesFit(A.colIdx, inverses, n, n);
  }

  /** Sets every entry of x to zero (xvec.setZero()). */
  method ZeroFill(x: array<real>)
    modifies x
    ensures x[..] == Zeros(x.Length)
  {
    var j := 0;
    while j < x.Length
      invariant j <= x.Length
      invariant forall t :: 0 <= t < j ==> x[t] == 0.0
    {
      x[j] := 0.0;
      j := j + 1;
    }
    assert x[..] == Zeros(x.Length);
  }

  /** x += a·d, in place (xvec += a * d). */
  method AddScaled(x: array<real>, a: real, d: seq<real>)
    modifies x
    requires |d| == x.Length
    ensures x[..] == Plus(old(x[..]), Scaled(a, d))
  {
    var j := 0;
    while j < x.Length
      invariant j <= x.Length
      invariant forall t :: 0 <= t < j ==> x[t] == old(x[t]) + a * d[t]
      invariant forall t :: j <= t < x.Length ==> x[t] == old(x[t])
    {
      x[j] := x[j] + a * d[j];
      j := j + 1;
    }
    forall t | 0 <= t < x.Length
      ensures x[..][t] == Plus(old(x[..]), Scaled(a, d))[t]
    {
    }
    assert x[..] == Plus(old(x[..]), Scaled(a, d));
  }

  /** The vectors before the loop: r = b, d = J·r written over zeros,
      q and s zeroed, dn = r·d; x is the caller's buffer, zeroed apart. */
  method Begin(op: Operator, b: seq<real>) returns (start: State)
    requires op.Fits(|b|)
    ensures start == Start(op, b)
  {
    var zeros := Zeros(|b|);
    var r := b;
    var d := LinearSolverPCG.MultDiag(op.colIdx, op.inverses, r, zeros);
    var dn := Dot(r, d);
    start := State(zeros, r, d, zeros, zeros, dn, 0);
  }

  /** The solver and the state it keeps between calls. */
  class LinearSolverPCG {
    /** diag_: the diagonal blocks of the last matrix. */
    var diag: seq<Mat>
    /** J_: their inverses, the block-Jacobi preconditioner. */
    var inverses: seq<Mat>
    /** indices_ and sparseMat_: the blocks above the diagonal, recorded on
        the first call only. */
    var indices: seq<Offset>
    var sparseMat: seq<BlockRef>
    /** residual_: half the final dn of the last call. */
    var residual: real
    var tolerance: real
    var absoluteTolerance: bool
    var maxIter: int

    constructor(tolerance: real, absoluteTolerance: bool, maxIter: int, residual: real)
      ensures this.tolerance == tolerance && this.absoluteTolerance == absoluteTolerance
      ensures this.maxIter == maxIter && this.residual == residual
      ensures diag == [] && inverses == [] && indices == [] && sparseMat == []
    {
      this.tolerance := tolerance;
      this.absoluteTolerance := absoluteTolerance;
      this.maxIter := maxIter;
      this.residual := residual;
      diag, inverses, indices, sparseMat := [], [], [], [];
    }

    /** The operator the stored lists stand for, on matrix A. */
    function Op(A: Blocks): Operator
      reads this`diag, this`inverses, this`indices, this`sparseMat
      requires RefsIn(A, sparseMat)
    {
      Operator(A.colIdx, diag, inverses, indices, Resolve(A, sparseMat))
    }

    /** The first part of solve: diag_ and J_ are rebuilt from A; indices_
        and sparseMat_ are filled only when indices_ is empty. */
    method ExtractBlocks(A: Blocks, inverse: Mat -> Mat)
      modifies this`diag, this`inverses, this`indices, this`sparseMat
      requires Indexable(A)
      ensures diag == DiagBlocks(A, |A.cols|) && inverses == Invert(inverse, diag)
      ensures old(indices) == [] ==> indices == UpperOffsets(A, |A.cols|) && sparseMat == old(sparseMat) + UpperRefs(A, |A.cols|)
      ensures old(indices) != [] ==> indices == old(indices) && sparseMat == old(sparseMat)
    {
      var indexRequired := indices == [];
      diag := [];
      inverses := [];
      if indexRequired {
        EmptyAppend(UpperOffsets(A, |A.cols|));
      }
      diag, inverses, indices, sparseMat := Scan(A, indexRequired, inverse, indices, sparseMat);
    }

    /** multDiag: dest with each diagonal block's product written over its
        segment. */
    static method MultDiag(colIdx: seq<int>, blocks: seq<Mat>, src: seq<real>, dest: seq<real>) returns (r: seq<real>)
      requires DiagFits(colIdx, blocks, |src|, |dest|)
      ensures r == DiagProduct(colIdx, blocks, src, dest)
    {
      r := dest;
      var row := 0;
      var i := 0;
      while i < |blocks|
        invariant i <= |blocks|
        invariant DiagFits(colIdx, blocks[..i], |src|, |dest|)
        invariant r == DiagProduct(colIdx, blocks[..i], src, dest)
        invariant i < |colIdx| ==> row == BaseOfBlock(colIdx, i)
      {
        assert blocks[..i + 1][..i] == blocks[..i];
        assert DiagFits(colIdx, blocks[..i + 1], |src|, |dest|);
        r := Axy(blocks[i], src, row, r, row);
        row := colIdx[i];
        i := i + 1;
      }
      assert blocks[..|blocks|] == blocks;
    }

    /** mult: the diagonal product, then both products of every stored
        upper block. The operator holds the blocks the stored pointers name
        in A. */
    static method Mult(op: Operator, src: seq<real>, dest: seq<real>) returns (r: seq<real>)
      requires |src| == |dest| && op.Fits(|dest|)
      ensures r == Apply(op, src, dest)
    {
      r := MultDiag(op.colIdx, op.diag, src, dest);
      ghost var r0 := r;
      UpperFitsPrefix(op.offsets, op.upper, |dest|, 0);
      var i := 0;
      while i < |op.upper|
        invariant i <= |op.upper|
        invariant UpperFits(op.offsets[..i], op.upper[..i], |dest|)
        invariant r == UpperProduct(op.offsets[..i], op.upper[..i], src, r0)
      {
        UpperProductSnoc(op.offsets, op.upper, i, src, r0);
        var srcOffset := op.offsets[i].col;
        var destOffset := op.offsets[i].row;
        var a := op.upper[i];
        r := Axpy(a, src, srcOffset, r, destOffset);
        r := Atxpy(a, src, destOffset, r, srcOffset);
        i := i + 1;
      }
      assert op.offsets[..|op.upper|] == op.offsets && op.upper[..|op.upper|] == op.upper;
    }

    /** The loop of solve: update x in place and r, d, q, s and dn as the
        iteration prescribes, until the cap or the threshold is reached. */
    static method Iterate(op: Operator, x: array<real>, div: (real, real) -> real, d0: real, cap: int, start: State)
      returns (final: State)
      modifies x
      requires op.Fits(x.Length) && start.Sized(x.Length) && x[..] == start.x
      ensures final == Run(op, div, d0, cap, start) && x[..] == final.x
    {
      var r, d, q, s, dn := start.r, start.d, start.q, start.s, start.dn;
      var iteration := start.iteration;
      while iteration < cap
        invariant State(x[..], r, d, q, s, dn, iteration).Sized(x.Length)
        invariant Run(op, div, d0, cap, State(x[..], r, d, q, s, dn, iteration)) == Run(op, div, d0, cap, start)
        decreases cap - iteration
      {
        if dn <= d0 {
          break;
        }
        ghost var cur := State(x[..], r, d, q, s, dn, iteration);
        q := Mult(op, d, q);
        var a := div(dn, Dot(d, q));
        AddScaled(x, a, d);
        r := Minus(r, Scaled(a, q));
        s := MultDiag(op.colIdx, op.inverses, r, s);
        var dold := dn;
        dn := Dot(r, s);
        var ba := div(dn, dold);
        d := Plus(s, Scaled(ba, d));
        iteration := iteration + 1;
        assert State(x[..], r, d, q, s, dn, iteration) == Step(op, div, cur);
      }
      final := State(x[..], r, d, q, s, dn, iteration);
    }

    /** The numeric part of solve, after the blocks are extracted: x set to
        zero, r = b, the start state, the threshold and the cap, the loop, and
        half the final dn returned as the new residual. */
    method Iterations(A: Blocks, x: array<real>, b: seq<real>, div: (real, real) -> real)
      returns (newResidual: real)
      modifies x
      requires RefsIn(A, sparseMat) && Op(A).Fits(|b|) && x.Length == |b|
      ensures Outcome(x[..], newResidual) == Solution(Op(A), b, div, tolerance, absoluteTolerance, residual, maxIter)
    {
      var op := Operator(A.colIdx, diag, inverses, indices, Resolve(A, sparseMat));
      ZeroFill(x);
      var start := Begin(op, b);
      var d0 := Threshold(tolerance, start.dn, absoluteTolerance, residual);
      var cap := IterationCap(maxIter, |b|);
      var final := LinearSolverPCG.Iterate(op, x, div, d0, cap, start);
      newResidual := 0.5 * final.dn;
    }

    /** solve: extract the blocks, start from x = 0 and r = b, compute the
        threshold and the cap, run the loop, keep half the final dn as the
        residual, and report success. */
    method Solve(A: Blocks, x: array<real>, b: seq<real>, inverse: Mat -> Mat, div: (real, real) -> real)
      returns (ok: bool)
      modifies this`diag, this`inverses, this`indices, this`sparseMat, this`residual, x
      requires Hessian(A) && KeepsShape(inverse) && IsDivision(div)
      requires 0 < Size(A.rowIdx) && |b| == Size(A.rowIdx) && x.Length == Size(A.colIdx)
      requires |indices| == |sparseMat|
      requires indices != [] ==> indices == UpperOffsets(A, |A.cols|) && sparseMat == UpperRefs(A, |A.cols|)
      ensures ok && Extracted(A, inverse, |b|, diag, inverses, indices, sparseMat)
      ensures Outcome(x[..], residual) == Solution(Op(A), b, div, tolerance, absoluteTolerance, old(residual), maxIter)
    {
      ExtractBlocks(A, inverse);
      var n := Size(A.rowIdx);
      OperatorFits(A, inverse, n, diag, inverses, indices, sparseMat);
      residual := Iterations(A, x, b, div);
      ok := true;
    }
  }

  /** What solve leaves behind: the solution vector and the residual. */
  datatype Outcome = Outcome(x: seq<real>, residual: real)

  /** The outcome of solve: from the start state for b, run the loop up to
      the cap with the threshold computed from the start's dn and the
      previous residual; x is the final x and the residual half the final
      dn. */
  function Solution(op: Operator, b: seq<real>, div: (real, real) -> real, tolerance: real,
                    absoluteTolerance: bool, residual: real, maxIter: int): Outcome
    requires op.Fits(|b|)
  {
    var start := Start(op, b);
    var final := Run(op, div, Threshold(tolerance, start.dn, absoluteTolerance, residual), IterationCap(maxIter, |b|), start);
    Outcome(final.x, 0.5 * final.dn)
  }
}
