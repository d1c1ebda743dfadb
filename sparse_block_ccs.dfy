/** SparseBlockMatrixCCS and SparseBlockMatrixHashMap of
    g2o/core/sparse_block_matrix_ccs.h: a sparse matrix made of dense blocks,
    kept per block column, and its conversion to the scalar compressed column
    storage (CCS) that the sparse linear solvers consume. */
module SparseBlockCCS {
  import opened Sequences
  import opened BlockLayout
  import opened DenseBlocks
  import opened Sorting

  /** A block within a column: its block row and the block itself. */
  datatype RowBlock = RowBlock(row: int, block: Mat)

  /** One scalar entry of the CCS output: row index and value. */
  datatype Entry = Entry(row: int, value: real)

  /** The state a CCS view is made of: the row and column block boundaries
      and the blocks of every block column, in stored order. */
  datatype Blocks = Blocks(rowIdx: seq<int>, colIdx: seq<int>, cols: seq<seq<RowBlock>>)
  {
    /** Block b can sit in block column i: its block row exists and its shape
        is that of block row b.row by block column i. With upperTriangle set,
        a block starting on the diagonal has at least as many rows as the
        column is wide, so the clipped copy stays inside it. */
    predicate Fits(i: nat, b: RowBlock, upper: bool)
      requires i < |colIdx|
    {
      0 <= b.row < |rowIdx| && b.block.Valid() &&
      b.block.rows == DimOfBlock(rowIdx, b.row) && b.block.cols == DimOfBlock(colIdx, i) &&
      (upper && BaseOfBlock(rowIdx, b.row) == BaseOfBlock(colIdx, i) ==> b.block.rows >= b.block.cols)
    }

    predicate WellFormed(upper: bool)
    {
      Monotone(rowIdx) && Monotone(colIdx) && |cols| <= |colIdx| &&
      forall i, j {:trigger Fits(i, cols[i][j], upper)} :: 0 <= i < |cols| && 0 <= j < |cols[i]| ==> Fits(i, cols[i][j], upper)
    }
  }

  /* ---------------------------------------------------------------------
     What fillCCS writes, block by block and column by column
     --------------------------------------------------------------------- */

  /** elemsToCopy: the whole column of the block, or only down to the
      diagonal when upperTriangle is set and the block starts on the diagonal
      (its row base equals the column base cbase). */
  function ElemsToCopy(rowIdx: seq<int>, cbase: int, b: RowBlock, c: nat, upper: bool): nat
    requires 0 <= b.row < |rowIdx|
  {
    if upper && BaseOfBlock(rowIdx, b.row) == cbase then c + 1 else b.block.rows
  }

  /** Column c of block b can be copied: the block row exists, the column
      exists and the (possibly clipped) copy stays inside the block. */
  predicate RunFits(rowIdx: seq<int>, cbase: int, b: RowBlock, c: nat, upper: bool)
  {
    0 <= b.row < |rowIdx| && b.block.Valid() && c < b.block.cols &&
    ElemsToCopy(rowIdx, cbase, b, c, upper) <= b.block.rows
  }

  /** The n first entries of column c of block m, numbered from row rstart. */
  function RunEntries(m: Mat, c: nat, rstart: int, n: nat): (es: seq<Entry>)
    requires m.Valid() && c < m.cols && n <= m.rows
    ensures |es| == n
    ensures forall r :: 0 <= r < n ==> es[r] == Entry(rstart + r, m.At(r, c))
  {
    seq(n, r requires 0 <= r < n => Entry(rstart + r, m.columns[c][r]))
  }

  /** What block b contributes to scalar column c of a block column that
      starts at cbase. */
  function BlockEntries(rowIdx: seq<int>, cbase: int, b: RowBlock, c: nat, upper: bool): seq<Entry>
  {
    if RunFits(rowIdx, cbase, b, c, upper) then
      RunEntries(b.block, c, BaseOfBlock(rowIdx, b.row), ElemsToCopy(rowIdx, cbase, b, c, upper))
    else []
  }

  /** Scalar column c of a block column that starts at cbase, restricted to
      the first n of its blocks col. */
  function ColumnEntries(rowIdx: seq<int>, cbase: int, col: seq<RowBlock>, n: nat, c: nat, upper: bool): seq<Entry>
  {
    if n == 0 || n > |col| then []
    else ColumnEntries(rowIdx, cbase, col, n - 1, c, upper) + BlockEntries(rowIdx, cbase, col[n - 1], c, upper)
  }

  /** Scalar column c of block column i: what its blocks contribute, in
      stored order. */
  function ScalarColumn(p: Blocks, i: nat, c: nat, upper: bool): seq<Entry>
  {
    if i < |p.cols| && i < |p.colIdx| then
      ColumnEntries(p.rowIdx, BaseOfBlock(p.colIdx, i), p.cols[i], |p.cols[i]|, c, upper)
    else []
  }

  /** colsOfBlock(i), or 0 outside the layout. */
  function Width(p: Blocks, i: nat): nat
  {
    if i < |p.colIdx| && DimOfBlock(p.colIdx, i) >= 0 then DimOfBlock(p.colIdx, i) else 0
  }

  /** The first c scalar columns of block column i, as separate columns. */
  function BlockColumns(p: Blocks, i: nat, c: nat, upper: bool): (cs: seq<seq<Entry>>)
    ensures |cs| == c
  {
    if c == 0 then [] else BlockColumns(p, i, c - 1, upper) + [ScalarColumn(p, i, c - 1, upper)]
  }

  /** The first c scalar columns of block column i, one after the other. */
  function BlockColumnEntries(p: Blocks, i: nat, c: nat, upper: bool): seq<Entry>
  {
    Concat(BlockColumns(p, i, c, upper))
  }

  /** Where each of the first c scalar columns of block column i starts when
      the block column's entries start at base. */
  function BlockColumnStarts(p: Blocks, i: nat, c: nat, base: int, upper: bool): (st: seq<int>)
    ensures |st| == c
  {
    Offsets(BlockColumns(p, i, c, upper), base)
  }

  /** The entries of the first n block columns, one after the other. */
  function Entries(p: Blocks, n: nat, upper: bool): seq<Entry>
  {
    if n == 0 then [] else Entries(p, n - 1, upper) + BlockColumnEntries(p, n - 1, Width(p, n - 1), upper)
  }

  /** Where each scalar column of the first n block columns starts. */
  function ColumnStarts(p: Blocks, n: nat, upper: bool): seq<int>
  {
    if n == 0 then []
    else ColumnStarts(p, n - 1, upper) + BlockColumnStarts(p, n - 1, Width(p, n - 1), |Entries(p, n - 1, upper)|, upper)
  }

  /** Ci and Cx of the CCS form, as entries. */
  function CCSEntries(p: Blocks, upper: bool): seq<Entry>
  {
    Entries(p, |p.cols|, upper)
  }

  /** Cp of the CCS form: every column start, then the number of entries. */
  function CCSPointers(p: Blocks, upper: bool): seq<int>
  {
    ColumnStarts(p, |p.cols|, upper) + [|CCSEntries(p, upper)|]
  }

  function Values(es: seq<Entry>): (vs: seq<real>)
    ensures |vs| == |es| && forall k :: 0 <= k < |es| ==> vs[k] == es[k].value
  {
    seq(|es|, k requires 0 <= k < |es| => es[k].value)
  }

  /** Every block of block column i can be copied for every scalar column. */
  predicate ColumnFits(p: Blocks, i: nat, upper: bool)
  {
    i < |p.cols| && i < |p.colIdx| && 0 <= DimOfBlock(p.colIdx, i) &&
    forall j, c :: 0 <= j < |p.cols[i]| && 0 <= c < DimOfBlock(p.colIdx, i) ==>
      RunFits(p.rowIdx, BaseOfBlock(p.colIdx, i), p.cols[i][j], c, upper)
  }

  lemma WellFormedColumnFits(p: Blocks, upper: bool, i: nat)
    requires p.WellFormed(upper) && i < |p.cols|
    ensures ColumnFits(p, i, upper)
  {
    forall j, c | 0 <= j < |p.cols[i]| && 0 <= c < DimOfBlock(p.colIdx, i)
      ensures RunFits(p.rowIdx, BaseOfBlock(p.colIdx, i), p.cols[i][j], c, upper)
    {
      assert p.Fits(i, p.cols[i][j], upper);
    }
  }

  /** One more scalar column of block column i. */
  lemma BlockColumnStep(p: Blocks, i: nat, c: nat, base: int, upper: bool)
    ensures BlockColumnEntries(p, i, c + 1, upper) == BlockColumnEntries(p, i, c, upper) + ScalarColumn(p, i, c, upper)
    ensures BlockColumnStarts(p, i, c + 1, base, upper)
         == BlockColumnStarts(p, i, c, base, upper) + [base + |BlockColumnEntries(p, i, c, upper)|]
  {
    assert BlockColumns(p, i, c + 1, upper)[..c] == BlockColumns(p, i, c, upper);
  }

  /** The pointer written before scalar column c extends the starts. */
  lemma StartsStep(cp: seq<int>, p: Blocks, i: nat, c: nat, nz: int, upper: bool)
    ensures cp + BlockColumnStarts(p, i, c, nz, upper) + [nz + |BlockColumnEntries(p, i, c, upper)|]
         == cp + BlockColumnStarts(p, i, c + 1, nz, upper)
  {
    BlockColumnStep(p, i, c, nz, upper);
    AppendAssoc(cp, BlockColumnStarts(p, i, c, nz, upper), [nz + |BlockColumnEntries(p, i, c, upper)|]);
  }

  lemma RowsStep(ci: seq<int>, a: seq<Entry>, b: seq<Entry>)
    ensures ci + RowsOf(a) + RowsOf(b) == ci + RowsOf(a + b)
  {
    RowsOfAppend(a, b);
    AppendAssoc(ci, RowsOf(a), RowsOf(b));
  }

  lemma ValuesStep(cx: seq<real>, a: seq<Entry>, b: seq<Entry>)
    ensures cx + Values(a) + Values(b) == cx + Values(a + b)
  {
    ValuesAppend(a, b);
    AppendAssoc(cx, Values(a), Values(b));
  }

  lemma ValuesAppend(a: seq<Entry>, b: seq<Entry>)
    ensures Values(a + b) == Values(a) + Values(b)
  {
  }

  /** The values of a run are the head of the block's column. */
  lemma RunValues(m: Mat, c: nat, rstart: int, n: nat)
    requires m.Valid() && c < m.cols && n <= m.rows
    ensures Values(RunEntries(m, c, rstart, n)) == m.columns[c][..n]
  {
  }

  /** The row indices of entries, as Ci holds them. */
  function RowsOf(es: seq<Entry>): (rs: seq<int>)
    ensures |rs| == |es| && forall k :: 0 <= k < |es| ==> rs[k] == es[k].row
  {
    seq(|es|, k requires 0 <= k < |es| => es[k].row)
  }

  lemma RowsOfAppend(a: seq<Entry>, b: seq<Entry>)
    ensures RowsOf(a + b) == RowsOf(a) + RowsOf(b)
  {
  }

  /* ---------------------------------------------------------------------
     What the CCS arrays mean: Cp delimits, inside Ci and Cx, the scalar
     columns of the matrix, one after the other
     --------------------------------------------------------------------- */

  /** The sequences of cs, one after the other. */
  function Concat<T>(cs: seq<seq<T>>): seq<T>
  {
    if |cs| == 0 then [] else Concat(cs[..|cs| - 1]) + cs[|cs| - 1]
  }

  lemma {:induction false} ConcatAppend<T>(a: seq<seq<T>>, b: seq<seq<T>>)
    ensures Concat(a + b) == Concat(a) + Concat(b)
    decreases |b|
  {
    if |b| == 0 {
      assert a + b == a;
    } else {
      var b' := b[..|b| - 1];
      assert (a + b)[..|a + b| - 1] == a + b';
      ConcatAppend(a, b');
      AppendAssoc(Concat(a), Concat(b'), b[|b| - 1]);
    }
  }

  /** Inside Concat(cs), cs[k] sits right after the sequences before it. */
  lemma ConcatSlice<T>(cs: seq<seq<T>>, k: nat)
    requires k < |cs|
    ensures |Concat(cs[..k + 1])| == |Concat(cs[..k])| + |cs[k]| <= |Concat(cs)|
    ensures Concat(cs)[|Concat(cs[..k])|..|Concat(cs[..k + 1])|] == cs[k]
  {
    assert cs == cs[..k + 1] + cs[k + 1..];
    ConcatAppend(cs[..k + 1], cs[k + 1..]);
    assert cs[..k + 1][..k] == cs[..k];
  }

  /** A longer prefix of cs concatenates to at least as much. */
  lemma ConcatPrefixGrows<T>(cs: seq<seq<T>>, a: nat, b: nat)
    requires a <= b <= |cs|
    ensures |Concat(cs[..a])| <= |Concat(cs[..b])|
  {
    assert cs[..b] == cs[..a] + cs[a..b];
    ConcatAppend(cs[..a], cs[a..b]);
  }

  /** The scalar columns of the first n block columns, in column order. */
  function AllColumns(p: Blocks, n: nat, upper: bool): seq<seq<Entry>>
  {
    if n == 0 then [] else AllColumns(p, n - 1, upper) + BlockColumns(p, n - 1, Width(p, n - 1), upper)
  }

  /** Ci and Cx hold the scalar columns one after the other. */
  lemma {:induction false} EntriesAreConcat(p: Blocks, n: nat, upper: bool)
    ensures Entries(p, n, upper) == Concat(AllColumns(p, n, upper))
  {
    if n > 0 {
      EntriesAreConcat(p, n - 1, upper);
      ConcatAppend(AllColumns(p, n - 1, upper), BlockColumns(p, n - 1, Width(p, n - 1), upper));
    }
  }

  /** Where each of the sequences cs starts inside Concat(cs), shifted by
      base. */
  function Offsets<T>(cs: seq<seq<T>>, base: int): (os: seq<int>)
    ensures |os| == |cs|
  {
    if |cs| == 0 then [] else Offsets(cs[..|cs| - 1], base) + [base + |Concat(cs[..|cs| - 1])|]
  }

  lemma {:induction false} OffsetsAt<T>(cs: seq<seq<T>>, base: int, k: nat)
    requires k < |cs|
    ensures Offsets(cs, base)[k] == base + |Concat(cs[..k])|
  {
    if k < |cs| - 1 {
      OffsetsAt(cs[..|cs| - 1], base, k);
      assert cs[..|cs| - 1][..k] == cs[..k];
    }
  }

  /** One more sequence starts where the concatenation of the others ends. */
  lemma OffsetsSnoc<T>(cs: seq<seq<T>>, x: seq<T>, all: seq<seq<T>>, base: int)
    requires all == cs + [x]
    ensures Offsets(all, base) == Offsets(cs, base) + [base + |Concat(cs)|]
  {
    assert all[..|cs|] == cs;
  }

  lemma {:induction false} OffsetsAppend<T>(a: seq<seq<T>>, b: seq<seq<T>>, base: int, mid: int)
    requires mid == base + |Concat(a)|
    ensures Offsets(a + b, base) == Offsets(a, base) + Offsets(b, mid)
    decreases |b|
  {
    if |b| == 0 {
      assert a + b == a;
    } else {
      var b' := b[..|b| - 1];
      var x := b[|b| - 1];
      assert b == b' + [x];
      assert a + b == (a + b') + [x];
      OffsetsAppend(a, b', base, mid);
      OffsetsSnoc(a + b', x, a + b, base);
      OffsetsSnoc(b', x, b, mid);
      ConcatAppend(a, b');
      AppendAssoc(Offsets(a, base), Offsets(b', mid), [mid + |Concat(b')|]);
    }
  }

  /** Each column start is the number of entries of the columns before it. */
  lemma {:induction false} ColumnStartsAreOffsets(p: Blocks, n: nat, upper: bool)
    ensures ColumnStarts(p, n, upper) == Offsets(AllColumns(p, n, upper), 0)
  {
    if n > 0 {
      var prev := AllColumns(p, n - 1, upper);
      var bc := BlockColumns(p, n - 1, Width(p, n - 1), upper);
      var base := |Entries(p, n - 1, upper)|;
      ColumnStartsAreOffsets(p, n - 1, upper);
      EntriesAreConcat(p, n - 1, upper);
      OffsetsAppend(prev, bc, 0, base);
      assert AllColumns(p, n, upper) == prev + bc;
    }
  }

  /** With monotone column boundaries, block column i's scalar column c is
      the matrix's scalar column colBaseOfBlock(i) + c. */
  lemma {:induction false} AllColumnsAt(p: Blocks, n: nat, upper: bool, i: nat, c: nat)
    requires Monotone(p.colIdx) && n <= |p.colIdx| && i < n && c < DimOfBlock(p.colIdx, i)
    ensures |AllColumns(p, n, upper)| == p.colIdx[n - 1]
    ensures BaseOfBlock(p.colIdx, i) + c < |AllColumns(p, n, upper)|
    ensures AllColumns(p, n, upper)[BaseOfBlock(p.colIdx, i) + c] == ScalarColumn(p, i, c, upper)
    decreases n, 1
  {
    if i == n - 1 {
      ColumnOfLastBlock(p, n, upper, c);
    } else {
      ColumnOfEarlierBlock(p, n, upper, i, c);
    }
  }

  lemma ColumnOfLastBlock(p: Blocks, n: nat, upper: bool, c: nat)
    requires Monotone(p.colIdx) && 0 < n <= |p.colIdx| && c < DimOfBlock(p.colIdx, n - 1)
    ensures |AllColumns(p, n, upper)| == p.colIdx[n - 1]
    ensures BaseOfBlock(p.colIdx, n - 1) + c < |AllColumns(p, n, upper)|
    ensures AllColumns(p, n, upper)[BaseOfBlock(p.colIdx, n - 1) + c] == ScalarColumn(p, n - 1, c, upper)
  {
    AllColumnsLength(p, n, upper);
    AllColumnsLength(p, n - 1, upper);
    assert BaseOfBlock(p.colIdx, n - 1) == |AllColumns(p, n - 1, upper)|;
    AllColumnsLast(p, n, upper, c);
  }

  lemma {:induction false} ColumnOfEarlierBlock(p: Blocks, n: nat, upper: bool, i: nat, c: nat)
    requires Monotone(p.colIdx) && n <= |p.colIdx| && i < n - 1 && c < DimOfBlock(p.colIdx, i)
    ensures |AllColumns(p, n, upper)| == p.colIdx[n - 1]
    ensures BaseOfBlock(p.colIdx, i) + c < |AllColumns(p, n, upper)|
    ensures AllColumns(p, n, upper)[BaseOfBlock(p.colIdx, i) + c] == ScalarColumn(p, i, c, upper)
    decreases n, 0
  {
    var k := BaseOfBlock(p.colIdx, i) + c;
    AllColumnsLength(p, n, upper);
    AllColumnsAt(p, n - 1, upper, i, c);
    AllColumnsPrefix(p, n, upper, k, ScalarColumn(p, i, c, upper));
  }

  /** Block column n - 1 comes after the scalar columns before it. */
  lemma AllColumnsLast(p: Blocks, n: nat, upper: bool, c: nat)
    requires 0 < n && c < Width(p, n - 1)
    ensures |AllColumns(p, n - 1, upper)| + c < |AllColumns(p, n, upper)|
    ensures AllColumns(p, n, upper)[|AllColumns(p, n - 1, upper)| + c] == ScalarColumn(p, n - 1, c, upper)
  {
    BlockColumnsAt(p, n - 1, Width(p, n - 1), upper, c);
  }

  /** Adding block column n - 1 keeps the scalar columns before it. */
  lemma AllColumnsPrefix(p: Blocks, n: nat, upper: bool, k: nat, col: seq<Entry>)
    requires 0 < n && k < |AllColumns(p, n - 1, upper)| && AllColumns(p, n - 1, upper)[k] == col
    ensures k < |AllColumns(p, n, upper)| && AllColumns(p, n, upper)[k] == col
  {
  }

  lemma {:induction false} BlockColumnsAt(p: Blocks, i: nat, c: nat, upper: bool, k: nat)
    requires k < c
    ensures BlockColumns(p, i, c, upper)[k] == ScalarColumn(p, i, k, upper)
  {
    if k < c - 1 {
      BlockColumnsAt(p, i, c - 1, upper, k);
    }
  }

  lemma {:induction false} AllColumnsLength(p: Blocks, n: nat, upper: bool)
    requires Monotone(p.colIdx) && n <= |p.colIdx|
    ensures |AllColumns(p, n, upper)| == if n == 0 then 0 else p.colIdx[n - 1]
  {
    if n > 0 {
      AllColumnsLength(p, n - 1, upper);
    }
  }

  /** Offsets from 0 closed by the total length: entry k is the length of
      the first k sequences. */
  lemma ClosedOffsetsAt<T>(cs: seq<seq<T>>, cp: seq<int>)
    requires cp == Offsets(cs, 0) + [|Concat(cs)|]
    ensures |cp| == |cs| + 1
    ensures forall k :: 0 <= k <= |cs| ==> cp[k] == |Concat(cs[..k])|
  {
    forall k | 0 <= k <= |cs|
      ensures cp[k] == |Concat(cs[..k])|
    {
      if k < |cs| {
        OffsetsAt(cs, 0, k);
      } else {
        assert cs[..k] == cs;
      }
    }
  }

  /** Closed offsets start at 0, end at the total length and never decrease. */
  lemma ClosedOffsetsGrow<T>(cs: seq<seq<T>>, cp: seq<int>)
    requires cp == Offsets(cs, 0) + [|Concat(cs)|]
    ensures |cp| == |cs| + 1 && cp[0] == 0 && cp[|cs|] == |Concat(cs)|
    ensures forall a, b :: 0 <= a <= b <= |cs| ==> cp[a] <= cp[b]
  {
    ClosedOffsetsAt(cs, cp);
    forall a, b | 0 <= a <= b <= |cs|
      ensures cp[a] <= cp[b]
    {
      ConcatPrefixGrows(cs, a, b);
    }
    assert cs[..0] == [];
  }

  /** Between closed offsets k and k + 1 of the concatenation es lies
      sequence k. */
  lemma ClosedOffsetsSlice<T>(cs: seq<seq<T>>, cp: seq<int>, es: seq<T>, k: nat, col: seq<T>)
    requires cp == Offsets(cs, 0) + [|Concat(cs)|] && es == Concat(cs) && k < |cs| && cs[k] == col
    ensures k + 1 < |cp| && 0 <= cp[k] <= cp[k + 1] <= |es| && es[cp[k]..cp[k + 1]] == col
  {
    ClosedOffsetsAt(cs, cp);
    ConcatSlice(cs, k);
  }

  /** Cp is the closed offsets of the scalar columns, Ci and Cx their
      concatenation. */
  lemma CCSIsClosedOffsets(p: Blocks, upper: bool)
    ensures CCSPointers(p, upper) == Offsets(AllColumns(p, |p.cols|, upper), 0) + [|Concat(AllColumns(p, |p.cols|, upper))|]
    ensures CCSEntries(p, upper) == Concat(AllColumns(p, |p.cols|, upper))
  {
    ColumnStartsAreOffsets(p, |p.cols|, upper);
    EntriesAreConcat(p, |p.cols|, upper);
  }

  /** Cp has one pointer per scalar column plus the closing one; it starts
      at 0, ends at the number of entries and never decreases. */
  lemma CCSPointersShape(p: Blocks, upper: bool)
    requires Monotone(p.colIdx) && |p.cols| == |p.colIdx|
    ensures |CCSPointers(p, upper)| == Size(p.colIdx) + 1
    ensures CCSPointers(p, upper)[0] == 0
    ensures CCSPointers(p, upper)[Size(p.colIdx)] == |CCSEntries(p, upper)|
    ensures forall a, b :: 0 <= a <= b <= Size(p.colIdx) ==> CCSPointers(p, upper)[a] <= CCSPointers(p, upper)[b]
  {
    AllColumnsLength(p, |p.cols|, upper);
    CCSIsClosedOffsets(p, upper);
    ClosedOffsetsGrow(AllColumns(p, |p.cols|, upper), CCSPointers(p, upper));
  }

  /** The entries between Cp[k] and Cp[k + 1] are exactly scalar column k,
      where k is column c of block column i. */
  lemma CCSColumn(p: Blocks, upper: bool, i: nat, c: nat)
    requires Monotone(p.colIdx) && |p.cols| == |p.colIdx| && i < |p.cols| && c < DimOfBlock(p.colIdx, i)
    ensures 0 <= BaseOfBlock(p.colIdx, i) + c && BaseOfBlock(p.colIdx, i) + c + 1 < |CCSPointers(p, upper)|
    ensures var cp := CCSPointers(p, upper); var k := BaseOfBlock(p.colIdx, i) + c;
      0 <= cp[k] <= cp[k + 1] <= |CCSEntries(p, upper)| &&
      CCSEntries(p, upper)[cp[k]..cp[k + 1]] == ScalarColumn(p, i, c, upper)
  {
    AllColumnsAt(p, |p.cols|, upper, i, c);
    CCSIsClosedOffsets(p, upper);
    ClosedOffsetsSlice(AllColumns(p, |p.cols|, upper), CCSPointers(p, upper), CCSEntries(p, upper),
                       BaseOfBlock(p.colIdx, i) + c, ScalarColumn(p, i, c, upper));
  }

  /* ---------------------------------------------------------------------
     What one scalar column holds
     --------------------------------------------------------------------- */

  /** The blocks of a column in strictly increasing block-row order, as
      sortColumns leaves a column whose block rows are distinct. */
  predicate ColumnSorted(col: seq<RowBlock>)
  {
    forall a, b :: 0 <= a < b < |col| ==> col[a].row < col[b].row
  }

  predicate RowsIncrease(es: seq<Entry>)
  {
    forall a, b :: 0 <= a < b < |es| ==> es[a].row < es[b].row
  }

  /** The run block b contributes: consecutive rows from the block's row base. */
  lemma BlockEntriesRows(rowIdx: seq<int>, cbase: int, b: RowBlock, c: nat, upper: bool)
    requires 0 <= b.row < |rowIdx|
    ensures forall k :: 0 <= k < |BlockEntries(rowIdx, cbase, b, c, upper)| ==>
      BlockEntries(rowIdx, cbase, b, c, upper)[k].row == BaseOfBlock(rowIdx, b.row) + k &&
      k < ElemsToCopy(rowIdx, cbase, b, c, upper) && k < b.block.rows
  {
    if RunFits(rowIdx, cbase, b, c, upper) {
      var es := RunEntries(b.block, c, BaseOfBlock(rowIdx, b.row), ElemsToCopy(rowIdx, cbase, b, c, upper));
      assert BlockEntries(rowIdx, cbase, b, c, upper) == es;
      assert forall k :: 0 <= k < |es| ==> es[k].row == BaseOfBlock(rowIdx, b.row) + k;
      assert |es| == ElemsToCopy(rowIdx, cbase, b, c, upper) <= b.block.rows;
    } else {
      assert BlockEntries(rowIdx, cbase, b, c, upper) == [];
    }
  }

  predicate RowsWithin(es: seq<Entry>, lo: int, hi: int)
  {
    forall k :: 0 <= k < |es| ==> lo <= es[k].row < hi
  }

  lemma JoinOrdered(a: seq<Entry>, b: seq<Entry>, lo: int, mid: int, hi: int)
    requires lo <= mid <= hi
    requires RowsIncrease(a) && RowsWithin(a, lo, mid) && RowsIncrease(b) && RowsWithin(b, mid, hi)
    ensures RowsIncrease(a + b) && RowsWithin(a + b, lo, hi)
  {
    forall k | 0 <= k < |a + b|
      ensures lo <= (a + b)[k].row < hi
    {
      if k < |a| {
        assert (a + b)[k] == a[k];
      } else {
        assert (a + b)[k] == b[k - |a|];
      }
    }
  }

  /** In a sorted column, the first n blocks give strictly increasing rows,
      all above the end of block row col[n - 1]. */
  lemma {:induction false} ColumnEntriesOrdered(p: Blocks, i: nat, n: nat, c: nat, upper: bool)
    requires p.WellFormed(upper) && i < |p.cols| && 0 < n <= |p.cols[i]| && ColumnSorted(p.cols[i])
    ensures RowsIncrease(ColumnEntries(p.rowIdx, BaseOfBlock(p.colIdx, i), p.cols[i], n, c, upper))
    ensures 0 <= p.cols[i][n - 1].row < |p.rowIdx| &&
      RowsWithin(ColumnEntries(p.rowIdx, BaseOfBlock(p.colIdx, i), p.cols[i], n, c, upper),
                 0, p.rowIdx[p.cols[i][n - 1].row])
  {
    var cbase := BaseOfBlock(p.colIdx, i);
    var b := p.cols[i][n - 1];
    assert p.Fits(i, b, upper);
    var prev := ColumnEntries(p.rowIdx, cbase, p.cols[i], n - 1, c, upper);
    var run := BlockEntries(p.rowIdx, cbase, b, c, upper);
    var lo := BaseOfBlock(p.rowIdx, b.row);
    BlockEntriesRows(p.rowIdx, cbase, b, c, upper);
    assert RowsWithin(run, lo, p.rowIdx[b.row]);
    if n > 1 {
      ColumnEntriesOrdered(p, i, n - 1, c, upper);
      assert p.rowIdx[p.cols[i][n - 2].row] <= lo;
    }
    assert RowsWithin(prev, 0, lo);
    JoinOrdered(prev, run, 0, lo, p.rowIdx[b.row]);
  }

  /** A scalar column of a sorted block column lists its rows in strictly
      increasing order, all inside the matrix (what CCS consumers need of
      the row indices between two column pointers). */
  lemma ScalarColumnOrdered(p: Blocks, i: nat, c: nat, upper: bool)
    requires p.WellFormed(upper) && i < |p.cols| && ColumnSorted(p.cols[i])
    ensures RowsIncrease(ScalarColumn(p, i, c, upper))
    ensures forall k :: 0 <= k < |ScalarColumn(p, i, c, upper)| ==>
      0 <= ScalarColumn(p, i, c, upper)[k].row < Size(p.rowIdx)
  {
    if |p.cols[i]| > 0 {
      ColumnEntriesOrdered(p, i, |p.cols[i]|, c, upper);
      assert p.Fits(i, p.cols[i][|p.cols[i]| - 1], upper);
    }
  }

  /** With upperTriangle set on a matrix whose blocks lie on or above the
      block diagonal, every row the first n blocks give to scalar column c
      lies on or above the diagonal. */
  lemma {:induction false} ColumnEntriesUpper(p: Blocks, i: nat, n: nat, c: nat)
    requires p.WellFormed(true) && p.rowIdx == p.colIdx && i < |p.cols| && n <= |p.cols[i]|
    requires forall j :: 0 <= j < |p.cols[i]| ==> p.cols[i][j].row <= i
    ensures forall k :: 0 <= k < |ColumnEntries(p.rowIdx, BaseOfBlock(p.colIdx, i), p.cols[i], n, c, true)| ==>
      ColumnEntries(p.rowIdx, BaseOfBlock(p.colIdx, i), p.cols[i], n, c, true)[k].row <= BaseOfBlock(p.colIdx, i) + c
  {
    if n > 0 {
      var cbase := BaseOfBlock(p.colIdx, i);
      var b := p.cols[i][n - 1];
      var prev := ColumnEntries(p.rowIdx, cbase, p.cols[i], n - 1, c, true);
      var run := BlockEntries(p.rowIdx, cbase, b, c, true);
      ColumnEntriesUpper(p, i, n - 1, c);
      assert p.Fits(i, b, true);
      BlockEntriesRows(p.rowIdx, cbase, b, c, true);
      if BaseOfBlock(p.rowIdx, b.row) != cbase {
        assert b.row < i;
        assert p.rowIdx[b.row] <= cbase;
      }
      assert forall k :: 0 <= k < |run| ==> run[k].row <= cbase + c;
      assert ColumnEntries(p.rowIdx, cbase, p.cols[i], n, c, true) == prev + run;
    }
  }

  /** fillCCS with upperTriangle: scalar column BaseOfBlock(i) + c keeps
      only rows on or above the diagonal. */
  lemma ScalarColumnUpper(p: Blocks, i: nat, c: nat)
    requires p.WellFormed(true) && p.rowIdx == p.colIdx && i < |p.cols|
    requires forall j :: 0 <= j < |p.cols[i]| ==> p.cols[i][j].row <= i
    ensures forall k :: 0 <= k < |ScalarColumn(p, i, c, true)| ==>
      ScalarColumn(p, i, c, true)[k].row <= BaseOfBlock(p.colIdx, i) + c
  {
    ColumnEntriesUpper(p, i, |p.cols[i]|, c);
  }

  /* ---------------------------------------------------------------------
     rightMultiply: dest += A^T * src, block by block
     --------------------------------------------------------------------- */

  /** Block b of block column i can be applied: it is a valid block, and the
      source segment at its row base and the destination segment at the
      column base both lie inside the vectors. */
  predicate BlockFitsVectors(p: Blocks, i: nat, b: RowBlock, src: seq<real>, y: seq<real>)
  {
    i < |p.colIdx| && 0 <= b.row < |p.rowIdx| && b.block.Valid() &&
    0 <= BaseOfBlock(p.rowIdx, b.row) && BaseOfBlock(p.rowIdx, b.row) + b.block.rows <= |src| &&
    0 <= BaseOfBlock(p.colIdx, i) && BaseOfBlock(p.colIdx, i) + b.block.cols <= |y|
  }

  /** y after atxpy with block b of block column i. */
  function MulBlock(p: Blocks, i: nat, b: RowBlock, src: seq<real>, y: seq<real>): (r: seq<real>)
    ensures |r| == |y|
  {
    if BlockFitsVectors(p, i, b, src, y) then
      Atxpy(b.block, src, BaseOfBlock(p.rowIdx, b.row), y, BaseOfBlock(p.colIdx, i))
    else y
  }

  /** y after the first n blocks of block column i. */
  function MulColumn(p: Blocks, i: nat, n: nat, src: seq<real>, y: seq<real>): (r: seq<real>)
    ensures |r| == |y|
  {
    if n == 0 || i >= |p.cols| || n > |p.cols[i]| then y
    else MulBlock(p, i, p.cols[i][n - 1], src, MulColumn(p, i, n - 1, src, y))
  }

  /** y after the first n block columns. */
  function MulColumns(p: Blocks, n: nat, src: seq<real>, y: seq<real>): (r: seq<real>)
    ensures |r| == |y|
  {
    if n == 0 || n > |p.cols| then y
    else MulColumn(p, n - 1, |p.cols[n - 1]|, src, MulColumns(p, n - 1, src, y))
  }

  /** The scalar product of a sparse column, given as entries, with x. */
  function EntryDot(es: seq<Entry>, x: seq<real>): real
  {
    if |es| == 0 then 0.0
    else (if 0 <= es[0].row < |x| then es[0].value * x[es[0].row] else 0.0) + EntryDot(es[1..], x)
  }

  lemma {:induction false} EntryDotAppend(a: seq<Entry>, b: seq<Entry>, x: seq<real>)
    ensures EntryDot(a + b, x) == EntryDot(a, x) + EntryDot(b, x)
  {
    if |a| == 0 {
      assert a + b == b;
    } else {
      assert (a + b)[1..] == a[1..] + b;
      EntryDotAppend(a[1..], b, x);
    }
  }

  /** A run of consecutive rows from rb with values u multiplies x as the
      dense dot product of u with the segment of x at rb. */
  lemma {:induction false} EntryDotRun(es: seq<Entry>, u: seq<real>, x: seq<real>, rb: int)
    requires |es| == |u| && 0 <= rb && rb + |u| <= |x|
    requires forall r :: 0 <= r < |u| ==> es[r] == Entry(rb + r, u[r])
    ensures EntryDot(es, x) == Dot(u, x[rb..rb + |u|])
  {
    if |u| > 0 {
      assert x[rb + 1..rb + 1 + |u[1..]|] == x[rb..rb + |u|][1..];
      EntryDotRun(es[1..], u[1..], x, rb + 1);
    }
  }

  /** One block adds, at scalar column k of its block column, the product of
      that column's entries with src. */
  lemma MulBlockAt(p: Blocks, i: nat, b: RowBlock, src: seq<real>, y: seq<real>, k: nat)
    requires BlockFitsVectors(p, i, b, src, y) && k < |y|
    ensures MulBlock(p, i, b, src, y)[k]
         == y[k] + if BaseOfBlock(p.colIdx, i) <= k < BaseOfBlock(p.colIdx, i) + b.block.cols
                   then EntryDot(BlockEntries(p.rowIdx, BaseOfBlock(p.colIdx, i), b, k - BaseOfBlock(p.colIdx, i), false), src)
                   else 0.0
  {
    var cb := BaseOfBlock(p.colIdx, i);
    var rb := BaseOfBlock(p.rowIdx, b.row);
    if cb <= k < cb + b.block.cols {
      var c := k - cb;
      var es := RunEntries(b.block, c, rb, b.block.rows);
      assert BlockEntries(p.rowIdx, cb, b, c, false) == es;
      EntryDotRun(es, b.block.columns[c], src, rb);
      assert TransposeMulVec(b.block, Segment(src, rb, b.block.rows))[c] == Dot(b.block.columns[c], src[rb..rb + b.block.rows]);
    }
  }

  /** The vectors match the matrix: src has rows() entries, y has cols(). */
  predicate VectorsFit(p: Blocks, src: seq<real>, y: seq<real>)
  {
    |src| == Size(p.rowIdx) && |y| == Size(p.colIdx)
  }

  lemma WellFormedBlockFits(p: Blocks, i: nat, j: nat, src: seq<real>, y: seq<real>)
    requires p.WellFormed(false) && VectorsFit(p, src, y) && i < |p.cols| && j < |p.cols[i]|
    ensures BlockFitsVectors(p, i, p.cols[i][j], src, y)
    ensures p.cols[i][j].block.cols == DimOfBlock(p.colIdx, i)
  {
    assert p.Fits(i, p.cols[i][j], false);
  }

  /** The first n blocks of block column i add, at its scalar column c, the
      product of the entries they give that column with src, and leave the
      rest of y alone. */
  lemma {:induction false} MulColumnAt(p: Blocks, i: nat, n: nat, src: seq<real>, y: seq<real>, k: nat)
    requires p.WellFormed(false) && VectorsFit(p, src, y) && i < |p.cols| && n <= |p.cols[i]| && k < |y|
    ensures MulColumn(p, i, n, src, y)[k] == y[k] + ColumnContribution(p, i, n, src, k)
  {
    if n > 0 {
      MulColumnAt(p, i, n - 1, src, y, k);
      MulColumnStep(p, i, n, src, y, k);
    }
  }

  /** What the first n blocks of block column i add at scalar index k. */
  function ColumnContribution(p: Blocks, i: nat, n: nat, src: seq<real>, k: int): real
    requires i < |p.colIdx| && i < |p.cols|
  {
    if BaseOfBlock(p.colIdx, i) <= k < p.colIdx[i]
    then EntryDot(ColumnEntries(p.rowIdx, BaseOfBlock(p.colIdx, i), p.cols[i], n, k - BaseOfBlock(p.colIdx, i), false), src)
    else 0.0
  }

  lemma MulColumnStep(p: Blocks, i: nat, n: nat, src: seq<real>, y: seq<real>, k: nat)
    requires p.WellFormed(false) && VectorsFit(p, src, y) && i < |p.cols| && 0 < n <= |p.cols[i]| && k < |y|
    requires MulColumn(p, i, n - 1, src, y)[k] == y[k] + ColumnContribution(p, i, n - 1, src, k)
    ensures MulColumn(p, i, n, src, y)[k] == y[k] + ColumnContribution(p, i, n, src, k)
  {
    var cb := BaseOfBlock(p.colIdx, i);
    var b := p.cols[i][n - 1];
    var prev := MulColumn(p, i, n - 1, src, y);
    WellFormedBlockFits(p, i, n - 1, src, prev);
    MulBlockAt(p, i, b, src, prev, k);
    if cb <= k < p.colIdx[i] {
      var before := ColumnEntries(p.rowIdx, cb, p.cols[i], n - 1, k - cb, false);
      var run := BlockEntries(p.rowIdx, cb, b, k - cb, false);
      assert ColumnEntries(p.rowIdx, cb, p.cols[i], n, k - cb, false) == before + run;
      EntryDotAppend(before, run, src);
    }
  }

  /** Block column i changes only its own scalar columns. */
  lemma MulColumnOutside(p: Blocks, i: nat, src: seq<real>, y: seq<real>, k: nat)
    requires p.WellFormed(false) && VectorsFit(p, src, y) && i < |p.cols| && k < |y|
    requires !(BaseOfBlock(p.colIdx, i) <= k < p.colIdx[i])
    ensures MulColumn(p, i, |p.cols[i]|, src, y)[k] == y[k]
  {
    MulColumnAt(p, i, |p.cols[i]|, src, y, k);
    assert ColumnContribution(p, i, |p.cols[i]|, src, k) == 0.0;
  }

  /** Block column n - 1 leaves the scalar columns outside its own alone. */
  lemma MulColumnsStepOutside(p: Blocks, n: nat, src: seq<real>, y: seq<real>, k: nat)
    requires p.WellFormed(false) && VectorsFit(p, src, y) && 0 < n <= |p.cols| && k < |y|
    requires !(BaseOfBlock(p.colIdx, n - 1) <= k < p.colIdx[n - 1])
    ensures MulColumns(p, n, src, y)[k] == MulColumns(p, n - 1, src, y)[k]
  {
    var prev := MulColumns(p, n - 1, src, y);
    assert MulColumns(p, n, src, y) == MulColumn(p, n - 1, |p.cols[n - 1]|, src, prev);
    MulColumnOutside(p, n - 1, src, prev, k);
  }

  /** The first n block columns leave y alone from the end of block column
      n - 1 on. */
  lemma {:induction false} MulColumnsBeyond(p: Blocks, n: nat, src: seq<real>, y: seq<real>, k: nat)
    requires p.WellFormed(false) && VectorsFit(p, src, y) && n <= |p.cols| && k < |y|
    requires n > 0 ==> p.colIdx[n - 1] <= k
    ensures MulColumns(p, n, src, y)[k] == y[k]
  {
    if n > 0 {
      MulColumnOutside(p, n - 1, src, MulColumns(p, n - 1, src, y), k);
      if n > 1 {
        assert p.colIdx[n - 2] <= p.colIdx[n - 1];
        MulColumnsBeyond(p, n - 1, src, y, k);
      }
    }
  }

  /** Block columns from m on leave the scalar columns of the first m
      block columns alone. */
  lemma {:induction false} MulColumnsSettled(p: Blocks, m: nat, n: nat, src: seq<real>, y: seq<real>, k: nat)
    requires p.WellFormed(false) && VectorsFit(p, src, y) && 0 < m <= n <= |p.cols| && k < |y|
    requires k < p.colIdx[m - 1]
    ensures MulColumns(p, n, src, y)[k] == MulColumns(p, m, src, y)[k]
  {
    if m < n {
      assert p.colIdx[m - 1] <= p.colIdx[n - 2] == BaseOfBlock(p.colIdx, n - 1);
      MulColumnsStepOutside(p, n, src, y, k);
      MulColumnsSettled(p, m, n - 1, src, y, k);
    }
  }

  /** The first n block columns add, at scalar column c of block column
      i < n, the product of that scalar column with src. */
  lemma MulColumnsAt(p: Blocks, n: nat, src: seq<real>, y: seq<real>, i: nat, c: nat)
    requires p.WellFormed(false) && VectorsFit(p, src, y) && n <= |p.cols| && i < n && c < DimOfBlock(p.colIdx, i)
    ensures BaseOfBlock(p.colIdx, i) + c < |y|
    ensures MulColumns(p, n, src, y)[BaseOfBlock(p.colIdx, i) + c]
         == y[BaseOfBlock(p.colIdx, i) + c] + EntryDot(ScalarColumn(p, i, c, false), src)
  {
    var k := BaseOfBlock(p.colIdx, i) + c;
    assert k < p.colIdx[i] <= Size(p.colIdx);
    MulColumnsSettled(p, i + 1, n, src, y, k);
    MulColumnAt(p, i, |p.cols[i]|, src, MulColumns(p, i, src, y), k);
    MulColumnsBeyond(p, i, src, y, k);
  }

  /** rightMultiply's result: y + A^T * src. */
  function Product(p: Blocks, src: seq<real>, y: seq<real>): (r: seq<real>)
    ensures |r| == |y|
  {
    MulColumns(p, |p.cols|, src, y)
  }

  /** rightMultiply agrees with the scalar matrix fillCCS writes: entry k of
      the result is y[k] plus the product of CCS column k with src. */
  lemma ProductIsCCSProduct(p: Blocks, src: seq<real>, y: seq<real>, i: nat, c: nat)
    requires p.WellFormed(false) && VectorsFit(p, src, y) && |p.cols| == |p.colIdx|
    requires i < |p.cols| && c < DimOfBlock(p.colIdx, i)
    ensures BaseOfBlock(p.colIdx, i) + c + 1 < |CCSPointers(p, false)| && BaseOfBlock(p.colIdx, i) + c < |y|
    ensures var k := BaseOfBlock(p.colIdx, i) + c; var cp := CCSPointers(p, false);
      0 <= cp[k] <= cp[k + 1] <= |CCSEntries(p, false)| &&
      Product(p, src, y)[k] == y[k] + EntryDot(CCSEntries(p, false)[cp[k]..cp[k + 1]], src)
  {
    CCSColumn(p, false, i, c);
    MulColumnsAt(p, |p.cols|, src, y, i, c);
  }

  /* ---------------------------------------------------------------------
     fillCCS, loop by loop. Ci and Cx are the sequences written so far and
     grow as the source's pointers advance.
     --------------------------------------------------------------------- */

  /** Writes the n first entries of column c of block m, with consecutive
      row indices from rstart (the innermost copy loop). */
  method WriteRun(m: Mat, c: nat, rstart: int, n: nat, ci: seq<int>, cx: seq<real>, nz: int)
    returns (ci': seq<int>, cx': seq<real>, nz': int)
    requires m.Valid() && c < m.cols && n <= m.rows
    ensures ci' == ci + RowsOf(RunEntries(m, c, rstart, n))
    ensures cx' == cx + Values(RunEntries(m, c, rstart, n))
    ensures nz' == nz + n
  {
    ci', cx', nz' := ci, cx, nz;
    var row := rstart;
    for r := 0 to n
      invariant nz' == nz + r && row == rstart + r
      invariant ci' == ci + RowsOf(RunEntries(m, c, rstart, r))
      invariant cx' == cx + Values(RunEntries(m, c, rstart, r))
    {
      assert RowsOf(RunEntries(m, c, rstart, r + 1)) == RowsOf(RunEntries(m, c, rstart, r)) + [row];
      assert Values(RunEntries(m, c, rstart, r + 1)) == Values(RunEntries(m, c, rstart, r)) + [m.columns[c][r]];
      cx' := cx' + [m.columns[c][r]];
      ci' := ci' + [row];
      row := row + 1;
      nz' := nz' + 1;
    }
  }

  /** Block j of a column adds its run to the column's entries. */
  lemma ColumnEntriesStep(rowIdx: seq<int>, cbase: int, col: seq<RowBlock>, j: nat, c: nat, upper: bool)
    requires j < |col| && RunFits(rowIdx, cbase, col[j], c, upper)
    ensures ColumnEntries(rowIdx, cbase, col, j + 1, c, upper)
         == ColumnEntries(rowIdx, cbase, col, j, c, upper) +
            RunEntries(col[j].block, c, BaseOfBlock(rowIdx, col[j].row), ElemsToCopy(rowIdx, cbase, col[j], c, upper))
  {
  }

  /** Scalar column c of a block column that starts at cbase and holds the
      blocks col: the loop over the column's blocks, each copying its run. */
  method FillColumn(rowIdx: seq<int>, cbase: int, col: seq<RowBlock>, c: nat, upper: bool,
                    ci: seq<int>, cx: seq<real>, nz: int) returns (ci': seq<int>, cx': seq<real>, nz': int)
    requires forall j :: 0 <= j < |col| ==> RunFits(rowIdx, cbase, col[j], c, upper)
    ensures ci' == ci + RowsOf(ColumnEntries(rowIdx, cbase, col, |col|, c, upper))
    ensures cx' == cx + Values(ColumnEntries(rowIdx, cbase, col, |col|, c, upper))
    ensures nz' == nz + |ColumnEntries(rowIdx, cbase, col, |col|, c, upper)|
  {
    ci', cx', nz' := ci, cx, nz;
    for j := 0 to |col|
      invariant ci' == ci + RowsOf(ColumnEntries(rowIdx, cbase, col, j, c, upper))
      invariant cx' == cx + Values(ColumnEntries(rowIdx, cbase, col, j, c, upper))
      invariant nz' == nz + |ColumnEntries(rowIdx, cbase, col, j, c, upper)|
    {
      var b := col[j];
      var rstart := if b.row > 0 then rowIdx[b.row - 1] else 0;
      var elemsToCopy := b.block.rows;
      if upper && rstart == cbase {
        elemsToCopy := c + 1;
      }
      ghost var done := ColumnEntries(rowIdx, cbase, col, j, c, upper);
      ghost var run := RunEntries(b.block, c, rstart, elemsToCopy);
      ColumnEntriesStep(rowIdx, cbase, col, j, c, upper);
      RowsStep(ci, done, run);
      ValuesStep(cx, done, run);
      ci', cx', nz' := WriteRun(b.block, c, rstart, elemsToCopy, ci', cx', nz');
    }
  }

  /** `*Cp = nz; ++Cp`: the pointer to scalar column c of block column i,
      whose output started at nz0 and has reached nz. */
  method WritePointer(p: Blocks, i: nat, c: nat, upper: bool, ghost cp0: seq<int>, ghost nz0: int,
                      cp: seq<int>, nz: int) returns (cp': seq<int>)
    requires cp == cp0 + BlockColumnStarts(p, i, c, nz0, upper)
    requires nz == nz0 + |BlockColumnEntries(p, i, c, upper)|
    ensures cp' == cp0 + BlockColumnStarts(p, i, c + 1, nz0, upper)
  {
    StartsStep(cp0, p, i, c, nz0, upper);
    cp' := cp + [nz];
  }

  /** Scalar column c of block column i, appended to what the earlier
      columns of the block column wrote after ci0 and cx0. */
  method FillScalarColumn(p: Blocks, i: nat, c: nat, upper: bool, cstart: int,
                          ghost ci0: seq<int>, ghost cx0: seq<real>, ghost nz0: int,
                          ci: seq<int>, cx: seq<real>, nz: int)
    returns (ci': seq<int>, cx': seq<real>, nz': int)
    requires ColumnFits(p, i, upper) && c < DimOfBlock(p.colIdx, i) && cstart == BaseOfBlock(p.colIdx, i)
    requires ci == ci0 + RowsOf(BlockColumnEntries(p, i, c, upper))
    requires cx == cx0 + Values(BlockColumnEntries(p, i, c, upper))
    requires nz == nz0 + |BlockColumnEntries(p, i, c, upper)|
    ensures ci' == ci0 + RowsOf(BlockColumnEntries(p, i, c + 1, upper))
    ensures cx' == cx0 + Values(BlockColumnEntries(p, i, c + 1, upper))
    ensures nz' == nz0 + |BlockColumnEntries(p, i, c + 1, upper)|
  {
    ghost var done := BlockColumnEntries(p, i, c, upper);
    ghost var here := ScalarColumn(p, i, c, upper);
    BlockColumnStep(p, i, c, nz0, upper);
    RowsStep(ci0, done, here);
    ValuesStep(cx0, done, here);
    ci', cx', nz' := FillColumn(p.rowIdx, cstart, p.cols[i], c, upper, ci, cx, nz);
  }

  /** The scalar columns of block column i: one column pointer and one
      scalar column per column of the block column. */
  method FillBlockColumn(p: Blocks, i: nat, upper: bool, cp: seq<int>, ci: seq<int>, cx: seq<real>, nz: int)
    returns (cp': seq<int>, ci': seq<int>, cx': seq<real>, nz': int)
    requires ColumnFits(p, i, upper)
    ensures cp' == cp + BlockColumnStarts(p, i, Width(p, i), nz, upper)
    ensures ci' == ci + RowsOf(BlockColumnEntries(p, i, Width(p, i), upper))
    ensures cx' == cx + Values(BlockColumnEntries(p, i, Width(p, i), upper))
    ensures nz' == nz + |BlockColumnEntries(p, i, Width(p, i), upper)|
  {
    var cstart := if i > 0 then p.colIdx[i - 1] else 0;
    var csize := if i > 0 then p.colIdx[i] - p.colIdx[i - 1] else p.colIdx[0];
    assert csize == Width(p, i);
    cp', ci', cx', nz' := cp, ci, cx, nz;
    for c := 0 to csize
      invariant cp' == cp + BlockColumnStarts(p, i, c, nz, upper)
      invariant ci' == ci + RowsOf(BlockColumnEntries(p, i, c, upper))
      invariant cx' == cx + Values(BlockColumnEntries(p, i, c, upper))
      invariant nz' == nz + |BlockColumnEntries(p, i, c, upper)|
    {
      cp' := WritePointer(p, i, c, upper, cp, nz, cp', nz');
      ci', cx', nz' := FillScalarColumn(p, i, c, upper, cstart, ci, cx, nz, ci', cx', nz');
    }
  }

  /** The values of scalar column c of a block column (the values-only
      fillCCS, which copies each block's run with memcpy). */
  method FillColumnValues(rowIdx: seq<int>, cbase: int, col: seq<RowBlock>, c: nat, upper: bool, cx: seq<real>)
    returns (cx': seq<real>)
    requires forall j :: 0 <= j < |col| ==> RunFits(rowIdx, cbase, col[j], c, upper)
    ensures cx' == cx + Values(ColumnEntries(rowIdx, cbase, col, |col|, c, upper))
  {
    cx' := cx;
    for j := 0 to |col|
      invariant cx' == cx + Values(ColumnEntries(rowIdx, cbase, col, j, c, upper))
    {
      var b := col[j];
      var rstart := if b.row > 0 then rowIdx[b.row - 1] else 0;
      var elemsToCopy := b.block.rows;
      if upper && rstart == cbase {
        elemsToCopy := c + 1;
      }
      ghost var done := ColumnEntries(rowIdx, cbase, col, j, c, upper);
      ghost var run := RunEntries(b.block, c, rstart, elemsToCopy);
      ColumnEntriesStep(rowIdx, cbase, col, j, c, upper);
      RunValues(b.block, c, rstart, elemsToCopy);
      ValuesStep(cx, done, run);
      cx' := cx' + b.block.columns[c][..elemsToCopy];
    }
  }

  /** The values of block column i, column after column. */
  method FillBlockColumnValues(p: Blocks, i: nat, upper: bool, cx: seq<real>, cstart: int)
    returns (cx': seq<real>)
    requires ColumnFits(p, i, upper) && cstart == BaseOfBlock(p.colIdx, i)
    ensures cx' == cx + Values(BlockColumnEntries(p, i, Width(p, i), upper))
  {
    var csize := p.colIdx[i] - cstart;
    assert csize == Width(p, i);
    cx' := cx;
    for c := 0 to csize
      invariant cx' == cx + Values(BlockColumnEntries(p, i, c, upper))
    {
      ValuesAppend(BlockColumnEntries(p, i, c, upper), ScalarColumn(p, i, c, upper));
      AppendAssoc(cx, Values(BlockColumnEntries(p, i, c, upper)), Values(ScalarColumn(p, i, c, upper)));
      cx' := FillColumnValues(p.rowIdx, cstart, p.cols[i], c, upper, cx');
    }
  }

  /** The loop of rightMultiply over the blocks of block column i: each
      block's atxpy into the destination segment at destOffset. */
  method MultiplyBlockColumn(p: Blocks, i: nat, src: seq<real>, d: array<real>, destOffset: int)
    requires p.WellFormed(false) && VectorsFit(p, src, d[..]) && i < |p.cols|
    requires destOffset == BaseOfBlock(p.colIdx, i)
    modifies d
    ensures d[..] == MulColumn(p, i, |p.cols[i]|, src, old(d[..]))
  {
    ghost var start := d[..];
    for j := 0 to |p.cols[i]|
      invariant d[..] == MulColumn(p, i, j, src, start)
    {
      var a := p.cols[i][j];
      WellFormedBlockFits(p, i, j, src, d[..]);
      var srcOffset := if a.row > 0 then p.rowIdx[a.row - 1] else 0;
      AtxpyInPlace(a.block, src, srcOffset, d, destOffset);
    }
  }

  /** RowBlock::operator<: blocks compare by block row. */
  function RowKey(b: RowBlock): Key
  {
    Key(b.row, 0)
  }

  /** Sorting a column permutes its blocks, so a well-formed matrix stays
      well formed. */
  lemma SortingKeepsWellFormed(p: Blocks, cols: seq<seq<RowBlock>>, upper: bool)
    requires p.WellFormed(upper) && |cols| == |p.cols|
    requires forall i :: 0 <= i < |cols| ==> multiset(cols[i]) == multiset(p.cols[i])
    ensures Blocks(p.rowIdx, p.colIdx, cols).WellFormed(upper)
  {
    var q := Blocks(p.rowIdx, p.colIdx, cols);
    forall i, j | 0 <= i < |cols| && 0 <= j < |cols[i]|
      ensures q.Fits(i, cols[i][j], upper)
    {
      assert cols[i][j] in multiset(p.cols[i]);
      var j' :| 0 <= j' < |p.cols[i]| && p.cols[i][j'] == cols[i][j];
      assert p.Fits(i, p.cols[i][j'], upper);
    }
  }

  /** A column sorted by block row whose block rows are distinct is
      strictly ordered, as the row-order lemmas need. */
  lemma SortedDistinctIsStrict(col: seq<RowBlock>)
    requires SortedBy(col, RowKey)
    requires forall a, b :: 0 <= a < b < |col| ==> col[a].row != col[b].row
    ensures ColumnSorted(col)
  {
    forall a, b | 0 <= a < b < |col|
      ensures col[a].row < col[b].row
    {
      assert KeyLe(RowKey(col[a]), RowKey(col[b]));
    }
  }

  class SparseBlockMatrixCCS {
    const rowBlockIndices: seq<int>
    const colBlockIndices: seq<int>
    /** The blocks of every block column, in stored order. */
    var blockCols: seq<seq<RowBlock>>

    constructor (rowIndices: seq<int>, colIndices: seq<int>)
      ensures rowBlockIndices == rowIndices && colBlockIndices == colIndices
      ensures blockCols == []
    {
      rowBlockIndices := rowIndices;
      colBlockIndices := colIndices;
      blockCols := [];
    }

    function Value(): Blocks
      reads this
    {
      Blocks(rowBlockIndices, colBlockIndices, blockCols)
    }

    ghost predicate Valid(upper: bool)
      reads this
    {
      Value().WellFormed(upper)
    }

    /** cols(): the number of scalar columns. */
    function Cols(): (n: int)
      ensures Monotone(colBlockIndices) ==> 0 <= n
    {
      Size(colBlockIndices)
    }

    /** rows(): the number of scalar rows. */
    function Rows(): (n: int)
      ensures Monotone(rowBlockIndices) ==> 0 <= n
    {
      Size(rowBlockIndices)
    }

    /** blockCols() used for writing: the blocks of every block column are
        replaced. */
    method SetBlockCols(cols: seq<seq<RowBlock>>)
      modifies this
      ensures blockCols == cols
    {
      blockCols := cols;
    }

    /** rightMultiply(dest, src): dest += A^T * src, one atxpy per block;
        a null dest is first allocated with cols() zeros. */
    method RightMultiply(dest: array?<real>, src: seq<real>) returns (d: array<real>)
      requires Valid(false) && |src| == Rows()
      requires dest != null ==> dest.Length == Cols()
      modifies dest
      ensures dest != null ==> d == dest
      ensures dest == null ==> fresh(d)
      ensures d[..] == Product(Value(), src, if dest == null then Zeros(Cols()) else old(dest[..]))
    {
      var v := Value();
      if dest == null {
        d := new real[Cols()](_ => 0.0);
        assert d[..] == Zeros(Cols());
      } else {
        d := dest;
      }
      ghost var y0 := d[..];
      assert y0 == if dest == null then Zeros(Cols()) else old(dest[..]);
      for i := 0 to |blockCols|
        invariant d[..] == MulColumns(v, i, src, y0)
      {
        var destOffset := if i > 0 then colBlockIndices[i - 1] else 0;
        MultiplyBlockColumn(v, i, src, d, destOffset);
      }
    }

    /** sortColumns(): every block column ordered by block row, holding the
        same blocks. */
    method SortColumns()
      modifies this
      ensures |blockCols| == |old(blockCols)|
      ensures forall i :: 0 <= i < |blockCols| ==>
        SortedBy(blockCols[i], RowKey) && multiset(blockCols[i]) == multiset(old(blockCols)[i])
    {
      ghost var cols0 := blockCols;
      for i := 0 to |blockCols|
        invariant |blockCols| == |cols0|
        invariant forall k :: 0 <= k < i ==> SortedBy(blockCols[k], RowKey) && multiset(blockCols[k]) == multiset(cols0[k])
        invariant forall k :: i <= k < |blockCols| ==> blockCols[k] == cols0[k]
      {
        var sorted := SortByKey(blockCols[i], RowKey);
        blockCols := blockCols[i := sorted];
      }
    }

    /** fillCCS(Cp, Ci, Cx, upperTriangle): the column pointers, the row
        indices and the values of the scalar CCS form, and the number of
        entries. */
    method FillCCS(upper: bool) returns (cp: seq<int>, ci: seq<int>, cx: seq<real>, nz: int)
      requires Valid(upper)
      ensures cp == CCSPointers(Value(), upper)
      ensures ci == RowsOf(CCSEntries(Value(), upper)) && cx == Values(CCSEntries(Value(), upper))
      ensures nz == |CCSEntries(Value(), upper)|
    {
      var v := Value();
      cp, ci, cx, nz := [], [], [], 0;
      for i := 0 to |blockCols|
        invariant cp == ColumnStarts(v, i, upper)
        invariant ci == RowsOf(Entries(v, i, upper)) && cx == Values(Entries(v, i, upper))
        invariant nz == |Entries(v, i, upper)|
      {
        WellFormedColumnFits(v, upper, i);
        RowsOfAppend(Entries(v, i, upper), BlockColumnEntries(v, i, Width(v, i), upper));
        ValuesAppend(Entries(v, i, upper), BlockColumnEntries(v, i, Width(v, i), upper));
        cp, ci, cx, nz := FillBlockColumn(v, i, upper, cp, ci, cx, nz);
      }
      cp := cp + [nz];
    }

    /** fillCCS(Cx, upperTriangle): only the values, in the same order as the
        full fillCCS, and how many there are. */
    method FillCCSValues(upper: bool) returns (cx: seq<real>, count: int)
      requires Valid(upper)
      ensures cx == Values(CCSEntries(Value(), upper))
      ensures count == |CCSEntries(Value(), upper)|
    {
      var v := Value();
      cx := [];
      var cstart := 0;
      for i := 0 to |blockCols|
        invariant cx == Values(Entries(v, i, upper))
        invariant i < |blockCols| ==> cstart == BaseOfBlock(colBlockIndices, i)
      {
        WellFormedColumnFits(v, upper, i);
        ValuesAppend(Entries(v, i, upper), BlockColumnEntries(v, i, Width(v, i), upper));
        cx := FillBlockColumnValues(v, i, upper, cx, cstart);
        cstart := colBlockIndices[i];
      }
      count := |cx|;
    }
  }

  /** Block m, stored at block row r of block column c, has the shape of
      that block row and block column. */
  predicate BlockFits(m: Mat, r: int, c: int, rowIdx: seq<int>, colIdx: seq<int>)
  {
    0 <= r < |rowIdx| && 0 <= c < |colIdx| && m.Valid() &&
    m.rows == DimOfBlock(rowIdx, r) && m.cols == DimOfBlock(colIdx, c)
  }

  predicate ColumnFitsLayout(col: map<int, Mat>, c: int, rowIdx: seq<int>, colIdx: seq<int>)
  {
    forall r :: r in col ==> BlockFits(col[r], r, c, rowIdx, colIdx)
  }

  predicate BlocksFitLayout(cols: seq<map<int, Mat>>, rowIdx: seq<int>, colIdx: seq<int>)
  {
    forall c :: 0 <= c < |cols| ==> ColumnFitsLayout(cols[c], c, rowIdx, colIdx)
  }

  /** SparseBlockMatrixHashMap: the pattern-building form of the block
      matrix, one map from block row to block per block column. */
  class SparseBlockMatrixHashMap {
    const rowBlockIndices: seq<int>
    const colBlockIndices: seq<int>
    var blockCols: seq<map<int, Mat>>

    constructor (rowIndices: seq<int>, colIndices: seq<int>)
      ensures rowBlockIndices == rowIndices && colBlockIndices == colIndices
      ensures blockCols == []
    {
      rowBlockIndices := rowIndices;
      colBlockIndices := colIndices;
      blockCols := [];
    }

    /** cols(): the number of scalar columns. */
    function Cols(): (n: int)
      ensures Monotone(colBlockIndices) ==> 0 <= n
    {
      Size(colBlockIndices)
    }

    /** rows(): the number of scalar rows. */
    function Rows(): (n: int)
      ensures Monotone(rowBlockIndices) ==> 0 <= n
    {
      Size(rowBlockIndices)
    }

    /** Every stored block has the shape of its block row and block column. */
    predicate ShapesFit()
      reads this
    {
      BlocksFitLayout(blockCols, rowBlockIndices, colBlockIndices)
    }

    /** blockCols().resize(n): n block columns, the new ones empty. */
    method ResizeBlockCols(n: nat)
      modifies this
      ensures |blockCols| == n
      ensures forall c :: 0 <= c < n ==> blockCols[c] == if c < |old(blockCols)| then old(blockCols)[c] else map[]
      ensures old(ShapesFit()) ==> ShapesFit()
    {
      ghost var cols0 := blockCols;
      ghost var fit0 := ShapesFit();
      if n <= |blockCols| {
        blockCols := blockCols[..n];
      } else {
        blockCols := blockCols + seq(n - |blockCols|, _ => map[]);
      }
      if fit0 {
        forall c | 0 <= c < |blockCols|
          ensures ColumnFitsLayout(blockCols[c], c, rowBlockIndices, colBlockIndices)
        {
          if c < |cols0| {
            assert blockCols[c] == cols0[c];
          } else {
            assert blockCols[c] == map[];
          }
        }
      }
    }

    /** addBlock(r, c, zeroBlock): the block stored at block row r of block
        column c; when there is none, a new block of the right shape is
        stored first, zeroed only when zeroBlock is set (otherwise its
        contents are whatever the allocation held). */
    method AddBlock(r: int, c: int, zeroBlock: bool) returns (m: Mat)
      requires 0 <= c < |blockCols| && c < |colBlockIndices| && 0 <= r < |rowBlockIndices|
      requires Monotone(rowBlockIndices) && Monotone(colBlockIndices)
      modifies this
      ensures |blockCols| == |old(blockCols)|
      ensures r in blockCols[c] && blockCols[c][r] == m
      ensures r in old(blockCols[c]) ==> m == old(blockCols[c][r]) && blockCols == old(blockCols)
      ensures r !in old(blockCols[c]) ==>
        m.Valid() && m.rows == DimOfBlock(rowBlockIndices, r) && m.cols == DimOfBlock(colBlockIndices, c) &&
        (zeroBlock ==> m == Zero(m.rows, m.cols)) &&
        blockCols == old(blockCols)[c := old(blockCols[c])[r := m]]
      ensures old(ShapesFit()) ==> ShapesFit()
    {
      ghost var cols0 := blockCols;
      ghost var fit0 := ShapesFit();
      var column := blockCols[c];
      if r in column {
        m := column[r];
      } else {
        var rb := if r > 0 then rowBlockIndices[r] - rowBlockIndices[r - 1] else rowBlockIndices[0];
        var cb := if c > 0 then colBlockIndices[c] - colBlockIndices[c - 1] else colBlockIndices[0];
        if zeroBlock {
          m := Zero(rb, cb);
        } else {
          assert Zero(rb, cb).Valid() && Zero(rb, cb).rows == rb && Zero(rb, cb).cols == cb;
          m :| m.Valid() && m.rows == rb && m.cols == cb;
        }
        blockCols := blockCols[c := column[r := m]];
        if fit0 {
          assert BlockFits(m, r, c, rowBlockIndices, colBlockIndices);
          assert ColumnFitsLayout(blockCols[c], c, rowBlockIndices, colBlockIndices);
        }
      }
    }
  }
}
