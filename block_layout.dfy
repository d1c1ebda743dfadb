/** The block layout shared by the sparse block matrices
    (SparseBlockMatrixCCS, SparseBlockMatrixHashMap and
    SparseBlockMatrixDiagonal): a vector of cumulative boundaries, where
    entry k is one past the last scalar index of block k. */
module BlockLayout {

  /** Boundaries that describe real blocks: none negative, none decreasing. */
  predicate Monotone(idx: seq<int>)
  {
    forall i, j :: 0 <= i <= j < |idx| ==> 0 <= idx[i] <= idx[j]
  }

  /** cols() / rows(): the last boundary, or 0 for an empty layout. */
  function Size(idx: seq<int>): (n: int)
    ensures Monotone(idx) ==> 0 <= n && forall k :: 0 <= k < |idx| ==> idx[k] <= n
  {
    if |idx| == 0 then 0 else idx[|idx| - 1]
  }

  /** rowBaseOfBlock / colBaseOfBlock / baseOfBlock: where block r starts. */
  function BaseOfBlock(idx: seq<int>, r: nat): (b: int)
    requires r < |idx|
    ensures Monotone(idx) ==> 0 <= b <= idx[r]
    ensures r > 0 ==> b == idx[r - 1]
  {
    if r > 0 then idx[r - 1] else 0
  }

  /** rowsOfBlock / colsOfBlock / dimOfBlock: how wide block r is. */
  function DimOfBlock(idx: seq<int>, r: nat): (d: int)
    requires r < |idx|
    ensures BaseOfBlock(idx, r) + d == idx[r]
    ensures Monotone(idx) ==> 0 <= d
  {
    if r > 0 then idx[r] - idx[r - 1] else idx[0]
  }

  /** Boundaries that start above 0 and strictly increase. */
  predicate StrictlyIncreasing(idx: seq<int>)
  {
    (|idx| > 0 ==> 0 < idx[0]) && forall i :: 0 < i < |idx| ==> idx[i - 1] < idx[i]
  }

  /** With strictly increasing boundaries every block has a positive width. */
  lemma StrictBlocksNonEmpty(idx: seq<int>, r: nat)
    requires StrictlyIncreasing(idx) && r < |idx|
    ensures 0 < DimOfBlock(idx, r)
  {
    if r > 0 {
      assert idx[r - 1] < idx[r];
    }
  }

  /** Sum of the block widths of the first n blocks. */
  function TotalWidth(idx: seq<int>, n: nat): int
    requires n <= |idx|
  {
    if n == 0 then 0 else TotalWidth(idx, n - 1) + DimOfBlock(idx, n - 1)
  }

  /** The blocks tile the scalar range: the widths add up to the size. */
  lemma {:induction false} WidthsAddUp(idx: seq<int>, n: nat)
    requires n <= |idx|
    ensures TotalWidth(idx, n) == if n == 0 then 0 else idx[n - 1]
  {
    if n > 0 {
      WidthsAddUp(idx, n - 1);
    }
  }

  lemma WidthsAddUpToSize(idx: seq<int>)
    ensures TotalWidth(idx, |idx|) == Size(idx)
  {
    WidthsAddUp(idx, |idx|);
  }

  /** Every scalar index below the size lies in some block. */
  lemma {:induction false} EveryIndexInABlock(idx: seq<int>, j: int)
    requires Monotone(idx) && 0 <= j < Size(idx)
    ensures exists k :: 0 <= k < |idx| && BaseOfBlock(idx, k) <= j < idx[k]
  {
    var k := FirstAbove(idx, j, 0);
    assert BaseOfBlock(idx, k) <= j < idx[k];
  }

  /** The first block whose end lies beyond j, searching from block `from`. */
  function FirstAbove(idx: seq<int>, j: int, from: nat): (k: nat)
    requires Monotone(idx) && 0 <= j < Size(idx) && from < |idx|
    requires from == 0 || idx[from - 1] <= j
    ensures from <= k < |idx| && BaseOfBlock(idx, k) <= j < idx[k]
    decreases |idx| - from
  {
    if j < idx[from] then from
    else FirstAbove(idx, j, from + 1)
  }
}
