/** MatrixStructure of g2o/core/matrix_structure.cpp: the non-zero pattern of
    the upper triangle of a symmetric matrix in compressed-column form (Ap
    holds n + 1 column offsets into the row indices Aii), with capacities
    maxN and maxNz that only grow, and a writer that emits the full
    symmetric pattern sorted by column. */
module MatrixStructureModel {
  import opened Sorting
  import opened DenseBlocks
  import opened SparseHelper

  class MatrixStructure {
    /** Number of columns. */
    var n: int
    /** Number of rows. */
    var m: int
    /** Capacity of Ap, minus its closing entry. */
    var maxN: int
    /** Capacity of Aii. */
    var maxNz: int
    /** Column offsets, maxN + 1 of them. */
    var ap: array?<int>
    /** Row indices, maxNz of them. */
    var aii: array?<int>

    /** The arrays exist exactly when something was allocated, each as large
        as its capacity, and the capacities cover the size. */
    ghost predicate Valid()
      reads this
    {
      0 <= n <= maxN && 0 <= maxNz && 0 <= m &&
      (ap == null <==> aii == null) &&
      (ap == null ==> maxN == 0 && maxNz == 0) &&
      (ap != null ==> ap.Length == maxN + 1 && aii.Length == maxNz && ap != aii)
    }

    /** An empty structure owns no arrays. */
    constructor ()
      ensures Valid()
      ensures n == 0 && m == 0 && maxN == 0 && maxNz == 0 && ap == null && aii == null
    {
      n, m, maxN, maxNz := 0, 0, 0, 0;
      ap, aii := null, null;
    }

    /** alloc(n_, nz): an empty structure takes exactly the requested sizes;
        otherwise n becomes n_ and each capacity that is too small is
        replaced by twice the request, with a fresh array. */
    method Alloc(n': int, nz: int)
      requires Valid() && 0 <= n' && 0 <= nz
      modifies this
      ensures Valid() && m == old(m)
      ensures n == n' && maxN >= n && maxNz >= nz
      ensures old(n) == 0 ==> maxN == n' && maxNz == nz && fresh(ap) && fresh(aii)
      ensures old(n) != 0 ==> maxNz == (if old(maxNz) < nz then 2 * nz else old(maxNz))
      ensures old(n) != 0 ==> maxN == (if old(maxN) < n' then 2 * n' else old(maxN))
      ensures old(n) != 0 ==> (if old(maxNz) < nz then fresh(aii) else aii == old(aii))
      ensures old(n) != 0 ==> (if old(maxN) < n' then fresh(ap) else ap == old(ap))
    {
      if n == 0 {
        n := n';
        maxN := n';
        maxNz := nz;
        ap := new int[maxN + 1];
        aii := new int[maxNz];
      } else {
        n := n';
        if maxNz < nz {
          maxNz := 2 * nz;
          aii := new int[maxNz];
        }
        if maxN < n {
          maxN := 2 * n;
          ap := new int[maxN + 1];
        }
      }
    }

    /** free(): back to the empty structure. */
    method Free()
      modifies this
      ensures Valid()
      ensures n == 0 && m == 0 && maxN == 0 && maxNz == 0 && ap == null && aii == null
    {
      n, m, maxN, maxNz := 0, 0, 0, 0;
      aii := null;
      ap := null;
    }

    /** The first n + 1 offsets are valid positions in Aii. */
    predicate Filled()
      reads this, ap, aii
    {
      ap != null && aii != null && 0 <= n && CCSBounds(ap[..], aii[..], Zeros(aii.Length), n)
    }

    /** The stored (row, column) pairs, column by column, with value 0. */
    function Pattern(): (coords: seq<Triplet>)
      requires Filled()
      reads this, ap, aii
      ensures forall t :: t in coords ==> t.x == 0.0
    {
      ZeroPattern(ap[..], aii[..], n);
      CCSCoords(ap[..], aii[..], Zeros(aii.Length), n)
    }

    /** write(filename): every stored entry and, off the diagonal, its
        mirror, sorted by column and then row (ColSort), under a header with
        the name, the entry count and the dimensions; the value column is a
        constant 0 and indices stay 0-based. */
    method Write(filename: string) returns (file: MatrixFile)
      requires Filled()
      ensures file.name == MatrixName(filename) && file.rows == m && file.cols == n
      ensures file.nnz == |file.lines| == |Pattern()| + OffDiagonal(Pattern())
      ensures SortedBy(file.lines, ColKey)
      ensures multiset(file.lines) == multiset(Expand(Pattern(), true))
      ensures forall t :: t in file.lines ==> Mirror(t) in file.lines && t.x == 0.0
    {
      var entries := WritePattern();
      var sorted := SortByKey(entries, ColKey);
      assert |sorted| == |multiset(sorted)| == |multiset(entries)| == |entries|;
      file := MatrixFile(MatrixName(filename), |sorted|, m, n, sorted);
      SymmetricZeroLines(Pattern(), sorted);
    }

    /** The loops of write: every stored entry, each with its mirror when
        off the diagonal, column by column. */
    method WritePattern() returns (entries: seq<Triplet>)
      requires Filled()
      ensures entries == Expand(Pattern(), true)
    {
      ghost var offsets, rows, zeros := ap[..], aii[..], Zeros(aii.Length);
      entries := [];
      for i := 0 to n
        invariant entries == Expand(CCSCoords(offsets, rows, zeros, i), true)
      {
        var rbeg := ap[i];
        var rend := ap[i + 1];
        assert rbeg == offsets[i] && rend == offsets[i + 1];
        entries := WriteColumn(i, rbeg, rend, CCSCoords(offsets, rows, zeros, i), entries);
      }
    }

    /** The inner loop of write: column i's entries at positions
        rbeg .. rend - 1, each with its mirror when off the diagonal,
        appended after those already emitted. */
    method WriteColumn(i: int, rbeg: int, rend: int, ghost done: seq<Triplet>, emitted: seq<Triplet>)
      returns (entries: seq<Triplet>)
      requires aii != null && 0 <= rbeg <= aii.Length && rend <= aii.Length
      requires emitted == Expand(done, true)
      ensures entries == Expand(done + ColumnCoords(aii[..], Zeros(aii.Length), i, rbeg, rend), true)
    {
      ghost var rows, zeros := aii[..], Zeros(aii.Length);
      assert done + ColumnCoords(rows, zeros, i, rbeg, rbeg) == done;
      entries := emitted;
      var j := rbeg;
      while j < rend
        invariant rbeg <= j <= |rows| && (j <= rend || j == rbeg)
        invariant entries == Expand(done + ColumnCoords(rows, zeros, i, rbeg, j), true)
      {
        ExpandColumnStep(done, rows, zeros, i, rbeg, j, true);
        entries := EmitEntry(entries, aii[j], i, 0.0, true);
        j := j + 1;
      }
    }
  }

  /** Lines that are a permutation of an expanded upper triangle with zero
      values are closed under mirroring and all zero. */
  lemma SymmetricZeroLines(coords: seq<Triplet>, lines: seq<Triplet>)
    requires forall t :: t in coords ==> t.x == 0.0
    requires multiset(lines) == multiset(Expand(coords, true))
    ensures forall t :: t in lines ==> Mirror(t) in lines && t.x == 0.0
  {
    forall t | t in lines
      ensures Mirror(t) in lines && t.x == 0.0
    {
      assert t in multiset(Expand(coords, true));
      ExpandSymmetric(coords, t);
      assert Mirror(t) in multiset(lines);
      ExpandMembers(coords, true, t);
      var k :| 0 <= k < |coords| && Emits(coords[k], true, t);
      assert coords[k] in coords;
    }
  }

  /** Every stored entry of a pattern read with zero values carries 0. */
  lemma ZeroPattern(ap: seq<int>, aii: seq<int>, n: nat)
    requires CCSBounds(ap, aii, Zeros(|aii|), n)
    ensures forall t :: t in CCSCoords(ap, aii, Zeros(|aii|), n) ==> t.x == 0.0
  {
    forall t | t in CCSCoords(ap, aii, Zeros(|aii|), n)
      ensures t.x == 0.0
    {
      CCSMembers(ap, aii, Zeros(|aii|), n, t);
    }
  }
}
