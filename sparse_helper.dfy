/** The sparse-matrix writers of g2o/stuff/sparse_helper.cpp: a matrix in
    compressed-column form (CCS) or as coordinate triplets is expanded into
    a list of triplets, mirrored across the diagonal when only the upper
    triangle of a symmetric matrix is stored, sorted column by column and
    written in the Octave sparse-matrix text format with 1-based indices. */
module SparseHelper {
  import opened Wrappers
  import opened Sorting
  import opened StringTools

  /** TripletEntry: row, column, value. */
  datatype Triplet = Triplet(r: int, c: int, x: real)

  function Mirror(t: Triplet): Triplet
  {
    Triplet(t.c, t.r, t.x)
  }

  /** TripletColSort: by column, then by row. */
  function ColKey(t: Triplet): Key
  {
    Key(t.c, t.r)
  }

  /** What one stored entry emits: itself, then its mirror when the storage
      is an upper triangle and the entry is off the diagonal. */
  function ExpandEntry(t: Triplet, symmetric: bool): (r: seq<Triplet>)
  {
    [t] + if symmetric && t.r != t.c then [Mirror(t)] else []
  }

  /** Whether stored entry e emits triplet t. */
  predicate Emits(e: Triplet, symmetric: bool, t: Triplet)
  {
    t == e || (symmetric && e.r != e.c && t == Mirror(e))
  }

  /** How many stored entries lie off the diagonal. */
  function OffDiagonal(coords: seq<Triplet>): nat
  {
    if |coords| == 0 then 0
    else OffDiagonal(coords[..|coords| - 1]) + if coords[|coords| - 1].r != coords[|coords| - 1].c then 1 else 0
  }

  /** The emitted triplets of a list of stored entries, in storage order. */
  function Expand(coords: seq<Triplet>, symmetric: bool): (r: seq<Triplet>)
    ensures |r| == |coords| + (if symmetric then OffDiagonal(coords) else 0)
  {
    if |coords| == 0 then []
    else Expand(coords[..|coords| - 1], symmetric) + ExpandEntry(coords[|coords| - 1], symmetric)
  }

  lemma ExpandAppend(coords: seq<Triplet>, t: Triplet, symmetric: bool)
    ensures Expand(coords + [t], symmetric) == Expand(coords, symmetric) + ExpandEntry(t, symmetric)
  {
    assert (coords + [t])[..|coords|] == coords;
  }

  /** A triplet is emitted exactly when some stored entry emits it. */
  lemma {:induction false} ExpandMembers(coords: seq<Triplet>, symmetric: bool, t: Triplet)
    ensures t in Expand(coords, symmetric) <==> exists k :: 0 <= k < |coords| && Emits(coords[k], symmetric, t)
  {
    if |coords| > 0 {
      var init := coords[..|coords| - 1];
      ExpandMembers(init, symmetric, t);
      if t in Expand(init, symmetric) {
        var k :| 0 <= k < |init| && Emits(init[k], symmetric, t);
        assert coords[k] == init[k];
      }
      if exists k :: 0 <= k < |coords| && Emits(coords[k], symmetric, t) {
        var k :| 0 <= k < |coords| && Emits(coords[k], symmetric, t);
        if k < |init| {
          assert init[k] == coords[k];
        }
      }
    }
  }

  /** Expanding an upper triangle gives a symmetric pattern: the mirror of
      every emitted triplet is emitted too. */
  lemma ExpandSymmetric(coords: seq<Triplet>, t: Triplet)
    requires t in Expand(coords, true)
    ensures Mirror(t) in Expand(coords, true)
  {
    ExpandMembers(coords, true, t);
    var k :| 0 <= k < |coords| && Emits(coords[k], true, t);
    assert Emits(coords[k], true, Mirror(t));
    ExpandMembers(coords, true, Mirror(t));
  }

  /** Ap holds cols + 1 offsets, each a valid bound into Ai and Ax. */
  predicate CCSBounds(ap: seq<int>, ai: seq<int>, ax: seq<real>, cols: nat)
  {
    cols < |ap| && forall i :: 0 <= i <= cols ==> 0 <= ap[i] <= |ai| && ap[i] <= |ax|
  }

  /** The stored entries at positions from .. to - 1 of column c. */
  function ColumnCoords(ai: seq<int>, ax: seq<real>, c: int, from: int, to: int): (r: seq<Triplet>)
    requires 0 <= from && to <= |ai| && to <= |ax|
    ensures |r| == (if to <= from then 0 else to - from)
  {
    if to <= from then []
    else ColumnCoords(ai, ax, c, from, to - 1) + [Triplet(ai[to - 1], c, ax[to - 1])]
  }

  /** The stored entries of the first cols columns, column by column. */
  function CCSCoords(ap: seq<int>, ai: seq<int>, ax: seq<real>, cols: nat): seq<Triplet>
    requires CCSBounds(ap, ai, ax, cols)
  {
    if cols == 0 then []
    else CCSCoords(ap, ai, ax, cols - 1) + ColumnCoords(ai, ax, cols - 1, ap[cols - 1], ap[cols])
  }

  /** With non-decreasing offsets there are Ap[cols] - Ap[0] stored entries. */
  lemma {:induction false} CCSCount(ap: seq<int>, ai: seq<int>, ax: seq<real>, cols: nat)
    requires CCSBounds(ap, ai, ax, cols)
    requires forall i :: 0 <= i < cols ==> ap[i] <= ap[i + 1]
    ensures |CCSCoords(ap, ai, ax, cols)| == ap[cols] - ap[0]
  {
    if cols > 0 {
      CCSCount(ap, ai, ax, cols - 1);
    }
  }

  lemma {:induction false} ColumnMembers(ai: seq<int>, ax: seq<real>, c: int, from: int, to: int, t: Triplet)
    requires 0 <= from && to <= |ai| && to <= |ax|
    ensures t in ColumnCoords(ai, ax, c, from, to) <==> (exists j :: from <= j < to && t == Triplet(ai[j], c, ax[j]))
  {
    if from < to {
      ColumnMembers(ai, ax, c, from, to - 1, t);
    }
  }

  /** Column i of a CCS matrix holds the rows Ai[Ap[i] .. Ap[i+1] - 1]. */
  lemma {:induction false} CCSMembers(ap: seq<int>, ai: seq<int>, ax: seq<real>, cols: nat, t: Triplet)
    requires CCSBounds(ap, ai, ax, cols)
    ensures t in CCSCoords(ap, ai, ax, cols) <==>
      exists i, j :: 0 <= i < cols && ap[i] <= j < ap[i + 1] && t == Triplet(ai[j], i, ax[j])
  {
    if cols > 0 {
      CCSMembers(ap, ai, ax, cols - 1, t);
      ColumnMembers(ai, ax, cols - 1, ap[cols - 1], ap[cols], t);
    }
  }

  /** The nz coordinate triplets (Ai[i], Aj[i], Ax[i]). */
  function TripletCoords(ai: seq<int>, aj: seq<int>, ax: seq<real>, nz: nat): (r: seq<Triplet>)
    requires nz <= |ai| && nz <= |aj| && nz <= |ax|
    ensures |r| == nz
  {
    seq(nz, i requires 0 <= i < nz => Triplet(ai[i], aj[i], ax[i]))
  }

  /** The filename without everything from its last '.' on. */
  function MatrixName(filename: string): (name: string)
    ensures name <= filename
    ensures '.' !in filename ==> name == filename
    ensures '.' in filename ==> |name| < |filename| && filename[|name|] == '.' && '.' !in filename[|name| + 1..]
  {
    var dot := FindLastOf(filename, ['.']);
    if dot.None? then
      assert '.' !in filename by {
        forall k | 0 <= k < |filename| ensures filename[k] != '.' {
          assert filename[k] !in ['.'];
        }
      }
      filename
    else
      assert filename[dot.value] == '.';
      filename[..dot.value]
  }

  /** The written file: the header (name, nnz, rows, columns) and one line
      per triplet. */
  datatype MatrixFile = MatrixFile(name: string, nnz: nat, rows: int, cols: int, lines: seq<Triplet>)

  function OneBased(entries: seq<Triplet>): (r: seq<Triplet>)
    ensures |r| == |entries|
  {
    seq(|entries|, k requires 0 <= k < |entries| => Triplet(entries[k].r + 1, entries[k].c + 1, entries[k].x))
  }

  function ZeroBased(lines: seq<Triplet>): (r: seq<Triplet>)
    ensures |r| == |lines|
  {
    seq(|lines|, k requires 0 <= k < |lines| => Triplet(lines[k].r - 1, lines[k].c - 1, lines[k].x))
  }

  /** Reading the 1-based lines back gives the triplets that were written. */
  lemma ZeroBasedOneBased(entries: seq<Triplet>)
    ensures ZeroBased(OneBased(entries)) == entries
  {
  }

  /** writeTripletEntries: the name from the filename, nnz = the number of
      triplets, indices shifted to 1-based. */
  function TripletFile(filename: string, rows: int, cols: int, entries: seq<Triplet>): (f: MatrixFile)
    ensures f.name == MatrixName(filename) && f.nnz == |entries| == |f.lines|
    ensures f.rows == rows && f.cols == cols && ZeroBased(f.lines) == entries
  {
    ZeroBasedOneBased(entries);
    MatrixFile(MatrixName(filename), |entries|, rows, cols, OneBased(entries))
  }

  lemma ExpandColumnStep(done: seq<Triplet>, rows: seq<int>, values: seq<real>, i: int, rbeg: int, j: int,
                         symmetric: bool)
    requires 0 <= rbeg <= j < |rows| && j < |values|
    ensures Expand(done + ColumnCoords(rows, values, i, rbeg, j + 1), symmetric) ==
            Expand(done + ColumnCoords(rows, values, i, rbeg, j), symmetric) +
            ExpandEntry(Triplet(rows[j], i, values[j]), symmetric)
  {
    var before := done + ColumnCoords(rows, values, i, rbeg, j);
    assert done + ColumnCoords(rows, values, i, rbeg, j + 1) == before + [Triplet(rows[j], i, values[j])];
    ExpandAppend(before, Triplet(rows[j], i, values[j]), symmetric);
  }

  /** The entry (row, col, value) emitted into the list, then its mirror
      when the storage is an upper triangle and the entry is off the
      diagonal. */
  method EmitEntry(emitted: seq<Triplet>, row: int, col: int, value: real, symmetric: bool)
    returns (entries: seq<Triplet>)
    ensures entries == emitted + ExpandEntry(Triplet(row, col, value), symmetric)
  {
    entries := emitted + [Triplet(row, col, value)];
    if symmetric && row != col {
      entries := entries + [Triplet(col, row, value)];
    }
  }

  /** The inner loop of writeCCSMatrix: the entries at positions
      rbeg .. rend - 1 of column i, appended after those already emitted. */
  method ExpandColumn(ai: array<int>, ax: array<real>, i: int, rbeg: int, rend: int, symmetric: bool,
                      ghost done: seq<Triplet>, emitted: seq<Triplet>)
    returns (entries: seq<Triplet>)
    requires 0 <= rbeg <= ai.Length && rbeg <= ax.Length && rend <= ai.Length && rend <= ax.Length
    requires emitted == Expand(done, symmetric)
    ensures entries == Expand(done + ColumnCoords(ai[..], ax[..], i, rbeg, rend), symmetric)
  {
    entries := emitted;
    ghost var rows, values := ai[..], ax[..];
    ghost var coords := done;
    assert done + ColumnCoords(rows, values, i, rbeg, rbeg) == done;
    var j := rbeg;
    while j < rend
      invariant rbeg <= j <= |rows| && j <= |values| && (j <= rend || j == rbeg)
      invariant coords == done + ColumnCoords(rows, values, i, rbeg, j)
      invariant entries == Expand(coords, symmetric)
    {
      ExpandColumnStep(done, rows, values, i, rbeg, j, symmetric);
      coords := done + ColumnCoords(rows, values, i, rbeg, j + 1);
      entries := EmitEntry(entries, ai[j], i, ax[j], symmetric);
      j := j + 1;
    }
  }

  /** The expansion loops of writeCCSMatrix. */
  method ExpandCCS(ap: array<int>, ai: array<int>, ax: array<real>, cols: nat, symmetric: bool)
    returns (entries: seq<Triplet>)
    requires CCSBounds(ap[..], ai[..], ax[..], cols)
    ensures entries == Expand(CCSCoords(ap[..], ai[..], ax[..], cols), symmetric)
  {
    entries := [];
    for i := 0 to cols
      invariant entries == Expand(CCSCoords(ap[..], ai[..], ax[..], i), symmetric)
    {
      var rbeg := ap[i];
      var rend := ap[i + 1];
      assert rbeg == ap[..][i] && rend == ap[..][i + 1];
      entries := ExpandColumn(ai, ax, i, rbeg, rend, symmetric, CCSCoords(ap[..], ai[..], ax[..], i), entries);
    }
  }

  lemma ExpandTripletStep(ai: seq<int>, aj: seq<int>, ax: seq<real>, i: nat, symmetric: bool)
    requires i < |ai| && i < |aj| && i < |ax|
    ensures Expand(TripletCoords(ai, aj, ax, i + 1), symmetric) ==
            Expand(TripletCoords(ai, aj, ax, i), symmetric) + ExpandEntry(Triplet(ai[i], aj[i], ax[i]), symmetric)
  {
    assert TripletCoords(ai, aj, ax, i + 1) == TripletCoords(ai, aj, ax, i) + [Triplet(ai[i], aj[i], ax[i])];
    ExpandAppend(TripletCoords(ai, aj, ax, i), Triplet(ai[i], aj[i], ax[i]), symmetric);
  }

  /** The expansion loop of writeTripletMatrix. */
  method ExpandTriplets(nz: nat, ai: array<int>, aj: array<int>, ax: array<real>, symmetric: bool)
    returns (entries: seq<Triplet>)
    requires nz <= ai.Length && nz <= aj.Length && nz <= ax.Length
    ensures entries == Expand(TripletCoords(ai[..], aj[..], ax[..], nz), symmetric)
  {
    ghost var rows, cols, values := ai[..], aj[..], ax[..];
    entries := [];
    for i := 0 to nz
      invariant entries == Expand(TripletCoords(rows, cols, values, i), symmetric)
    {
      ExpandTripletStep(rows, cols, values, i, symmetric);
      entries := EmitEntry(entries, ai[i], aj[i], ax[i], symmetric);
    }
  }

  /** writeCCSMatrix: the expanded triplets, sorted by column and row,
      written with the header of writeTripletEntries. */
  method WriteCCSMatrix(filename: string, rows: int, cols: nat, ap: array<int>, ai: array<int>, ax: array<real>,
                        upperTriangleSymmetric: bool)
    returns (file: MatrixFile)
    requires CCSBounds(ap[..], ai[..], ax[..], cols)
    ensures file.name == MatrixName(filename) && file.nnz == |file.lines|
    ensures file.rows == rows && file.cols == cols
    ensures SortedBy(ZeroBased(file.lines), ColKey)
    ensures multiset(ZeroBased(file.lines)) ==
            multiset(Expand(CCSCoords(ap[..], ai[..], ax[..], cols), upperTriangleSymmetric))
  {
    var entries := ExpandCCS(ap, ai, ax, cols, upperTriangleSymmetric);
    entries := SortByKey(entries, ColKey);
    file := TripletFile(filename, rows, cols, entries);
  }

  /** writeTripletMatrix: the same output for nz coordinate triplets. */
  method WriteTripletMatrix(filename: string, nz: nat, rows: int, cols: int, ai: array<int>, aj: array<int>,
                            ax: array<real>, upperTriangleSymmetric: bool)
    returns (file: MatrixFile)
    requires nz <= ai.Length && nz <= aj.Length && nz <= ax.Length
    ensures file.name == MatrixName(filename) && file.nnz == |file.lines|
    ensures file.rows == rows && file.cols == cols
    ensures SortedBy(ZeroBased(file.lines), ColKey)
    ensures multiset(ZeroBased(file.lines)) ==
            multiset(Expand(TripletCoords(ai[..], aj[..], ax[..], nz), upperTriangleSymmetric))
  {
    var entries := ExpandTriplets(nz, ai, aj, ax, upperTriangleSymmetric);
    entries := SortByKey(entries, ColKey);
    file := TripletFile(filename, rows, cols, entries);
  }
}
