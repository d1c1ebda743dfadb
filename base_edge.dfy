/** BaseEdge of g2o/core/base_edge.h: an edge's error vector and information
    matrix, its chi-square and robust information, dynamic resizing, and the
    text serialisation of the information matrix (upper triangle, row by
    row) and of the parameter ids. An input stream is a sequence of tokens
    that may end in a malformed token. */
module BaseEdgeModel {
  import opened DenseBlocks
  import opened Sequences

  /* ---------------------------------------------------------------------
     Input streams
     --------------------------------------------------------------------- */

  /** What is left of an input stream: well-formed tokens, then either the
      end of the input or (junk) a token that does not parse; whether (tight)
      the input ends right after the last token, with no blank after it; and
      the stream's fail and eof bits. */
  datatype InStream<T> = InStream(tokens: seq<T>, junk: bool, tight: bool, fail: bool, eof: bool)

  /** is.good(). */
  predicate Good<T>(s: InStream<T>)
  {
    !s.fail && !s.eof
  }

  /** A fresh stream over the given tokens, each followed by a blank. */
  function Open<T>(tokens: seq<T>, junk: bool): (s: InStream<T>)
    ensures Good(s) && !s.tight
  {
    InStream(tokens, junk, false, false, false)
  }

  /** Reading the last token reaches the end of the input: nothing, not
      even a blank or a malformed token, follows it. */
  predicate EndsAtLast<T>(s: InStream<T>)
  {
    |s.tokens| == 1 && s.tight && !s.junk
  }

  /** `is >> x`: the next token, setting eof without failing when the input
      ends right after it; a malformed token fails and stores zero; at the
      end of the input (or on a stream that is not good) the read fails and
      x keeps its previous value. */
  function Extract<T>(s: InStream<T>, prev: T, zero: T): (r: (InStream<T>, T))
    ensures Good(s) && |s.tokens| > 0 ==> r == (s.(tokens := s.tokens[1..], eof := EndsAtLast(s)), s.tokens[0])
    ensures !(Good(s) && |s.tokens| > 0) ==> r.0.fail && !Good(r.0)
    ensures r.0.eof == (s.eof || (Good(s) && (EndsAtLast(s) || (|s.tokens| == 0 && !s.junk))))
  {
    if !Good(s) then (s.(fail := true), prev)
    else if |s.tokens| > 0 then (s.(tokens := s.tokens[1..], eof := EndsAtLast(s)), s.tokens[0])
    else if s.junk then (s.(fail := true), zero)
    else (s.(fail := true, eof := true), prev)
  }

  /* ---------------------------------------------------------------------
     Matrices: scaling, single-entry updates, symmetry
     --------------------------------------------------------------------- */

  /** w * m. */
  function Scale(w: real, m: Mat): (r: Mat)
    requires m.Valid()
    ensures r.Valid() && r.rows == m.rows && r.cols == m.cols
    ensures forall i, j :: 0 <= i < m.rows && 0 <= j < m.cols ==> r.At(i, j) == w * m.At(i, j)
  {
    Mat(m.rows, m.cols, seq(m.cols, c requires 0 <= c < m.cols => seq(m.rows, r requires 0 <= r < m.rows => w * m.columns[c][r])))
  }

  /** w * v. */
  function ScaleVec(w: real, v: seq<real>): (r: seq<real>)
    ensures |r| == |v| && forall i :: 0 <= i < |v| ==> r[i] == w * v[i]
  {
    seq(|v|, i requires 0 <= i < |v| => w * v[i])
  }

  /** m with entry (i, j) replaced by x. */
  function Set(m: Mat, i: nat, j: nat, x: real): (r: Mat)
    requires m.Valid() && i < m.rows && j < m.cols
    ensures r.Valid() && r.rows == m.rows && r.cols == m.cols
  {
    Mat(m.rows, m.cols, m.columns[j := m.columns[j][i := x]])
  }

  /** Set changes entry (i, j) to x and nothing else. */
  lemma SetAt(m: Mat, i: nat, j: nat, x: real)
    requires m.Valid() && i < m.rows && j < m.cols
    ensures forall a, b :: 0 <= a < m.rows && 0 <= b < m.cols ==>
      Set(m, i, j, x).At(a, b) == if a == i && b == j then x else m.At(a, b)
  {
  }

  predicate Square(m: Mat, n: nat)
  {
    m.Valid() && m.rows == n && m.cols == n
  }

  predicate Symmetric(m: Mat)
  {
    m.Valid() && m.rows == m.cols && forall i, j :: 0 <= i < m.rows && 0 <= j < m.cols ==> m.At(i, j) == m.At(j, i)
  }

  /** Two matrices with the same shape and entries are the same matrix. */
  lemma MatEqual(a: Mat, b: Mat)
    requires a.Valid() && b.Valid() && a.rows == b.rows && a.cols == b.cols
    requires forall i, j :: 0 <= i < a.rows && 0 <= j < a.cols ==> a.At(i, j) == b.At(i, j)
    ensures a == b
  {
    forall c | 0 <= c < a.cols
      ensures a.columns[c] == b.columns[c]
    {
      forall r | 0 <= r < a.rows
        ensures a.columns[c][r] == b.columns[c][r]
      {
        assert a.At(r, c) == b.At(r, c);
      }
    }
  }

  /* ---------------------------------------------------------------------
     Chi-square and robust information
     --------------------------------------------------------------------- */

  /** error . (information * error): a zero error costs nothing. */
  function Chi2Of(info: Mat, e: seq<real>): (r: real)
    requires info.Valid() && info.rows == info.cols == |e|
    ensures (forall i :: 0 <= i < |e| ==> e[i] == 0.0) ==> r == 0.0
  {
    DotZeroLeft(e, MulVec(info, e));
    Dot(e, MulVec(info, e))
  }

  /** A zero left operand makes the dot product zero. */
  lemma {:induction false} DotZeroLeft(u: seq<real>, v: seq<real>)
    requires |u| == |v|
    ensures (forall i :: 0 <= i < |u| ==> u[i] == 0.0) ==> Dot(u, v) == 0.0
  {
    if |u| > 0 {
      DotZeroLeft(u[1..], v[1..]);
      if forall i :: 0 <= i < |u| ==> u[i] == 0.0 {
        assert forall i :: 0 <= i < |u| - 1 ==> u[1..][i] == u[i + 1];
      }
    }
  }

  lemma {:induction false} DotScaleRight(u: seq<real>, v: seq<real>, w: real)
    requires |u| == |v|
    ensures Dot(u, ScaleVec(w, v)) == w * Dot(u, v)
  {
    if |u| > 0 {
      forall k | 0 <= k < |v| - 1
        ensures ScaleVec(w, v)[1..][k] == ScaleVec(w, v[1..])[k]
      {
      }
      assert ScaleVec(w, v)[1..] == ScaleVec(w, v[1..]);
      DotScaleRight(u[1..], v[1..], w);
    }
  }

  /** The chi-square under rho[1] * information is rho[1] times the
      chi-square: the robust information reweights the error. */
  lemma Chi2Scaled(info: Mat, e: seq<real>, w: real)
    requires info.Valid() && info.rows == info.cols == |e|
    ensures Chi2Of(Scale(w, info), e) == w * Chi2Of(info, e)
  {
    var s := Scale(w, info);
    forall r | 0 <= r < info.rows
      ensures MulVec(s, e)[r] == w * MulVec(info, e)[r]
    {
      forall c | 0 <= c < info.cols
        ensures Row(s, r)[c] == ScaleVec(w, Row(info, r))[c]
      {
      }
      assert Row(s, r) == ScaleVec(w, Row(info, r));
      DotCommutes(Row(s, r), e);
      DotCommutes(Row(info, r), e);
      DotScaleRight(e, Row(info, r), w);
    }
    assert MulVec(s, e) == ScaleVec(w, MulVec(info, e));
    DotScaleRight(e, MulVec(info, e), w);
  }

  lemma {:induction false} DotSelfNonNegative(u: seq<real>)
    ensures Dot(u, u) >= 0.0
  {
    if |u| > 0 {
      DotSelfNonNegative(u[1..]);
      assert u[0] * u[0] >= 0.0;
    }
  }

  /** With the identity as information, chi2 is the squared norm of the
      error, never negative. */
  lemma Chi2Identity(e: seq<real>)
    ensures Chi2Of(Identity(|e|), e) == Dot(e, e) >= 0.0
  {
    IdentityMulVec(|e|, e);
    DotSelfNonNegative(e);
  }

  /* ---------------------------------------------------------------------
     The upper triangle, row by row
     --------------------------------------------------------------------- */

  /** A (row, column) position of the information matrix. */
  datatype Pos = Pos(i: nat, j: nat)

  /** Every position lies inside an n x n matrix. */
  predicate InBounds(n: nat, ps: seq<Pos>)
  {
    forall t :: 0 <= t < |ps| ==> ps[t].i < n && ps[t].j < n
  }

  /** The positions (i, i) .. (i, n - 1) of row i. */
  function RowPositions(n: nat, i: nat): (ps: seq<Pos>)
    ensures |ps| == if i < n then n - i else 0
    ensures forall t :: 0 <= t < |ps| ==> ps[t] == Pos(i, i + t)
  {
    if i < n then seq(n - i, t requires 0 <= t < n - i => Pos(i, i + t)) else []
  }

  /** The upper-triangle positions of rows from .. n - 1, row-major. */
  function UpperPositions(n: nat, from: nat): (ps: seq<Pos>)
    ensures InBounds(n, ps)
    ensures forall t :: 0 <= t < |ps| ==> from <= ps[t].i <= ps[t].j
    decreases n - from
  {
    if from < n then RowPositions(n, from) + UpperPositions(n, from + 1) else []
  }

  /** The last k rows hold k (k + 1) / 2 positions: all n rows hold
      n (n + 1) / 2. */
  lemma {:induction false} UpperPositionsCount(n: nat, from: nat)
    requires from <= n
    ensures 2 * |UpperPositions(n, from)| == (n - from) * (n - from + 1)
    decreases n - from
  {
    if from < n {
      UpperPositionsCount(n, from + 1);
      var k := n - from;
      assert (k - 1) * k + 2 * k == k * (k + 1);
    }
  }

  /** Every position on or above the diagonal in rows from .. n - 1 is
      listed. */
  lemma {:induction false} UpperPositionsCover(n: nat, from: nat, i: nat, j: nat)
    requires from <= i <= j < n
    ensures exists t :: 0 <= t < |UpperPositions(n, from)| && UpperPositions(n, from)[t] == Pos(i, j)
    decreases n - from
  {
    var row := RowPositions(n, from);
    var next := UpperPositions(n, from + 1);
    assert UpperPositions(n, from) == row + next;
    if i == from {
      assert (row + next)[j - i] == Pos(i, j);
    } else {
      UpperPositionsCover(n, from + 1, i, j);
      var t :| 0 <= t < |next| && next[t] == Pos(i, j);
      assert (row + next)[|row| + t] == Pos(i, j);
    }
  }

  lemma DropStep<T>(s: seq<T>, k: nat)
    requires k <= |s|
    ensures k < |s| ==> s[k..][0] == s[k] && s[k..][1..] == s[k + 1..]
    ensures k == |s| ==> s[k..] == []
  {
  }

  /** The entries of m at the positions ps. */
  function ValuesAt(m: Mat, ps: seq<Pos>): (vs: seq<real>)
    requires Square(m, m.rows) && InBounds(m.rows, ps)
    ensures |vs| == |ps| && forall t :: 0 <= t < |ps| ==> vs[t] == m.At(ps[t].i, ps[t].j)
  {
    seq(|ps|, t requires 0 <= t < |ps| => m.At(ps[t].i, ps[t].j))
  }

  /** One more position, one more value. */
  lemma ValuesAtSnoc(m: Mat, ps: seq<Pos>, p: Pos)
    requires Square(m, m.rows) && InBounds(m.rows, ps) && p.i < m.rows && p.j < m.rows
    ensures InBounds(m.rows, ps + [p])
    ensures ValuesAt(m, ps + [p]) == ValuesAt(m, ps) + [m.At(p.i, p.j)]
  {
    assert InBounds(m.rows, ps + [p]);
    var l, r := ValuesAt(m, ps + [p]), ValuesAt(m, ps) + [m.At(p.i, p.j)];
    forall t | 0 <= t < |l|
      ensures l[t] == r[t]
    {
      if t < |ps| {
        assert (ps + [p])[t] == ps[t];
      }
    }
  }

  /** The values at ps followed by more: big's value at the first
      position, then the values at the others followed by more. */
  lemma ValuesAtCons(m: Mat, ps: seq<Pos>, more: seq<real>)
    requires Square(m, m.rows) && InBounds(m.rows, ps) && |ps| > 0
    ensures InBounds(m.rows, ps[1..])
    ensures (ValuesAt(m, ps) + more)[0] == m.At(ps[0].i, ps[0].j)
    ensures (ValuesAt(m, ps) + more)[1..] == ValuesAt(m, ps[1..]) + more
  {
    assert InBounds(m.rows, ps[1..]);
    ConsAppend(ValuesAt(m, ps), more);
    assert ValuesAt(m, ps)[1..] == ValuesAt(m, ps[1..]);
  }

  /** The values at a + b are the values at a, then at b. */
  lemma ValuesAtAppend(m: Mat, a: seq<Pos>, b: seq<Pos>)
    requires Square(m, m.rows) && InBounds(m.rows, a) && InBounds(m.rows, b)
    ensures InBounds(m.rows, a + b)
    ensures ValuesAt(m, a + b) == ValuesAt(m, a) + ValuesAt(m, b)
  {
    assert InBounds(m.rows, a + b);
    var l, r := ValuesAt(m, a + b), ValuesAt(m, a) + ValuesAt(m, b);
    forall t | 0 <= t < |l|
      ensures l[t] == r[t]
    {
      if t < |a| {
        assert (a + b)[t] == a[t];
      } else {
        assert (a + b)[t] == b[t - |a|];
      }
    }
  }

  /** What writeInformationMatrix writes: the entries (i, j) with i <= j,
      row by row. */
  function UpperValues(m: Mat): (vs: seq<real>)
    requires Square(m, m.rows)
  {
    ValuesAt(m, UpperPositions(m.rows, 0))
  }

  /** Writing row i leaves the rows after it to write. */
  lemma WriteRowStep(m: Mat, i: nat, out: seq<real>, out': seq<real>)
    requires Square(m, m.rows) && i < m.rows
    requires out' == out + ValuesAt(m, RowPositions(m.rows, i))
    ensures out' + ValuesAt(m, UpperPositions(m.rows, i + 1)) == out + ValuesAt(m, UpperPositions(m.rows, i))
  {
    var n := m.rows;
    ValuesAtAppend(m, RowPositions(n, i), UpperPositions(n, i + 1));
    AppendAssoc(out, ValuesAt(m, RowPositions(n, i)), ValuesAt(m, UpperPositions(n, i + 1)));
  }

  /** The inner loop of writeInformationMatrix: row i from column i on,
      after what was already written. */
  method WriteRow(m: Mat, i: nat, out: seq<real>) returns (out': seq<real>)
    requires Square(m, m.rows) && i < m.rows
    ensures out' == out + ValuesAt(m, RowPositions(m.rows, i))
  {
    var n := m.rows;
    ghost var row := RowPositions(n, i);
    AppendSplit([], row, 0);
    out' := out;
    for j := i to n
      invariant InBounds(n, [] + row[..j - i])
      invariant out' == out + ValuesAt(m, [] + row[..j - i])
    {
      ValuesAtSnoc(m, [] + row[..j - i], Pos(i, j));
      TakeSnoc([], row, j - i);
      out' := out' + [m.At(i, j)];
    }
    AppendSplit([], row, n - i);
    EmptyAppend(row);
  }

  /** The loops of writeInformationMatrix: rows 0 .. n - 1, each from the
      diagonal on; n (n + 1) / 2 values in all. */
  method WriteUpperTriangle(m: Mat) returns (out: seq<real>)
    requires Square(m, m.rows)
    ensures out == UpperValues(m)
    ensures 2 * |out| == m.rows * (m.rows + 1)
  {
    var n := m.rows;
    out := [];
    EmptyAppend(UpperValues(m));
    var i := 0;
    while i < n
      invariant 0 <= i <= n
      invariant out + ValuesAt(m, UpperPositions(n, i)) == UpperValues(m)
    {
      var out' := WriteRow(m, i, out);
      WriteRowStep(m, i, out, out');
      out, i := out', i + 1;
    }
    assert UpperPositions(n, i) == [];
    EmptyAppend(out);
    UpperPositionsCount(n, 0);
  }

  /* ---------------------------------------------------------------------
     Reading the upper triangle back
     --------------------------------------------------------------------- */

  /** The information matrix and the stream while the reader runs. */
  datatype Reading = Reading(info: Mat, rest: InStream<real>)

  /** m with entry p, and its mirror when off the diagonal, set to x. */
  function SetSym(m: Mat, p: Pos, x: real): (r: Mat)
    requires Square(m, m.rows) && p.i < m.rows && p.j < m.rows
    ensures Square(r, m.rows)
  {
    var m' := Set(m, p.i, p.j, x);
    if p.i != p.j then Set(m', p.j, p.i, x) else m'
  }

  /** SetSym changes entry p and its mirror to x, and nothing else. */
  lemma SetSymAt(m: Mat, p: Pos, x: real)
    requires Square(m, m.rows) && p.i < m.rows && p.j < m.rows
    ensures forall a, b :: 0 <= a < m.rows && 0 <= b < m.rows ==>
      SetSym(m, p, x).At(a, b) == if Pos(a, b) == p || Pos(b, a) == p then x else m.At(a, b)
  {
    SetAt(m, p.i, p.j, x);
    SetAt(Set(m, p.i, p.j, x), p.j, p.i, x);
  }

  /** One read of the information reader: entry p from the stream, copied
      into the mirrored entry when off the diagonal. Positions outside the
      matrix, which the reader never produces, read nothing. */
  function ReadStep(r: Reading, p: Pos): (r': Reading)
    requires Square(r.info, r.info.rows)
    ensures Square(r'.info, r.info.rows)
  {
    if p.i < r.info.rows && p.j < r.info.rows then
      var e := Extract(r.rest, r.info.At(p.i, p.j), 0.0);
      Reading(SetSym(r.info, p, e.1), e.0)
    else r
  }

  /** readInformationMatrix over the positions ps: one read per position
      while the stream is good. */
  function ReadUpper(r: Reading, ps: seq<Pos>): (r': Reading)
    requires Square(r.info, r.info.rows)
    ensures Square(r'.info, r.info.rows)
    ensures !Good(r.rest) ==> r' == r
    decreases |ps|
  {
    if |ps| == 0 || !Good(r.rest) then r else ReadUpper(ReadStep(r, ps[0]), ps[1..])
  }

  /** Reading a + b is reading a, then b. */
  lemma {:induction false} ReadUpperAppend(r: Reading, a: seq<Pos>, b: seq<Pos>)
    requires Square(r.info, r.info.rows)
    ensures ReadUpper(r, a + b) == ReadUpper(ReadUpper(r, a), b)
    decreases |a|
  {
    if |a| > 0 && Good(r.rest) {
      ConsAppend(a, b);
      ReadUpperAppend(ReadStep(r, a[0]), a[1..], b);
    } else if |a| == 0 {
      EmptyAppend(b);
    }
  }

  /** r carries big's values at p and at its mirror. */
  predicate Holds(r: Mat, big: Mat, p: Pos)
    requires Square(r, r.rows) && Square(big, r.rows) && p.i < r.rows && p.j < r.rows
  {
    r.At(p.i, p.j) == big.At(p.i, p.j) && r.At(p.j, p.i) == big.At(p.j, p.i)
  }

  predicate AgreesOn(r: Mat, big: Mat, ps: seq<Pos>)
    requires Square(r, r.rows) && Square(big, r.rows) && InBounds(r.rows, ps)
  {
    forall t :: 0 <= t < |ps| ==> Holds(r, big, ps[t])
  }

  /** Writing big's value at p (and its mirror) keeps what was agreed and
      adds p, big being symmetric. */
  lemma SetSymAgrees(m: Mat, big: Mat, ps: seq<Pos>, p: Pos)
    requires Symmetric(big) && Square(m, big.rows) && InBounds(m.rows, ps) && p.i < m.rows && p.j < m.rows
    requires AgreesOn(m, big, ps)
    ensures InBounds(m.rows, ps + [p]) && AgreesOn(SetSym(m, p, big.At(p.i, p.j)), big, ps + [p])
  {
    var r := SetSym(m, p, big.At(p.i, p.j));
    SetSymAt(m, p, big.At(p.i, p.j));
    assert InBounds(m.rows, ps + [p]);
    forall t | 0 <= t < |ps + [p]|
      ensures Holds(r, big, (ps + [p])[t])
    {
      if t < |ps| {
        assert Holds(m, big, ps[t]);
      }
    }
  }

  /** Reading big's values at the positions ps followed by more, from a
      matrix that already agrees with big on pre: it then agrees on pre and
      ps, and exactly more is left. */
  lemma {:induction false} ReadValues(big: Mat, m: Mat, pre: seq<Pos>, ps: seq<Pos>, more: seq<real>, junk: bool)
    requires Symmetric(big) && Square(m, big.rows) && InBounds(big.rows, pre) && InBounds(big.rows, ps)
    requires AgreesOn(m, big, pre)
    ensures InBounds(big.rows, pre + ps)
    ensures var r := ReadUpper(Reading(m, Open(ValuesAt(big, ps) + more, junk)), ps);
      r.rest == Open(more, junk) && AgreesOn(r.info, big, pre + ps)
    decreases |ps|
  {
    var tokens := ValuesAt(big, ps) + more;
    if |ps| > 0 {
      var p := ps[0];
      SetSymAgrees(m, big, pre, p);
      ValuesAtCons(big, ps, more);
      ReadValues(big, SetSym(m, p, big.At(p.i, p.j)), pre + [p], ps[1..], more, junk);
      MoveHead(pre, ps);
    } else {
      assert ps == [];
      EmptyAppend(more);
      EmptyAppend(pre);
    }
  }

  /** After reading every position of a symmetric big, the matrix is big. */
  lemma AgreesEverywhere(big: Mat, r: Mat)
    requires Symmetric(big) && Square(r, big.rows)
    requires AgreesOn(r, big, UpperPositions(big.rows, 0))
    ensures r == big
  {
    var n := big.rows;
    var ps := UpperPositions(n, 0);
    forall i, j | 0 <= i < n && 0 <= j < n
      ensures r.At(i, j) == big.At(i, j)
    {
      var a, b := if i <= j then i else j, if i <= j then j else i;
      UpperPositionsCover(n, 0, a, b);
      var t :| 0 <= t < |ps| && ps[t] == Pos(a, b);
      assert Holds(r, big, ps[t]);
    }
    MatEqual(r, big);
  }

  /** Reading back what writeInformationMatrix wrote from a symmetric
      matrix reproduces it, whatever the matrix held before, and leaves the
      stream good after the last entry. */
  lemma ReadWriteInformation(big: Mat, m: Mat, rest: seq<real>, junk: bool)
    requires Symmetric(big) && Square(m, big.rows)
    ensures ReadUpper(Reading(m, Open(UpperValues(big) + rest, junk)), UpperPositions(big.rows, 0))
         == Reading(big, Open(rest, junk))
  {
    var ps := UpperPositions(big.rows, 0);
    ReadValues(big, m, [], ps, rest, junk);
    EmptyAppend(ps);
    AgreesEverywhere(big, ReadUpper(Reading(m, Open(UpperValues(big) + rest, junk)), ps).info);
  }

  /** Reading the information matrix keeps a symmetric matrix symmetric,
      whatever the stream holds. */
  lemma {:induction false} ReadKeepsSymmetry(r: Reading, ps: seq<Pos>)
    requires Symmetric(r.info)
    ensures Symmetric(ReadUpper(r, ps).info)
    decreases |ps|
  {
    if |ps| > 0 && Good(r.rest) {
      var p := ps[0];
      if p.i < r.info.rows && p.j < r.info.rows {
        SetSymAt(r.info, p, Extract(r.rest, r.info.At(p.i, p.j), 0.0).1);
      }
      ReadKeepsSymmetry(ReadStep(r, ps[0]), ps[1..]);
    }
  }

  /** When the input ends right after its last token, the reader stops at
      that token: the read that takes it sets eof without failing, so no
      further read is attempted and no further entry is mirrored. */
  lemma {:induction false} ReadStopsAtTightEnd(r: Reading, ps: seq<Pos>)
    requires Square(r.info, r.info.rows) && InBounds(r.info.rows, ps)
    requires Good(r.rest) && r.rest.tight && !r.rest.junk && 0 < |r.rest.tokens| <= |ps|
    ensures ReadUpper(r, ps) == ReadUpper(r, ps[..|r.rest.tokens|])
    ensures ReadUpper(r, ps).rest == r.rest.(tokens := [], eof := true)
    decreases |ps|
  {
    var k := |r.rest.tokens|;
    var next := ReadStep(r, ps[0]);
    assert ps[..k][0] == ps[0];
    if k == 1 {
      assert ps[..k][1..] == [];
    } else {
      assert InBounds(r.info.rows, ps[1..]);
      ReadStopsAtTightEnd(next, ps[1..]);
      assert ps[..k][1..] == ps[1..][..k - 1];
    }
  }

  /** A 3 x 3 matrix whose (0, 2) and (2, 0) entries differ, read from the
      two values 1 and 2: (0, 0) becomes 1 and (0, 1), (1, 0) become 2. If
      the input ends right after the 2, the reader stops there and (2, 0)
      keeps its value; if a blank follows, one more read fails and its
      mirror copy still runs, so (2, 0) takes the old (0, 2). Both end at
      eof, so both count as a successful read. */
  lemma TightEndKeepsMirror()
    ensures var m := Mat(3, 3, [[0.0, 0.0, 7.0], [0.0, 0.0, 0.0], [5.0, 0.0, 0.0]]);
      var tight := ReadUpper(Reading(m, InStream([1.0, 2.0], false, true, false, false)), UpperPositions(3, 0));
      var blank := ReadUpper(Reading(m, Open([1.0, 2.0], false)), UpperPositions(3, 0));
      Square(tight.info, 3) && Square(blank.info, 3) &&
      tight.info.At(0, 0) == blank.info.At(0, 0) == 1.0 &&
      tight.info.At(1, 0) == blank.info.At(1, 0) == 2.0 &&
      tight.info.At(2, 0) == 7.0 && blank.info.At(2, 0) == 5.0 &&
      tight.rest.eof && !tight.rest.fail && blank.rest.eof && blank.rest.fail
  {
    var m := Mat(3, 3, [[0.0, 0.0, 7.0], [0.0, 0.0, 0.0], [5.0, 0.0, 0.0]]);
    var ps := UpperPositions(3, 0);
    assert ps[..3] == [Pos(0, 0), Pos(0, 1), Pos(0, 2)] by {
      assert ps == RowPositions(3, 0) + UpperPositions(3, 1);
    }
    var t := Reading(m, InStream([1.0, 2.0], false, true, false, false));
    ReadStopsAtTightEnd(t, ps);
    assert ps[..2] == [Pos(0, 0), Pos(0, 1)];
    var t1 := ReadStep(t, Pos(0, 0));
    var t2 := ReadStep(t1, Pos(0, 1));
    assert ReadUpper(t, ps[..2]) == t2;
    SetSymAt(m, Pos(0, 0), 1.0);
    SetSymAt(t1.info, Pos(0, 1), 2.0);
    var b := Reading(m, Open([1.0, 2.0], false));
    var b1 := ReadStep(b, Pos(0, 0));
    var b2 := ReadStep(b1, Pos(0, 1));
    var b3 := ReadStep(b2, Pos(0, 2));
    ReadUpperAppend(b, ps[..3], ps[3..]);
    assert ps[..3] + ps[3..] == ps;
    var three := [Pos(0, 0), Pos(0, 1), Pos(0, 2)];
    assert Good(b1.rest) && Good(b2.rest) && b2.rest.tokens == [];
    assert three[1..] == [Pos(0, 1), Pos(0, 2)] && three[1..][1..] == [Pos(0, 2)];
    assert ReadUpper(b2, [Pos(0, 2)]) == b3;
    assert ReadUpper(b1, three[1..]) == b3;
    assert ReadUpper(b, ps[..3]) == b3;
    SetSymAt(m, Pos(0, 0), 1.0);
    SetSymAt(b1.info, Pos(0, 1), 2.0);
    SetSymAt(b2.info, Pos(0, 2), 5.0);
  }

  /** Reading from a good stream with positions left is one read step,
      then the rest. */
  lemma ReadUpperCons(r: Reading, ps: seq<Pos>, k: nat)
    requires Square(r.info, r.info.rows) && Good(r.rest) && k < |ps|
    ensures ReadUpper(r, ps[k..]) == ReadUpper(ReadStep(r, ps[k]), ps[k + 1..])
  {
    DropStep(ps, k);
  }

  /** One iteration of the inner reading loop: `is >> information(i, j)`,
      then the mirrored entry. */
  method ReadEntry(m: Mat, s: InStream<real>, i: nat, j: nat) returns (m': Mat, s': InStream<real>)
    requires Square(m, m.rows) && i < m.rows && j < m.rows
    ensures Reading(m', s') == ReadStep(Reading(m, s), Pos(i, j))
  {
    var e := Extract(s, m.At(i, j), 0.0);
    s' := e.0;
    m' := SetSym(m, Pos(i, j), e.1);
  }

  /** The inner loop of readInformationMatrix: row i from column i on,
      while the stream is good. */
  method ReadRow(m: Mat, s: InStream<real>, i: nat) returns (m': Mat, s': InStream<real>)
    requires Square(m, m.rows) && i < m.rows
    ensures Reading(m', s') == ReadUpper(Reading(m, s), RowPositions(m.rows, i))
  {
    var n := m.rows;
    ghost var row := RowPositions(n, i);
    m', s' := m, s;
    var j := i;
    while j < n && Good(s')
      invariant i <= j <= n && Square(m', n)
      invariant ReadUpper(Reading(m', s'), row[j - i..]) == ReadUpper(Reading(m, s), row)
    {
      ReadUpperCons(Reading(m', s'), row, j - i);
      m', s' := ReadEntry(m', s', i, j);
      j := j + 1;
    }
    DropStep(row, j - i);
  }

  /** The loops of readInformationMatrix: rows 0 .. n - 1, while the
      stream is good. */
  method ReadUpperTriangle(m: Mat, s: InStream<real>) returns (m': Mat, s': InStream<real>)
    requires Square(m, m.rows)
    ensures Reading(m', s') == ReadUpper(Reading(m, s), UpperPositions(m.rows, 0))
  {
    var n := m.rows;
    m', s' := m, s;
    var i := 0;
    while i < n && Good(s')
      invariant 0 <= i <= n && Square(m', n)
      invariant ReadUpper(Reading(m', s'), UpperPositions(n, i)) == ReadUpper(Reading(m, s), UpperPositions(n, 0))
    {
      ReadUpperAppend(Reading(m', s'), RowPositions(n, i), UpperPositions(n, i + 1));
      m', s' := ReadRow(m', s', i);
      i := i + 1;
    }
  }

  /* ---------------------------------------------------------------------
     The edge
     --------------------------------------------------------------------- */

  class BaseEdge {
    /** D: the compile-time error dimension, -1 for dynamically sized edges. */
    const fixedDimension: int
    var dimension: int
    var information: Mat
    var error: seq<real>
    /** parameterIds_ of OptimizableGraph::Edge. */
    var parameterIds: seq<int>
    /** Whether parameters_[i] still points at a resolved parameter. */
    var resolved: seq<bool>

    /** The information matrix is square and as long as the error vector,
        with one resolved flag per parameter id. */
    ghost predicate Valid()
      reads this
    {
      information.Valid() && information.rows == information.cols == |error| &&
      (dimension >= 0 ==> |error| == dimension) && (dimension < 0 ==> |error| == 0) &&
      |resolved| == |parameterIds|
    }

    /** BaseEdge(): dimension_ = D, with D x D information and error (empty
        for a dynamic edge) and numParameters parameter slots. */
    constructor (d: int, numParameters: nat)
      requires d >= -1
      ensures Valid() && fixedDimension == d && dimension == d
      ensures |parameterIds| == numParameters
    {
      var size := if d >= 0 then d else 0;
      fixedDimension := d;
      dimension := d;
      information := Zero(size, size);
      error := Zeros(size);
      parameterIds := seq(numParameters, _ => -1);
      resolved := seq(numParameters, _ => false);
    }

    /** chi2(): error . (information * error). */
    function Chi2(): (c: real)
      requires Valid()
      reads this
    {
      Chi2Of(information, error)
    }

    /** robustInformation(rho): rho[1] * information; the second-order term
        is not applied. */
    function RobustInformation(rho: (real, real, real)): (r: Mat)
      requires Valid()
      reads this
      ensures Square(r, information.rows)
      ensures forall i, j :: 0 <= i < r.rows && 0 <= j < r.cols ==> r.At(i, j) == rho.1 * information.At(i, j)
      ensures Chi2Of(r, error) == rho.1 * Chi2()
    {
      Chi2Scaled(information, error, rho.1);
      Scale(rho.1, information)
    }

    /** setDimension(dim), only for dynamic edges: dim x dim information and
        an error vector of length dim, with unspecified contents. */
    method SetDimension(dim: nat)
      requires Valid() && fixedDimension == -1
      modifies this
      ensures Valid() && dimension == dim && Square(information, dim) && |error| == dim
      ensures parameterIds == old(parameterIds) && resolved == old(resolved)
    {
      dimension := dim;
      // resize leaves the coefficients uninitialised: the contract says
      // nothing about them
      information := Zero(dim, dim);
      error := Zeros(dim);
    }

    /** writeInformationMatrix: the upper triangle, row by row. */
    method WriteInformationMatrix() returns (out: seq<real>)
      requires Valid()
      ensures out == UpperValues(information)
      ensures 2 * |out| == information.rows * (information.rows + 1)
    {
      out := WriteUpperTriangle(information);
    }

    /** readInformationMatrix: reads entry (i, j) for i <= j row by row
        while the stream is good, mirroring it into (j, i); succeeds when the
        stream is good or at its end. */
    method ReadInformationMatrix(s: InStream<real>) returns (ok: bool, s': InStream<real>)
      requires Valid()
      modifies this
      ensures Valid() && dimension == old(dimension) && error == old(error)
      ensures parameterIds == old(parameterIds) && resolved == old(resolved)
      ensures Reading(information, s') == ReadUpper(Reading(old(information), s), UpperPositions(information.rows, 0))
      ensures ok == (Good(s') || s'.eof)
    {
      information, s' := ReadUpperTriangle(information, s);
      ok := Good(s') || s'.eof;
    }

    /** setParameterId(argNum, paramId): out of range it changes nothing and
        fails; otherwise it stores the id and drops the resolved parameter. */
    method SetParameterId(argNum: int, paramId: int) returns (ok: bool)
      requires Valid()
      modifies this
      ensures Valid() && ok == (0 <= argNum < |old(parameterIds)|)
      ensures ok ==> parameterIds == old(parameterIds)[argNum := paramId] && resolved == old(resolved)[argNum := false]
      ensures !ok ==> parameterIds == old(parameterIds) && resolved == old(resolved)
      ensures information == old(information) && error == old(error) && dimension == old(dimension)
    {
      if |resolved| <= argNum {
        return false;
      }
      if argNum < 0 {
        return false;
      }
      resolved := resolved[argNum := false];
      parameterIds := parameterIds[argNum := paramId];
      return true;
    }

    /** writeParamIds: every parameter id, in order. */
    method WriteParamIds() returns (out: seq<int>)
      ensures out == parameterIds
    {
      out := [];
      for i := 0 to |parameterIds|
        invariant out == parameterIds[..i]
      {
        out := out + [parameterIds[i]];
      }
    }

    /** readParamIds: one read per parameter slot, each handed to
        setParameterId whether or not the read succeeded (a failed read at
        the end of the input leaves the id uninitialised); succeeds when the
        stream is good or at its end. */
    method ReadParamIds(s: InStream<int>) returns (ok: bool, s': InStream<int>)
      requires Valid()
      modifies this
      ensures Valid() && information == old(information) && error == old(error) && dimension == old(dimension)
      ensures |parameterIds| == |old(parameterIds)| && forall i :: 0 <= i < |resolved| ==> !resolved[i]
      ensures Good(s) ==> forall i :: 0 <= i < |parameterIds| && i < |s.tokens| ==> parameterIds[i] == s.tokens[i]
      ensures Good(s) && |parameterIds| <= |s.tokens| ==>
        s' == s.(tokens := s.tokens[|parameterIds|..], eof := 0 < |parameterIds| == |s.tokens| && s.tight && !s.junk) && ok
      ensures Good(s) && |s.tokens| < |parameterIds| ==>
        s' == s.(tokens := [], fail := true, eof := !s.junk) && (ok <==> !s.junk)
      ensures !Good(s) ==> s' == (if |parameterIds| == 0 then s else s.(fail := true))
      ensures !Good(s) ==> (ok <==> s.eof)
      ensures ok == (Good(s') || s'.eof)
    {
      s' := s;
      var count := |parameterIds|;
      for i := 0 to count
        invariant Valid() && |parameterIds| == count
        invariant information == old(information) && error == old(error) && dimension == old(dimension)
        invariant forall k :: 0 <= k < i ==> !resolved[k]
        invariant Good(s) ==> forall k :: 0 <= k < i && k < |s.tokens| ==> parameterIds[k] == s.tokens[k]
        invariant Good(s) && i <= |s.tokens| ==> s' == s.(tokens := s.tokens[i..], eof := 0 < i == |s.tokens| && s.tight && !s.junk)
        invariant Good(s) && i > |s.tokens| ==> s' == s.(tokens := [], fail := true, eof := !s.junk)
        invariant !Good(s) ==> s' == (if i == 0 then s else s.(fail := true))
      {
        var uninitialised: int :| true;
        var r := Extract(s', uninitialised, 0);
        var paramId := r.1;
        s' := r.0;
        var _ := SetParameterId(i, paramId);
      }
      ok := Good(s') || s'.eof;
    }
  }
}
