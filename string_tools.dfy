/** String helpers of g2o/stuff/string_tools.cpp: trimming, ASCII case
    mapping, splitting on a set of delimiter characters, prefix and suffix
    tests. A C++ std::string is a sequence of characters here; the position
    std::string::npos is Option.None. */
module StringTools {
  import opened Wrappers

  /** The characters the trim functions strip: " \t\n". */
  const Blanks: seq<char> := [' ', '\t', '\n']

  predicate IsBlank(c: char) { c in Blanks }

  predicate AllBlank(s: string) { forall i :: 0 <= i < |s| ==> IsBlank(s[i]) }

  /** std::string::find_first_not_of(chars, from). */
  function FindFirstNotOf(s: string, chars: seq<char>, from: nat): (r: Option<nat>)
    decreases |s| - from
    ensures r.Some? ==> from <= r.value < |s| && s[r.value] !in chars
    ensures forall k :: from <= k < |s| && (r.None? || k < r.value) ==> s[k] in chars
  {
    if from >= |s| then None
    else if s[from] !in chars then Some(from)
    else FindFirstNotOf(s, chars, from + 1)
  }

  /** std::string::find_first_of(chars, from). */
  function FindFirstOf(s: string, chars: seq<char>, from: nat): (r: Option<nat>)
    decreases |s| - from
    ensures r.Some? ==> from <= r.value < |s| && s[r.value] in chars
    ensures forall k :: from <= k < |s| && (r.None? || k < r.value) ==> s[k] !in chars
  {
    if from >= |s| then None
    else if s[from] in chars then Some(from)
    else FindFirstOf(s, chars, from + 1)
  }

  /** std::string::find_last_not_of(chars). */
  function FindLastNotOf(s: string, chars: seq<char>): (r: Option<nat>)
    ensures r.Some? ==> r.value < |s| && s[r.value] !in chars
    ensures forall k :: 0 <= k < |s| && (r.None? || r.value < k) ==> s[k] in chars
  {
    if |s| == 0 then None
    else if s[|s| - 1] !in chars then Some(|s| - 1)
    else FindLastNotOf(s[..|s| - 1], chars)
  }

  /** std::string::find_last_of(chars). */
  function FindLastOf(s: string, chars: seq<char>): (r: Option<nat>)
    ensures r.Some? ==> r.value < |s| && s[r.value] in chars
    ensures forall k :: 0 <= k < |s| && (r.None? || r.value < k) ==> s[k] !in chars
  {
    if |s| == 0 then None
    else if s[|s| - 1] in chars then Some(|s| - 1)
    else FindLastOf(s[..|s| - 1], chars)
  }

  /** trim: drops leading and trailing blanks. */
  function Trim(s: string): (r: string)
    ensures AllBlank(s) ==> r == ""
    ensures r != "" ==> !IsBlank(r[0]) && !IsBlank(r[|r| - 1])
    ensures |r| <= |s|
  {
    if |s| == 0 then s
    else
      var b := FindFirstNotOf(s, Blanks, 0);
      var e := FindLastNotOf(s, Blanks);
      if b.None? then ""
      else
        assert e.Some? && b.value <= e.value;
        s[b.value..e.value + 1]
  }

  /** trimLeft: drops leading blanks and keeps everything up to the end. */
  function TrimLeft(s: string): (r: string)
    ensures AllBlank(s) ==> r == ""
    ensures r != "" ==> !IsBlank(r[0])
    ensures exists b :: 0 <= b <= |s| && r == s[b..] && AllBlank(s[..b])
  {
    if |s| == 0 then
      assert s == s[0..] && AllBlank(s[..0]);
      s
    else
      var b := FindFirstNotOf(s, Blanks, 0);
      if b.None? then
        assert s[|s|..] == "" && s[..|s|] == s;
        ""
      else
        assert AllBlank(s[..b.value]);
        s[b.value..]
  }

  /** trimRight: drops trailing blanks and keeps everything from index 0. */
  function TrimRight(s: string): (r: string)
    ensures AllBlank(s) ==> r == ""
    ensures r != "" ==> !IsBlank(r[|r| - 1])
    ensures exists e :: 0 <= e <= |s| && r == s[..e] && AllBlank(s[e..])
  {
    if |s| == 0 then
      assert s == s[..0] && AllBlank(s[0..]);
      s
    else
      var e := FindLastNotOf(s, Blanks);
      if e.None? then
        assert s[..0] == "" && s[0..] == s;
        ""
      else
        assert AllBlank(s[e.value + 1..]);
        s[..e.value + 1]
  }

  /** Trimming removes blanks only: s is the result with blank runs around it. */
  lemma TrimStripsOnlyBlanks(s: string)
    ensures exists b :: 0 <= b && b + |Trim(s)| <= |s| && Trim(s) == s[b..b + |Trim(s)|]
                        && AllBlank(s[..b]) && AllBlank(s[b + |Trim(s)|..])
  {
    if |s| == 0 {
      assert Trim(s) == s[0..0] && AllBlank(s[..0]) && AllBlank(s[0..]);
    } else {
      var b := FindFirstNotOf(s, Blanks, 0);
      var e := FindLastNotOf(s, Blanks);
      if b.None? {
        assert Trim(s) == s[0..0] && AllBlank(s[..0]) && AllBlank(s[0..]);
      } else {
        assert e.Some? && b.value <= e.value;
        assert Trim(s) == s[b.value..e.value + 1];
        assert AllBlank(s[..b.value]);
        assert AllBlank(s[e.value + 1..]);
      }
    }
  }

  /** Trimming twice is the same as trimming once. */
  lemma TrimIdempotent(s: string)
    ensures Trim(Trim(s)) == Trim(s)
  {
    var t := Trim(s);
    if t != "" {
      assert FindFirstNotOf(t, Blanks, 0) == Some(0);
      assert FindLastNotOf(t, Blanks) == Some(|t| - 1);
      assert t[0..|t|] == t;
    }
  }

  /** std::tolower in the "C" locale. */
  function LowerChar(c: char): char
  {
    if 'A' <= c <= 'Z' then (c as int + 32) as char else c
  }

  /** std::toupper in the "C" locale. */
  function UpperChar(c: char): char
  {
    if 'a' <= c <= 'z' then (c as int - 32) as char else c
  }

  /** strToLower: builds the result one mapped character at a time. */
  method StrToLower(s: string) returns (ret: string)
    ensures |ret| == |s|
    ensures forall i :: 0 <= i < |s| ==> ret[i] == LowerChar(s[i])
  {
    ret := "";
    for i := 0 to |s|
      invariant |ret| == i
      invariant forall k :: 0 <= k < i ==> ret[k] == LowerChar(s[k])
    {
      ret := ret + [LowerChar(s[i])];
    }
  }

  /** strToUpper: builds the result one mapped character at a time. */
  method StrToUpper(s: string) returns (ret: string)
    ensures |ret| == |s|
    ensures forall i :: 0 <= i < |s| ==> ret[i] == UpperChar(s[i])
  {
    ret := "";
    for i := 0 to |s|
      invariant |ret| == i
      invariant forall k :: 0 <= k < i ==> ret[k] == UpperChar(s[k])
    {
      ret := ret + [UpperChar(s[i])];
    }
  }

  /** Lower-casing a character leaves no upper-case ASCII letter, and the
      mapping is idempotent. */
  lemma LowerCharProperties(c: char)
    ensures !('A' <= LowerChar(c) <= 'Z')
    ensures LowerChar(LowerChar(c)) == LowerChar(c)
    ensures UpperChar(LowerChar(c)) == UpperChar(c)
  {
  }

  /** The tokens strSplit produces from position `from` on. */
  function TokensFrom(s: string, delimiters: seq<char>, from: nat): seq<string>
    requires from <= |s|
    decreases |s| - from
  {
    match FindFirstOf(s, delimiters, from)
    case None => [s[from..]]
    case Some(p) => [s[from..p]] + TokensFrom(s, delimiters, p + 1)
  }

  /** strSplit as a value: no tokens for the empty string. */
  function Split(s: string, delimiters: seq<char>): seq<string>
  {
    if s == "" then [] else TokensFrom(s, delimiters, 0)
  }

  /** strSplit: the do-while loop over find_first_of. */
  method StrSplit(str: string, delimiters: seq<char>) returns (tokens: seq<string>)
    ensures tokens == Split(str, delimiters)
  {
    tokens := [];
    if str == "" { return; }
    var lastPos: nat := 0;
    var pos: Option<nat> := None;
    while true
      invariant lastPos <= |str|
      invariant tokens + TokensFrom(str, delimiters, lastPos) == TokensFrom(str, delimiters, 0)
      decreases |str| - lastPos
    {
      pos := FindFirstOf(str, delimiters, lastPos);
      if pos.None? {
        tokens := tokens + [str[lastPos..]];
        return;
      }
      tokens := tokens + [str[lastPos..pos.value]];
      lastPos := pos.value + 1;
    }
  }

  /** Number of characters of s that are delimiters. */
  function CountIn(s: string, delimiters: seq<char>): nat
  {
    if s == "" then 0
    else (if s[0] in delimiters then 1 else 0) + CountIn(s[1..], delimiters)
  }

  /** The delimiter characters of s, in order. */
  function DelimitersOf(s: string, delimiters: seq<char>): (r: seq<char>)
    ensures |r| == CountIn(s, delimiters)
  {
    if s == "" then []
    else (if s[0] in delimiters then [s[0]] else []) + DelimitersOf(s[1..], delimiters)
  }

  /** Interleaves tokens with the separators between them. */
  function Join(tokens: seq<string>, separators: seq<char>): string
    requires |tokens| == |separators| + 1
  {
    if |separators| == 0 then tokens[0]
    else tokens[0] + [separators[0]] + Join(tokens[1..], separators[1..])
  }

  lemma {:induction false} CountInAppend(a: string, b: string, delimiters: seq<char>)
    ensures CountIn(a + b, delimiters) == CountIn(a, delimiters) + CountIn(b, delimiters)
    ensures DelimitersOf(a + b, delimiters) == DelimitersOf(a, delimiters) + DelimitersOf(b, delimiters)
  {
    if a != "" {
      assert (a + b)[1..] == a[1..] + b;
      CountInAppend(a[1..], b, delimiters);
    } else {
      assert a + b == b;
    }
  }

  lemma {:induction false} NoDelimiters(s: string, delimiters: seq<char>)
    requires forall k :: 0 <= k < |s| ==> s[k] !in delimiters
    ensures CountIn(s, delimiters) == 0 && DelimitersOf(s, delimiters) == []
  {
    if s != "" { NoDelimiters(s[1..], delimiters); }
  }

  /** Splitting at the first delimiter p of s[from..]. */
  lemma SplitAtDelimiter(s: string, delimiters: seq<char>, from: nat, p: nat)
    requires from <= p < |s| && s[p] in delimiters
    requires forall k :: from <= k < p ==> s[k] !in delimiters
    ensures CountIn(s[from..], delimiters) == 1 + CountIn(s[p + 1..], delimiters)
    ensures DelimitersOf(s[from..], delimiters) == [s[p]] + DelimitersOf(s[p + 1..], delimiters)
  {
    assert s[from..] == s[from..p] + s[p..];
    CountInAppend(s[from..p], s[p..], delimiters);
    NoDelimiters(s[from..p], delimiters);
    assert s[p..][1..] == s[p + 1..];
  }

  /** Where find_first_of finds nothing, the rest holds no delimiter. */
  lemma NoneFound(s: string, delimiters: seq<char>, from: nat)
    requires from <= |s| && FindFirstOf(s, delimiters, from).None?
    ensures CountIn(s[from..], delimiters) == 0 && DelimitersOf(s[from..], delimiters) == []
  {
    NoDelimiters(s[from..], delimiters);
  }

  /** Where find_first_of finds p, the rest holds s[p] and what follows it. */
  lemma SomeFound(s: string, delimiters: seq<char>, from: nat, p: nat)
    requires FindFirstOf(s, delimiters, from) == Some(p)
    ensures from <= p < |s|
    ensures CountIn(s[from..], delimiters) == 1 + CountIn(s[p + 1..], delimiters)
    ensures DelimitersOf(s[from..], delimiters) == [s[p]] + DelimitersOf(s[p + 1..], delimiters)
  {
    SplitAtDelimiter(s, delimiters, from, p);
  }

  /** For a non-empty string there is one more token than delimiter characters. */
  lemma {:induction false} TokenCount(s: string, delimiters: seq<char>, from: nat)
    requires from <= |s|
    ensures |TokensFrom(s, delimiters, from)| == 1 + CountIn(s[from..], delimiters)
    decreases |s| - from
  {
    match FindFirstOf(s, delimiters, from)
    case None =>
      NoneFound(s, delimiters, from);
    case Some(p) =>
      SomeFound(s, delimiters, from, p);
      TokenCount(s, delimiters, p + 1);
  }

  /** No token contains a delimiter character. */
  lemma {:induction false} TokensHaveNoDelimiters(s: string, delimiters: seq<char>, from: nat)
    requires from <= |s|
    ensures forall t, k :: t in TokensFrom(s, delimiters, from) && 0 <= k < |t| ==> t[k] !in delimiters
    decreases |s| - from
  {
    match FindFirstOf(s, delimiters, from)
    case None =>
    case Some(p) =>
      TokensHaveNoDelimiters(s, delimiters, p + 1);
  }

  lemma JoinCons(first: string, rest: seq<string>, c: char, restSeps: seq<char>)
    requires |rest| == |restSeps| + 1
    ensures Join([first] + rest, [c] + restSeps) == first + [c] + Join(rest, restSeps)
  {
    assert ([first] + rest)[1..] == rest;
    assert ([c] + restSeps)[1..] == restSeps;
  }

  /** Interleaving the tokens with the delimiters they were split on gives back
      the input. */
  lemma {:induction false} SplitJoin(s: string, delimiters: seq<char>, from: nat)
    requires from <= |s|
    ensures |TokensFrom(s, delimiters, from)| == |DelimitersOf(s[from..], delimiters)| + 1
    ensures Join(TokensFrom(s, delimiters, from), DelimitersOf(s[from..], delimiters)) == s[from..]
    decreases |s| - from
  {
    TokenCount(s, delimiters, from);
    match FindFirstOf(s, delimiters, from)
    case None =>
      NoneFound(s, delimiters, from);
      assert TokensFrom(s, delimiters, from) == [s[from..]];
    case Some(p) =>
      SomeFound(s, delimiters, from, p);
      SplitJoin(s, delimiters, p + 1);
      var rest, restSeps := TokensFrom(s, delimiters, p + 1), DelimitersOf(s[p + 1..], delimiters);
      assert TokensFrom(s, delimiters, from) == [s[from..p]] + rest;
      JoinCons(s[from..p], rest, s[p], restSeps);
      SliceAround(s, from, p);
  }

  lemma SliceAround(s: string, from: nat, p: nat)
    requires from <= p < |s|
    ensures s[from..] == s[from..p] + [s[p]] + s[p + 1..]
  {
  }

  /** strSplit of the empty string is empty; of any other string it has one
      more token than delimiter characters and rebuilds the input. */
  lemma SplitProperties(s: string, delimiters: seq<char>)
    ensures s == "" ==> Split(s, delimiters) == []
    ensures s != "" ==> |Split(s, delimiters)| == 1 + CountIn(s, delimiters)
    ensures s != "" ==> Join(Split(s, delimiters), DelimitersOf(s, delimiters)) == s
  {
    if s != "" {
      assert s[0..] == s;
      SplitJoin(s, delimiters, 0);
    }
  }

  /** A trailing delimiter yields a final empty token. */
  lemma {:induction false} TrailingDelimiterGivesEmptyToken(s: string, delimiters: seq<char>, from: nat)
    requires from <= |s| && |s| > 0 && s[|s| - 1] in delimiters
    ensures var ts := TokensFrom(s, delimiters, from); ts[|ts| - 1] == ""
    decreases |s| - from
  {
    match FindFirstOf(s, delimiters, from)
    case None =>
      assert from == |s|;
      assert TokensFrom(s, delimiters, from) == [s[from..]];
    case Some(p) =>
      TrailingDelimiterGivesEmptyToken(s, delimiters, p + 1);
      var rest := TokensFrom(s, delimiters, p + 1);
      var ts := TokensFrom(s, delimiters, from);
      assert ts == [s[from..p]] + rest;
      assert ts[|ts| - 1] == rest[|rest| - 1];
  }

  /** Splitting "lhs" + c + "rhs" on c, where neither side holds c, gives
      the two sides. */
  lemma SplitAroundSeparator(lhs: string, rhs: string, c: char)
    requires c !in lhs && c !in rhs
    ensures Split(lhs + [c] + rhs, [c]) == [lhs, rhs]
  {
    var s := lhs + [c] + rhs;
    var p := |lhs|;
    assert FindFirstOf(s, [c], 0) == Some(p) by {
      FirstSeparator(lhs, rhs, c);
    }
    assert FindFirstOf(s, [c], p + 1).None? by {
      NoLaterSeparator(lhs, rhs, c);
    }
    assert s[0..p] == lhs && s[p + 1..] == rhs;
    assert TokensFrom(s, [c], p + 1) == [rhs];
  }

  /** The first c in lhs + [c] + rhs is the one after lhs. */
  lemma FirstSeparator(lhs: string, rhs: string, c: char)
    requires c !in lhs
    ensures FindFirstOf(lhs + [c] + rhs, [c], 0) == Some(|lhs|)
  {
    var s := lhs + [c] + rhs;
    assert s[|lhs|] in [c];
    assert forall k :: 0 <= k < |lhs| ==> s[k] == lhs[k] && lhs[k] in lhs;
  }

  /** No c follows the one after lhs when rhs holds none. */
  lemma NoLaterSeparator(lhs: string, rhs: string, c: char)
    requires c !in rhs
    ensures FindFirstOf(lhs + [c] + rhs, [c], |lhs| + 1).None?
  {
    var s := lhs + [c] + rhs;
    forall k | |lhs| < k < |s|
      ensures s[k] !in [c]
    {
      assert s[k] == rhs[k - |lhs| - 1];
      assert rhs[k - |lhs| - 1] in rhs;
    }
    FirstOfNone(s, [c], |lhs| + 1);
  }

  /** find_first_of finds nothing where no character is one of chars. */
  lemma {:induction false} FirstOfNone(s: string, chars: seq<char>, from: nat)
    requires forall k :: from <= k < |s| ==> s[k] !in chars
    ensures FindFirstOf(s, chars, from).None?
    decreases |s| - from
  {
    if from < |s| {
      FirstOfNone(s, chars, from + 1);
    }
  }

  /** A string without the delimiter splits into at most one token. */
  lemma SplitWithoutSeparator(s: string, c: char)
    requires c !in s
    ensures |Split(s, [c])| <= 1
  {
    if s != "" {
      assert forall k :: 0 <= k < |s| ==> s[k] in s;
    }
  }

  /** strStartsWith. */
  function StartsWith(s: string, start: string): (r: bool)
    ensures r <==> start <= s
  {
    if |s| < |start| then false
    else forall i :: 0 <= i < |start| ==> start[i] == s[i]
  }

  /** strEndsWith: the last |end| characters of s are those of end. */
  function EndsWith(s: string, end: string): (r: bool)
    ensures r <==> |end| <= |s| && s[|s| - |end|..] == end
  {
    if |s| < |end| then false
    else forall k :: 0 <= k < |end| ==> end[k] == s[|s| - |end| + k]
  }
}
