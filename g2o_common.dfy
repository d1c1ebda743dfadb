/** The command-line helpers of g2o/apps/g2o_cli/g2o_common.cpp: collecting
    the values that follow an option on the command line, and splitting a
    library search path into the directories that are searched. Opening the
    libraries is left to the caller: the model returns the directories and
    library names in the order the code opens them. */
module G2oCommon {
  import opened StringTools

  /** The options naming extra type and solver libraries. */
  const TypesLibOption: string := "-typeslib"
  const SolverLibOption: string := "-solverlib"

  /* ---------------------------------------------------------------------
     findArguments
     --------------------------------------------------------------------- */

  /** Whether position i holds the option with a value after it. */
  predicate MatchAt(option: string, argv: seq<string>, i: int)
  {
    0 <= i && i + 1 < |argv| && argv[i] == option
  }

  /** The values findArguments collects from position i on: the argument
      after every occurrence of the option, in order. */
  function ArgumentsFrom(option: string, argv: seq<string>, i: nat): seq<string>
    decreases |argv| - i
  {
    if i >= |argv| then []
    else (if MatchAt(option, argv, i) then [argv[i + 1]] else []) + ArgumentsFrom(option, argv, i + 1)
  }

  /** The positions from i on where the option occurs with a value after
      it, in increasing order. */
  function MatchesFrom(option: string, argv: seq<string>, i: nat): seq<nat>
    decreases |argv| - i
  {
    if i >= |argv| then []
    else (if MatchAt(option, argv, i) then [i] else []) + MatchesFrom(option, argv, i + 1)
  }

  /** findArguments: args is cleared, then every i below argc whose
      argument equals the option and is not the last one contributes the
      argument after it. Whatever args held before is dropped. */
  method FindArguments(option: string, args: seq<string>, argv: seq<string>) returns (found: seq<string>)
    ensures found == ArgumentsFrom(option, argv, 0)
  {
    found := [];
    var i := 0;
    while i < |argv|
      invariant i <= |argv|
      invariant found + ArgumentsFrom(option, argv, i) == ArgumentsFrom(option, argv, 0)
    {
      if argv[i] == option && i + 1 < |argv| {
        found := found + [argv[i + 1]];
      }
      i := i + 1;
    }
  }

  /** One value is collected per matching position. */
  lemma {:induction false} OneValuePerMatch(option: string, argv: seq<string>, i: nat)
    ensures |ArgumentsFrom(option, argv, i)| == |MatchesFrom(option, argv, i)|
    decreases |argv| - i
  {
    if i < |argv| {
      OneValuePerMatch(option, argv, i + 1);
    }
  }

  /** The matching positions from i on are exactly the positions j >= i
      holding the option with a value after it. */
  lemma {:induction false} MatchesAreMatches(option: string, argv: seq<string>, i: nat)
    ensures forall j :: j in MatchesFrom(option, argv, i) <==> i <= j && MatchAt(option, argv, j)
    decreases |argv| - i
  {
    if i < |argv| {
      MatchesAreMatches(option, argv, i + 1);
    }
  }

  /** The matching positions are listed in strictly increasing order. */
  lemma {:induction false} MatchesIncrease(option: string, argv: seq<string>, i: nat)
    ensures forall a, b :: 0 <= a < b < |MatchesFrom(option, argv, i)| ==>
      MatchesFrom(option, argv, i)[a] < MatchesFrom(option, argv, i)[b]
    decreases |argv| - i
  {
    if i < |argv| {
      MatchesIncrease(option, argv, i + 1);
      MatchesAreMatches(option, argv, i + 1);
      var rest := MatchesFrom(option, argv, i + 1);
      if MatchAt(option, argv, i) {
        assert MatchesFrom(option, argv, i) == [i] + rest;
        assert forall b :: 0 <= b < |rest| ==> rest[b] in rest;
      }
    }
  }

  /** The k-th collected value is the argument after the k-th match. */
  lemma {:induction false} ValueAfterMatch(option: string, argv: seq<string>, i: nat)
    ensures |ArgumentsFrom(option, argv, i)| == |MatchesFrom(option, argv, i)|
    ensures forall k :: 0 <= k < |MatchesFrom(option, argv, i)| ==>
      MatchesFrom(option, argv, i)[k] + 1 < |argv| &&
      ArgumentsFrom(option, argv, i)[k] == argv[MatchesFrom(option, argv, i)[k] + 1]
    decreases |argv| - i
  {
    if i < |argv| {
      ValueAfterMatch(option, argv, i + 1);
    }
  }

  /** An option in the last position contributes nothing; neither does
      anything when there are no arguments. */
  lemma LastOptionIgnored(option: string, argv: seq<string>)
    requires |argv| > 0 && argv[|argv| - 1] == option
    ensures |argv| - 1 !in MatchesFrom(option, argv, 0)
  {
    MatchesAreMatches(option, argv, 0);
  }

  /** A value that was just collected is itself tested as an option: with
      the option given twice before a value, both the second occurrence and
      the value are collected. */
  lemma ConsumedValueNotSkipped(option: string, value: string)
    ensures ArgumentsFrom(option, [option, option, value], 0) == [option, value]
  {
    var argv := [option, option, value];
    assert ArgumentsFrom(option, argv, 2) == [];
  }

  /* ---------------------------------------------------------------------
     The library search path
     --------------------------------------------------------------------- */

  /** The non-empty strings of ts, in order. */
  function NonEmpty(ts: seq<string>): seq<string>
  {
    if ts == [] then [] else (if ts[0] == "" then [] else [ts[0]]) + NonEmpty(ts[1..])
  }

  /** The strings of ts written one after the other. */
  function Concat(ts: seq<string>): string
  {
    if ts == [] then "" else ts[0] + Concat(ts[1..])
  }

  /** s without its separator characters. */
  function Strip(s: string, separators: seq<char>): string
  {
    if s == "" then "" else (if s[0] in separators then "" else [s[0]]) + Strip(s[1..], separators)
  }

  /** The loop over the split search path: every non-empty component is
      searched for libraries, in order; empty components are skipped. */
  method SearchDirectories(path: string, separator: char) returns (dirs: seq<string>)
    ensures dirs == NonEmpty(Split(path, [separator]))
  {
    var paths := StrSplit(path, [separator]);
    dirs := [];
    var i := 0;
    while i < |paths|
      invariant i <= |paths|
      invariant dirs + NonEmpty(paths[i..]) == NonEmpty(paths)
    {
      assert paths[i..] == [paths[i]] + paths[i + 1..];
      if paths[i] != "" {
        dirs := dirs + [paths[i]];
      }
      i := i + 1;
    }
    assert paths[i..] == [];
  }

  /** Dropping empty strings keeps exactly the non-empty ones. */
  lemma {:induction false} NonEmptyKeeps(ts: seq<string>)
    ensures forall t :: t in NonEmpty(ts) <==> t in ts && t != ""
    ensures Concat(NonEmpty(ts)) == Concat(ts)
  {
    if ts != [] {
      NonEmptyKeeps(ts[1..]);
      assert ts == [ts[0]] + ts[1..];
      if ts[0] == "" {
        assert NonEmpty(ts) == NonEmpty(ts[1..]);
        assert Concat(ts) == Concat(ts[1..]);
      } else {
        assert NonEmpty(ts)[1..] == NonEmpty(ts[1..]);
      }
    }
  }

  lemma {:induction false} StripAppend(a: string, b: string, separators: seq<char>)
    ensures Strip(a + b, separators) == Strip(a, separators) + Strip(b, separators)
  {
    if a != "" {
      assert (a + b)[1..] == a[1..] + b;
      StripAppend(a[1..], b, separators);
    } else {
      assert a + b == b;
    }
  }

  lemma {:induction false} StripNone(s: string, separators: seq<char>)
    requires forall k :: 0 <= k < |s| ==> s[k] !in separators
    ensures Strip(s, separators) == s
  {
    if s != "" {
      StripNone(s[1..], separators);
    }
  }

  /** Stripping around the first delimiter p of s[from..]. */
  lemma StripAtDelimiter(s: string, delimiters: seq<char>, from: nat, p: nat)
    requires from <= p < |s| && s[p] in delimiters
    requires forall k :: from <= k < p ==> s[k] !in delimiters
    ensures Strip(s[from..], delimiters) == s[from..p] + Strip(s[p + 1..], delimiters)
  {
    SliceAround(s, from, p);
    StripAppend(s[from..p] + [s[p]], s[p + 1..], delimiters);
    StripAppend(s[from..p], [s[p]], delimiters);
    StripNone(s[from..p], delimiters);
    assert Strip([s[p]], delimiters) == "";
  }

  lemma ConcatCons(first: string, rest: seq<string>)
    ensures Concat([first] + rest) == first + Concat(rest)
  {
    assert ([first] + rest)[1..] == rest;
  }

  /** The tokens of strSplit, written one after the other, are the input
      without its delimiters. */
  lemma {:induction false} ConcatTokens(s: string, delimiters: seq<char>, from: nat)
    requires from <= |s|
    ensures Concat(TokensFrom(s, delimiters, from)) == Strip(s[from..], delimiters)
    decreases |s| - from
  {
    match FindFirstOf(s, delimiters, from)
    case None =>
      StripNone(s[from..], delimiters);
      assert TokensFrom(s, delimiters, from) == [s[from..]];
    case Some(p) =>
      ConcatTokens(s, delimiters, p + 1);
      ConcatCons(s[from..p], TokensFrom(s, delimiters, p + 1));
      StripAtDelimiter(s, delimiters, from, p);
  }

  /** The directories searched are non-empty, hold no separator, and
      written one after the other spell the search path without its
      separators. */
  lemma DirectoriesSpellPath(path: string, separator: char)
    ensures forall d :: d in NonEmpty(Split(path, [separator])) ==> d != "" && separator !in d
    ensures Concat(NonEmpty(Split(path, [separator]))) == Strip(path, [separator])
  {
    var tokens := Split(path, [separator]);
    NonEmptyKeeps(tokens);
    if path == "" {
      assert tokens == [];
    } else {
      TokensHaveNoDelimiters(path, [separator], 0);
      ConcatTokens(path, [separator], 0);
      assert path[0..] == path;
      forall d | d in tokens
        ensures separator !in d
      {
        assert forall k :: 0 <= k < |d| ==> d[k] !in [separator];
      }
    }
  }

  /** The library loading of loadStandardTypes and loadStandardSolver:
      search every non-empty directory of the path, then, when there are
      arguments, load every library named after the option. */
  method LoadStandard(path: string, separator: char, option: string, argv: seq<string>)
    returns (dirs: seq<string>, libs: seq<string>)
    ensures dirs == NonEmpty(Split(path, [separator]))
    ensures libs == ArgumentsFrom(option, argv, 0)
  {
    dirs := SearchDirectories(path, separator);
    libs := [];
    if |argv| > 0 {
      libs := FindArguments(option, libs, argv);
    }
  }
}
