/** createSolver of g2o/solvers/csparse/solver_csparse.cpp: an algorithm name
    such as "lm_fix6_3_csparse" is read as a two-letter method, one ignored
    character and a solver key; the key picks the block sizes and the
    ordering flag of the CSparse block solver, the method the optimisation
    algorithm around it. */
module SolverCSparse {
  import opened Wrappers

  /** Eigen::Dynamic: a block size that is only known at run time. */
  const Dynamic: int := -1

  /** The three optimisation algorithms createSolver can build. */
  datatype Kind = GaussNewton | Levenberg | Dogleg

  /** AllocateSolver<P, L, Blockorder>: the block solver's pose and
      landmark block sizes and whether its linear solver orders by blocks. */
  datatype BlockSolver = BlockSolver(poseDim: int, landmarkDim: int, blockOrdering: bool)

  datatype Algorithm = Algorithm(kind: Kind, solver: BlockSolver)

  /** What createSolver hands back: an algorithm, a null pointer, or the
      std::out_of_range that substr(3) throws for a name shorter than 3. */
  datatype Created = Made(algorithm: Algorithm) | Null | OutOfRange

  /** One entry of kSolverFactories: a key and the block solver its
      factory allocates. */
  datatype Entry = Entry(key: string, solver: BlockSolver)

  /** kSolverFactories: the seven keys and the template arguments each
      factory allocates with. */
  const Factories: seq<Entry> := [
    Entry("var_csparse", BlockSolver(Dynamic, Dynamic, true)),
    Entry("fix3_2_csparse", BlockSolver(3, 2, true)),
    Entry("fix6_3_csparse", BlockSolver(6, 3, true)),
    Entry("fix7_3_csparse", BlockSolver(7, 3, true)),
    Entry("fix3_2_scalar_csparse", BlockSolver(3, 2, false)),
    Entry("fix6_3_scalar_csparse", BlockSolver(6, 3, false)),
    Entry("fix7_3_scalar_csparse", BlockSolver(7, 3, false))
  ]

  /** std::map::find over the factory entries, whose keys are distinct:
      the entry with the key, or end() when there is none. */
  function Find(entries: seq<Entry>, key: string): (r: Option<BlockSolver>)
    ensures r.None? <==> forall i :: 0 <= i < |entries| ==> entries[i].key != key
    ensures r.Some? ==> exists i :: 0 <= i < |entries| && entries[i] == Entry(key, r.value)
  {
    if entries == [] then None
    else if entries[0].key == key then Some(entries[0].solver)
    else Find(entries[1..], key)
  }

  function Factory(key: string): Option<BlockSolver>
  {
    Find(Factories, key)
  }

  predicate DistinctKeys(entries: seq<Entry>)
  {
    forall i, j :: 0 <= i < j < |entries| ==> entries[i].key != entries[j].key
  }

  lemma {:induction false} FindDistinct(entries: seq<Entry>, i: nat)
    requires DistinctKeys(entries) && i < |entries|
    ensures Find(entries, entries[i].key) == Some(entries[i].solver)
  {
    if i > 0 {
      assert entries[1..][i - 1] == entries[i];
      FindDistinct(entries[1..], i - 1);
    }
  }

  /** No two factory keys are equal: each has its own length or differs
      from the others of its length in the pose block size. */
  lemma FactoryKeysDistinct()
    ensures DistinctKeys(Factories)
  {
    forall i, j | 0 <= i < j < |Factories|
      ensures Factories[i].key != Factories[j].key
    {
      var a, b := Factories[i].key, Factories[j].key;
      assert |a| != |b| || a[3] != b[3];
    }
  }

  /** Each factory key finds its own entry. */
  lemma FactoryAt(i: nat)
    requires i < |Factories|
    ensures Factory(Factories[i].key) == Some(Factories[i].solver)
  {
    FactoryKeysDistinct();
    FindDistinct(Factories, i);
  }

  /** The method prefixes createSolver knows. */
  function MethodKind(prefix: string): Option<Kind>
  {
    if prefix == "gn" then Some(GaussNewton)
    else if prefix == "lm" then Some(Levenberg)
    else if prefix == "dl" then Some(Dogleg)
    else None
  }

  /** createSolver: the key is the name from index 3 on, looked up first;
      then the method is the first two characters. */
  function CreateSolver(fullSolverName: string): (r: Created)
    ensures r.OutOfRange? <==> |fullSolverName| < 3
    ensures r.Made? <==> 3 <= |fullSolverName| && Factory(fullSolverName[3..]).Some?
                         && MethodKind(fullSolverName[..2]).Some?
    ensures r.Made? ==> (r.algorithm.solver == Factory(fullSolverName[3..]).value
                         && r.algorithm.kind == MethodKind(fullSolverName[..2]).value)
  {
    if |fullSolverName| < 3 then OutOfRange
    else
      match Factory(fullSolverName[3..])
      case None => Null
      case Some(solver) =>
        match MethodKind(fullSolverName[..2])
        case None => Null
        case Some(kind) => Made(Algorithm(kind, solver))
  }

  predicate IsDigit(c: char) { '0' <= c <= '9' }

  function DigitValue(c: char): int
    requires IsDigit(c)
  {
    c as int - '0' as int
  }

  /** How a key reads on its face: "var_csparse" is dynamic with block
      ordering; "fix<P>_<L>_csparse" has block sizes P and L, and with
      "_scalar" before the suffix block ordering is off. */
  function KeyAsWritten(key: string): Option<BlockSolver>
  {
    if key == "var_csparse" then Some(BlockSolver(Dynamic, Dynamic, true))
    else if |key| >= 6 && key[..3] == "fix" && IsDigit(key[3]) && key[4] == '_' && IsDigit(key[5]) then
      var rest := key[6..];
      if rest == "_csparse" then Some(BlockSolver(DigitValue(key[3]), DigitValue(key[5]), true))
      else if rest == "_scalar_csparse" then Some(BlockSolver(DigitValue(key[3]), DigitValue(key[5]), false))
      else None
    else None
  }

  /** The parts of a "fix" key. */
  lemma FixKeyReads(key: string, p: char, l: char, suffix: string)
    requires key == "fix" + [p, '_', l] + suffix
    ensures |key| >= 6 && key[..3] == "fix" && key[3] == p && key[4] == '_' && key[5] == l && key[6..] == suffix
  {
  }

  /** A "fix" key spelling block sizes P and L reads as those sizes. */
  lemma FixAsWritten(key: string, p: char, l: char, suffix: string, solver: BlockSolver)
    requires key == "fix" + [p, '_', l] + suffix && IsDigit(p) && IsDigit(l)
    requires suffix == "_csparse" || suffix == "_scalar_csparse"
    requires solver == BlockSolver(DigitValue(p), DigitValue(l), suffix == "_csparse")
    ensures KeyAsWritten(key) == Some(solver)
  {
    FixKeyReads(key, p, l, suffix);
  }

  lemma FactoryEntry1()
    ensures KeyAsWritten("fix3_2_csparse") == Some(BlockSolver(3, 2, true))
  {
    FixAsWritten("fix3_2_csparse", '3', '2', "_csparse", BlockSolver(3, 2, true));
  }

  lemma FactoryEntry2()
    ensures KeyAsWritten("fix6_3_csparse") == Some(BlockSolver(6, 3, true))
  {
    FixAsWritten("fix6_3_csparse", '6', '3', "_csparse", BlockSolver(6, 3, true));
  }

  lemma FactoryEntry3()
    ensures KeyAsWritten("fix7_3_csparse") == Some(BlockSolver(7, 3, true))
  {
    FixAsWritten("fix7_3_csparse", '7', '3', "_csparse", BlockSolver(7, 3, true));
  }

  lemma FactoryEntry4()
    ensures KeyAsWritten("fix3_2_scalar_csparse") == Some(BlockSolver(3, 2, false))
  {
    FixAsWritten("fix3_2_scalar_csparse", '3', '2', "_scalar_csparse", BlockSolver(3, 2, false));
  }

  lemma FactoryEntry5()
    ensures KeyAsWritten("fix6_3_scalar_csparse") == Some(BlockSolver(6, 3, false))
  {
    FixAsWritten("fix6_3_scalar_csparse", '6', '3', "_scalar_csparse", BlockSolver(6, 3, false));
  }

  lemma FactoryEntry6()
    ensures KeyAsWritten("fix7_3_scalar_csparse") == Some(BlockSolver(7, 3, false))
  {
    FixAsWritten("fix7_3_scalar_csparse", '7', '3', "_scalar_csparse", BlockSolver(7, 3, false));
  }

  /** Each factory entry allocates what its key spells. */
  lemma EntriesAsWritten(i: nat)
    requires i < |Factories|
    ensures KeyAsWritten(Factories[i].key) == Some(Factories[i].solver)
  {
    if i == 1 { FactoryEntry1(); }
    else if i == 2 { FactoryEntry2(); }
    else if i == 3 { FactoryEntry3(); }
    else if i == 4 { FactoryEntry4(); }
    else if i == 5 { FactoryEntry5(); }
    else if i == 6 { FactoryEntry6(); }
  }

  /** Every factory key allocates the block sizes its name spells: dynamic
      for "var", P and L for "fixP_L"; block ordering is off exactly for
      the "_scalar" keys. */
  lemma FactoryMatchesKey(key: string)
    ensures Factory(key).Some? ==> KeyAsWritten(key) == Factory(key)
  {
    if Factory(key).Some? {
      var i :| 0 <= i < |Factories| && Factories[i] == Entry(key, Factory(key).value);
      EntriesAsWritten(i);
    }
  }

  /** The character between the method and the key is never looked at. */
  lemma SeparatorIgnored(fullSolverName: string, c: char)
    requires 3 <= |fullSolverName|
    ensures CreateSolver(fullSolverName[..2] + [c] + fullSolverName[3..]) == CreateSolver(fullSolverName)
  {
    var other := fullSolverName[..2] + [c] + fullSolverName[3..];
    assert other[3..] == fullSolverName[3..];
    assert other[..2] == fullSolverName[..2];
  }

  /** G2O_REGISTER_OPTIMIZATION_ALGORITHM: the registered name, the
      algorithm its description names, and the block sizes its property
      announces. */
  datatype Registration = Registration(name: string, kind: Kind, poseDim: int, landmarkDim: int)

  /** The nine algorithms the library registers; each name is written as
      its method, the separator and its solver key. */
  const Registered: seq<Registration> := [
    Registration("gn" + "_" + "var_csparse", GaussNewton, Dynamic, Dynamic),
    Registration("gn" + "_" + "fix3_2_csparse", GaussNewton, 3, 2),
    Registration("gn" + "_" + "fix6_3_csparse", GaussNewton, 6, 3),
    Registration("gn" + "_" + "fix7_3_csparse", GaussNewton, 7, 3),
    Registration("lm" + "_" + "var_csparse", Levenberg, Dynamic, Dynamic),
    Registration("lm" + "_" + "fix3_2_csparse", Levenberg, 3, 2),
    Registration("lm" + "_" + "fix6_3_csparse", Levenberg, 6, 3),
    Registration("lm" + "_" + "fix7_3_csparse", Levenberg, 7, 3),
    Registration("dl" + "_" + "var_csparse", Dogleg, Dynamic, Dynamic)
  ]

  lemma NameReads(name: string, prefix: string, key: string)
    requires |prefix| == 2 && name == prefix + "_" + key
    ensures 3 <= |name| && name[..2] == prefix && name[3..] == key
  {
  }

  /** A name made of a known method, a separator and a known key builds
      that method's algorithm around that key's block solver. */
  lemma Constructs(name: string, prefix: string, key: string, kind: Kind, solver: BlockSolver)
    requires |prefix| == 2 && name == prefix + "_" + key
    requires MethodKind(prefix) == Some(kind) && Factory(key) == Some(solver)
    ensures CreateSolver(name) == Made(Algorithm(kind, solver))
  {
    NameReads(name, prefix, key);
  }

  /** Every registered name constructs the algorithm its description names,
      around a block solver with the announced block sizes and block
      ordering on. */
  lemma RegisteredConstruct(k: nat)
    requires k < |Registered|
    ensures CreateSolver(Registered[k].name)
         == Made(Algorithm(Registered[k].kind, BlockSolver(Registered[k].poseDim, Registered[k].landmarkDim, true)))
  {
    var r := Registered[k];
    if k == 0 {
      FactoryAt(0);
      Constructs(r.name, "gn", "var_csparse", GaussNewton, BlockSolver(Dynamic, Dynamic, true));
    } else if k == 1 {
      FactoryAt(1);
      Constructs(r.name, "gn", "fix3_2_csparse", GaussNewton, BlockSolver(3, 2, true));
    } else if k == 2 {
      FactoryAt(2);
      Constructs(r.name, "gn", "fix6_3_csparse", GaussNewton, BlockSolver(6, 3, true));
    } else if k == 3 {
      FactoryAt(3);
      Constructs(r.name, "gn", "fix7_3_csparse", GaussNewton, BlockSolver(7, 3, true));
    } else if k == 4 {
      FactoryAt(0);
      Constructs(r.name, "lm", "var_csparse", Levenberg, BlockSolver(Dynamic, Dynamic, true));
    } else if k == 5 {
      FactoryAt(1);
      Constructs(r.name, "lm", "fix3_2_csparse", Levenberg, BlockSolver(3, 2, true));
    } else if k == 6 {
      FactoryAt(2);
      Constructs(r.name, "lm", "fix6_3_csparse", Levenberg, BlockSolver(6, 3, true));
    } else if k == 7 {
      FactoryAt(3);
      Constructs(r.name, "lm", "fix7_3_csparse", Levenberg, BlockSolver(7, 3, true));
    } else {
      FactoryAt(0);
      Constructs(r.name, "dl", "var_csparse", Dogleg, BlockSolver(Dynamic, Dynamic, true));
    }
  }
}
