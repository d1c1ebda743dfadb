/** OptimizableGraph of g2o/core/optimizable_graph.cpp: the registry of
    vertices (by id) and edges (by object identity) that the optimizer works
    on, with the ownership checks of registration, the sequential internal
    edge ids, the graph-wide chi^2, the solver-suitability table, the
    renamed-types parser, the selection behind save, and the iteration
    action sets. Vertices and edges are records; the graph a vertex or an
    edge belongs to is an attribute of the record. */
module OptimizableGraphModel {
  import opened Wrappers
  import opened Sorting
  import opened StringTools
  import opened RobustKernels

  /** Identity of a graph object (what the graph_ back-pointer points to). */
  type GraphId = nat

  /** A vertex: its id, estimate dimension, the fixed and marginalized
      flags, its Hessian index and the graph it is registered with. */
  datatype Vertex = Vertex(
    id: int,
    dimension: int,
    fixed: bool,
    marginalized: bool,
    hessianIndex: int,
    graph: Option<GraphId>)

  /** An edge: its object identity, the ids of its vertices (None for an
      undefined vertex), level, dimension, internal id, chi^2, optional
      robust kernel, parameter ids, and the graph of its first vertex
      (Edge::graph()). */
  datatype Edge = Edge(
    handle: nat,
    vertices: seq<Option<int>>,
    level: int,
    dimension: int,
    internalId: int,
    chi2: real,
    kernel: Option<Kernel>,
    parameterIds: seq<int>,
    graph: Option<GraphId>)

  /** The number of undefined vertex slots of an edge. */
  function NumUndefinedVertices(vs: seq<Option<int>>): (r: nat)
    ensures r == 0 <==> forall i :: 0 <= i < |vs| ==> vs[i].Some?
    ensures r <= |vs|
  {
    if vs == [] then 0
    else (if vs[0].None? then 1 else 0) + NumUndefinedVertices(vs[1..])
  }

  /** The ids of the defined vertices of an edge. */
  function DefinedIds(e: Edge): set<int>
  {
    set i | 0 <= i < |e.vertices| && e.vertices[i].Some? :: e.vertices[i].value
  }

  /** The vertex slots of an edge once the slots holding id are unset, as
      detaching that vertex leaves them. */
  function UnsetSlots(vs: seq<Option<int>>, id: int): (r: seq<Option<int>>)
    ensures |r| == |vs|
    ensures forall i :: 0 <= i < |vs| ==> r[i] == (if vs[i] == Some(id) then None else vs[i])
  {
    if vs == [] then [] else [if vs[0] == Some(id) then None else vs[0]] + UnsetSlots(vs[1..], id)
  }

  /** Whether one of the edge's vertex slots holds the vertex id. */
  predicate Touches(e: Edge, id: int)
  {
    Some(id) in e.vertices
  }

  /** The edges left by the base removal of vertex id: with detach every
      edge stays and its slots holding id are unset; without it the edges
      touching id are removed together with the vertex. */
  function EdgesAfterRemoval(edges: map<nat, Edge>, id: int, detach: bool): map<nat, Edge>
  {
    if detach then map h | h in edges :: edges[h].(vertices := UnsetSlots(edges[h].vertices, id))
    else map h | h in edges && !Touches(edges[h], id) :: edges[h]
  }

  /** After removing a vertex no edge refers to it. Detaching keeps every
      edge, changes nothing but its slots, and drops exactly that id from
      its defined vertices; removing keeps exactly the edges that did not
      touch the vertex, unchanged. */
  lemma RemovalIsolatesVertex(edges: map<nat, Edge>, id: int, detach: bool)
    ensures forall h :: h in EdgesAfterRemoval(edges, id, detach) ==>
      !Touches(EdgesAfterRemoval(edges, id, detach)[h], id)
    ensures detach ==> EdgesAfterRemoval(edges, id, detach).Keys == edges.Keys
    ensures detach ==> forall h :: h in edges ==>
      EdgesAfterRemoval(edges, id, detach)[h] == edges[h].(vertices := EdgesAfterRemoval(edges, id, detach)[h].vertices) &&
      DefinedIds(EdgesAfterRemoval(edges, id, detach)[h]) == DefinedIds(edges[h]) - {id}
    ensures !detach ==>
      EdgesAfterRemoval(edges, id, detach).Keys == edges.Keys - (set h | h in edges && Touches(edges[h], id))
    ensures !detach ==> forall h :: h in EdgesAfterRemoval(edges, id, detach) ==>
      EdgesAfterRemoval(edges, id, detach)[h] == edges[h]
  {
  }

  /** addVertex's acceptance rule: a non-negative id not yet registered and
      a vertex not owned by another graph. */
  predicate VertexAdmissible(vertices: map<int, Vertex>, self: GraphId, v: Vertex)
  {
    0 <= v.id && v.id !in vertices && (v.graph.None? || v.graph == Some(self))
  }

  /** Some element of a non-empty set. */
  lemma Member<T>(s: set<T>) returns (x: T)
    requires s != {}
    ensures x in s
  {
    x :| x in s;
  }

  /** Choice of an element of a non-empty set, the same choice everywhere. */
  ghost function Pick(s: set<nat>): (k: nat)
    requires s != {}
    ensures k in s
  {
    var k :| k in s; k
  }

  /** The sum of chi^2 over the edges with the given handles, in some
      order; ChiSumRemove shows the order does not matter. */
  ghost function ChiSum(edges: map<nat, Edge>, keys: set<nat>): real
    requires keys <= edges.Keys
    decreases keys
  {
    if keys == {} then 0.0
    else
      var k := Pick(keys);
      edges[k].chi2 + ChiSum(edges, keys - {k})
  }

  /** Any edge can be taken out of the sum first. */
  lemma {:induction false} ChiSumRemove(edges: map<nat, Edge>, keys: set<nat>, j: nat)
    requires keys <= edges.Keys && j in keys
    ensures ChiSum(edges, keys) == edges[j].chi2 + ChiSum(edges, keys - {j})
    decreases keys
  {
    var k := Pick(keys);
    if k != j {
      ChiSumRemove(edges, keys - {k}, j);
      ChiSumRemove(edges, keys - {j}, k);
      assert keys - {k} - {j} == keys - {j} - {k};
    }
  }

  /** With non-negative edge errors the graph's chi^2 is non-negative. */
  lemma {:induction false} ChiSumNonNegative(edges: map<nat, Edge>, keys: set<nat>)
    requires keys <= edges.Keys
    requires forall h :: h in keys ==> 0.0 <= edges[h].chi2
    ensures 0.0 <= ChiSum(edges, keys)
    decreases keys
  {
    if keys != {} {
      ChiSumNonNegative(edges, keys - {Pick(keys)});
    }
  }

  /** d is what maxDimension() returns: at least 0, no vertex dimension
      above it, and attained by a vertex unless it is 0. */
  predicate IsMaxDimension(vertices: map<int, Vertex>, d: int)
  {
    0 <= d && (forall id :: id in vertices ==> vertices[id].dimension <= d) &&
    (d == 0 || exists id :: id in vertices && vertices[id].dimension == d)
  }

  /** maxDimension() is determined by the vertices. */
  lemma MaxDimensionUnique(vertices: map<int, Vertex>, d1: int, d2: int)
    requires IsMaxDimension(vertices, d1) && IsMaxDimension(vertices, d2)
    ensures d1 == d2
  {
  }

  /** With a vertex of non-negative dimension, maxDimension() is the
      dimension of some vertex. */
  lemma MaxDimensionAttained(vertices: map<int, Vertex>, d: int, id: int)
    requires IsMaxDimension(vertices, d) && id in vertices && 0 <= vertices[id].dimension
    ensures exists j :: j in vertices && vertices[j].dimension == d
  {
    if d == 0 {
      assert vertices[id].dimension == 0;
    }
  }

  /** The description of a solver: the pose and landmark dimensions it
      needs (-1 for any) and whether it marginalizes landmarks. */
  datatype AlgorithmProperty = AlgorithmProperty(poseDim: int, landmarkDim: int, requiresMarginalize: bool)

  /** The decision table of isSolverSuitable over a set of vertex
      dimensions. */
  predicate Suitable(p: AlgorithmProperty, dims: set<int>)
  {
    if |dims| == 2 then
      if p.requiresMarginalize then p.poseDim in dims && p.landmarkDim in dims
      else p.poseDim == -1
    else if |dims| == 1 then
      p.poseDim in dims || p.poseDim == -1
    else
      p.poseDim == -1 && !p.requiresMarginalize
  }

  /** A solver that fixes a pose dimension is suitable only for graphs
      with vertices of that dimension. */
  lemma SuitableNeedsPose(p: AlgorithmProperty, dims: set<int>)
    requires Suitable(p, dims) && p.poseDim != -1
    ensures p.poseDim in dims
  {
  }

  /** A solver with no fixed dimension and no marginalization suits every
      graph. */
  lemma UnconstrainedSuitable(p: AlgorithmProperty, dims: set<int>)
    requires p.poseDim == -1 && !p.requiresMarginalize
    ensures Suitable(p, dims)
  {
  }

  /** Outside the one-dimension case, a marginalizing solver suits exactly
      the graphs whose two dimensions are its pose and landmark
      dimensions. */
  lemma MarginalizingSuitable(p: AlgorithmProperty, dims: set<int>)
    requires p.requiresMarginalize && |dims| != 1
    ensures Suitable(p, dims) <==> |dims| == 2 && p.poseDim in dims && p.landmarkDim in dims
  {
  }

  /** One item of setRenamedTypesFromString: "lhs=rhs" maps trim(lhs) to
      trim(rhs) when the item splits into exactly two parts and rhs is a
      known tag; any other item is skipped. */
  function RenameOne(lookup: map<string, string>, item: string, known: set<string>): map<string, string>
  {
    var parts := Split(item, "=");
    if |parts| != 2 then lookup
    else
      var typeInFile := Trim(parts[0]);
      var loadedType := Trim(parts[1]);
      if loadedType !in known then lookup
      else lookup[typeInFile := loadedType]
  }

  /** All items, in order. */
  function RenameAll(lookup: map<string, string>, items: seq<string>, known: set<string>): map<string, string>
    decreases |items|
  {
    if items == [] then lookup
    else RenameAll(RenameOne(lookup, items[0], known), items[1..], known)
  }

  /** Parsing only adds entries, and every entry it adds maps to a known
      tag: a lookup table of known tags stays one. */
  lemma {:induction false} RenameAllKeepsKnown(lookup: map<string, string>, items: seq<string>, known: set<string>)
    requires forall k :: k in lookup ==> lookup[k] in known
    ensures lookup.Keys <= RenameAll(lookup, items, known).Keys
    ensures forall k :: k in RenameAll(lookup, items, known) ==> RenameAll(lookup, items, known)[k] in known
    decreases |items|
  {
    if items != [] {
      RenameAllKeepsKnown(RenameOne(lookup, items[0], known), items[1..], known);
    }
  }

  /** An item with a known right-hand side is registered under its trimmed
      left-hand side, and an item without "=" changes nothing. */
  lemma RenameOneEffect(lookup: map<string, string>, lhs: string, rhs: string, known: set<string>)
    requires Trim(rhs) in known && '=' !in lhs && '=' !in rhs
    ensures RenameOne(lookup, lhs + "=" + rhs, known) == lookup[Trim(lhs) := Trim(rhs)]
    ensures RenameOne(lookup, lhs, known) == lookup
  {
    SplitAroundSeparator(lhs, rhs, '=');
    assert lhs + "=" + rhs == lhs + ['='] + rhs;
    SplitWithoutSeparator(lhs, '=');
  }

  /** The save selection: the ids of the defined vertices of the edges at
      a level. */
  ghost function LevelVertexIds(edges: map<nat, Edge>, level: int): set<int>
  {
    set h, i | h in edges && edges[h].level == level && 0 <= i < |edges[h].vertices| && edges[h].vertices[i].Some?
      :: edges[h].vertices[i].value
  }

  /** The edges at a level. */
  ghost function LevelEdges(edges: map<nat, Edge>, level: int): set<Edge>
  {
    set h | h in edges && edges[h].level == level :: edges[h]
  }

  /** saveSubset(vset, level): the edges at the level all of whose vertex
      slots hold vertices of vset (an undefined slot is never in vset). */
  ghost function SubsetEdges(edges: map<nat, Edge>, vset: set<int>, level: int): set<Edge>
  {
    set h | h in edges && InSubset(edges[h], vset, level) :: edges[h]
  }

  /** saveSubset's test for one edge. */
  predicate InSubset(e: Edge, vset: set<int>, level: int)
  {
    e.level == level && forall i :: 0 <= i < |e.vertices| ==> e.vertices[i].Some? && e.vertices[i].value in vset
  }

  /** The sort key of EdgeIDCompare: the internal id. */
  function EdgeKey(e: Edge): Key
  {
    Key(e.internalId, 0)
  }

  /** The sort key of VertexIDCompare on ids. */
  function IdKey(id: int): Key
  {
    Key(id, 0)
  }

  /** No id occurs twice. */
  predicate Distinct<T(==)>(s: seq<T>)
  {
    forall i, j :: 0 <= i < j < |s| ==> s[i] != s[j]
  }

  /** Strictly increasing: sorted with no repetition. */
  predicate Increasing(s: seq<int>)
  {
    forall i, j :: 0 <= i < j < |s| ==> s[i] < s[j]
  }

  /** The elements of a finite set as a sequence without repetition, in the
      order of the set's iteration. */
  method Enumerate<T>(s: set<T>) returns (r: seq<T>)
    ensures |r| == |s| && (set x | x in r) == s
    ensures forall i, j :: 0 <= i < j < |r| ==> r[i] != r[j]
  {
    r := [];
    var rest := s;
    while rest != {}
      invariant rest <= s && (set x | x in r) == s - rest
      invariant |r| + |rest| == |s|
      invariant forall i, j :: 0 <= i < j < |r| ==> r[i] != r[j]
      invariant forall i :: 0 <= i < |r| ==> r[i] !in rest
      decreases rest
    {
      var x :| x in rest;
      assert (set y | y in r + [x]) == (set y | y in r) + {x};
      r := r + [x];
      rest := rest - {x};
    }
  }

  /** A set of ids in increasing order (the iteration of a std::set ordered
      by VertexIDCompare). */
  method SortedIds(s: set<int>) returns (r: seq<int>)
    ensures (set x | x in r) == s && |r| == |s|
    ensures Increasing(r)
  {
    var listed := Enumerate(s);
    r := SortByKey(listed, IdKey);
    SortedDistinctIncreasing(listed, r);
  }

  /** Sorting a list of ids without repetition by id gives an increasing
      list with the same ids. */
  lemma SortedDistinctIncreasing(listed: seq<int>, r: seq<int>)
    requires Distinct(listed)
    requires multiset(r) == multiset(listed) && SortedBy(r, IdKey)
    ensures (set x | x in r) == (set x | x in listed) && |r| == |listed|
    ensures Increasing(r)
  {
    PermutationOfDistinct(listed, r);
    forall i, j | 0 <= i < j < |r|
      ensures r[i] < r[j]
    {
      assert KeyLe(IdKey(r[i]), IdKey(r[j]));
    }
  }

  /** A permutation of a sequence without repetition has the same elements,
      the same length and no repetition. */
  lemma PermutationOfDistinct<T>(listed: seq<T>, r: seq<T>)
    requires Distinct(listed)
    requires multiset(r) == multiset(listed)
    ensures (set x | x in r) == (set x | x in listed) && |r| == |listed|
    ensures Distinct(r)
  {
    assert forall x :: x in r <==> x in listed by {
      forall x ensures x in r <==> x in listed {
        assert x in r <==> x in multiset(r);
        assert x in listed <==> x in multiset(listed);
      }
    }
    assert |r| == |multiset(r)| == |multiset(listed)| == |listed|;
    forall i, j | 0 <= i < j < |r|
      ensures r[i] != r[j]
    {
      DuplicateInPermutation(listed, r, i, j);
    }
  }

  /** A permutation of a sequence without repetition has no repetition. */
  lemma DuplicateInPermutation<T>(listed: seq<T>, r: seq<T>, i: int, j: int)
    requires Distinct(listed)
    requires multiset(r) == multiset(listed)
    requires 0 <= i < j < |r|
    ensures r[i] != r[j]
  {
    if r[i] == r[j] {
      var x := r[i];
      assert r == r[..i] + [x] + r[i + 1..j] + [x] + r[j + 1..];
      assert multiset(r)[x] >= 2;
      DistinctCount(listed, x);
      assert false;
    }
  }

  /** In a sequence without repetition every value occurs at most once. */
  lemma {:induction false} DistinctCount<T>(s: seq<T>, x: T)
    requires Distinct(s)
    ensures multiset(s)[x] <= 1
  {
    if s != [] {
      DistinctCount(s[1..], x);
      assert s == [s[0]] + s[1..];
      if s[0] == x {
        assert x !in s[1..];
      }
    }
  }

  class OptimizableGraph {
    /** This graph's identity. */
    const self: GraphId
    /** The registered vertices, by id. */
    var vertices: map<int, Vertex>
    /** The registered edges, by object identity. */
    var edges: map<nat, Edge>
    /** The internal id the next accepted edge receives. */
    var nextEdgeId: int
    /** The ids held by the parameter container. */
    var parameters: set<int>
    /** The renamed-types lookup table. */
    var renamedTypes: map<string, string>
    /** The pre- and post-iteration action sets. */
    var preActions: set<nat>
    var postActions: set<nat>

    /** Registered vertices are stored under their non-negative id and point
        back to this graph; edges are stored under their identity and carry
        distinct internal ids below the counter. */
    ghost predicate Valid()
      reads this
    {
      0 <= nextEdgeId &&
      (forall id :: id in vertices ==> vertices[id].id == id && 0 <= id && vertices[id].graph == Some(self)) &&
      (forall h :: h in edges ==> edges[h].handle == h && 0 <= edges[h].internalId < nextEdgeId) &&
      (forall h1, h2 :: h1 in edges && h2 in edges && h1 != h2 ==> edges[h1].internalId != edges[h2].internalId)
    }

    /** An empty graph whose edge counter starts at 0. */
    constructor (id: GraphId)
      ensures Valid() && self == id
      ensures vertices == map[] && edges == map[] && nextEdgeId == 0
      ensures parameters == {} && renamedTypes == map[] && preActions == {} && postActions == {}
    {
      self := id;
      vertices, edges, nextEdgeId := map[], map[], 0;
      parameters, renamedTypes := {}, map[];
      preActions, postActions := {}, {};
    }

    /** addVertex: rejects a negative id, a registered id and a vertex of
        another graph, leaving everything unchanged; otherwise stores the
        vertex under its id with this graph as its owner. */
    method AddVertex(v: Vertex) returns (ok: bool)
      requires Valid()
      modifies this
      ensures Valid()
      ensures ok == VertexAdmissible(old(vertices), self, v)
      ensures vertices == if ok then old(vertices)[v.id := v.(graph := Some(self))] else old(vertices)
      ensures edges == old(edges) && nextEdgeId == old(nextEdgeId) && parameters == old(parameters)
      ensures renamedTypes == old(renamedTypes) && preActions == old(preActions) && postActions == old(postActions)
    {
      ok := VertexAdmissible(vertices, self, v);
      if ok {
        vertices := vertices[v.id := v.(graph := Some(self))];
      }
    }

    /** removeVertex: the vertex loses its owner if it was this graph. A
        registered id is unregistered, and the base removal then either
        detaches the vertex from its edges or removes the edges touching
        it; an unregistered id changes nothing. The vertex as left behind
        is returned. */
    method RemoveVertex(v: Vertex, detach: bool) returns (ok: bool, detached: Vertex)
      requires Valid()
      modifies this
      ensures Valid()
      ensures ok <==> v.id in old(vertices)
      ensures vertices == old(vertices) - {v.id}
      ensures detached == if v.graph == Some(self) then v.(graph := None) else v
      ensures edges == if ok then EdgesAfterRemoval(old(edges), v.id, detach) else old(edges)
      ensures nextEdgeId == old(nextEdgeId) && parameters == old(parameters)
      ensures renamedTypes == old(renamedTypes) && preActions == old(preActions) && postActions == old(postActions)
    {
      detached := if v.graph == Some(self) then v.(graph := None) else v;
      ok := v.id in vertices;
      if ok {
        vertices := vertices - {v.id};
        edges := EdgesAfterRemoval(edges, v.id, detach);
      }
    }

    /** The parameter ids of an edge all resolve in this graph (and the edge
        belongs to a graph at all). */
    predicate Resolves(e: Edge)
      reads this
    {
      e.graph.Some? && forall i :: 0 <= i < |e.parameterIds| ==> e.parameterIds[i] in parameters
    }

    /** addEdge: an edge of another graph, or one already registered, is
        rejected with nothing changed. Otherwise it is stored with the next
        internal id and the counter advances; the result is then true when
        a vertex is still undefined, and otherwise whether its parameters
        resolve (the edge stays registered either way). */
    method AddEdge(e: Edge) returns (ok: bool)
      requires Valid()
      modifies this
      ensures Valid()
      ensures var accepted := (e.graph.None? || e.graph == Some(self)) && e.handle !in old(edges);
        && (accepted ==> edges == old(edges)[e.handle := e.(internalId := old(nextEdgeId))] && nextEdgeId == old(nextEdgeId) + 1)
        && (!accepted ==> edges == old(edges) && nextEdgeId == old(nextEdgeId))
        && (ok <==> accepted && (NumUndefinedVertices(e.vertices) > 0 || Resolves(e)))
      ensures vertices == old(vertices) && parameters == old(parameters)
      ensures renamedTypes == old(renamedTypes) && preActions == old(preActions) && postActions == old(postActions)
    {
      if e.graph.Some? && e.graph != Some(self) {
        return false;
      }
      if e.handle in edges {
        return false;
      }
      edges := edges[e.handle := e.(internalId := nextEdgeId)];
      nextEdgeId := nextEdgeId + 1;
      if NumUndefinedVertices(e.vertices) > 0 {
        return true;
      }
      ok := Resolves(e);
    }

    /** chi2(): the sum of the edges' chi^2, visiting the edges in the
        order of the edge set. */
    method Chi2() returns (chi: real)
      ensures chi == ChiSum(edges, edges.Keys)
    {
      chi := 0.0;
      var remaining := edges.Keys;
      while remaining != {}
        invariant remaining <= edges.Keys
        invariant chi + ChiSum(edges, remaining) == ChiSum(edges, edges.Keys)
        decreases remaining
      {
        var h :| h in remaining;
        ChiSumRemove(edges, remaining, h);
        chi := chi + edges[h].chi2;
        remaining := remaining - {h};
      }
    }

    /** maxDimension(): the largest vertex dimension, and 0 for a graph
        without vertices or whose dimensions are all negative. */
    method MaxDimension() returns (maxDim: int)
      ensures IsMaxDimension(vertices, maxDim)
    {
      maxDim := 0;
      var remaining := vertices.Keys;
      while remaining != {}
        invariant remaining <= vertices.Keys && 0 <= maxDim
        invariant forall id :: id in vertices && id !in remaining ==> vertices[id].dimension <= maxDim
        invariant maxDim == 0 || exists id :: id in vertices && vertices[id].dimension == maxDim
        decreases remaining
      {
        ghost var w := Member(remaining);
        var k :| k in remaining;
        if vertices[k].dimension > maxDim {
          maxDim := vertices[k].dimension;
        }
        remaining := remaining - {k};
      }
    }

    /** The set of vertex dimensions. */
    function DimensionSet(): set<int>
      reads this
    {
      set id | id in vertices :: vertices[id].dimension
    }

    /** dimensions(): collects the dimension of every vertex. */
    method Dimensions() returns (dims: set<int>)
      ensures dims == DimensionSet()
      ensures forall d :: d in dims <==> exists id :: id in vertices && vertices[id].dimension == d
    {
      dims := {};
      var remaining := vertices.Keys;
      while remaining != {}
        invariant remaining <= vertices.Keys
        invariant dims == set id | id in vertices && id !in remaining :: vertices[id].dimension
        decreases remaining
      {
        ghost var w := Member(remaining);
        var k :| k in remaining;
        dims := dims + {vertices[k].dimension};
        remaining := remaining - {k};
      }
    }

    /** isSolverSuitable(property, vertDims): the decision table over the
        given dimensions, or over the graph's own when none are given. */
    predicate IsSolverSuitable(p: AlgorithmProperty, vertDims: set<int>)
      reads this
      ensures IsSolverSuitable(p, vertDims) && p.poseDim != -1 ==>
        p.poseDim in (if vertDims == {} then DimensionSet() else vertDims)
      ensures p.poseDim == -1 && !p.requiresMarginalize ==> IsSolverSuitable(p, vertDims)
    {
      Suitable(p, if vertDims == {} then DimensionSet() else vertDims)
    }

    /** setRenamedTypesFromString(types, factory): the comma-separated items
        in order, each registered as RenameOne decides; knownTags stands for
        the factory's tags. */
    method SetRenamedTypesFromString(types: string, knownTags: set<string>)
      requires Valid()
      modifies this
      ensures Valid()
      ensures renamedTypes == RenameAll(old(renamedTypes), Split(types, ","), knownTags)
      ensures vertices == old(vertices) && edges == old(edges) && nextEdgeId == old(nextEdgeId)
      ensures parameters == old(parameters) && preActions == old(preActions) && postActions == old(postActions)
    {
      var typesMap := StrSplit(types, ",");
      ghost var start := renamedTypes;
      for i := 0 to |typesMap|
        invariant RenameAll(renamedTypes, typesMap[i..], knownTags) == RenameAll(start, typesMap, knownTags)
        invariant vertices == old(vertices) && edges == old(edges) && nextEdgeId == old(nextEdgeId)
        invariant parameters == old(parameters) && preActions == old(preActions) && postActions == old(postActions)
      {
        assert typesMap[i..][0] == typesMap[i] && typesMap[i..][1..] == typesMap[i + 1..];
        var m := StrSplit(typesMap[i], "=");
        if |m| != 2 {
          continue;
        }
        var typeInFile := Trim(m[0]);
        var loadedType := Trim(m[1]);
        if loadedType !in knownTags {
          continue;
        }
        renamedTypes := renamedTypes[typeInFile := loadedType];
      }
      assert typesMap[|typesMap|..] == [];
    }

    /** The selection of save(level): the defined vertices of the edges at
        the level, in increasing id order, then those edges ordered by
        internal id. */
    method SaveSelection(level: int) returns (vertexIds: seq<int>, saved: seq<Edge>)
      ensures (set id | id in vertexIds) == LevelVertexIds(edges, level) && Increasing(vertexIds)
      ensures (set e | e in saved) == LevelEdges(edges, level) && SortedBy(saved, EdgeKey)
      ensures Distinct(saved) && |saved| == |LevelEdges(edges, level)|
    {
      var toSave: set<int> := {};
      var remaining := edges.Keys;
      while remaining != {}
        invariant remaining <= edges.Keys
        invariant toSave == set h, i | h in edges && h !in remaining && edges[h].level == level &&
          0 <= i < |edges[h].vertices| && edges[h].vertices[i].Some? :: edges[h].vertices[i].value
        decreases remaining
      {
        var h :| h in remaining;
        if edges[h].level == level {
          toSave := toSave + DefinedIds(edges[h]);
        }
        remaining := remaining - {h};
      }
      vertexIds := SortedIds(toSave);
      var atLevel := set h | h in edges && edges[h].level == level :: edges[h];
      var listed := Enumerate(atLevel);
      saved := SortByKey(listed, EdgeKey);
      PermutationOfDistinct(listed, saved);
    }

    /** The selection of saveSubset(vset, level): every edge at the level
        whose vertices all lie in vset, in the order of the edge set. */
    method SaveSubsetSelection(vset: set<int>, level: int) returns (saved: seq<Edge>)
      requires Valid()
      ensures (set e | e in saved) == SubsetEdges(edges, vset, level)
      ensures Distinct(saved)
    {
      saved := [];
      var remaining := edges.Keys;
      while remaining != {}
        invariant remaining <= edges.Keys
        invariant (set e | e in saved) == set h | h in edges && h !in remaining && InSubset(edges[h], vset, level) :: edges[h]
        invariant Distinct(saved) && forall k :: 0 <= k < |saved| ==> saved[k].handle !in remaining
        decreases remaining
      {
        var h :| h in remaining;
        assert forall k :: 0 <= k < |saved| ==> saved[k].handle != h;
        remaining := remaining - {h};
        var e := edges[h];
        if e.level != level {
          continue;
        }
        var verticesInEdge := true;
        var i := 0;
        while i < |e.vertices|
          invariant 0 <= i <= |e.vertices|
          invariant verticesInEdge <==> forall k :: 0 <= k < i ==> e.vertices[k].Some? && e.vertices[k].value in vset
        {
          if e.vertices[i].None? || e.vertices[i].value !in vset {
            verticesInEdge := false;
            break;
          }
          i := i + 1;
        }
        if !verticesInEdge {
          continue;
        }
        assert (set f | f in saved + [e]) == (set f | f in saved) + {e};
        saved := saved + [e];
      }
    }

    /** addPreIterationAction: true exactly when the action was new. */
    method AddPreIterationAction(action: nat) returns (changed: bool)
      modifies this
      ensures changed <==> action !in old(preActions)
      ensures preActions == old(preActions) + {action} && postActions == old(postActions)
      ensures vertices == old(vertices) && edges == old(edges) && nextEdgeId == old(nextEdgeId)
      ensures parameters == old(parameters) && renamedTypes == old(renamedTypes)
    {
      changed := action !in preActions;
      preActions := preActions + {action};
    }

    /** addPostIterationAction: true exactly when the action was new. */
    method AddPostIterationAction(action: nat) returns (changed: bool)
      modifies this
      ensures changed <==> action !in old(postActions)
      ensures postActions == old(postActions) + {action} && preActions == old(preActions)
      ensures vertices == old(vertices) && edges == old(edges) && nextEdgeId == old(nextEdgeId)
      ensures parameters == old(parameters) && renamedTypes == old(renamedTypes)
    {
      changed := action !in postActions;
      postActions := postActions + {action};
    }

    /** removePreIterationAction: true exactly when the action was there. */
    method RemovePreIterationAction(action: nat) returns (changed: bool)
      modifies this
      ensures changed <==> action in old(preActions)
      ensures preActions == old(preActions) - {action} && postActions == old(postActions)
      ensures vertices == old(vertices) && edges == old(edges) && nextEdgeId == old(nextEdgeId)
      ensures parameters == old(parameters) && renamedTypes == old(renamedTypes)
    {
      changed := action in preActions;
      preActions := preActions - {action};
    }

    /** removePostIterationAction: true exactly when the action was there. */
    method RemovePostIterationAction(action: nat) returns (changed: bool)
      modifies this
      ensures changed <==> action in old(postActions)
      ensures postActions == old(postActions) - {action} && preActions == old(preActions)
      ensures vertices == old(vertices) && edges == old(edges) && nextEdgeId == old(nextEdgeId)
      ensures parameters == old(parameters) && renamedTypes == old(renamedTypes)
    {
      changed := action in postActions;
      postActions := postActions - {action};
    }
  }

  /** The selection of saveSubset(eset): the defined vertices of the given
      edges, and the edges themselves. */
  method SaveEdgeSetSelection(eset: set<Edge>) returns (vset: set<int>)
    ensures vset == set e, i | e in eset && 0 <= i < |e.vertices| && e.vertices[i].Some? :: e.vertices[i].value
  {
    vset := {};
    var remaining := eset;
    while remaining != {}
      invariant remaining <= eset
      invariant vset == set e, i | e in eset && e !in remaining && 0 <= i < |e.vertices| && e.vertices[i].Some? :: e.vertices[i].value
      decreases remaining
    {
      var e :| e in remaining;
      assert forall f, i :: f == e && 0 <= i < |f.vertices| && f.vertices[i].Some? ==> f.vertices[i].value in DefinedIds(e);
      vset := vset + DefinedIds(e);
      remaining := remaining - {e};
    }
  }

  /** Registering a vertex makes its id unavailable: adding any vertex
      with the same id afterwards is rejected. */
  lemma AddVertexOnce(vertices: map<int, Vertex>, self: GraphId, v: Vertex, w: Vertex)
    requires VertexAdmissible(vertices, self, v) && w.id == v.id
    ensures !VertexAdmissible(vertices[v.id := v.(graph := Some(self))], self, w)
  {
  }
}
