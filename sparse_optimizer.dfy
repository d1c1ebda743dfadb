/** SparseOptimizer of g2o/core/sparse_optimizer.cpp: the driver that
    chooses the active part of an optimizable graph, numbers its free
    vertices for the Hessian, runs the iterations of an optimization
    algorithm and hands the update vector back to the vertices. The
    optimizer extends the graph; here it holds the graph it drives. */
module SparseOptimizerModel {
  import opened Wrappers
  import opened Sequences
  import opened Sorting
  import opened RobustKernels
  import opened OptimizableGraphModel

  /** Every id of the list is a registered vertex. */
  predicate Registered(vertices: map<int, Vertex>, vlist: seq<int>)
  {
    forall i :: 0 <= i < |vlist| ==> vlist[i] in vertices
  }

  /** Two vertex tables that differ at most in the Hessian indices. */
  predicate SameButIndices(a: map<int, Vertex>, b: map<int, Vertex>)
  {
    a.Keys == b.Keys && forall id :: id in a ==> b[id] == a[id].(hessianIndex := b[id].hessianIndex)
  }

  /** The i-th entry of ivMap is the vertex whose Hessian index is i. */
  predicate Numbered(vertices: map<int, Vertex>, ivMap: seq<int>)
  {
    forall i :: 0 <= i < |ivMap| ==> ivMap[i] in vertices && vertices[ivMap[i]].hessianIndex == i
  }

  /** The free vertices of vlist whose marginalized flag is marg, in list
      order: what one pass of buildIndexMapping numbers. */
  function Layer(vertices: map<int, Vertex>, vlist: seq<int>, marg: bool): seq<int>
    requires Registered(vertices, vlist)
    decreases |vlist|
  {
    if vlist == [] then []
    else
      var last := vlist[|vlist| - 1];
      Layer(vertices, vlist[..|vlist| - 1], marg)
        + (if !vertices[last].fixed && vertices[last].marginalized == marg then [last] else [])
  }

  /** A pass numbers exactly the free vertices of the list with its
      marginalized flag. */
  lemma {:induction false} LayerMembers(vertices: map<int, Vertex>, vlist: seq<int>, marg: bool)
    requires Registered(vertices, vlist)
    ensures forall x :: x in Layer(vertices, vlist, marg) ==>
      x in vlist && x in vertices && !vertices[x].fixed && vertices[x].marginalized == marg
    ensures forall i :: 0 <= i < |vlist| && !vertices[vlist[i]].fixed && vertices[vlist[i]].marginalized == marg ==>
      vlist[i] in Layer(vertices, vlist, marg)
    decreases |vlist|
  {
    if vlist != [] {
      var init := vlist[..|vlist| - 1];
      LayerMembers(vertices, init, marg);
      forall x | x in init ensures x in vlist {
        var k :| 0 <= k < |init| && init[k] == x;
        assert vlist[k] == x;
      }
      forall i | 0 <= i < |vlist| - 1 ensures vlist[i] == init[i] {
      }
    }
  }

  /** The order of ivMap: the free non-marginalized vertices, then the free
      marginalized ones, each in list order. */
  function IndexOrder(vertices: map<int, Vertex>, vlist: seq<int>): (r: seq<int>)
    requires Registered(vertices, vlist)
    ensures forall x :: x in r ==> x in vertices
  {
    LayerMembers(vertices, vlist, false);
    LayerMembers(vertices, vlist, true);
    Layer(vertices, vlist, false) + Layer(vertices, vlist, true)
  }

  /** The Hessian order holds exactly the free vertices of the list, each
      once when the list has no repetition, with the marginalized ones
      after all others. */
  lemma IndexOrderProperties(vertices: map<int, Vertex>, vlist: seq<int>)
    requires Registered(vertices, vlist)
    ensures forall x :: x in IndexOrder(vertices, vlist) <==> x in vlist && x in vertices && !vertices[x].fixed
    ensures var r := IndexOrder(vertices, vlist);
      forall i, j :: 0 <= i < j < |r| && vertices[r[i]].marginalized ==> vertices[r[j]].marginalized
    ensures Distinct(vlist) ==> Distinct(IndexOrder(vertices, vlist))
  {
    var l0, l1 := Layer(vertices, vlist, false), Layer(vertices, vlist, true);
    LayerMembers(vertices, vlist, false);
    LayerMembers(vertices, vlist, true);
    var r := l0 + l1;
    assert r == IndexOrder(vertices, vlist);
    forall x | x in vlist && x in vertices && !vertices[x].fixed
      ensures x in r
    {
      var i :| 0 <= i < |vlist| && vlist[i] == x;
      assert x in l0 || x in l1;
    }
    forall i, j | 0 <= i < j < |r| && vertices[r[i]].marginalized
      ensures vertices[r[j]].marginalized
    {
      assert forall k :: 0 <= k < |l0| ==> r[k] == l0[k] && l0[k] in l0;
      assert i >= |l0|;
      assert r[j] == l1[j - |l0|] && r[j] in l1;
    }
    if Distinct(vlist) {
      LayerDistinct(vertices, vlist, false);
      LayerDistinct(vertices, vlist, true);
      forall i, j | 0 <= i < j < |r|
        ensures r[i] != r[j]
      {
        if i < |l0| && |l0| <= j {
          assert r[i] == l0[i] && r[i] in l0;
          assert r[j] == l1[j - |l0|] && r[j] in l1;
        } else if i < |l0| {
          assert r[i] == l0[i] && r[j] == l0[j];
        } else {
          assert r[i] == l1[i - |l0|] && r[j] == l1[j - |l0|];
        }
      }
    }
  }

  /** A pass over a list without repetition numbers each vertex once. */
  lemma {:induction false} LayerDistinct(vertices: map<int, Vertex>, vlist: seq<int>, marg: bool)
    requires Registered(vertices, vlist) && Distinct(vlist)
    ensures Distinct(Layer(vertices, vlist, marg))
    decreases |vlist|
  {
    if vlist != [] {
      var init := vlist[..|vlist| - 1];
      LayerDistinct(vertices, init, marg);
      LayerMembers(vertices, init, marg);
      var last := vlist[|vlist| - 1];
      assert last !in init by {
        forall k | 0 <= k < |init| ensures init[k] != last { assert init[k] == vlist[k]; }
      }
    }
  }

  /** One pass of buildIndexMapping (the loop body for one value of k):
      every free vertex of the list with the given marginalized flag gets
      the next Hessian index and is appended to ivMap, every fixed one gets
      -1. */
  method IndexPass(vertices: map<int, Vertex>, vlist: seq<int>, marg: bool, cur: map<int, Vertex>, ivMap: seq<int>)
    returns (next: map<int, Vertex>, ivMap': seq<int>)
    requires Registered(vertices, vlist) && SameButIndices(vertices, cur)
    ensures SameButIndices(vertices, next)
    ensures ivMap' == ivMap + Layer(vertices, vlist, marg)
    ensures forall id :: id in cur && id !in vlist ==> next[id] == cur[id]
    ensures forall i :: 0 <= i < |vlist| && vertices[vlist[i]].fixed ==> next[vlist[i]].hessianIndex == -1
    ensures Distinct(vlist) && Numbered(cur, ivMap) && Unnumbered(vertices, vlist, ivMap, marg) ==> Numbered(next, ivMap')
  {
    next, ivMap' := cur, ivMap;
    ghost var numbering := Distinct(vlist) && Numbered(cur, ivMap) && Unnumbered(vertices, vlist, ivMap, marg);
    for j := 0 to |vlist|
      invariant SameButIndices(vertices, next)
      invariant ivMap' == ivMap + Layer(vertices, vlist[..j], marg)
      invariant forall id :: id in cur && id !in vlist[..j] ==> next[id] == cur[id]
      invariant forall i :: 0 <= i < j && vertices[vlist[i]].fixed ==> next[vlist[i]].hessianIndex == -1
      invariant numbering ==> Numbered(next, ivMap')
    {
      var id := vlist[j];
      LayerStep(vertices, vlist, marg, j);
      if numbering && (vertices[id].fixed || vertices[id].marginalized == marg) {
        NotYetNumbered(vertices, vlist, marg, ivMap, j);
      }
      ghost var done := Layer(vertices, vlist[..j], marg);
      ghost var prev := next;
      assert next[id].fixed == vertices[id].fixed && next[id].marginalized == vertices[id].marginalized;
      if !next[id].fixed {
        if next[id].marginalized == marg {
          if numbering {
            NumberNext(next, ivMap', id);
          }
          ReindexKeeps(vertices, next, id, |ivMap'|);
          next := next[id := next[id].(hessianIndex := |ivMap'|)];
          AppendAssoc(ivMap, done, [id]);
          ivMap' := ivMap' + [id];
        } else {
          EmptyAppend(done);
        }
      } else {
        if numbering {
          MarkOutside(next, ivMap', id, -1);
        }
        ReindexKeeps(vertices, next, id, -1);
        next := next[id := next[id].(hessianIndex := -1)];
        EmptyAppend(done);
      }
      FixedMarked(vertices, vlist, j, prev, next);
      forall x | x in cur && x !in vlist[..j + 1]
        ensures next[x] == cur[x]
      {
        PrefixStep(vlist, j, x);
      }
    }
    assert vlist[..|vlist|] == vlist;
  }

  /** Changing one Hessian index keeps a vertex table the same as another
      but for the indices. */
  lemma ReindexKeeps(vertices: map<int, Vertex>, vs: map<int, Vertex>, id: int, h: int)
    requires SameButIndices(vertices, vs) && id in vs
    ensures SameButIndices(vertices, vs[id := vs[id].(hessianIndex := h)])
  {
    assert vs[id := vs[id].(hessianIndex := h)].Keys == vs.Keys;
  }

  /** Giving the next Hessian index to a vertex not yet in ivMap and
      appending it keeps ivMap's numbering. */
  lemma NumberNext(vs: map<int, Vertex>, ivMap: seq<int>, id: int)
    requires Numbered(vs, ivMap) && id in vs && id !in ivMap
    ensures Numbered(vs[id := vs[id].(hessianIndex := |ivMap|)], ivMap + [id])
  {
  }

  /** Changing the Hessian index of a vertex outside ivMap keeps its
      numbering. */
  lemma MarkOutside(vs: map<int, Vertex>, ivMap: seq<int>, id: int, h: int)
    requires Numbered(vs, ivMap) && id in vs && id !in ivMap
    ensures Numbered(vs[id := vs[id].(hessianIndex := h)], ivMap)
  {
  }

  /** The fixed vertices before position j keep -1 when only the vertex at
      j changes its Hessian index, to -1 if it is fixed too. */
  lemma FixedMarked(vertices: map<int, Vertex>, vlist: seq<int>, j: int, prev: map<int, Vertex>, next: map<int, Vertex>)
    requires Registered(vertices, vlist) && 0 <= j < |vlist| && vertices.Keys <= prev.Keys && vertices.Keys <= next.Keys
    requires forall i :: 0 <= i < j && vertices[vlist[i]].fixed ==> prev[vlist[i]].hessianIndex == -1
    requires next == prev || next == prev[vlist[j] := prev[vlist[j]].(hessianIndex := next[vlist[j]].hessianIndex)]
    requires vertices[vlist[j]].fixed ==> next[vlist[j]].hessianIndex == -1
    ensures forall i :: 0 <= i < j + 1 && vertices[vlist[i]].fixed ==> next[vlist[i]].hessianIndex == -1
  {
  }

  /** The pass over one more element of the list. */
  lemma LayerStep(vertices: map<int, Vertex>, vlist: seq<int>, marg: bool, j: int)
    requires Registered(vertices, vlist) && 0 <= j < |vlist|
    ensures Layer(vertices, vlist[..j + 1], marg) == Layer(vertices, vlist[..j], marg)
      + (if !vertices[vlist[j]].fixed && vertices[vlist[j]].marginalized == marg then [vlist[j]] else [])
  {
    assert vlist[..j + 1][..j] == vlist[..j];
  }

  /** An id outside a longer prefix is outside the shorter one and is not
      the next element. */
  lemma PrefixStep(vlist: seq<int>, j: int, x: int)
    requires 0 <= j < |vlist| && x !in vlist[..j + 1]
    ensures x !in vlist[..j] && x != vlist[j]
  {
    assert vlist[..j + 1] == vlist[..j] + [vlist[j]];
  }

  /** No vertex of the list that the pass touches (a fixed one, or one with
      the pass's marginalized flag) is in ivMap yet. */
  predicate Unnumbered(vertices: map<int, Vertex>, vlist: seq<int>, ivMap: seq<int>, marg: bool)
    requires Registered(vertices, vlist)
  {
    forall i :: 0 <= i < |vlist| && (vertices[vlist[i]].fixed || vertices[vlist[i]].marginalized == marg) ==>
      vlist[i] !in ivMap
  }

  /** The vertex at position j is not yet in ivMap when the pass reaches it
      and it is fixed or of the pass's kind. */
  lemma NotYetNumbered(vertices: map<int, Vertex>, vlist: seq<int>, marg: bool, ivMap: seq<int>, j: int)
    requires Registered(vertices, vlist) && Distinct(vlist) && Unnumbered(vertices, vlist, ivMap, marg)
    requires 0 <= j < |vlist|
    requires vertices[vlist[j]].fixed || vertices[vlist[j]].marginalized == marg
    ensures vlist[j] !in ivMap + Layer(vertices, vlist[..j], marg)
  {
    var id := vlist[j];
    var done := Layer(vertices, vlist[..j], marg);
    LayerMembers(vertices, vlist[..j], marg);
    assert id !in vlist[..j] by {
      forall k | 0 <= k < j ensures vlist[..j][k] != id { assert vlist[..j][k] == vlist[k]; }
    }
    assert id !in done;
  }

  /** buildIndexMapping's two passes over a non-empty list: the Hessian
      order, and the vertex table with the new Hessian indices. */
  method AssignHessianIndices(vertices: map<int, Vertex>, vlist: seq<int>) returns (updated: map<int, Vertex>, ivMap: seq<int>)
    requires Registered(vertices, vlist)
    ensures ivMap == IndexOrder(vertices, vlist)
    ensures SameButIndices(vertices, updated)
    ensures forall id :: id in vertices && id !in vlist ==> updated[id] == vertices[id]
    ensures forall i :: 0 <= i < |vlist| && vertices[vlist[i]].fixed ==> updated[vlist[i]].hessianIndex == -1
    ensures Distinct(vlist) ==> Numbered(updated, ivMap)
  {
    var pass0, ivMap0 := IndexPass(vertices, vlist, false, vertices, []);
    assert ivMap0 == Layer(vertices, vlist, false);
    FirstPassUnnumbered(vertices, vlist);
    updated, ivMap := IndexPass(vertices, vlist, true, pass0, ivMap0);
  }

  /** The second pass touches nothing the first one numbered. */
  lemma FirstPassUnnumbered(vertices: map<int, Vertex>, vlist: seq<int>)
    requires Registered(vertices, vlist)
    ensures Unnumbered(vertices, vlist, Layer(vertices, vlist, false), true)
  {
    LayerMembers(vertices, vlist, false);
  }

  /** The Hessian order does not depend on the Hessian indices. */
  lemma IndexOrderIgnoresIndices(a: map<int, Vertex>, b: map<int, Vertex>, vlist: seq<int>)
    requires SameButIndices(a, b) && Registered(a, vlist)
    ensures Registered(b, vlist) && IndexOrder(a, vlist) == IndexOrder(b, vlist)
  {
    LayerIgnoresIndices(a, b, vlist, false);
    LayerIgnoresIndices(a, b, vlist, true);
  }

  lemma {:induction false} LayerIgnoresIndices(a: map<int, Vertex>, b: map<int, Vertex>, vlist: seq<int>, marg: bool)
    requires SameButIndices(a, b) && Registered(a, vlist)
    ensures Registered(b, vlist) && Layer(a, vlist, marg) == Layer(b, vlist, marg)
    decreases |vlist|
  {
    if vlist != [] {
      LayerIgnoresIndices(a, b, vlist[..|vlist| - 1], marg);
      var last := vlist[|vlist| - 1];
      assert b[last] == a[last].(hessianIndex := b[last].hessianIndex);
    }
  }

  /** Every vertex slot of the edge holds a vertex of vset; an undefined
      slot is in no set. */
  predicate AllIn(e: Edge, vset: set<int>)
  {
    forall i :: 0 <= i < |e.vertices| ==> e.vertices[i].Some? && e.vertices[i].value in vset
  }

  /** allVerticesFixed: every vertex of the edge is a registered, fixed
      vertex. */
  predicate AllFixed(vertices: map<int, Vertex>, e: Edge)
  {
    forall i :: 0 <= i < |e.vertices| ==>
      e.vertices[i].Some? && e.vertices[i].value in vertices && vertices[e.vertices[i].value].fixed
  }

  /** initializeOptimization's test for an edge: at the level (any level
      when level is negative), all its vertices in vset, and not all of
      them fixed. */
  predicate ActiveEdge(vertices: map<int, Vertex>, e: Edge, vset: set<int>, level: int)
  {
    (level < 0 || e.level == level) && AllIn(e, vset) && !AllFixed(vertices, e)
  }

  /** The handles of the active edges. */
  ghost function ActiveHandles(vertices: map<int, Vertex>, edges: map<nat, Edge>, vset: set<int>, level: int): set<nat>
  {
    set h | h in edges && ActiveEdge(vertices, edges[h], vset, level)
  }

  /** The vertex id has an active edge. */
  ghost predicate HasActiveEdge(vertices: map<int, Vertex>, edges: map<nat, Edge>, id: int, vset: set<int>, level: int)
  {
    exists h :: h in edges && Some(id) in edges[h].vertices && ActiveEdge(vertices, edges[h], vset, level)
  }

  /** The active vertices: those of vset with an active edge. */
  ghost function ActiveVertexIds(vertices: map<int, Vertex>, edges: map<nat, Edge>, vset: set<int>, level: int): set<int>
  {
    set id | id in vset && HasActiveEdge(vertices, edges, id, vset, level)
  }

  /** The edge touches a vertex of the set. */
  ghost predicate Touches(e: Edge, done: set<int>)
  {
    exists id :: id in done && Some(id) in e.vertices
  }

  /** The test of allVerticesOK: the loop over the edge's vertices that
      stops at the first one outside vset. */
  method AllVerticesIn(e: Edge, vset: set<int>) returns (ok: bool)
    ensures ok == AllIn(e, vset)
  {
    ok := true;
    for i := 0 to |e.vertices|
      invariant ok == forall k :: 0 <= k < i ==> e.vertices[k].Some? && e.vertices[k].value in vset
    {
      if e.vertices[i].None? || e.vertices[i].value !in vset {
        ok := false;
        break;
      }
    }
  }

  /** The scan of one vertex's edges: the active ones among them. */
  method ScanVertexEdges(vertices: map<int, Vertex>, edges: map<nat, Edge>, id: int, vset: set<int>, level: int)
    returns (found: set<nat>)
    ensures found == set h | h in edges && Some(id) in edges[h].vertices && ActiveEdge(vertices, edges[h], vset, level)
  {
    found := {};
    var remaining := set h | h in edges && Some(id) in edges[h].vertices;
    ghost var incident := remaining;
    while remaining != {}
      invariant remaining <= incident
      invariant found == set h | h in incident && h !in remaining && ActiveEdge(vertices, edges[h], vset, level)
      decreases remaining
    {
      ghost var w := Member(remaining);
      var h :| h in remaining;
      remaining := remaining - {h};
      var e := edges[h];
      if level < 0 || e.level == level {
        var allVerticesOK := AllVerticesIn(e, vset);
        if allVerticesOK && !AllFixed(vertices, e) {
          found := found + {h};
        }
      }
    }
  }

  /** The loop of initializeOptimization(vset, level) over vset: the
      vertices with an active edge, in the order of the set, and the union
      of their active edges. */
  method CollectActive(vertices: map<int, Vertex>, edges: map<nat, Edge>, vset: set<int>, level: int)
    returns (active: seq<int>, aux: set<nat>)
    ensures (set x | x in active) == ActiveVertexIds(vertices, edges, vset, level) && Distinct(active)
    ensures aux == ActiveHandles(vertices, edges, vset, level)
  {
    active, aux := [], {};
    var remaining := vset;
    while remaining != {}
      invariant remaining <= vset
      invariant (set x | x in active) == set id | id in vset && id !in remaining && HasActiveEdge(vertices, edges, id, vset, level)
      invariant Distinct(active) && forall x :: x in active ==> x !in remaining
      invariant aux == set h | h in edges && ActiveEdge(vertices, edges[h], vset, level) && Touches(edges[h], vset - remaining)
      decreases remaining
    {
      ghost var w := Member(remaining);
      var id :| id in remaining;
      var found := ScanVertexEdges(vertices, edges, id, vset, level);
      ghost var done := vset - remaining;
      TouchesStep(vertices, edges, vset, level, done, id, aux, found);
      aux := aux + found;
      assert HasActiveEdge(vertices, edges, id, vset, level) <==> found != {} by {
        if found != {} {
          var h :| h in found;
        }
        if HasActiveEdge(vertices, edges, id, vset, level) {
          var h :| h in edges && Some(id) in edges[h].vertices && ActiveEdge(vertices, edges[h], vset, level);
          assert h in found;
        }
      }
      if found != {} {
        assert (set x | x in active + [id]) == (set x | x in active) + {id};
        active := active + [id];
      }
      remaining := remaining - {id};
    }
    ActiveEdgesTouch(vertices, edges, vset, level, vset - remaining, aux);
  }

  /** Scanning one more vertex adds the active edges incident to it. */
  lemma TouchesStep(vertices: map<int, Vertex>, edges: map<nat, Edge>, vset: set<int>, level: int,
                    done: set<int>, id: int, aux: set<nat>, found: set<nat>)
    requires aux == set h | h in edges && ActiveEdge(vertices, edges[h], vset, level) && Touches(edges[h], done)
    requires found == set h | h in edges && Some(id) in edges[h].vertices && ActiveEdge(vertices, edges[h], vset, level)
    ensures aux + found == set h | h in edges && ActiveEdge(vertices, edges[h], vset, level) && Touches(edges[h], done + {id})
  {
    forall h | h in edges && Touches(edges[h], done + {id})
      ensures Touches(edges[h], done) || Some(id) in edges[h].vertices
    {
      var x :| x in done + {id} && Some(x) in edges[h].vertices;
    }
    forall h | h in edges && Some(id) in edges[h].vertices
      ensures Touches(edges[h], done + {id})
    {
      assert id in done + {id};
    }
    forall h | h in edges && Touches(edges[h], done)
      ensures Touches(edges[h], done + {id})
    {
      var x :| x in done && Some(x) in edges[h].vertices;
      assert x in done + {id};
    }
  }

  /** Every active edge touches vset: it has a vertex, and all its vertices
      are in vset. */
  lemma ActiveEdgesTouch(vertices: map<int, Vertex>, edges: map<nat, Edge>, vset: set<int>, level: int,
                         done: set<int>, aux: set<nat>)
    requires done == vset
    requires aux == set h | h in edges && ActiveEdge(vertices, edges[h], vset, level) && Touches(edges[h], done)
    ensures aux == ActiveHandles(vertices, edges, vset, level)
  {
    forall h | h in edges && ActiveEdge(vertices, edges[h], vset, level)
      ensures Touches(edges[h], done)
    {
      var e := edges[h];
      assert |e.vertices| > 0;
      var first := e.vertices[0].value;
      assert Some(first) == e.vertices[0] && e.vertices[0] in e.vertices;
      assert first in done;
    }
  }

  /** The active vertices are exactly the vertices of the active edges. */
  lemma ActiveVerticesOfActiveEdges(vertices: map<int, Vertex>, edges: map<nat, Edge>, vset: set<int>, level: int)
    ensures ActiveVertexIds(vertices, edges, vset, level) ==
      set h, i | h in ActiveHandles(vertices, edges, vset, level) && 0 <= i < |edges[h].vertices| && edges[h].vertices[i].Some?
        :: edges[h].vertices[i].value
  {
    var handles := ActiveHandles(vertices, edges, vset, level);
    var ends := set h, i | h in handles && 0 <= i < |edges[h].vertices| && edges[h].vertices[i].Some?
      :: edges[h].vertices[i].value;
    forall id | id in ActiveVertexIds(vertices, edges, vset, level)
      ensures id in ends
    {
      var h :| h in edges && Some(id) in edges[h].vertices && ActiveEdge(vertices, edges[h], vset, level);
      var i :| 0 <= i < |edges[h].vertices| && edges[h].vertices[i] == Some(id);
      assert h in handles;
    }
    forall id | id in ends
      ensures id in ActiveVertexIds(vertices, edges, vset, level)
    {
      var h, i :| h in handles && 0 <= i < |edges[h].vertices| && edges[h].vertices[i].Some? && edges[h].vertices[i].value == id;
      assert edges[h].vertices[i] == Some(id) && edges[h].vertices[i] in edges[h].vertices;
    }
  }

  /** The active edges themselves. */
  ghost function ActiveEdgeSet(vertices: map<int, Vertex>, edges: map<nat, Edge>, vset: set<int>, level: int): set<Edge>
  {
    set h | h in edges && ActiveEdge(vertices, edges[h], vset, level) :: edges[h]
  }

  /** The edge table of a valid graph: each edge stored under its identity,
      no two with the same internal id. */
  predicate EdgeTable(edges: map<nat, Edge>)
  {
    (forall h :: h in edges ==> edges[h].handle == h) &&
    (forall h1, h2 :: h1 in edges && h2 in edges && h1 != h2 ==> edges[h1].internalId != edges[h2].internalId)
  }

  /** Internal ids strictly increase along the list: sorted by
      EdgeIDCompare and without repetition. */
  predicate IncreasingIds(es: seq<Edge>)
  {
    forall i, j :: 0 <= i < j < |es| ==> es[i].internalId < es[j].internalId
  }

  /** A set of edges as a list without repetition, sorted by internal id. */
  method SortedEdges(es: set<Edge>) returns (r: seq<Edge>)
    ensures (set e | e in r) == es && |r| == |es| && Distinct(r)
    ensures SortedBy(r, EdgeKey)
  {
    var listed := Enumerate(es);
    r := SortByKey(listed, EdgeKey);
    PermutationOfDistinct(listed, r);
  }

  /** A sorted list without repetition whose different edges have different
      internal ids has strictly increasing internal ids. */
  lemma SortedEdgesIncreasing(es: seq<Edge>)
    requires Distinct(es) && SortedBy(es, EdgeKey)
    requires forall i, j :: 0 <= i < |es| && 0 <= j < |es| && es[i] != es[j] ==> es[i].internalId != es[j].internalId
    ensures IncreasingIds(es)
  {
    forall i, j | 0 <= i < j < |es|
      ensures es[i].internalId < es[j].internalId
    {
      assert KeyLe(EdgeKey(es[i]), EdgeKey(es[j]));
    }
  }

  /** The selection of initializeOptimization(vset, level) followed by
      sortVectorContainers: the active vertices in increasing id order and
      the active edges in increasing internal-id order. */
  method SelectActive(vertices: map<int, Vertex>, edges: map<nat, Edge>, vset: set<int>, level: int)
    returns (activeV: seq<int>, activeE: seq<Edge>)
    requires vset <= vertices.Keys && EdgeTable(edges)
    ensures (set x | x in activeV) == ActiveVertexIds(vertices, edges, vset, level)
    ensures Increasing(activeV) && Registered(vertices, activeV)
    ensures (set e | e in activeE) == ActiveEdgeSet(vertices, edges, vset, level)
    ensures IncreasingIds(activeE)
  {
    var active, aux := CollectActive(vertices, edges, vset, level);
    activeV := SortByKey(active, IdKey);
    SortedDistinctIncreasing(active, activeV);
    forall i | 0 <= i < |activeV|
      ensures activeV[i] in vertices
    {
      assert activeV[i] in (set x | x in activeV);
      assert activeV[i] in ActiveVertexIds(vertices, edges, vset, level);
    }
    var es := set h | h in aux :: edges[h];
    assert es == ActiveEdgeSet(vertices, edges, vset, level);
    activeE := SortedEdges(es);
    forall i, j | 0 <= i < |activeE| && 0 <= j < |activeE| && activeE[i] != activeE[j]
      ensures activeE[i].internalId != activeE[j].internalId
    {
      assert activeE[i] in es && activeE[j] in es;
    }
    SortedEdgesIncreasing(activeE);
  }

  /** The edges initializeOptimization(eset) keeps: those without an
      undefined vertex. */
  function KeptEdges(eset: set<Edge>): (r: set<Edge>)
    ensures r <= eset
  {
    set e | e in eset && NumUndefinedVertices(e.vertices) == 0
  }

  /** The vertices of a set of edges. */
  ghost function VerticesOf(es: set<Edge>): set<int>
  {
    set e, i | e in es && 0 <= i < |e.vertices| && e.vertices[i].Some? :: e.vertices[i].value
  }

  /** The selection of initializeOptimization(eset) followed by
      sortVectorContainers: the kept edges sorted by internal id, and the
      union of their vertices in increasing id order. */
  method SelectFromEdges(eset: set<Edge>) returns (activeV: seq<int>, activeE: seq<Edge>)
    ensures (set e | e in activeE) == KeptEdges(eset) && Distinct(activeE) && SortedBy(activeE, EdgeKey)
    ensures (set x | x in activeV) == VerticesOf(KeptEdges(eset)) && Increasing(activeV)
  {
    var kept: set<Edge> := {};
    var aux: set<int> := {};
    var remaining := eset;
    while remaining != {}
      invariant remaining <= eset
      invariant kept == KeptEdges(eset - remaining)
      invariant aux == VerticesOf(kept)
      decreases remaining
    {
      ghost var w := Member(remaining);
      var e :| e in remaining;
      remaining := remaining - {e};
      if NumUndefinedVertices(e.vertices) > 0 {
        continue;
      }
      aux := aux + DefinedIds(e);
      kept := kept + {e};
    }
    activeE := SortedEdges(kept);
    activeV := SortedIds(aux);
  }

  /** One pass of clearIndexMapping: every vertex of ivMap gets Hessian
      index -1 and nothing else changes. */
  method ResetIndices(vertices: map<int, Vertex>, ivMap: seq<int>) returns (updated: map<int, Vertex>)
    ensures SameButIndices(vertices, updated)
    ensures forall id :: id in vertices ==>
      updated[id].hessianIndex == if id in ivMap then -1 else vertices[id].hessianIndex
  {
    updated := vertices;
    for k := 0 to |ivMap|
      invariant SameButIndices(vertices, updated)
      invariant forall id :: id in vertices ==>
        updated[id].hessianIndex == if id in ivMap[..k] then -1 else vertices[id].hessianIndex
    {
      var id := ivMap[k];
      assert ivMap[..k + 1] == ivMap[..k] + [id];
      if id in updated {
        updated := updated[id := updated[id].(hessianIndex := -1)];
      }
    }
    assert ivMap[..|ivMap|] == ivMap;
  }

  /** The comparison key of VertexIDCompare on vertex ids. */
  function Identity(id: int): int
  {
    id
  }

  /** The comparison key of EdgeIDCompare. */
  function InternalId(e: Edge): int
  {
    e.internalId
  }

  /** Keys that are non-decreasing along the list. */
  predicate NonDecreasing<T>(s: seq<T>, key: T -> int)
  {
    forall i, j :: 0 <= i < j < |s| ==> key(s[i]) <= key(s[j])
  }

  /** std::lower_bound by a key, by bisection: the first position whose key
      is not below x, when the keys are non-decreasing. */
  method LowerBound<T>(s: seq<T>, key: T -> int, x: int) returns (lo: nat)
    ensures lo <= |s|
    ensures NonDecreasing(s, key) ==>
      (forall i :: 0 <= i < lo ==> key(s[i]) < x) && (forall i :: lo <= i < |s| ==> x <= key(s[i]))
  {
    lo := 0;
    var hi := |s|;
    while lo < hi
      invariant 0 <= lo <= hi <= |s|
      invariant NonDecreasing(s, key) ==>
        (forall i :: 0 <= i < lo ==> key(s[i]) < x) && (forall i :: hi <= i < |s| ==> x <= key(s[i]))
      decreases hi - lo
    {
      var mid := lo + (hi - lo) / 2;
      if key(s[mid]) < x {
        lo := mid + 1;
      } else {
        hi := mid;
      }
    }
  }

  /** The sum of chi^2 over a list of edges. */
  function ChiTotal(es: seq<Edge>): real
  {
    if es == [] then 0.0 else es[0].chi2 + ChiTotal(es[1..])
  }

  /** Every kernel is defined at its edge's chi^2. */
  predicate KernelsDefined(es: seq<Edge>)
  {
    forall i :: 0 <= i < |es| && es[i].kernel.Some? ==> Defined(es[i].kernel.value, es[i].chi2)
  }

  /** An edge's share of activeRobustChi2: rho_0 of its chi^2 under its
      kernel, or the chi^2 itself without one. */
  function RobustTerm(m: Math, e: Edge): real
    requires Lawful(m) && (e.kernel.Some? ==> Defined(e.kernel.value, e.chi2))
  {
    if e.kernel.Some? then Robustify(m, e.kernel.value, e.chi2).value else e.chi2
  }

  /** The robust sum over a list of edges. */
  function RobustChiTotal(m: Math, es: seq<Edge>): real
    requires Lawful(m) && KernelsDefined(es)
  {
    if es == [] then 0.0 else RobustTerm(m, es[0]) + RobustChiTotal(m, es[1..])
  }

  /** With chi^2 values that are not negative the sum is not negative. */
  lemma {:induction false} ChiTotalNonNegative(es: seq<Edge>)
    requires forall i :: 0 <= i < |es| ==> 0.0 <= es[i].chi2
    ensures 0.0 <= ChiTotal(es)
  {
    if es != [] {
      ChiTotalNonNegative(es[1..]);
    }
  }

  /** Without kernels the robust sum is the plain sum. */
  lemma {:induction false} RobustChiWithoutKernels(m: Math, es: seq<Edge>)
    requires Lawful(m) && forall i :: 0 <= i < |es| ==> es[i].kernel.None?
    ensures KernelsDefined(es) && RobustChiTotal(m, es) == ChiTotal(es)
  {
    if es != [] {
      RobustChiWithoutKernels(m, es[1..]);
    }
  }

  /** Damping kernels on chi^2 values that are not negative never raise the
      sum. */
  lemma {:induction false} RobustChiAtMost(m: Math, es: seq<Edge>)
    requires Lawful(m)
    requires forall i :: 0 <= i < |es| ==> 0.0 <= es[i].chi2 && (es[i].kernel.Some? ==> Damping(es[i].kernel.value))
    ensures KernelsDefined(es) && RobustChiTotal(m, es) <= ChiTotal(es)
  {
    if es != [] {
      RobustChiAtMost(m, es[1..]);
      if es[0].kernel.Some? {
        DampingBelowError(m, es[0].kernel.value, es[0].chi2);
      }
      forall i | 0 <= i < |es| && es[i].kernel.Some?
        ensures Defined(es[i].kernel.value, es[i].chi2)
      {
        if i > 0 {
          assert es[i] == es[1..][i - 1];
        }
      }
    }
  }

  /** The result of one iteration of the optimization algorithm. */
  datatype SolverResult = SolverFail | SolverOk | SolverTerminate

  /** The iterations optimize runs when iteration i is reached after only
      kOk results: none once the count is reached or terminate() holds,
      otherwise this one and, if it returns kOk, those after it. */
  function Steps(iterations: int, solve: nat -> SolverResult, stop: nat -> bool, i: nat): nat
    decreases iterations - i
  {
    if iterations <= i || stop(i) then i
    else if solve(i) != SolverOk then i + 1
    else Steps(iterations, solve, stop, i + 1)
  }

  /** What optimize returns: -1 without an index mapping or when the
      algorithm fails to initialize, 0 when the last iteration failed, and
      otherwise the number of iterations run. */
  function OptimizeResult(indexed: bool, initOk: bool, iterations: int, solve: nat -> SolverResult, stop: nat -> bool): int
  {
    if !indexed || !initOk then -1
    else
      var n := Steps(iterations, solve, stop, 0);
      if n > 0 && solve(n - 1) == SolverFail then 0 else n
  }

  /** The run from iteration i: never past the count, every iteration run
      found terminate() false, every one but the last returned kOk, and a
      run that ends early after a kOk ends because terminate() held. */
  lemma {:induction false} StepsBounds(iterations: int, solve: nat -> SolverResult, stop: nat -> bool, i: nat)
    ensures var n := Steps(iterations, solve, stop, i);
      && i <= n && (n == i || n <= iterations)
      && (forall j :: i <= j < n ==> j < iterations && !stop(j))
      && (forall j :: i <= j < n - 1 ==> solve(j) == SolverOk)
      && (n < iterations && (n == i || solve(n - 1) == SolverOk) ==> stop(n))
    decreases iterations - i
  {
    if !(iterations <= i || stop(i)) && solve(i) == SolverOk {
      StepsBounds(iterations, solve, stop, i + 1);
    }
  }

  /** optimize returns -1 exactly when it cannot start; otherwise at most
      the iteration count, and a positive result means every iteration but
      the last returned kOk and the last did not fail. */
  lemma OptimizeOutcome(indexed: bool, initOk: bool, iterations: int, solve: nat -> SolverResult, stop: nat -> bool)
    ensures var r := OptimizeResult(indexed, initOk, iterations, solve, stop);
      && (r == -1 <==> !indexed || !initOk)
      && (r != -1 ==> 0 <= r && (r == 0 || r <= iterations))
      && (0 < r ==> solve(r - 1) != SolverFail && forall j :: 0 <= j < r - 1 ==> solve(j) == SolverOk)
      && (0 < r ==> forall j :: 0 <= j < r ==> !stop(j))
  {
    StepsBounds(iterations, solve, stop, 0);
  }

  /** The loop of optimize once the algorithm is initialized: the number of
      iterations run and the last result. */
  method Iterate(iterations: int, solve: nat -> SolverResult, stop: nat -> bool) returns (cjIterations: nat, result: SolverResult)
    ensures cjIterations == Steps(iterations, solve, stop, 0)
    ensures result == if cjIterations == 0 then SolverOk else solve(cjIterations - 1)
  {
    cjIterations := 0;
    result := SolverOk;
    var ok := true;
    var i := 0;
    while i < iterations && !stop(i) && ok
      invariant 0 <= i && cjIterations == i
      invariant result == if i == 0 then SolverOk else solve(i - 1)
      invariant ok <==> result == SolverOk
      invariant ok ==> Steps(iterations, solve, stop, i) == Steps(iterations, solve, stop, 0)
      invariant !ok ==> i == Steps(iterations, solve, stop, 0)
      decreases iterations - i
    {
      result := solve(i);
      ok := result == SolverOk;
      cjIterations := cjIterations + 1;
      i := i + 1;
    }
  }

  /** The total dimension of a list of vertices. */
  function TotalDimension(vertices: map<int, Vertex>, ids: seq<int>): (r: int)
    requires Registered(vertices, ids)
    ensures Dimensioned(vertices, ids) ==> 0 <= r
    decreases |ids|
  {
    if ids == [] then 0
    else TotalDimension(vertices, ids[..|ids| - 1]) + vertices[ids[|ids| - 1]].dimension
  }

  /** The segments one after another. */
  function Flatten(segments: seq<seq<real>>): seq<real>
    decreases |segments|
  {
    if segments == [] then [] else Flatten(segments[..|segments| - 1]) + segments[|segments| - 1]
  }

  /** Vertex dimensions that are not negative. */
  predicate Dimensioned(vertices: map<int, Vertex>, ids: seq<int>)
    requires Registered(vertices, ids)
  {
    forall i :: 0 <= i < |ids| ==> 0 <= vertices[ids[i]].dimension
  }

  /** A prefix of the list has no larger total dimension. */
  lemma {:induction false} TotalDimensionPrefix(vertices: map<int, Vertex>, ids: seq<int>, k: nat)
    requires Registered(vertices, ids) && Dimensioned(vertices, ids) && k <= |ids|
    ensures 0 <= TotalDimension(vertices, ids[..k]) <= TotalDimension(vertices, ids)
    decreases |ids|
  {
    if k < |ids| {
      var init := ids[..|ids| - 1];
      assert ids[..k] == init[..k];
      TotalDimensionPrefix(vertices, init, k);
    } else {
      assert ids[..k] == ids;
      if ids != [] {
        TotalDimensionPrefix(vertices, ids[..|ids| - 1], |ids| - 1);
        assert ids[..|ids| - 1][..|ids| - 1] == ids[..|ids| - 1];
      }
    }
  }

  /** The walk of update: the segment of the update vector each vertex of
      ivMap receives, dimension(v) entries each, in ivMap order, together
      exactly the first sum-of-dimensions entries. */
  method UpdateSegments(vertices: map<int, Vertex>, ivMap: seq<int>, update: seq<real>) returns (segments: seq<seq<real>>)
    requires Registered(vertices, ivMap) && Dimensioned(vertices, ivMap)
    requires TotalDimension(vertices, ivMap) <= |update|
    ensures |segments| == |ivMap|
    ensures forall k :: 0 <= k < |ivMap| ==> |segments[k]| == vertices[ivMap[k]].dimension
    ensures Flatten(segments) == update[..TotalDimension(vertices, ivMap)]
  {
    segments := [];
    var offset := 0;
    for k := 0 to |ivMap|
      invariant |segments| == k && offset == TotalDimension(vertices, ivMap[..k])
      invariant forall j :: 0 <= j < k ==> |segments[j]| == vertices[ivMap[j]].dimension
      invariant 0 <= offset <= |update| && Flatten(segments) == update[..offset]
    {
      var d := vertices[ivMap[k]].dimension;
      TotalDimensionPrefix(vertices, ivMap, k + 1);
      assert ivMap[..k + 1][..k] == ivMap[..k];
      assert offset + d == TotalDimension(vertices, ivMap[..k + 1]);
      var segment := update[offset..offset + d];
      assert (segments + [segment])[..k] == segments;
      assert update[..offset] + segment == update[..offset + d];
      segments := segments + [segment];
      offset := offset + d;
    }
    assert ivMap[..|ivMap|] == ivMap;
  }

  /** A unary edge of dimension d on the vertex: a full-dimension prior. */
  predicate Prior(e: Edge, id: int, d: int)
  {
    e.vertices == [Some(id)] && e.dimension == d
  }

  /** A vertex that pins the gauge: fixed, or with a full-dimension prior. */
  ghost predicate Pinned(vertices: map<int, Vertex>, edges: map<nat, Edge>, id: int, d: int)
    requires id in vertices
  {
    vertices[id].fixed || exists h :: h in edges && Prior(edges[h], id, d)
  }

  /** No vertex of dimension d pins the gauge. */
  ghost predicate Unpinned(vertices: map<int, Vertex>, edges: map<nat, Edge>, d: int)
  {
    forall id :: id in vertices && vertices[id].dimension == d ==> !Pinned(vertices, edges, id, d)
  }

  /** The scan of one vertex's edges for a full-dimension prior. */
  method HasPrior(edges: map<nat, Edge>, id: int, d: int) returns (found: bool)
    ensures found <==> exists h :: h in edges && Prior(edges[h], id, d)
  {
    var remaining := set h | h in edges && Some(id) in edges[h].vertices;
    ghost var incident := remaining;
    while remaining != {}
      invariant remaining <= incident
      invariant forall h :: h in incident && h !in remaining ==> !Prior(edges[h], id, d)
      decreases remaining
    {
      ghost var w := Member(remaining);
      var h :| h in remaining;
      remaining := remaining - {h};
      var e := edges[h];
      if |e.vertices| == 1 && e.dimension == d {
        assert e.vertices == [e.vertices[0]] && e.vertices[0] in e.vertices;
        return true;
      }
    }
    forall h | h in edges && Prior(edges[h], id, d)
      ensures h in incident
    {
      assert edges[h].vertices[0] == Some(id);
    }
    return false;
  }

  /** The loop of gaugeFreedom: false at the first vertex of dimension d
      that is fixed or has a full-dimension prior, true when there is
      none. */
  method NoPinnedVertex(vertices: map<int, Vertex>, edges: map<nat, Edge>, d: int) returns (free: bool)
    ensures free <==> Unpinned(vertices, edges, d)
  {
    var remaining := vertices.Keys;
    while remaining != {}
      invariant remaining <= vertices.Keys
      invariant forall id :: id in vertices && id !in remaining && vertices[id].dimension == d ==>
        !Pinned(vertices, edges, id, d)
      decreases remaining
    {
      ghost var w := Member(remaining);
      var id :| id in remaining;
      remaining := remaining - {id};
      var v := vertices[id];
      if v.dimension == d {
        if v.fixed {
          return false;
        }
        var prior := HasPrior(edges, id, d);
        if prior {
          return false;
        }
      }
    }
    return true;
  }

  /** The loop of findGauge: the first vertex of dimension d in the order of
      the vertex table, or none. */
  method FirstWithDimension(vertices: map<int, Vertex>, d: int) returns (r: Option<Vertex>)
    requires forall id :: id in vertices ==> vertices[id].id == id
    ensures r.Some? ==> r.value.id in vertices && vertices[r.value.id] == r.value && r.value.dimension == d
    ensures r.None? ==> forall id :: id in vertices ==> vertices[id].dimension != d
  {
    var remaining := vertices.Keys;
    while remaining != {}
      invariant remaining <= vertices.Keys
      invariant forall id :: id in vertices && id !in remaining ==> vertices[id].dimension != d
      decreases remaining
    {
      ghost var w := Member(remaining);
      var id :| id in remaining;
      remaining := remaining - {id};
      if vertices[id].dimension == d {
        return Some(vertices[id]);
      }
    }
    return None;
  }

  /** clearIndexMapping followed by buildIndexMapping over a list without
      repetition: the old ivMap's vertices lose their Hessian index, the
      list's free vertices are numbered in Hessian order, and the result
      says whether the list is non-empty. */
  method Reindex(vertices: map<int, Vertex>, oldMap: seq<int>, vlist: seq<int>)
    returns (updated: map<int, Vertex>, ivMap: seq<int>, ok: bool)
    requires Registered(vertices, vlist) && Distinct(vlist)
    ensures ok <==> vlist != []
    ensures SameButIndices(vertices, updated)
    ensures ivMap == if ok then IndexOrder(vertices, vlist) else []
    ensures Numbered(updated, ivMap)
    ensures forall i :: 0 <= i < |vlist| && vertices[vlist[i]].fixed ==> updated[vlist[i]].hessianIndex == -1
    ensures forall id :: id in vertices && id !in vlist ==>
      updated[id].hessianIndex == if id in oldMap then -1 else vertices[id].hessianIndex
  {
    var cleared := ResetIndices(vertices, oldMap);
    IndexOrderIgnoresIndices(vertices, cleared, vlist);
    if vlist == [] {
      return cleared, [], false;
    }
    updated, ivMap := AssignHessianIndices(cleared, vlist);
    ok := true;
  }

  /** The loop of updateInitialization over eset: the edges that are not
      all fixed, in the order of the set. */
  method FreeEdges(vertices: map<int, Vertex>, eset: set<Edge>) returns (r: seq<Edge>)
    ensures (set e | e in r) == set e | e in eset && !AllFixed(vertices, e)
    ensures Distinct(r)
  {
    var listed := Enumerate(eset);
    r := [];
    for i := 0 to |listed|
      invariant (set e | e in r) == set e | e in listed[..i] && !AllFixed(vertices, e)
      invariant Distinct(r) && forall e :: e in r ==> e in listed[..i]
    {
      assert listed[..i + 1] == listed[..i] + [listed[i]];
      if !AllFixed(vertices, listed[i]) {
        assert listed[i] !in listed[..i];
        assert (set e | e in r + [listed[i]]) == (set e | e in r) + {listed[i]};
        r := r + [listed[i]];
      }
    }
    assert listed[..|listed|] == listed;
  }

  /** A listing of a set disjoint from ivMap has nothing in ivMap. */
  lemma ListedOutside(vertices: map<int, Vertex>, order: seq<int>, vset: set<int>, ivMap: seq<int>)
    requires Registered(vertices, order) && (set x | x in order) == vset
    ensures (forall x :: x in vset ==> x !in ivMap) ==> Unnumbered(vertices, order, ivMap, false)
  {
    if forall x :: x in vset ==> x !in ivMap {
      forall i | 0 <= i < |order|
        ensures order[i] !in ivMap
      {
        assert order[i] in (set x | x in order);
      }
    }
  }

  /** The index part of updateInitialization: the free vertices of vset, in
      some order, take the next Hessian indices after those in ivMap and are
      appended to it; the fixed ones get -1. Without marginalized free
      vertices the single pass over vset is all buildIndexMapping would do. */
  method NumberNew(vertices: map<int, Vertex>, vset: set<int>, ivMap: seq<int>)
    returns (updated: map<int, Vertex>, extended: seq<int>)
    requires vset <= vertices.Keys
    requires forall id :: id in vset ==> vertices[id].fixed || !vertices[id].marginalized
    ensures |ivMap| <= |extended| && extended[..|ivMap|] == ivMap
    ensures (set x | x in extended[|ivMap|..]) == set id | id in vset && !vertices[id].fixed
    ensures SameButIndices(vertices, updated)
    ensures forall id :: id in vset && vertices[id].fixed ==> updated[id].hessianIndex == -1
    ensures forall id :: id in vertices && id !in vset ==> updated[id] == vertices[id]
    ensures Numbered(vertices, ivMap) && (forall x :: x in vset ==> x !in ivMap) ==> Numbered(updated, extended)
  {
    var order := Enumerate(vset);
    forall i | 0 <= i < |order|
      ensures order[i] in vertices
    {
      assert order[i] in (set x | x in order);
    }
    ListedOutside(vertices, order, vset, ivMap);
    updated, extended := IndexPass(vertices, order, false, vertices, ivMap);
    LayerMembers(vertices, order, false);
    ghost var added := Layer(vertices, order, false);
    assert extended[|ivMap|..] == added;
    forall id | id in vset && !vertices[id].fixed
      ensures id in added
    {
      assert id in (set x | x in order);
      var i :| 0 <= i < |order| && order[i] == id;
    }
    forall id | id in added
      ensures id in vset && !vertices[id].fixed
    {
      assert id in (set x | x in order);
    }
    forall id | id in vset && vertices[id].fixed
      ensures updated[id].hessianIndex == -1
    {
      assert id in (set x | x in order);
      var i :| 0 <= i < |order| && order[i] == id;
    }
  }

  /** The optimizer: the graph it optimizes, the active vertices (ids) and
      edges, and ivMap, the vertex ids in Hessian order. */
  class SparseOptimizer {
    const graph: OptimizableGraph
    var activeVertices: seq<int>
    var activeEdges: seq<Edge>
    var ivMap: seq<int>

    ghost predicate Valid()
      reads this, graph
    {
      graph.Valid()
    }

    /** The vertex object's current state: its record in the table when it
        is registered. */
    function Current(v: Vertex): Vertex
      reads graph
    {
      if v.id in graph.vertices then graph.vertices[v.id] else v
    }

    /** An optimizer over an empty graph, with nothing active. */
    constructor (id: GraphId)
      ensures Valid() && fresh(graph) && graph.self == id
      ensures graph.vertices == map[] && graph.edges == map[]
      ensures activeVertices == [] && activeEdges == [] && ivMap == []
    {
      graph := new OptimizableGraph(id);
      activeVertices, activeEdges, ivMap := [], [], [];
    }

    /** buildIndexMapping: false with an empty ivMap for an empty list;
        otherwise ivMap is the Hessian order of the list, each vertex of it
        carries its position there as Hessian index, and the fixed ones
        carry -1. */
    method BuildIndexMapping(vlist: seq<int>) returns (ok: bool)
      requires Valid() && Registered(graph.vertices, vlist)
      modifies this, graph`vertices
      ensures Valid()
      ensures ok <==> vlist != []
      ensures !ok ==> ivMap == [] && graph.vertices == old(graph.vertices)
      ensures ok ==> ivMap == IndexOrder(old(graph.vertices), vlist)
      ensures SameButIndices(old(graph.vertices), graph.vertices)
      ensures forall id :: id in old(graph.vertices) && id !in vlist ==> graph.vertices[id] == old(graph.vertices)[id]
      ensures forall i :: 0 <= i < |vlist| && old(graph.vertices)[vlist[i]].fixed ==> graph.vertices[vlist[i]].hessianIndex == -1
      ensures Distinct(vlist) ==> Numbered(graph.vertices, ivMap)
      ensures activeVertices == old(activeVertices) && activeEdges == old(activeEdges)
    {
      if vlist == [] {
        ivMap := [];
        return false;
      }
      var updated, order := AssignHessianIndices(graph.vertices, vlist);
      graph.vertices := updated;
      ivMap := order;
      return true;
    }

    /** clearIndexMapping: the vertices of ivMap get Hessian index -1. */
    method ClearIndexMapping()
      requires Valid()
      modifies this, graph`vertices
      ensures Valid()
      ensures ivMap == []
      ensures SameButIndices(old(graph.vertices), graph.vertices)
      ensures forall id :: id in graph.vertices ==>
        graph.vertices[id].hessianIndex == if id in old(ivMap) then -1 else old(graph.vertices)[id].hessianIndex
      ensures activeVertices == old(activeVertices) && activeEdges == old(activeEdges)
    {
      var updated := ResetIndices(graph.vertices, ivMap);
      graph.vertices := updated;
      ivMap := [];
    }

    /** initializeOptimization(vset, level): false with nothing changed for
        a graph without edges. Otherwise the active edges are those at the
        level (every level when it is negative) with all their vertices in
        vset and not all fixed, sorted by internal id; the active vertices
        are those with an active edge, sorted by id; the old index mapping
        is cleared and a new one built over the active vertices; the result
        says whether there is an active vertex. */
    method InitializeOptimization(vset: set<int>, level: int) returns (ok: bool)
      requires Valid() && vset <= graph.vertices.Keys
      modifies this, graph`vertices
      ensures Valid()
      ensures old(graph.edges) == map[] ==> !ok && unchanged(this) && graph.vertices == old(graph.vertices)
      ensures old(graph.edges) != map[] ==>
        && (set x | x in activeVertices) == ActiveVertexIds(old(graph.vertices), graph.edges, vset, level)
        && Increasing(activeVertices)
        && (set e | e in activeEdges) == ActiveEdgeSet(old(graph.vertices), graph.edges, vset, level)
        && IncreasingIds(activeEdges)
        && (ok <==> activeVertices != [])
        && Numbered(graph.vertices, ivMap)
        && SameButIndices(old(graph.vertices), graph.vertices)
      ensures old(graph.edges) != map[] ==>
        && Registered(old(graph.vertices), activeVertices)
        && ivMap == (if ok then IndexOrder(old(graph.vertices), activeVertices) else [])
        && forall i :: 0 <= i < |activeVertices| && old(graph.vertices)[activeVertices[i]].fixed ==>
             graph.vertices[activeVertices[i]].hessianIndex == -1
      ensures old(graph.edges) != map[] ==> forall id :: id in graph.vertices && id !in activeVertices ==>
        graph.vertices[id].hessianIndex == if id in old(ivMap) then -1 else old(graph.vertices)[id].hessianIndex
    {
      if graph.edges == map[] {
        return false;
      }
      var activeV, activeE := SelectActive(graph.vertices, graph.edges, vset, level);
      var updated, order;
      updated, order, ok := Reindex(graph.vertices, ivMap, activeV);
      graph.vertices := updated;
      activeVertices, activeEdges, ivMap := activeV, activeE, order;
    }

    /** initializeOptimization(level): the same over every vertex. */
    method InitializeOptimizationAtLevel(level: int) returns (ok: bool)
      requires Valid()
      modifies this, graph`vertices
      ensures Valid()
      ensures old(graph.edges) == map[] ==> !ok && unchanged(this) && graph.vertices == old(graph.vertices)
      ensures old(graph.edges) != map[] ==>
        && (set x | x in activeVertices) == ActiveVertexIds(old(graph.vertices), graph.edges, old(graph.vertices).Keys, level)
        && Increasing(activeVertices)
        && (set e | e in activeEdges) == ActiveEdgeSet(old(graph.vertices), graph.edges, old(graph.vertices).Keys, level)
        && IncreasingIds(activeEdges)
        && (ok <==> activeVertices != [])
        && Numbered(graph.vertices, ivMap)
        && SameButIndices(old(graph.vertices), graph.vertices)
      ensures old(graph.edges) != map[] ==>
        && Registered(old(graph.vertices), activeVertices)
        && ivMap == (if ok then IndexOrder(old(graph.vertices), activeVertices) else [])
        && forall i :: 0 <= i < |activeVertices| && old(graph.vertices)[activeVertices[i]].fixed ==>
             graph.vertices[activeVertices[i]].hessianIndex == -1
      ensures old(graph.edges) != map[] ==> forall id :: id in graph.vertices && id !in activeVertices ==>
        graph.vertices[id].hessianIndex == if id in old(ivMap) then -1 else old(graph.vertices)[id].hessianIndex
    {
      ok := InitializeOptimization(graph.vertices.Keys, level);
    }

    /** initializeOptimization(eset): the edges without an undefined vertex
        become active, sorted by internal id, their vertices the active
        vertices, sorted by id, and the index mapping is rebuilt over
        them. */
    method InitializeOptimizationFromEdges(eset: set<Edge>) returns (ok: bool)
      requires Valid() && forall e :: e in eset ==> DefinedIds(e) <= graph.vertices.Keys
      modifies this, graph`vertices
      ensures Valid()
      ensures (set e | e in activeEdges) == KeptEdges(eset) && Distinct(activeEdges) && SortedBy(activeEdges, EdgeKey)
      ensures (set x | x in activeVertices) == VerticesOf(KeptEdges(eset)) && Increasing(activeVertices)
      ensures ok <==> activeVertices != []
      ensures Registered(old(graph.vertices), activeVertices) &&
        ivMap == (if ok then IndexOrder(old(graph.vertices), activeVertices) else [])
      ensures Numbered(graph.vertices, ivMap) && SameButIndices(old(graph.vertices), graph.vertices)
      ensures Registered(old(graph.vertices), activeVertices) ==>
        forall i :: 0 <= i < |activeVertices| && old(graph.vertices)[activeVertices[i]].fixed ==>
          graph.vertices[activeVertices[i]].hessianIndex == -1
      ensures forall id :: id in graph.vertices && id !in activeVertices ==>
        graph.vertices[id].hessianIndex == if id in old(ivMap) then -1 else old(graph.vertices)[id].hessianIndex
    {
      var activeV, activeE := SelectFromEdges(eset);
      forall i | 0 <= i < |activeV|
        ensures activeV[i] in graph.vertices
      {
        assert activeV[i] in (set x | x in activeV);
        assert activeV[i] in VerticesOf(KeptEdges(eset));
        var e, k :| e in KeptEdges(eset) && 0 <= k < |e.vertices| && e.vertices[k].Some? && e.vertices[k].value == activeV[i];
        assert activeV[i] in DefinedIds(e);
      }
      var updated, order;
      updated, order, ok := Reindex(graph.vertices, ivMap, activeV);
      graph.vertices := updated;
      activeVertices, activeEdges, ivMap := activeV, activeE, order;
    }

    /** updateInitialization(vset, eset): the edges of eset that are not
        all fixed are appended to the active edges; the free vertices of
        vset get the next Hessian indices and are appended to ivMap and to
        the active vertices, the fixed ones get -1. The source aborts on a
        free marginalized vertex. The result is what the algorithm's
        updateStructure reports. */
    method UpdateInitialization(vset: set<int>, eset: set<Edge>, structureOk: bool) returns (ok: bool)
      requires Valid() && vset <= graph.vertices.Keys
      requires forall id :: id in vset ==> graph.vertices[id].fixed || !graph.vertices[id].marginalized
      modifies this, graph`vertices
      ensures Valid() && ok == structureOk
      ensures |old(activeEdges)| <= |activeEdges| && activeEdges[..|old(activeEdges)|] == old(activeEdges)
      ensures (set e | e in activeEdges[|old(activeEdges)|..]) == set e | e in eset && !AllFixed(old(graph.vertices), e)
      ensures |old(ivMap)| <= |ivMap| && ivMap[..|old(ivMap)|] == old(ivMap)
      ensures (set x | x in ivMap[|old(ivMap)|..]) == set id | id in vset && !old(graph.vertices)[id].fixed
      ensures activeVertices == old(activeVertices) + ivMap[|old(ivMap)|..]
      ensures SameButIndices(old(graph.vertices), graph.vertices)
      ensures forall id :: id in vset && old(graph.vertices)[id].fixed ==> graph.vertices[id].hessianIndex == -1
      ensures forall id :: id in old(graph.vertices) && id !in vset ==> graph.vertices[id] == old(graph.vertices)[id]
      ensures old(Numbered(graph.vertices, ivMap)) && (forall x :: x in vset ==> x !in old(ivMap)) ==>
        Numbered(graph.vertices, ivMap)
    {
      var newEdges := FreeEdges(graph.vertices, eset);
      activeEdges := activeEdges + newEdges;
      var updated, extended := NumberNew(graph.vertices, vset, ivMap);
      activeVertices := activeVertices + extended[|ivMap|..];
      graph.vertices := updated;
      ivMap := extended;
      ok := structureOk;
    }

    /** findActiveVertex: the position of the vertex in the active vertices
        found by lower_bound, when the id there is the vertex's; on a list
        sorted by id it is found exactly when it is active. */
    method FindActiveVertex(v: Vertex) returns (r: Option<nat>)
      ensures r.Some? ==> r.value < |activeVertices| && activeVertices[r.value] == v.id
      ensures Increasing(activeVertices) && v.id in activeVertices ==> r.Some?
    {
      var lower := LowerBound(activeVertices, Identity, v.id);
      if Increasing(activeVertices) && v.id in activeVertices {
        assert NonDecreasing(activeVertices, Identity);
        var k :| 0 <= k < |activeVertices| && activeVertices[k] == v.id;
        assert Identity(activeVertices[k]) == v.id;
        assert lower <= k;
        assert v.id <= Identity(activeVertices[lower]);
        assert forall j :: 0 <= j < k ==> activeVertices[j] < v.id;
        assert lower == k;
      }
      if lower == |activeVertices| {
        r := None;
      } else if activeVertices[lower] == v.id {
        r := Some(lower);
      } else {
        r := None;
      }
    }

    /** findActiveEdge: the position lower_bound finds by internal id, when
        the edge there is this edge; on a list with increasing internal ids
        every active edge is found. */
    method FindActiveEdge(e: Edge) returns (r: Option<nat>)
      ensures r.Some? ==> r.value < |activeEdges| && activeEdges[r.value].handle == e.handle
      ensures IncreasingIds(activeEdges) && e in activeEdges ==> r.Some? && activeEdges[r.value] == e
    {
      var lower := LowerBound(activeEdges, InternalId, e.internalId);
      if IncreasingIds(activeEdges) && e in activeEdges {
        assert NonDecreasing(activeEdges, InternalId);
        var k :| 0 <= k < |activeEdges| && activeEdges[k] == e;
        assert InternalId(activeEdges[k]) == e.internalId;
        assert lower <= k;
        assert e.internalId <= InternalId(activeEdges[lower]);
        assert forall j :: 0 <= j < k ==> activeEdges[j].internalId < e.internalId;
        assert lower == k;
      }
      if lower == |activeEdges| {
        r := None;
      } else if activeEdges[lower].handle == e.handle {
        r := Some(lower);
      } else {
        r := None;
      }
    }

    /** activeChi2: the sum of chi^2 over the active edges. */
    method ActiveChi2() returns (chi: real)
      ensures chi == ChiTotal(activeEdges)
    {
      chi := 0.0;
      for i := 0 to |activeEdges|
        invariant chi + ChiTotal(activeEdges[i..]) == ChiTotal(activeEdges)
      {
        assert activeEdges[i..][1..] == activeEdges[i + 1..];
        chi := chi + activeEdges[i].chi2;
      }
    }

    /** activeRobustChi2: the same with rho_0 of the chi^2 for every edge
        with a robust kernel. */
    method ActiveRobustChi2(m: Math) returns (chi: real)
      requires Lawful(m) && KernelsDefined(activeEdges)
      ensures chi == RobustChiTotal(m, activeEdges)
    {
      chi := 0.0;
      for i := 0 to |activeEdges|
        invariant KernelsDefined(activeEdges[i..])
        invariant chi + RobustChiTotal(m, activeEdges[i..]) == RobustChiTotal(m, activeEdges)
      {
        assert activeEdges[i..][1..] == activeEdges[i + 1..];
        var e := activeEdges[i];
        if e.kernel.Some? {
          var rho := Robustify(m, e.kernel.value, e.chi2);
          chi := chi + rho.value;
        } else {
          chi := chi + e.chi2;
        }
      }
    }

    /** optimize(iterations, online), with the algorithm's init result, the
        result of its solve at each iteration and terminate() before each
        iteration as inputs. */
    method Optimize(iterations: int, initOk: bool, solve: nat -> SolverResult, stop: nat -> bool) returns (r: int)
      ensures r == OptimizeResult(ivMap != [], initOk, iterations, solve, stop)
    {
      if ivMap == [] {
        return -1;
      }
      if !initOk {
        return -1;
      }
      var cjIterations, result := Iterate(iterations, solve, stop);
      if result == SolverFail {
        return 0;
      }
      return cjIterations;
    }

    /** update: the segments of the update vector handed to the oplus of
        each vertex of ivMap. */
    method Update(update: seq<real>) returns (segments: seq<seq<real>>)
      requires Registered(graph.vertices, ivMap) && Dimensioned(graph.vertices, ivMap)
      requires TotalDimension(graph.vertices, ivMap) <= |update|
      ensures |segments| == |ivMap|
      ensures forall k :: 0 <= k < |ivMap| ==> |segments[k]| == graph.vertices[ivMap[k]].dimension
      ensures Flatten(segments) == update[..TotalDimension(graph.vertices, ivMap)]
    {
      segments := UpdateSegments(graph.vertices, ivMap, update);
    }

    /** gaugeFreedom: false for a graph without vertices; otherwise true
        exactly when no vertex of the largest dimension is fixed or has a
        unary edge of that dimension. */
    method GaugeFreedom() returns (gauge: bool)
      ensures gauge <==>
        graph.vertices != map[] && forall d :: IsMaxDimension(graph.vertices, d) ==> Unpinned(graph.vertices, graph.edges, d)
    {
      if graph.vertices == map[] {
        return false;
      }
      var maxDim := graph.MaxDimension();
      gauge := NoPinnedVertex(graph.vertices, graph.edges, maxDim);
      forall d | IsMaxDimension(graph.vertices, d)
        ensures d == maxDim
      {
        MaxDimensionUnique(graph.vertices, d, maxDim);
      }
    }

    /** findGauge: a registered vertex of the largest dimension, or none
        exactly when every dimension is negative (a graph without vertices
        included, since the largest dimension is then 0). */
    method FindGauge() returns (r: Option<Vertex>)
      requires Valid()
      ensures r.Some? ==> r.value.id in graph.vertices && graph.vertices[r.value.id] == r.value
      ensures r.Some? ==> IsMaxDimension(graph.vertices, r.value.dimension)
      ensures r.None? <==> forall id :: id in graph.vertices ==> graph.vertices[id].dimension < 0
    {
      if graph.vertices == map[] {
        return None;
      }
      var maxDim := graph.MaxDimension();
      r := FirstWithDimension(graph.vertices, maxDim);
    }

    /** removeVertex: a vertex with a Hessian index clears the index
        mapping first; then the graph unregisters it, detaching it from or
        removing its edges. */
    method RemoveVertex(v: Vertex, detach: bool) returns (ok: bool)
      requires Valid()
      modifies this, graph
      ensures Valid()
      ensures ok <==> v.id in old(graph.vertices)
      ensures graph.vertices.Keys == old(graph.vertices).Keys - {v.id}
      ensures ivMap == if old(Current(v)).hessianIndex >= 0 then [] else old(ivMap)
      ensures forall id :: id in graph.vertices ==>
        graph.vertices[id] == old(graph.vertices)[id].(hessianIndex := graph.vertices[id].hessianIndex)
      ensures forall id :: id in graph.vertices ==>
        graph.vertices[id].hessianIndex ==
          if old(Current(v)).hessianIndex >= 0 && id in old(ivMap) then -1 else old(graph.vertices)[id].hessianIndex
      ensures old(Numbered(graph.vertices, ivMap)) ==> Numbered(graph.vertices, ivMap)
      ensures graph.edges == if ok then EdgesAfterRemoval(old(graph.edges), v.id, detach) else old(graph.edges)
      ensures graph.nextEdgeId == old(graph.nextEdgeId) && graph.parameters == old(graph.parameters)
      ensures graph.renamedTypes == old(graph.renamedTypes)
      ensures graph.preActions == old(graph.preActions) && graph.postActions == old(graph.postActions)
      ensures activeVertices == old(activeVertices) && activeEdges == old(activeEdges)
    {
      if Current(v).hessianIndex >= 0 {
        ClearIndexMapping();
      }
      var detached;
      ok, detached := graph.RemoveVertex(v, detach);
    }
  }
}
