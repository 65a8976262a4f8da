/** What a decomposition into components and its component graph mean for the original graph. */
module ComponentTheory {
  import opened Collections
  import opened Graphs
  import opened TarjanWalk
  import opened ComponentGraph

  // ---- membership in the transferred edge lists ----

  lemma {:induction false} LeavingMember(edges: EdgeList, comp: seq<int>, c: int, e: Edge)
    requires forall k :: 0 <= k < |edges| ==> 0 <= edges[k].dest < |comp|
    ensures e in Leaving(edges, comp, c) <==>
      exists k :: 0 <= k < |edges| && comp[edges[k].dest] != c && e == edges[k].(dest := comp[edges[k].dest])
  {
    if |edges| > 0 {
      var init := edges[..|edges| - 1];
      LeavingMember(init, comp, c, e);
      assert forall k :: 0 <= k < |init| ==> init[k] == edges[k];
      var last := edges[|edges| - 1];
      if e in Leaving(init, comp, c) {
        var k :| 0 <= k < |init| && comp[init[k].dest] != c && e == init[k].(dest := comp[init[k].dest]);
        assert edges[k] == init[k];
      }
    }
  }

  ghost predicate Origin(g: Graph, comp: seq<int>, c: int, e: Edge, x: int, k: int)
    requires WellFormed(g) && |comp| == |g|
  {
    && 0 <= x < |g| && 0 <= k < |g[x]| && comp[x] == c
    && comp[g[x][k].dest] != c && e == g[x][k].(dest := comp[g[x][k].dest])
  }

  lemma {:induction false} TransferredMember(g: Graph, comp: seq<int>, c: int, n: nat, e: Edge)
    requires WellFormed(g) && |comp| == |g| && n <= |g|
    ensures e in Transferred(g, comp, c, n) <==> exists x, k :: x < n && Origin(g, comp, c, e, x, k)
  {
    if n > 0 {
      TransferredMember(g, comp, c, n - 1, e);
      LeavingMember(g[n - 1], comp, c, e);
      hide Leaving, WellFormed;
      if comp[n - 1] == c && e in Leaving(g[n - 1], comp, c) {
        var k :| 0 <= k < |g[n - 1]| && comp[g[n - 1][k].dest] != c &&
          e == g[n - 1][k].(dest := comp[g[n - 1][k].dest]);
        assert Origin(g, comp, c, e, n - 1, k);
      }
      if e in Transferred(g, comp, c, n) && e !in Leaving(g[n - 1], comp, c) {
        assert e in Transferred(g, comp, c, n - 1);
      }
      forall x, k | x < n && Origin(g, comp, c, e, x, k)
        ensures e in Transferred(g, comp, c, n)
      {
      }
    }
  }

  /** The edge x -> y leads from component c to component d. */
  ghost predicate Crossing(g: Graph, comp: seq<int>, x: int, y: int, c: int, d: int) {
    HasEdge(g, x, y) && |comp| == |g| && Node(g, x) && Node(g, y) && comp[x] == c && comp[y] == d
  }

  /** Component c leads to component d exactly when some edge leads from a member of c to a member of d. */
  lemma ComponentEdge(g: Graph, comp: seq<int>, components: seq<NodeList>, cg: Graph, c: int, d: int)
    requires Decomposition(g, comp, components) && IsComponentGraph(g, comp, components, cg)
    ensures HasEdge(cg, c, d) <==>
      c != d && exists x, y :: Crossing(g, comp, x, y, c, d)
  {
    hide SccsOk, ListsOk, DoneClosed;
    if HasEdge(cg, c, d) {
      var p :| 0 <= p < |cg[c]| && cg[c][p].dest == d;
      assert cg[c][p] in Transferred(g, comp, c, |g|);
      TransferredMember(g, comp, c, |g|, cg[c][p]);
      var x, k :| x < |g| && Origin(g, comp, c, cg[c][p], x, k);
      assert Crossing(g, comp, x, g[x][k].dest, c, d);
    }
    if c != d && exists x, y :: Crossing(g, comp, x, y, c, d) {
      var x, y :| Crossing(g, comp, x, y, c, d);
      var k :| 0 <= k < |g[x]| && g[x][k].dest == y;
      var e := g[x][k].(dest := d);
      assert Origin(g, comp, c, e, x, k);
      TransferredMember(g, comp, c, |g|, e);
      var p :| 0 <= p < |cg[c]| && cg[c][p] == e;
      assert cg[c][p].dest == d;
    }
  }

  /** Component numbers are a dependency order: edges go to strictly lower numbers. */
  lemma ComponentsDescend(g: Graph, comp: seq<int>, components: seq<NodeList>, cg: Graph, c: int, d: int)
    requires Decomposition(g, comp, components) && IsComponentGraph(g, comp, components, cg) && HasEdge(cg, c, d)
    ensures 0 <= d < c < |cg|
  {
    hide HasEdge, SccsOk, ListsOk;
    ComponentEdge(g, comp, components, cg, c, d);
    assert Node(cg, c) by { EdgeSource(cg, c, d); }
    var x, y :| Crossing(g, comp, x, y, c, d);
  }

  lemma EdgeSource(g: Graph, u: int, v: int)
    requires HasEdge(g, u, v)
    ensures Node(g, u)
  {
  }

  /** A component graph is itself a well-formed graph. */
  lemma ComponentGraphWellFormed(g: Graph, comp: seq<int>, components: seq<NodeList>, cg: Graph)
    requires Decomposition(g, comp, components) && IsComponentGraph(g, comp, components, cg)
    ensures WellFormed(cg)
  {
    hide SccsOk, ListsOk, DoneClosed, Decomposition, IsComponentGraph;
    forall c, p | 0 <= c < |cg| && 0 <= p < |cg[c]| ensures 0 <= cg[c][p].dest < |cg| {
      assert HasEdge(cg, c, cg[c][p].dest);
      ComponentsDescend(g, comp, components, cg, c, cg[c][p].dest);
    }
  }

  /** Along any walk of the component graph the numbers only go down ... */
  lemma ComponentReachDescends(g: Graph, comp: seq<int>, components: seq<NodeList>, cg: Graph, c: int, d: int)
    requires Decomposition(g, comp, components) && IsComponentGraph(g, comp, components, cg)
    requires Reach(cg, c, d) && 0 <= c < |cg|
    ensures 0 <= d <= c
  {
    hide Decomposition, IsComponentGraph, HasEdge, Reach;
    var low := set x | 0 <= x < |cg| && Node(cg, x) && x <= c;
    forall x, y | x in low && HasEdge(cg, x, y) ensures y in low {
      ComponentsDescend(g, comp, components, cg, x, y);
    }
    LowClosed(cg, low);
    ReachStaysIn(cg, low, c, d);
  }

  lemma LowClosed(g: Graph, s: set<int>)
    requires forall x, y :: x in s && HasEdge(g, x, y) ==> y in s
    ensures Closed(g, s)
  {
  }

  /** ... so the component graph has no cycle. */
  lemma ComponentGraphAcyclic(g: Graph, comp: seq<int>, components: seq<NodeList>, cg: Graph, c: int, d: int)
    requires Decomposition(g, comp, components) && IsComponentGraph(g, comp, components, cg)
    requires Mutual(cg, c, d) && 0 <= c < |cg|
    ensures c == d
  {
    ComponentReachDescends(g, comp, components, cg, c, d);
    ComponentReachDescends(g, comp, components, cg, d, c);
  }

  // ---- reachability is the same in both graphs ----

  lemma ReachUp(g: Graph, comp: seq<int>, components: seq<NodeList>, cg: Graph, u: int, v: int)
    requires Decomposition(g, comp, components) && IsComponentGraph(g, comp, components, cg)
    requires Node(g, u) && Reach(g, u, v)
    ensures Node(g, v) && Reach(cg, comp[u], comp[v])
  {
    hide IsComponentGraph, Reach, SccsOk, ListsOk, DoneClosed, HasEdge;
    var s := set x | 0 <= x < |g| && Reach(cg, comp[u], comp[x]);
    forall x, y | x in s && HasEdge(g, x, y) ensures y in s {
      assert Node(g, y) by { EdgeTarget(g, x, y); }
      if comp[x] != comp[y] {
        assert Crossing(g, comp, x, y, comp[x], comp[y]);
        ComponentEdge(g, comp, components, cg, comp[x], comp[y]);
        ReachEdge(cg, comp[x], comp[y]);
        ReachTrans(cg, comp[u], comp[x], comp[y]);
      }
    }
    ReachRefl(cg, comp[u]);
    ReachStaysIn(g, s, u, v);
  }

  lemma EdgeTarget(g: Graph, u: int, v: int)
    requires WellFormed(g) && HasEdge(g, u, v)
    ensures Node(g, v)
  {
  }

  lemma SameComponent(g: Graph, comp: seq<int>, components: seq<NodeList>, u: int, v: int)
    requires Decomposition(g, comp, components) && Node(g, u) && Node(g, v)
    ensures comp[u] == comp[v] <==> Mutual(g, u, v)
  {
    hide Reach, ListsOk, DoneClosed;
  }

  lemma ReachDown(g: Graph, comp: seq<int>, components: seq<NodeList>, cg: Graph, u: int, v: int)
    requires Decomposition(g, comp, components) && IsComponentGraph(g, comp, components, cg)
    requires Node(g, u) && Node(g, v) && Reach(cg, comp[u], comp[v])
    ensures Reach(g, u, v)
  {
    hide IsComponentGraph, Reach, SccsOk, ListsOk, DoneClosed, HasEdge;
    var s := set x | x in comp && forall w :: Node(g, w) && comp[w] == x ==> Reach(g, u, w);
    forall c, d | c in s && HasEdge(cg, c, d) ensures d in s {
      ComponentEdge(g, comp, components, cg, c, d);
      var x, y :| Crossing(g, comp, x, y, c, d);
      ReachEdge(g, x, y);
      assert comp[y] in comp;
      forall w | Node(g, w) && comp[w] == d ensures Reach(g, u, w) {
        SameComponent(g, comp, components, y, w);
        ReachTrans(g, u, x, y);
        ReachTrans(g, u, y, w);
      }
    }
    forall w | Node(g, w) && comp[w] == comp[u] ensures Reach(g, u, w) {
      SameComponent(g, comp, components, u, w);
    }
    assert comp[u] in s;
    ReachStaysIn(cg, s, comp[u], comp[v]);
  }

  /** The component graph and the original graph agree on what reaches what. */
  lemma ComponentReach(g: Graph, comp: seq<int>, components: seq<NodeList>, cg: Graph, u: int, v: int)
    requires Decomposition(g, comp, components) && IsComponentGraph(g, comp, components, cg)
    requires Node(g, u) && Node(g, v)
    ensures Reach(cg, comp[u], comp[v]) <==> Reach(g, u, v)
  {
    if Reach(g, u, v) {
      ReachUp(g, comp, components, cg, u, v);
    }
    if Reach(cg, comp[u], comp[v]) {
      ReachDown(g, comp, components, cg, u, v);
    }
  }

  // ---- multiplicity ----

  /** The positions (node, edge number) of the original edges that become edge e of component c. */
  ghost function Origins(g: Graph, comp: seq<int>, c: int, e: Edge, n: nat): set<(int, int)>
    requires WellFormed(g) && |comp| == |g| && n <= |g|
  {
    set x, k | 0 <= x < n && 0 <= k < |g[x]| && Origin(g, comp, c, e, x, k) :: (x, k)
  }

  ghost function RowOrigins(g: Graph, comp: seq<int>, c: int, e: Edge, x: int, m: nat): set<(int, int)>
    requires WellFormed(g) && |comp| == |g| && Node(g, x) && m <= |g[x]|
  {
    set k | 0 <= k < m && Origin(g, comp, c, e, x, k) :: (x, k)
  }

  lemma {:induction false} RowCount(g: Graph, comp: seq<int>, c: int, e: Edge, x: int, m: nat)
    requires WellFormed(g) && |comp| == |g| && Node(g, x) && comp[x] == c && m <= |g[x]|
    ensures multiset(Leaving(g[x][..m], comp, c))[e] == |RowOrigins(g, comp, c, e, x, m)|
  {
    if m == 0 {
      assert RowOrigins(g, comp, c, e, x, 0) == {};
    } else {
      RowCount(g, comp, c, e, x, m - 1);
      assert g[x][..m][..m - 1] == g[x][..m - 1];
      var last := g[x][m - 1];
      var added := if comp[last.dest] != c then [last.(dest := comp[last.dest])] else [];
      CountAppend(Leaving(g[x][..m - 1], comp, c), added, e);
      RowStep(g, comp, c, e, x, m);
      hide RowOrigins;
      assert multiset(added)[e] == if Origin(g, comp, c, e, x, m - 1) then 1 else 0;
    }
  }

  lemma RowStep(g: Graph, comp: seq<int>, c: int, e: Edge, x: int, m: nat)
    requires WellFormed(g) && |comp| == |g| && Node(g, x) && 0 < m <= |g[x]|
    ensures |RowOrigins(g, comp, c, e, x, m)| ==
      |RowOrigins(g, comp, c, e, x, m - 1)| + if Origin(g, comp, c, e, x, m - 1) then 1 else 0
  {
    hide Origin;
    var before := RowOrigins(g, comp, c, e, x, m - 1);
    if Origin(g, comp, c, e, x, m - 1) {
      assert RowOrigins(g, comp, c, e, x, m) == before + {(x, m - 1)};
    } else {
      assert RowOrigins(g, comp, c, e, x, m) == before;
    }
  }

  lemma OriginsStep(g: Graph, comp: seq<int>, c: int, e: Edge, n: nat)
    requires WellFormed(g) && |comp| == |g| && 0 < n <= |g|
    ensures |Origins(g, comp, c, e, n)| ==
      |Origins(g, comp, c, e, n - 1)| + |RowOrigins(g, comp, c, e, n - 1, |g[n - 1]|)|
  {
    hide Origin;
    var before := Origins(g, comp, c, e, n - 1);
    var row := RowOrigins(g, comp, c, e, n - 1, |g[n - 1]|);
    assert Origins(g, comp, c, e, n) == before + row;
    assert before !! row;
  }

  lemma {:induction false} TransferredCount(g: Graph, comp: seq<int>, c: int, e: Edge, n: nat)
    requires WellFormed(g) && |comp| == |g| && n <= |g|
    ensures multiset(Transferred(g, comp, c, n))[e] == |Origins(g, comp, c, e, n)|
  {
    if n == 0 {
      assert Origins(g, comp, c, e, 0) == {};
    } else {
      TransferredCount(g, comp, c, e, n - 1);
      OriginsStep(g, comp, c, e, n);
      var row := RowOrigins(g, comp, c, e, n - 1, |g[n - 1]|);
      hide Leaving, Origins, WellFormed;
      if comp[n - 1] == c {
        RowCount(g, comp, c, e, n - 1, |g[n - 1]|);
        assert g[n - 1][..|g[n - 1]|] == g[n - 1];
        CountAppend(Transferred(g, comp, c, n - 1), Leaving(g[n - 1], comp, c), e);
      } else {
        assert row == {};
        CountAppend(Transferred(g, comp, c, n - 1), [], e);
      }
    }
  }

  /** Edges are neither merged nor lost: each component edge occurs once per original edge behind it. */
  lemma MultiplicityKept(g: Graph, comp: seq<int>, components: seq<NodeList>, cg: Graph, c: int, e: Edge)
    requires Decomposition(g, comp, components) && IsComponentGraph(g, comp, components, cg) && 0 <= c < |cg|
    ensures multiset(cg[c])[e] == |Origins(g, comp, c, e, |g|)|
  {
    hide SccsOk, ListsOk, DoneClosed;
    TransferredCount(g, comp, c, e, |g|);
  }

  // ---- graphs that are one component ----

  function OneMap(n: nat): (comp: seq<int>)
    ensures |comp| == n && forall x :: 0 <= x < n ==> comp[x] == 0
  {
    seq(n, _ => 0)
  }

  function OneList(n: nat): (list: NodeList)
    ensures |list| == n && forall x :: 0 <= x < n ==> list[x] == x
  {
    seq(n, x => x)
  }

  lemma OneComponent(g: Graph)
    requires WellFormed(g) && |g| > 0 && forall x :: Node(g, x) ==> Reach(g, 0, x) && Reach(g, x, 0)
    ensures Decomposition(g, OneMap(|g|), [OneList(|g|)])
    ensures IsComponentGraph(g, OneMap(|g|), [OneList(|g|)], [[]])
  {
    var comp := OneMap(|g|);
    forall x, y | 0 <= x < |g| && 0 <= y < |g| ensures Mutual(g, x, y) {
      assert Node(g, x) && Node(g, y);
      ReachTrans(g, x, 0, y);
      ReachTrans(g, y, 0, x);
    }
    forall x ensures x in OneList(|g|) <==> 0 <= x < |comp| && comp[x] == 0 {
      assert 0 <= x < |g| ==> OneList(|g|)[x] == x;
    }
    NothingLeaves(g, |g|);
  }

  lemma {:induction false} NothingLeaves(g: Graph, n: nat)
    requires WellFormed(g) && n <= |g|
    ensures Transferred(g, OneMap(|g|), 0, n) == []
  {
    if n > 0 {
      NothingLeaves(g, n - 1);
      AllStay(g[n - 1], |g|);
    }
  }

  lemma {:induction false} AllStay(edges: EdgeList, n: nat)
    requires forall k :: 0 <= k < |edges| ==> 0 <= edges[k].dest < n
    ensures Leaving(edges, OneMap(n), 0) == []
  {
    if |edges| > 0 {
      AllStay(edges[..|edges| - 1], n);
    }
  }
}
