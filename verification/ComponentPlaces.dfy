/** Which topological order the components get: the mirror image of a depth-first search from the last component. */
module ComponentPlaces {
  import opened Collections
  import opened Graphs
  import opened ComponentOrder
  import D = DepthFirst
  import R = SearchRecord

  /** The graph with each list of edges turned round. */
  ghost function Mirrored(cg: Graph): (m: Graph)
    ensures |m| == |cg| && forall c :: 0 <= c < |cg| ==> m[c] == Reverse(cg[c])
  {
    seq(|cg|, c requires 0 <= c < |cg| => Reverse(cg[c]))
  }

  ghost function Downwards(n: nat): (ns: seq<int>)
    ensures |ns| == n && forall k :: 0 <= k < n ==> ns[k] == n - 1 - k
  {
    seq(n, k => n - 1 - k)
  }

  lemma {:induction false} MirroredEdges(cg: Graph)
    requires WellFormed(cg)
    ensures WellFormed(Mirrored(cg)) && D.AreNodes(Mirrored(cg), Downwards(|cg|))
    ensures forall c, d :: HasEdge(Mirrored(cg), c, d) <==> HasEdge(cg, c, d)
  {
    var m := Mirrored(cg);
    forall c, d ensures HasEdge(m, c, d) <==> HasEdge(cg, c, d) {
      if HasEdge(cg, c, d) {
        var k :| 0 <= k < |cg[c]| && cg[c][k].dest == d;
        assert m[c][|cg[c]| - 1 - k].dest == d;
      }
      if HasEdge(m, c, d) {
        var k :| 0 <= k < |m[c]| && m[c][k].dest == d;
        assert cg[c][|cg[c]| - 1 - k].dest == d;
      }
    }
  }

  lemma {:induction false} SameReach(g: Graph, h: Graph, u: int, v: int)
    requires forall c, d :: HasEdge(g, c, d) <==> HasEdge(h, c, d)
    ensures Reach(g, u, v) <==> Reach(h, u, v)
  {
    hide HasEdge;
    assert forall p :: IsWalk(g, p) <==> IsWalk(h, p);
  }

  lemma {:induction false} MirroredReach(cg: Graph)
    requires WellFormed(cg)
    ensures forall u, v :: Reach(Mirrored(cg), u, v) <==> Reach(cg, u, v)
  {
    MirroredEdges(cg);
    hide HasEdge, Reach;
    forall u, v ensures Reach(Mirrored(cg), u, v) <==> Reach(cg, u, v) {
      SameReach(Mirrored(cg), cg, u, v);
    }
  }

  // ---- the record of the search ----

  ghost function Entered(visited: seq<bool>): set<int> {
    set c | 0 <= c < |visited| && visited[c]
  }

  /** Numbers have been handed out downwards, in the order in which the components were finished. */
  ghost predicate HandedOut(order: seq<int>, id: int, finished: seq<int>) {
    && id == |order| - |finished|
    && forall k :: 0 <= k < |finished| ==> 0 <= finished[k] < |order| && order[finished[k]] == |order| - 1 - k
  }

  lemma {:induction false} NoneHandedOut(order: seq<int>)
    ensures HandedOut(order, |order|, [])
  {
  }

  lemma {:induction false} HandOut(order: seq<int>, id: int, finished: seq<int>, c: int)
    requires HandedOut(order, id, finished) && 0 <= c < |order| && order[c] == |order| && id > 0
    ensures HandedOut(order[c := id - 1], id - 1, finished + [c])
  {
  }

  /** A visit of component c has made `visited` into `now` and `post` into `more`. */
  ghost predicate Searched(cg: Graph, visited: seq<bool>, now: seq<bool>, post: seq<int>, more: seq<int>, c: int) {
    R.Visits(Mirrored(cg), Entered(visited), Entered(now), post, more, c)
  }

  /** The same in the middle of the visit, with the edges of c from number k up followed. */
  ghost predicate Searching(cg: Graph, visited: seq<bool>, now: seq<bool>, post: seq<int>, more: seq<int>, c: int,
                            k: int)
  {
    Node(cg, c) && R.Follows(Mirrored(cg), Entered(visited), Entered(now), post, more, c, |cg[c]| - k)
  }

  lemma {:induction false} SearchedAlready(cg: Graph, visited: seq<bool>, post: seq<int>, c: int)
    requires WellFormed(cg) && Node(cg, c) && |visited| == |cg| && visited[c]
    ensures Searched(cg, visited, visited, post, post, c)
  {
    MirroredEdges(cg);
    hide HasEdge;
    var visit := D.Visit(Mirrored(cg), Entered(visited), c);
    assert visit == [] && post + visit == post && D.Members(visit) == {};
  }

  lemma {:induction false} SearchingNone(cg: Graph, visited: seq<bool>, post: seq<int>, c: int)
    requires WellFormed(cg) && Node(cg, c) && |visited| == |cg| && !visited[c]
    ensures Searching(cg, visited, visited[c := true], post, post, c, |cg[c]|)
  {
    MirroredEdges(cg);
    hide HasEdge;
    assert Entered(visited[c := true]) == Entered(visited) + {c};
    R.NoneFollowed(Mirrored(cg), Entered(visited), post, c);
  }

  lemma {:induction false} SearchingOn(cg: Graph, visited: seq<bool>, now: seq<bool>, later: seq<bool>, post: seq<int>,
                                       more: seq<int>, yet: seq<int>, c: int, k: int)
    requires Node(cg, c) && 0 <= k < |cg[c]| && Searching(cg, visited, now, post, more, c, k + 1)
    requires Searched(cg, now, later, more, yet, cg[c][k].dest)
    ensures Searching(cg, visited, later, post, yet, c, k)
  {
    hide R.Follows, R.Visits;
    R.FollowsChild(Mirrored(cg), Entered(visited), Entered(now), Entered(later), post, more, yet, c, |cg[c]| - 1 - k);
  }

  lemma {:induction false} SearchingEnds(cg: Graph, visited: seq<bool>, now: seq<bool>, post: seq<int>, more: seq<int>,
                                         c: int)
    requires |visited| == |cg| && Searching(cg, visited, now, post, more, c, 0) && !visited[c]
    ensures Searched(cg, visited, now, post, more + [c], c)
  {
    hide R.Follows, R.Visits;
    R.AllFollowed(Mirrored(cg), Entered(visited), Entered(now), post, more, c);
  }

  /** The components from c up have been visited. */
  ghost predicate SearchedDownTo(cg: Graph, visited: seq<bool>, post: seq<int>, c: int) {
    R.Searches(Mirrored(cg), Downwards(|cg|), Entered(visited), post, |cg| - c)
  }

  lemma {:induction false} SearchBegins(cg: Graph, visited: seq<bool>)
    requires WellFormed(cg) && forall c :: 0 <= c < |visited| ==> !visited[c]
    ensures SearchedDownTo(cg, visited, [], |cg|)
  {
    MirroredEdges(cg);
    hide HasEdge;
    assert Entered(visited) == {};
    R.NoneSearched(Mirrored(cg), Downwards(|cg|));
  }

  lemma {:induction false} SearchGoesOn(cg: Graph, visited: seq<bool>, now: seq<bool>, post: seq<int>, more: seq<int>,
                                        c: int)
    requires Node(cg, c) && SearchedDownTo(cg, visited, post, c + 1) && Searched(cg, visited, now, post, more, c)
    ensures SearchedDownTo(cg, now, more, c)
  {
    hide R.Visits, R.Searches;
    R.SearchesNext(Mirrored(cg), Downwards(|cg|), Entered(visited), Entered(now), post, more, |cg| - 1 - c);
  }

  lemma {:induction false} SearchDone(cg: Graph, visited: seq<bool>, order: seq<int>, id: int, post: seq<int>)
    requires WellFormed(cg) && Descending(cg) && |order| == |cg| && SearchedDownTo(cg, visited, post, 0)
    requires HandedOut(order, id, post) && id == 0
    ensures LaterNodeLast(cg, order) && LaterEdgeLast(cg, order)
  {
    assert post == BackOrder(cg);
    hide *;
    NodesLast(cg, order);
    EdgesLast(cg, order);
  }

  /** The search that the source runs over the components, as the order in which it finishes them. */
  ghost function BackOrder(cg: Graph): seq<int>
    requires WellFormed(cg)
  {
    MirroredEdges(cg);
    D.Search(Mirrored(cg), Downwards(|cg|), |cg|)
  }

  lemma {:induction false} BackOrderAll(cg: Graph)
    requires WellFormed(cg)
    ensures D.Distinct(BackOrder(cg)) && forall x :: x in BackOrder(cg) <==> Node(cg, x)
  {
    MirroredEdges(cg);
    var m, roots := Mirrored(cg), Downwards(|cg|);
    D.SearchShape(m, roots, |cg|);
    forall x ensures x in BackOrder(cg) <==> Node(cg, x) {
      if Node(cg, x) {
        ReachRefl(m, roots[|cg| - 1 - x]);
        assert D.FromFirst(m, roots, |cg|, x);
      }
    }
  }

  /** What the search leaves first is placed last. */
  lemma {:induction false} LeftFirstLast(cg: Graph, order: seq<int>, q: int, x: int, y: int)
    requires WellFormed(cg) && |order| == |cg| && HandedOut(order, 0, BackOrder(cg)) && Node(cg, y)
    requires D.Parted(BackOrder(cg), q, x, y)
    ensures 0 <= x < |order| && order[y] < order[x]
  {
    BackOrderAll(cg);
    var post := BackOrder(cg);
    var j :| 0 <= j < q && post[..q][j] == x;
    var k :| 0 <= k < |post| && post[k] == y;
    forall r | 0 <= r < q ensures post[r] != y {
      assert post[..q][r] == post[r];
    }
  }

  // ---- what the order means for the graph ----

  /** No component from t up leads to c. */
  ghost predicate UnreachedFrom(cg: Graph, t: int, c: int) {
    forall u :: t <= u < |cg| ==> !Reach(cg, u, c)
  }

  /** What a component leads to comes after whatever neither it nor any later one leads to. */
  ghost predicate LaterNodeLast(cg: Graph, order: seq<int>) {
    forall t, c, d :: Node(cg, t) && Reach(cg, t, d) && UnreachedFrom(cg, t, c) && 0 <= c < |order| && 0 <= d < |order|
      ==> order[c] < order[d]
  }

  /** y lies below e, and everything that leads to y leads to e first or lies between the two. */
  ghost predicate OnlyBelow(g: Graph, e: int, y: int) {
    && Reach(g, e, y) && !Reach(g, y, e)
    && (forall z :: Reach(g, z, y) && !Reach(g, z, e) ==> Reach(g, e, z))
    && (forall u, v :: HasEdge(g, u, v) && Reach(g, v, y) && !Reach(g, v, e) && Reach(g, u, e) ==> u == e)
  }

  /** What lies below e, but under none of its edges from number m up, comes before all that edge m leads to. */
  ghost predicate LaterEdgeLast(cg: Graph, order: seq<int>) {
    forall e, m, c, d :: LastEdge(cg, e, m, c, d) && 0 <= c < |order| && 0 <= d < |order| ==> order[c] < order[d]
  }

  ghost predicate LastEdge(cg: Graph, e: int, m: int, c: int, d: int) {
    && Node(cg, e) && 0 <= m < |cg[e]| && OnlyBelow(cg, e, c) && Reach(cg, cg[e][m].dest, d)
    && forall n :: m <= n < |cg[e]| ==> !Reach(cg, cg[e][n].dest, c)
  }

  lemma {:induction false} NodesLast(cg: Graph, order: seq<int>)
    requires WellFormed(cg) && |order| == |cg| && HandedOut(order, 0, BackOrder(cg))
    ensures LaterNodeLast(cg, order)
  {
    var m, roots := Mirrored(cg), Downwards(|cg|);
    MirroredEdges(cg);
    MirroredReach(cg);
    forall t, c, d | Node(cg, t) && Reach(cg, t, d) && UnreachedFrom(cg, t, c) && Node(cg, c) && Node(cg, d)
      ensures order[c] < order[d]
    {
      var a := |cg| - 1 - t;
      hide Reach, HandedOut, WellFormed;
      assert Reach(m, roots[a], d);
      assert D.FromFirst(m, roots, a + 1, d) && !D.FromFirst(m, roots, a + 1, c);
      D.RootsPart(m, roots, a, d, c);
      LeftFirstLast(cg, order, |D.Search(m, roots, a + 1)|, d, c);
    }
  }

  lemma {:induction false} EdgesLast(cg: Graph, order: seq<int>)
    requires WellFormed(cg) && Descending(cg) && |order| == |cg| && HandedOut(order, 0, BackOrder(cg))
    ensures LaterEdgeLast(cg, order)
  {
    forall e, m, c, d | LastEdge(cg, e, m, c, d) && Node(cg, c) && Node(cg, d) ensures order[c] < order[d] {
      hide *;
      var q := EdgeLast(cg, e, m, c, d);
      LeftFirstLast(cg, order, q, d, c);
    }
  }

  lemma {:induction false} EdgeLast(cg: Graph, e: int, m: int, c: int, d: int) returns (q: int)
    requires WellFormed(cg) && Descending(cg) && LastEdge(cg, e, m, c, d) && Node(cg, c)
    ensures D.Parted(BackOrder(cg), q, d, c)
  {
    var g, roots, k := Mirrored(cg), Downwards(|cg|), |cg[e]| - 1 - m;
    MirroredEdges(cg);
    MirroredReach(cg);
    BackOrderAll(cg);
    LastEdgeMirrored(cg, e, m, c, d);
    hide *;
    BelowOnly(cg, g, e, c);
    BelowApart(cg, g, e, c);
    q := D.EdgesPartAt(g, roots, e, k, d, c);
  }

  /** The edge in the graph that the search goes through. */
  lemma {:induction false} LastEdgeMirrored(cg: Graph, e: int, m: int, c: int, d: int)
    requires WellFormed(cg) && Descending(cg) && LastEdge(cg, e, m, c, d)
    ensures Node(cg, e) && OnlyBelow(cg, e, c) && 0 <= m < |cg[e]|
    ensures var g, k := Mirrored(cg), |cg[e]| - 1 - m;
      && k < |g[e]| && Reach(g, g[e][k].dest, d) && !Reach(g, g[e][k].dest, e) && !D.FromEdges(g, e, k + 1, c)
  {
    MirroredReach(cg);
    hide Reach, HasEdge, OnlyBelow;
    EdgeAt(cg, e, m);
    EdgeBack(cg, e, cg[e][m].dest);
    var g := Mirrored(cg);
    assert g[e] == Reverse(cg[e]);
    assert forall j :: 0 <= j < |g[e]| ==> g[e][j] == cg[e][|cg[e]| - 1 - j];
  }

  lemma {:induction false} EdgeBack(cg: Graph, e: int, d: int)
    requires WellFormed(cg) && Descending(cg) && HasEdge(cg, e, d)
    ensures !Reach(cg, d, e)
  {
    if Reach(cg, d, e) {
      DescendingReach(cg, d, e);
    }
  }

  lemma {:induction false} DescendingReach(cg: Graph, u: int, v: int)
    requires Descending(cg) && Reach(cg, u, v)
    ensures v <= u
  {
    var p :| IsWalk(cg, p) && p[0] == u && p[|p| - 1] == v;
    hide HasEdge;
    DescendingWalk(cg, p);
  }

  lemma {:induction false} DescendingWalk(cg: Graph, p: seq<int>)
    requires Descending(cg) && IsWalk(cg, p)
    ensures p[|p| - 1] <= p[0]
    decreases |p|
  {
    if |p| > 1 {
      hide HasEdge;
      WalkTail(cg, p);
      DescendingWalk(cg, p[1..]);
    }
  }

  lemma {:induction false} BelowOnly(cg: Graph, g: Graph, e: int, c: int)
    requires OnlyBelow(cg, e, c)
    requires forall u, v :: HasEdge(g, u, v) <==> HasEdge(cg, u, v)
    requires WellFormed(g) && forall u, v :: Reach(g, u, v) <==> Reach(cg, u, v)
    ensures D.OnlyThrough(g, e, c)
  {
    hide Reach, HasEdge;
    ReachRefl(cg, e);
    var side := D.Side(g, e, c);
    forall u, v | HasEdge(g, u, v) && v in side ensures u == e || u in side {
      ReachEdge(g, u, v);
      ReachTrans(g, u, v, c);
      EdgeNode(g, u, v);
    }
  }

  lemma EdgeNode(g: Graph, u: int, v: int)
    requires HasEdge(g, u, v)
    ensures Node(g, u) && u in Nodes(g)
  {
  }

  lemma {:induction false} BelowApart(cg: Graph, g: Graph, e: int, c: int)
    requires WellFormed(cg) && Descending(cg) && OnlyBelow(cg, e, c) && Node(cg, e) && |g| == |cg|
    requires forall u, v :: Reach(g, u, v) <==> Reach(cg, u, v)
    ensures D.RootsApart(g, Downwards(|cg|), |cg|, e, D.Side(g, e, c))
  {
    var roots := Downwards(|cg|);
    hide Reach, HasEdge;
    forall a | 0 <= a < |cg| && roots[a] in D.Side(g, e, c) ensures D.FromFirst(g, roots, a, e) {
      var z := roots[a];
      assert Reach(cg, e, z) && !Reach(cg, z, e);
      DescendingReach(cg, e, z);
      ReachRefl(g, e);
      assert roots[|cg| - 1 - e] == e;
      assert Reach(g, roots[|cg| - 1 - e], e);
    }
  }
}
