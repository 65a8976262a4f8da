/** The order in which the components are numbered: that in which a depth-first search leaves them. */
module ComponentNumbers {
  import opened Graphs
  import opened TarjanWalk
  import D = DepthFirst
  import R = SearchRecord

  /** Some node of component d is finished after all nodes of component c. */
  ghost predicate FinishesLater(comp: seq<int>, post: seq<int>, c: int, d: int) {
    exists q :: 0 <= q < |post| && LeavesAt(comp, post, c, d, q)
  }

  ghost predicate LeavesAt(comp: seq<int>, post: seq<int>, c: int, d: int, q: int)
    requires 0 <= q < |post|
  {
    && 0 <= post[q] < |comp| && comp[post[q]] == d
    && forall r :: 0 <= r < |post| && 0 <= post[r] < |comp| && comp[post[r]] == c ==> r < q
  }

  /** The first n components are numbered in the order in which the search has left them. */
  ghost predicate Stamped(comp: seq<int>, n: int, post: seq<int>) {
    forall c, d :: 0 <= c < d < n ==> FinishesLater(comp, post, c, d)
  }

  /** The visit of i has ended, and it has been left open. */
  lemma StampedOpen(comp: seq<int>, n: int, post: seq<int>, i: int)
    requires Stamped(comp, n, post) && 0 <= i < |comp| && comp[i] < 0
    ensures Stamped(comp, n, post + [i])
  {
    forall c, d | 0 <= c < d < n ensures FinishesLater(comp, post + [i], c, d) {
      assert FinishesLater(comp, post, c, d);
      var q :| 0 <= q < |post| && LeavesAt(comp, post, c, d, q);
      assert LeavesAt(comp, post + [i], c, d, q);
    }
  }

  /** The visit of i has ended, and some open nodes, i among them, have become the next component. */
  lemma StampedClosed(comp: seq<int>, comp': seq<int>, n: int, post: seq<int>, i: int)
    requires Stamped(comp, n, post) && |comp'| == |comp| && 0 <= i < |comp| && comp'[i] == n
    requires forall x :: 0 <= x < |comp| ==> comp'[x] == comp[x] || (comp'[x] == n && comp[x] < 0)
    requires forall x :: 0 <= x < |comp| ==> comp[x] < n
    ensures Stamped(comp', n + 1, post + [i])
  {
    var more := post + [i];
    forall c, d | 0 <= c < d < n + 1 ensures FinishesLater(comp', more, c, d) {
      if d < n {
        assert FinishesLater(comp, post, c, d);
        var q :| 0 <= q < |post| && LeavesAt(comp, post, c, d, q);
        assert LeavesAt(comp', more, c, d, q);
      } else {
        assert more[|post|] == i;
        assert LeavesAt(comp', more, c, d, |post|);
      }
    }
  }

  // ---- the record that the algorithm keeps ----

  ghost function VisitedNodes(s: Walk): set<int> {
    set x | 0 <= x < |s.visited| && Visited(s, x)
  }

  /** The visit of i took the algorithm from state s to t, and the record of finished nodes from fs to ft. */
  ghost predicate VisitRecorded(g: Graph, s: Walk, t: Walk, fs: seq<int>, ft: seq<int>, i: int) {
    Stamped(t.comp, |t.components|, ft) && R.Visits(g, VisitedNodes(s), VisitedNodes(t), fs, ft, i)
  }

  /** The same in the middle of the visit, after e of the edges of i. */
  ghost predicate FollowRecorded(g: Graph, s: Walk, t: Walk, fs: seq<int>, ft: seq<int>, i: int, e: int) {
    Stamped(t.comp, |t.components|, ft) && R.Follows(g, VisitedNodes(s), VisitedNodes(t), fs, ft, i, e)
  }

  /** The walks from the first i nodes are over. */
  ghost predicate SearchRecorded(g: Graph, s: Walk, fs: seq<int>, i: int) {
    Stamped(s.comp, |s.components|, fs) && R.Searches(g, Numbers(|g|), VisitedNodes(s), fs, i)
  }

  lemma {:induction false} StartRecord(g: Graph, s: Walk)
    requires WellFormed(g) && Sized(g, s) && s.components == []
    requires forall x :: 0 <= x < |s.comp| && x < |s.visited| ==> s.visited[x] == 0 && s.comp[x] == -1
    ensures SearchRecorded(g, s, [], 0)
  {
    R.NoneSearched(g, Numbers(|g|));
    assert VisitedNodes(s) == {};
  }

  lemma {:induction false} RecordedSkip(g: Graph, s: Walk, fs: seq<int>, i: int)
    requires SearchRecorded(g, s, fs, i) && Node(g, i) && Visited(s, i)
    ensures SearchRecorded(g, s, fs, i + 1)
  {
    hide Stamped;
    R.SearchesSeen(g, Numbers(|g|), VisitedNodes(s), fs, i);
  }

  lemma {:induction false} RecordedWalk(g: Graph, s: Walk, t: Walk, u: Walk, fs: seq<int>, fu: seq<int>, i: int)
    requires SearchRecorded(g, s, fs, i) && t.visited == s.visited && VisitRecorded(g, t, u, fs, fu, i)
    ensures SearchRecorded(g, u, fu, i + 1)
  {
    hide Stamped;
    assert VisitedNodes(t) == VisitedNodes(s);
    R.SearchesNext(g, Numbers(|g|), VisitedNodes(s), VisitedNodes(u), fs, fu, i);
  }

  lemma {:induction false} RecordedPush(g: Graph, s: Walk, fs: seq<int>, i: int)
    requires WellFormed(g) && Node(g, i) && |s.visited| == |s.entries| == |s.comp| == |g| && s.walkId > 0
    requires !Visited(s, i) && !Done(s, i) && s.comp[i] >= -1 && Stamped(s.comp, |s.components|, fs)
    ensures FollowRecorded(g, s, Push(s, i), fs, fs, i, 0)
  {
    hide Stamped;
    assert Push(s, i).comp == s.comp;
    assert VisitedNodes(Push(s, i)) == VisitedNodes(s) + {i};
    R.NoneFollowed(g, VisitedNodes(s), fs, i);
  }

  lemma {:induction false} RecordedStamps(g: Graph, s: Walk, t: Walk, fs: seq<int>, ft: seq<int>, i: int, e: int)
    requires FollowRecorded(g, s, t, fs, ft, i, e)
    ensures Stamped(t.comp, |t.components|, ft)
  {
  }

  lemma {:induction false} RecordedSeen(g: Graph, s: Walk, t: Walk, fs: seq<int>, ft: seq<int>, i: int, e: int)
    requires Node(g, i) && 0 <= e < |g[i]| && FollowRecorded(g, s, t, fs, ft, i, e) && Visited(t, g[i][e].dest)
    ensures FollowRecorded(g, s, t, fs, ft, i, e + 1)
  {
    hide Stamped, R.Follows;
    R.FollowsSeen(g, VisitedNodes(s), VisitedNodes(t), fs, ft, i, e);
  }

  lemma {:induction false} RecordedChild(g: Graph, s: Walk, t: Walk, u: Walk, fs: seq<int>, ft: seq<int>,
                                         fu: seq<int>, i: int, e: int)
    requires Node(g, i) && 0 <= e < |g[i]| && FollowRecorded(g, s, t, fs, ft, i, e)
    requires VisitRecorded(g, t, u, ft, fu, g[i][e].dest)
    ensures FollowRecorded(g, s, u, fs, fu, i, e + 1)
  {
    hide Stamped, R.Follows, R.Visits;
    R.FollowsChild(g, VisitedNodes(s), VisitedNodes(t), VisitedNodes(u), fs, ft, fu, i, e);
  }

  lemma {:induction false} RecordedRelax(g: Graph, s: Walk, t: Walk, fs: seq<int>, ft: seq<int>, i: int, j: int, e: int)
    requires FollowRecorded(g, s, t, fs, ft, i, e) && 0 <= i < |t.entries|
    ensures FollowRecorded(g, s, Relax(t, i, j), fs, ft, i, e)
  {
    hide Stamped, R.Follows;
    assert VisitedNodes(Relax(t, i, j)) == VisitedNodes(t);
  }

  /** The visit of i ends, and its node stays open. */
  lemma {:induction false} RecordedLeave(g: Graph, s: Walk, t: Walk, fs: seq<int>, ft: seq<int>, i: int)
    requires Node(g, i) && FollowRecorded(g, s, t, fs, ft, i, |g[i]|) && Open(t, i) && !Visited(s, i)
    ensures VisitRecorded(g, s, t, fs, ft + [i], i)
  {
    StampedOpen(t.comp, |t.components|, ft, i);
    hide Stamped;
    R.AllFollowed(g, VisitedNodes(s), VisitedNodes(t), fs, ft, i);
  }

  /** The visit of i ends after the nodes of a new component have been popped. */
  lemma {:induction false} RecordedSame(g: Graph, s: Walk, t: Walk, u: Walk, fs: seq<int>, ft: seq<int>, i: int)
    requires Node(g, i) && FollowRecorded(g, s, t, fs, ft, i, |g[i]|) && !Visited(s, i) && u.visited == t.visited
    requires Stamped(u.comp, |u.components|, ft + [i])
    ensures VisitRecorded(g, s, u, fs, ft + [i], i)
  {
    hide Stamped;
    assert VisitedNodes(u) == VisitedNodes(t);
    R.AllFollowed(g, VisitedNodes(s), VisitedNodes(u), fs, ft, i);
  }

  // ---- what the numbering means for the graph ----

  ghost function Numbers(n: nat): (ns: seq<int>)
    ensures |ns| == n && forall k :: 0 <= k < n ==> ns[k] == k
  {
    seq(n, k => k)
  }

  /** The order in which a search from the first node to the last finishes the nodes. */
  ghost function PostOrder(g: Graph): seq<int>
    requires WellFormed(g)
  {
    D.Search(g, Numbers(|g|), |g|)
  }

  /** The components are numbered as a depth-first search leaves them. */
  ghost predicate NumberedAsLeft(g: Graph, comp: seq<int>, n: int)
    requires WellFormed(g)
  {
    |comp| == |g| && Stamped(comp, n, PostOrder(g))
  }

  /** Between two nodes the order in which the components are left decides. */
  lemma {:induction false} LeftFirst(g: Graph, comp: seq<int>, n: int, q: int, x: int, y: int)
    requires WellFormed(g) && NumberedAsLeft(g, comp, n) && SccsOk(g, comp)
    requires forall z :: 0 <= z < |g| ==> 0 <= comp[z] < n
    requires Node(g, x) && Node(g, y)
    requires forall z :: Node(g, z) && Mutual(g, x, z) ==> D.Parted(PostOrder(g), q, z, y)
    ensures comp[x] < comp[y]
  {
    assert !D.Parted(PostOrder(g), q, y, y);
    NotLater(g, comp, q, x, y);
    hide Mutual, FinishesLater, D.Parted;
    assert comp[x] == comp[y] <==> Mutual(g, x, y);
  }

  lemma {:induction false} NotLater(g: Graph, comp: seq<int>, q: int, x: int, y: int)
    requires WellFormed(g) && |comp| == |g| && SccsOk(g, comp) && Node(g, x) && Node(g, y)
    requires forall z :: 0 <= z < |g| ==> 0 <= comp[z]
    requires forall z :: Node(g, z) && Mutual(g, x, z) ==> D.Parted(PostOrder(g), q, z, y)
    ensures !FinishesLater(comp, PostOrder(g), comp[y], comp[x])
  {
    var post := PostOrder(g);
    PostOrderAll(g);
    ReachRefl(g, x);
    assert D.Parted(post, q, x, y);
    hide Mutual;
    var k :| 0 <= k < |post| && post[k] == y;
    assert k >= q;
    forall r | 0 <= r < |post| && 0 <= post[r] < |comp| && comp[post[r]] == comp[x] ensures r < q {
      assert post[r] in post;
      assert D.Parted(post, q, post[r], y);
      DistinctPlace(post, q, r);
    }
  }

  lemma {:induction false} DistinctPlace(post: seq<int>, q: int, r: int)
    requires D.Distinct(post) && 0 <= q <= |post| && 0 <= r < |post| && post[r] in post[..q]
    ensures r < q
  {
    var k :| 0 <= k < q && post[..q][k] == post[r];
    assert post[k] == post[r];
  }

  lemma {:induction false} PostOrderAll(g: Graph)
    requires WellFormed(g)
    ensures D.Distinct(PostOrder(g)) && forall x :: x in PostOrder(g) <==> Node(g, x)
  {
    var roots := Numbers(|g|);
    D.SearchShape(g, roots, |g|);
    forall x ensures x in PostOrder(g) <==> Node(g, x) {
      if Node(g, x) {
        ReachRefl(g, x);
        assert Reach(g, roots[x], x);
        assert D.FromFirst(g, roots, |g|, x);
      }
    }
  }

  /** No node up to i reaches y. */
  ghost predicate Unreached(g: Graph, i: int, y: int) {
    forall j :: 0 <= j <= i ==> !Reach(g, j, y)
  }

  /** What is reached from an earlier node gets a lower number than what is reached from none up to it. */
  ghost predicate EarlierNodeFirst(g: Graph, comp: seq<int>) {
    forall i, x, y :: Node(g, i) && 0 <= x < |comp| && 0 <= y < |comp| && Reach(g, i, x) && Unreached(g, i, y) ==>
      comp[x] < comp[y]
  }

  /** Within the walk from i: no earlier node reaches x or y; x, outside i's component, is reached from edge k, and y
      from edge m but from none before it. */
  ghost predicate InWalk(g: Graph, i: int, k: int, m: int, x: int, y: int) {
    && Node(g, i) && Node(g, x) && Node(g, y) && Unreached(g, i - 1, x) && Unreached(g, i - 1, y)
    && 0 <= k < m < |g[i]| && Reach(g, g[i][k].dest, x) && !Mutual(g, i, x) && Reach(g, g[i][m].dest, y)
    && forall n :: 0 <= n < m ==> !Reach(g, g[i][n].dest, y)
  }

  /** What is reached from an earlier edge gets a lower number than what is reached only from a later one. */
  ghost predicate EarlierEdgeFirst(g: Graph, comp: seq<int>) {
    forall i, k, m, x, y :: InWalk(g, i, k, m, x, y) && x < |comp| && y < |comp| ==> comp[x] < comp[y]
  }

  lemma {:induction false} NodesFirst(g: Graph, comp: seq<int>, n: int)
    requires WellFormed(g) && NumberedAsLeft(g, comp, n) && SccsOk(g, comp)
    requires forall z :: 0 <= z < |g| ==> 0 <= comp[z] < n
    ensures EarlierNodeFirst(g, comp)
  {
    forall i, x, y | Node(g, i) && Node(g, x) && Node(g, y) && Reach(g, i, x) && Unreached(g, i, y)
      ensures comp[x] < comp[y]
    {
      var q := |D.Search(g, Numbers(|g|), i + 1)|;
      forall z | Node(g, z) && Mutual(g, x, z) ensures D.Parted(PostOrder(g), q, z, y) {
        ReachTrans(g, i, x, z);
        NodePart(g, i, z, y);
      }
      LeftFirst(g, comp, n, q, x, y);
    }
  }

  lemma {:induction false} NodePart(g: Graph, i: int, z: int, y: int)
    requires WellFormed(g) && Node(g, i) && Reach(g, i, z) && Unreached(g, i, y)
    ensures D.Parted(PostOrder(g), |D.Search(g, Numbers(|g|), i + 1)|, z, y)
  {
    var roots := Numbers(|g|);
    hide Reach;
    assert Reach(g, roots[i], z);
    assert D.FromFirst(g, roots, i + 1, z);
    D.RootsPart(g, roots, i, z, y);
  }

  lemma {:induction false} EdgesFirst(g: Graph, comp: seq<int>, n: int)
    requires WellFormed(g) && NumberedAsLeft(g, comp, n) && SccsOk(g, comp)
    requires forall z :: 0 <= z < |g| ==> 0 <= comp[z] < n
    ensures EarlierEdgeFirst(g, comp)
  {
    forall i, k, m, x, y | InWalk(g, i, k, m, x, y) ensures comp[x] < comp[y] {
      var q := |D.Stage(g, Numbers(|g|), i, k + 1)|;
      forall z | Node(g, z) && Mutual(g, x, z) ensures D.Parted(PostOrder(g), q, z, y) {
        EdgePart(g, i, k, m, x, y, z);
      }
      hide Mutual, Unreached;
      LeftFirst(g, comp, n, q, x, y);
    }
  }

  lemma {:induction false} EdgePart(g: Graph, i: int, k: int, m: int, x: int, y: int, z: int)
    requires WellFormed(g) && InWalk(g, i, k, m, x, y) && Node(g, z) && Mutual(g, x, z)
    ensures D.Parted(PostOrder(g), |D.Stage(g, Numbers(|g|), i, k + 1)|, z, y)
  {
    var roots, d := Numbers(|g|), g[i][k].dest;
    hide Reach;
    ReachTrans(g, d, x, z);
    forall j | 0 <= j < i ensures !Reach(g, j, z) {
      if Reach(g, j, z) {
        ReachTrans(g, j, z, x);
      }
    }
    if Reach(g, d, i) {
      EdgeAt(g, i, m);
      ReachEdge(g, i, g[i][m].dest);
      ReachTrans(g, i, g[i][m].dest, y);
      ReachTrans(g, d, i, y);
      assert false;
    }
    assert !D.FromFirst(g, roots, i, z) && !D.FromFirst(g, roots, i, y);
    D.EdgesPart(g, roots, i, k, z, y);
  }
}
