/** Depth-first search as a function: in which order it finishes the nodes of a graph. */
module DepthFirst {
  import opened Graphs

  ghost function Members(xs: seq<int>): set<int> {
    set x | x in xs
  }

  /** The nodes that a visit of i finishes, in order, when the nodes in `seen` have been entered before. */
  ghost function Visit(g: Graph, seen: set<int>, i: int): (post: seq<int>)
    requires WellFormed(g) && Node(g, i)
    decreases Nodes(g) - seen, 0, 0
  {
    if i in seen then []
    else
      EnterShrinks(g, seen, i);
      Follow(g, seen + {i}, i, |g[i]|) + [i]
  }

  /** What has been finished once the first k edges of i have been followed. */
  ghost function Follow(g: Graph, seen: set<int>, i: int, k: nat): (post: seq<int>)
    requires WellFormed(g) && Node(g, i) && k <= |g[i]|
    decreases Nodes(g) - seen, 1, k
  {
    if k == 0 then []
    else
      var before := Follow(g, seen, i, k - 1);
      assert Nodes(g) - (seen + Members(before)) <= Nodes(g) - seen;
      before + Visit(g, seen + Members(before), g[i][k - 1].dest)
  }

  lemma EnterShrinks(g: Graph, seen: set<int>, i: int)
    requires Node(g, i) && i !in seen
    ensures Nodes(g) - (seen + {i}) < Nodes(g) - seen
  {
    assert i in Nodes(g) - seen && i !in Nodes(g) - (seen + {i});
  }

  ghost predicate AreNodes(g: Graph, roots: seq<int>) {
    forall k :: 0 <= k < |roots| ==> Node(g, roots[k])
  }

  /** The nodes finished by visits of the first n roots. */
  ghost function Search(g: Graph, roots: seq<int>, n: nat): (post: seq<int>)
    requires WellFormed(g) && AreNodes(g, roots) && n <= |roots|
  {
    if n == 0 then []
    else
      var before := Search(g, roots, n - 1);
      before + Visit(g, Members(before), roots[n - 1])
  }

  lemma {:induction false} SearchIs(g: Graph, roots: seq<int>, n: nat)
    requires WellFormed(g) && AreNodes(g, roots) && 0 < n <= |roots|
    ensures Node(g, roots[n - 1])
    ensures Search(g, roots, n) ==
            Search(g, roots, n - 1) + Visit(g, Members(Search(g, roots, n - 1)), roots[n - 1])
  {
  }

  lemma {:induction false} FollowIs(g: Graph, seen: set<int>, i: int, k: nat)
    requires WellFormed(g) && Node(g, i) && 0 < k <= |g[i]|
    ensures Node(g, g[i][k - 1].dest)
    ensures Nodes(g) - (seen + Members(Follow(g, seen, i, k - 1))) <= Nodes(g) - seen
    ensures Follow(g, seen, i, k) ==
            Follow(g, seen, i, k - 1) + Visit(g, seen + Members(Follow(g, seen, i, k - 1)), g[i][k - 1].dest)
  {
  }

  // ---- what is finished ----

  ghost predicate Distinct(xs: seq<int>) {
    forall j, k :: 0 <= j < k < |xs| ==> xs[j] != xs[k]
  }

  /** Edges lead only to nodes seen before or finished, too. */
  ghost predicate Covered(g: Graph, seen: set<int>, post: seq<int>) {
    forall u, v :: u in post && HasEdge(g, u, v) ==> v in seen || v in post
  }

  ghost predicate Fresh(g: Graph, seen: set<int>, post: seq<int>) {
    Distinct(post) && forall x :: x in post ==> Node(g, x) && x !in seen
  }

  lemma {:induction false} VisitShape(g: Graph, seen: set<int>, i: int)
    requires WellFormed(g) && Node(g, i)
    ensures Fresh(g, seen, Visit(g, seen, i)) && Covered(g, seen, Visit(g, seen, i))
    ensures i in seen || i in Visit(g, seen, i)
    ensures forall x :: x in Visit(g, seen, i) ==> Reach(g, i, x)
    decreases Nodes(g) - seen, 0, 0
  {
    if i !in seen {
      EnterShrinks(g, seen, i);
      FollowShape(g, seen + {i}, i, |g[i]|);
      ReachRefl(g, i);
      hide Follow, Reach;
      VisitClosed(g, seen, i, Follow(g, seen + {i}, i, |g[i]|));
    }
  }

  lemma {:induction false} VisitClosed(g: Graph, seen: set<int>, i: int, post: seq<int>)
    requires WellFormed(g) && Node(g, i) && i !in seen
    requires Fresh(g, seen + {i}, post) && Covered(g, seen + {i}, post)
    requires forall m :: 0 <= m < |g[i]| ==> g[i][m].dest in seen + {i} || g[i][m].dest in post
    ensures Fresh(g, seen, post + [i]) && Covered(g, seen, post + [i])
  {
    var all := post + [i];
    forall u, v | u in all && HasEdge(g, u, v) ensures v in seen || v in all {
      if u in post {
        assert v in seen + {i} || v in post;
      } else {
        var m :| 0 <= m < |g[i]| && g[i][m].dest == v;
      }
    }
  }

  lemma {:induction false} FollowShape(g: Graph, seen: set<int>, i: int, k: nat)
    requires WellFormed(g) && Node(g, i) && k <= |g[i]|
    ensures Fresh(g, seen, Follow(g, seen, i, k)) && Covered(g, seen, Follow(g, seen, i, k))
    ensures forall m :: 0 <= m < k ==> g[i][m].dest in seen || g[i][m].dest in Follow(g, seen, i, k)
    ensures forall x :: x in Follow(g, seen, i, k) ==> FromEdges(g, i, k, x) && Reach(g, i, x)
    decreases Nodes(g) - seen, 1, k
  {
    if k > 0 {
      var before := Follow(g, seen, i, k - 1);
      assert Nodes(g) - (seen + Members(before)) <= Nodes(g) - seen;
      FollowShape(g, seen, i, k - 1);
      VisitShape(g, seen + Members(before), g[i][k - 1].dest);
      hide Follow, Visit;
      FollowMore(g, seen, i, k, before, Visit(g, seen + Members(before), g[i][k - 1].dest));
    }
  }

  /** x is reached from one of the first k edges of i. */
  ghost predicate FromEdges(g: Graph, i: int, k: int, x: int)
    requires Node(g, i) && k <= |g[i]|
  {
    exists m :: 0 <= m < k && Reach(g, g[i][m].dest, x)
  }

  lemma {:induction false} FreshAppend(g: Graph, seen: set<int>, before: seq<int>, more: seq<int>)
    requires Fresh(g, seen, before) && Fresh(g, seen + Members(before), more)
    ensures Fresh(g, seen, before + more)
  {
    var all := before + more;
    forall j, k | 0 <= j < k < |all| ensures all[j] != all[k] {
      if j < |before| <= k {
        assert more[k - |before|] in more;
        assert before[j] in Members(before);
      }
    }
  }

  lemma {:induction false} FollowMore(g: Graph, seen: set<int>, i: int, k: nat, before: seq<int>, more: seq<int>)
    requires WellFormed(g) && Node(g, i) && 0 < k <= |g[i]|
    requires Fresh(g, seen, before) && Covered(g, seen, before)
    requires forall m :: 0 <= m < k - 1 ==> g[i][m].dest in seen || g[i][m].dest in before
    requires forall x :: x in before ==> FromEdges(g, i, k - 1, x) && Reach(g, i, x)
    requires Fresh(g, seen + Members(before), more) && Covered(g, seen + Members(before), more)
    requires g[i][k - 1].dest in seen + Members(before) || g[i][k - 1].dest in more
    requires forall x :: x in more ==> Reach(g, g[i][k - 1].dest, x)
    ensures Fresh(g, seen, before + more) && Covered(g, seen, before + more)
    ensures forall m :: 0 <= m < k ==> g[i][m].dest in seen || g[i][m].dest in before + more
    ensures forall x :: x in before + more ==> FromEdges(g, i, k, x) && Reach(g, i, x)
  {
    EdgeAt(g, i, k - 1);
    ReachEdge(g, i, g[i][k - 1].dest);
    FreshAppend(g, seen, before, more);
    assert Covered(g, seen, before + more) by {
      hide Reach;
    }
    forall x | x in before + more ensures FromEdges(g, i, k, x) && Reach(g, i, x) {
      if x in before {
        var m :| 0 <= m < k - 1 && Reach(g, g[i][m].dest, x);
      } else {
        ReachTrans(g, i, g[i][k - 1].dest, x);
        assert Reach(g, g[i][k - 1].dest, x);
      }
    }
  }

  // ---- everything that can be reached without passing a node seen before is finished ----

  lemma {:induction false} WalkCovered(g: Graph, seen: set<int>, post: seq<int>, w: seq<int>)
    requires Covered(g, seen, post) && IsWalk(g, w) && w[0] in post
    requires forall k :: 0 <= k < |w| ==> w[k] !in seen
    ensures w[|w| - 1] in post
    decreases |w|
  {
    if |w| > 1 {
      WalkTail(g, w);
      assert w[1] !in seen;
      forall k | 0 <= k < |w[1..]| ensures w[1..][k] !in seen {
        assert w[1..][k] == w[k + 1];
      }
      WalkCovered(g, seen, post, w[1..]);
    }
  }

  lemma {:induction false} WalkBetween(g: Graph, w: seq<int>, k: int)
    requires IsWalk(g, w) && 0 <= k < |w|
    ensures Reach(g, w[0], w[k]) && Reach(g, w[k], w[|w| - 1])
  {
    var a, b := w[..k + 1], w[k..];
    forall j | 0 <= j < |a| - 1 ensures HasEdge(g, a[j], a[j + 1]) {
      assert HasEdge(g, w[j], w[j + 1]);
    }
    forall j | 0 <= j < |b| - 1 ensures HasEdge(g, b[j], b[j + 1]) {
      assert HasEdge(g, w[k + j], w[k + j + 1]);
    }
    assert IsWalk(g, a) && IsWalk(g, b);
  }

  /** No node of the set lies on a way from u to x. */
  ghost predicate NoneBetween(g: Graph, seen: set<int>, u: int, x: int) {
    forall z :: z in seen ==> !(Reach(g, u, z) && Reach(g, z, x))
  }

  lemma {:induction false} CoveredHas(g: Graph, seen: set<int>, post: seq<int>, u: int, x: int)
    requires Covered(g, seen, post) && u in post && Reach(g, u, x) && NoneBetween(g, seen, u, x)
    ensures x in post
  {
    var w :| IsWalk(g, w) && w[0] == u && w[|w| - 1] == x;
    forall k | 0 <= k < |w| ensures w[k] !in seen {
      WalkBetween(g, w, k);
    }
    hide Covered, NoneBetween;
    WalkCovered(g, seen, post, w);
  }

  lemma {:induction false} SearchShape(g: Graph, roots: seq<int>, n: nat)
    requires WellFormed(g) && AreNodes(g, roots) && n <= |roots|
    ensures Fresh(g, {}, Search(g, roots, n)) && Covered(g, {}, Search(g, roots, n))
    ensures Closed(g, Members(Search(g, roots, n)))
    ensures forall x :: x in Search(g, roots, n) <==> FromFirst(g, roots, n, x)
    decreases n, 1
  {
    if n > 0 {
      SearchShapeNext(g, roots, n);
    }
  }

  lemma {:induction false} SearchShapeNext(g: Graph, roots: seq<int>, n: nat)
    requires WellFormed(g) && AreNodes(g, roots) && 0 < n <= |roots|
    ensures Fresh(g, {}, Search(g, roots, n)) && Covered(g, {}, Search(g, roots, n))
    ensures Closed(g, Members(Search(g, roots, n)))
    ensures forall x :: x in Search(g, roots, n) <==> FromFirst(g, roots, n, x)
    decreases n, 0
  {
    hide *;
    SearchShape(g, roots, n - 1);
    SearchIs(g, roots, n);
    var before := Search(g, roots, n - 1);
    VisitShape(g, Members(before), roots[n - 1]);
    RootSeen(g, before, roots[n - 1]);
    SearchMore(g, roots, n, before, Visit(g, Members(before), roots[n - 1]));
  }

  lemma {:induction false} RootSeen(g: Graph, before: seq<int>, i: int)
    requires WellFormed(g) && Node(g, i)
    ensures i in Members(before) || i in Visit(g, Members(before), i)
  {
    VisitShape(g, Members(before), i);
  }

  /** x is reached from one of the first n roots. */
  ghost predicate FromFirst(g: Graph, roots: seq<int>, n: int, x: int)
    requires n <= |roots|
  {
    exists k :: 0 <= k < n && Reach(g, roots[k], x)
  }

  lemma {:induction false} SearchMore(g: Graph, roots: seq<int>, n: nat, before: seq<int>, more: seq<int>)
    requires WellFormed(g) && 0 < n <= |roots|
    requires Fresh(g, {}, before) && Covered(g, {}, before)
    requires forall x :: x in before <==> FromFirst(g, roots, n - 1, x)
    requires Fresh(g, Members(before), more) && Covered(g, Members(before), more)
    requires roots[n - 1] in Members(before) || roots[n - 1] in more
    requires forall x :: x in more ==> Reach(g, roots[n - 1], x)
    ensures Fresh(g, {}, before + more) && Covered(g, {}, before + more) && Closed(g, Members(before + more))
    ensures forall x :: x in before + more <==> FromFirst(g, roots, n, x)
  {
    var all := before + more;
    assert {} + Members(before) == Members(before);
    FreshAppend(g, {}, before, more);
    assert Covered(g, {}, all) && Closed(g, Members(all)) by {
      hide Reach, HasEdge;
      assert forall x :: x in all <==> x in Members(before) || x in more;
    }
    forall x ensures x in all <==> FromFirst(g, roots, n, x) {
      if x in all {
        if x in before {
          var k :| 0 <= k < n - 1 && Reach(g, roots[k], x);
        } else {
          assert Reach(g, roots[n - 1], x);
        }
      }
      if FromFirst(g, roots, n, x) {
        var k :| 0 <= k < n && Reach(g, roots[k], x);
        if k < n - 1 {
          assert FromFirst(g, roots, n - 1, x);
        } else {
          ReachStaysIn(g, Members(all), roots[n - 1], x);
        }
      }
    }
  }

  // ---- who is finished first ----

  /** x is in the part of the sequence before place q, and y is not. */
  ghost predicate Parted(post: seq<int>, q: int, x: int, y: int) {
    0 <= q <= |post| && x in post[..q] && y !in post[..q]
  }

  lemma {:induction false} SearchPrefix(g: Graph, roots: seq<int>, a: nat, n: nat)
    requires WellFormed(g) && AreNodes(g, roots) && a <= n <= |roots|
    ensures Search(g, roots, a) <= Search(g, roots, n)
    decreases n
  {
    if a < n {
      SearchPrefix(g, roots, a, n - 1);
    }
  }

  lemma {:induction false} FollowPrefix(g: Graph, seen: set<int>, i: int, a: nat, k: nat)
    requires WellFormed(g) && Node(g, i) && a <= k <= |g[i]|
    ensures Follow(g, seen, i, a) <= Follow(g, seen, i, k)
    decreases k
  {
    if a < k {
      FollowPrefix(g, seen, i, a, k - 1);
    }
  }

  /** What an earlier root reaches is finished before what no root up to it reaches. */
  lemma {:induction false} RootsPart(g: Graph, roots: seq<int>, a: nat, x: int, y: int)
    requires WellFormed(g) && AreNodes(g, roots) && a < |roots|
    requires FromFirst(g, roots, a + 1, x) && !FromFirst(g, roots, a + 1, y)
    ensures Parted(Search(g, roots, |roots|), |Search(g, roots, a + 1)|, x, y)
  {
    SearchShape(g, roots, a + 1);
    SearchPrefix(g, roots, a + 1, |roots|);
    hide Search, FromFirst;
    assert Search(g, roots, |roots|)[..|Search(g, roots, a + 1)|] == Search(g, roots, a + 1);
  }

  /** How far the search has come when the first k edges of root a have been followed. */
  ghost function Stage(g: Graph, roots: seq<int>, a: nat, k: nat): seq<int>
    requires WellFormed(g) && AreNodes(g, roots) && a < |roots| && k <= |g[roots[a]]|
  {
    var before := Search(g, roots, a);
    before + Follow(g, Members(before) + {roots[a]}, roots[a], k)
  }

  lemma {:induction false} StagePrefix(g: Graph, roots: seq<int>, a: nat, k: nat)
    requires WellFormed(g) && AreNodes(g, roots) && a < |roots| && k <= |g[roots[a]]|
    requires roots[a] !in Search(g, roots, a)
    ensures Stage(g, roots, a, k) <= Search(g, roots, |roots|)
  {
    var before, i := Search(g, roots, a), roots[a];
    FollowPrefix(g, Members(before) + {i}, i, k, |g[i]|);
    SearchPrefix(g, roots, a + 1, |roots|);
    assert Search(g, roots, a + 1) == before + (Follow(g, Members(before) + {i}, i, |g[i]|) + [i]);
    hide Search, Follow;
  }

  /** What is reached from edge k of a root, but not back to the root, is finished before what is reached from none
      of the edges up to k; earlier roots reach neither. */
  lemma {:induction false} EdgesPart(g: Graph, roots: seq<int>, a: nat, k: nat, x: int, y: int)
    requires WellFormed(g) && AreNodes(g, roots) && a < |roots| && k < |g[roots[a]]|
    requires !FromFirst(g, roots, a, x) && !FromFirst(g, roots, a, y)
    requires Reach(g, g[roots[a]][k].dest, x) && !Reach(g, g[roots[a]][k].dest, roots[a])
    requires !FromEdges(g, roots[a], k + 1, y)
    ensures Parted(Search(g, roots, |roots|), |Stage(g, roots, a, k + 1)|, x, y)
  {
    var before, i := Search(g, roots, a), roots[a];
    var seen := Members(before) + {i};
    SearchShape(g, roots, a);
    FollowShape(g, seen, i, k + 1);
    NotBefore(g, roots, a, k, x);
    StagePrefix(g, roots, a, k + 1);
    EdgesReached(g, roots, a, k, x);
    hide *;
    assert Stage(g, roots, a, k + 1) == before + Follow(g, seen, i, k + 1) by { StageIs(g, roots, a, k + 1); }
    PartedBy(Stage(g, roots, a, k + 1), Search(g, roots, |roots|), x, y);
  }

  lemma {:induction false} StageIs(g: Graph, roots: seq<int>, a: nat, k: nat)
    requires WellFormed(g) && AreNodes(g, roots) && a < |roots| && k <= |g[roots[a]]|
    ensures Stage(g, roots, a, k) ==
            Search(g, roots, a) + Follow(g, Members(Search(g, roots, a)) + {roots[a]}, roots[a], k)
  {
  }

  lemma {:induction false} PartedBy(some: seq<int>, all: seq<int>, x: int, y: int)
    requires some <= all && x in some && y !in some
    ensures Parted(all, |some|, x, y)
  {
    assert all[..|some|] == some;
  }

  lemma {:induction false} NotBefore(g: Graph, roots: seq<int>, a: nat, k: nat, x: int)
    requires WellFormed(g) && AreNodes(g, roots) && a < |roots| && k < |g[roots[a]]|
    requires !FromFirst(g, roots, a, x) && Reach(g, g[roots[a]][k].dest, x)
    ensures roots[a] !in Search(g, roots, a)
  {
    SearchShape(g, roots, a);
    EdgeAt(g, roots[a], k);
    ReachEdge(g, roots[a], g[roots[a]][k].dest);
    ReachTrans(g, roots[a], g[roots[a]][k].dest, x);
    hide Search;
    if roots[a] in Search(g, roots, a) {
      ReachStaysIn(g, Members(Search(g, roots, a)), roots[a], x);
    }
  }

  lemma {:induction false} EdgesReached(g: Graph, roots: seq<int>, a: nat, k: nat, x: int)
    requires WellFormed(g) && AreNodes(g, roots) && a < |roots| && k < |g[roots[a]]|
    requires !FromFirst(g, roots, a, x)
    requires Reach(g, g[roots[a]][k].dest, x) && !Reach(g, g[roots[a]][k].dest, roots[a])
    ensures x in Follow(g, Members(Search(g, roots, a)) + {roots[a]}, roots[a], k + 1)
  {
    var before, i := Search(g, roots, a), roots[a];
    var seen, d := Members(before) + {i}, g[i][k].dest;
    SearchShape(g, roots, a);
    FollowShape(g, seen, i, k + 1);
    hide Search, Follow;
    forall z | z in before ensures !Reach(g, z, x) {
      if Reach(g, z, x) {
        ReachStaysIn(g, Members(before), z, x);
      }
    }
    ReachRefl(g, d);
    assert NoneBetween(g, seen, d, x);
    hide Reach;
    CoveredHas(g, seen, Follow(g, seen, i, k + 1), d, x);
  }

  // ---- the moment at which a node is entered ----

  /** From outside, the set can be entered only by an edge of e. */
  ghost predicate EnteredFrom(g: Graph, e: int, r: set<int>) {
    e !in r && forall u, v :: HasEdge(g, u, v) && v in r ==> u == e || u in r
  }

  ghost predicate Apart(xs: seq<int>, r: set<int>) {
    forall x :: x in xs ==> x !in r
  }

  /** As long as e is not entered, neither is the set. */
  lemma {:induction false} VisitApart(g: Graph, seen: set<int>, i: int, e: int, r: set<int>)
    requires WellFormed(g) && Node(g, i) && EnteredFrom(g, e, r) && i !in r && e !in Visit(g, seen, i)
    ensures Apart(Visit(g, seen, i), r)
    decreases Nodes(g) - seen, 0, 0
  {
    if i !in seen {
      EnterShrinks(g, seen, i);
      FollowApart(g, seen + {i}, i, |g[i]|, e, r);
    }
  }

  lemma {:induction false} FollowApart(g: Graph, seen: set<int>, i: int, k: nat, e: int, r: set<int>)
    requires WellFormed(g) && Node(g, i) && k <= |g[i]| && EnteredFrom(g, e, r) && i !in r && i != e
    requires e !in Follow(g, seen, i, k)
    ensures Apart(Follow(g, seen, i, k), r)
    decreases Nodes(g) - seen, 1, k
  {
    if k > 0 {
      var before, d := Follow(g, seen, i, k - 1), g[i][k - 1].dest;
      assert Nodes(g) - (seen + Members(before)) <= Nodes(g) - seen;
      EdgeAt(g, i, k - 1);
      assert d !in r;
      hide EnteredFrom;
      FollowApart(g, seen, i, k - 1, e, r);
      VisitApart(g, seen + Members(before), d, e, r);
    }
  }

  /** A visit of e, entered after the nodes in `now` and with the nodes `pre` finished, is a part of the search. */
  datatype Moment = Moment(pre: seq<int>, now: set<int>, suf: seq<int>)

  ghost predicate Entered(g: Graph, seen: set<int>, e: int, post: seq<int>, m: Moment, r: set<int>)
    requires WellFormed(g) && Node(g, e)
  {
    && post == m.pre + Visit(g, m.now, e) + m.suf && e !in m.now
    && seen <= m.now && Members(m.pre) <= m.now && Apart(m.pre, r)
    && (forall z :: z in m.now ==> z in seen || z in m.pre || Reach(g, z, e))
    && (forall u, v :: u in m.pre && HasEdge(g, u, v) ==> v in m.now)
  }

  lemma {:induction false} EnteredMore(g: Graph, seen: set<int>, e: int, post: seq<int>, m: Moment, r: set<int>,
                                       more: seq<int>)
    requires WellFormed(g) && Node(g, e) && Entered(g, seen, e, post, m, r)
    ensures Entered(g, seen, e, post + more, m.(suf := m.suf + more), r)
  {
    hide Visit;
    var v := Visit(g, m.now, e);
    assert (m.pre + v + m.suf) + more == m.pre + v + (m.suf + more);
  }

  /** What the edges up to the one that leads to e have finished comes before. */
  lemma {:induction false} EnteredAfter(g: Graph, seen: set<int>, e: int, before: seq<int>, post: seq<int>, m: Moment,
                                        r: set<int>)
    requires WellFormed(g) && Node(g, e) && Entered(g, seen + Members(before), e, post, m, r)
    requires Apart(before, r) && Covered(g, seen, before)
    ensures Entered(g, seen, e, before + post, m.(pre := before + m.pre), r)
  {
    hide Visit, Reach;
    var v := Visit(g, m.now, e);
    assert before + (m.pre + v + m.suf) == (before + m.pre) + v + m.suf;
    assert forall z :: z in before ==> z in Members(before);
  }

  lemma {:induction false} VisitEnters(g: Graph, seen: set<int>, i: int, e: int, r: set<int>) returns (m: Moment)
    requires WellFormed(g) && Node(g, i) && Node(g, e) && EnteredFrom(g, e, r) && i !in r && e in Visit(g, seen, i)
    ensures Entered(g, seen, e, Visit(g, seen, i), m, r)
    decreases Nodes(g) - seen, 0, 0
  {
    VisitShape(g, seen, i);
    if i == e {
      m := Moment([], seen, []);
      assert [] + Visit(g, seen, e) + [] == Visit(g, seen, e);
    } else {
      EnterShrinks(g, seen, i);
      var n := FollowEnters(g, seen + {i}, i, |g[i]|, e, r);
      EnteredMore(g, seen + {i}, e, Follow(g, seen + {i}, i, |g[i]|), n, r, [i]);
      m := n.(suf := n.suf + [i]);
    }
  }

  lemma {:induction false} FollowEnters(g: Graph, seen: set<int>, i: int, k: nat, e: int, r: set<int>)
    returns (m: Moment)
    requires WellFormed(g) && Node(g, i) && Node(g, e) && k <= |g[i]| && EnteredFrom(g, e, r) && i !in r && i != e
    requires e in Follow(g, seen, i, k)
    ensures Entered(g, seen, e, Follow(g, seen, i, k), m, r)
    decreases Nodes(g) - seen, 1, k, 1
  {
    assert k > 0;
    if e in Follow(g, seen, i, k - 1) {
      m := FollowEntersEarly(g, seen, i, k, e, r);
    } else {
      m := FollowEntersNow(g, seen, i, k, e, r);
    }
  }

  lemma {:induction false} FollowEntersEarly(g: Graph, seen: set<int>, i: int, k: nat, e: int, r: set<int>)
    returns (m: Moment)
    requires WellFormed(g) && Node(g, i) && Node(g, e) && EnteredFrom(g, e, r) && i !in r && i != e
    requires 0 < k <= |g[i]| && e in Follow(g, seen, i, k - 1)
    ensures Entered(g, seen, e, Follow(g, seen, i, k), m, r)
    decreases Nodes(g) - seen, 1, k, 0
  {
    FollowIs(g, seen, i, k);
    hide *;
    var before := Follow(g, seen, i, k - 1);
    var n := FollowEnters(g, seen, i, k - 1, e, r);
    var more := Visit(g, seen + Members(before), g[i][k - 1].dest);
    EnteredMore(g, seen, e, before, n, r, more);
    m := n.(suf := n.suf + more);
  }

  lemma {:induction false} FollowEntersNow(g: Graph, seen: set<int>, i: int, k: nat, e: int, r: set<int>)
    returns (m: Moment)
    requires WellFormed(g) && Node(g, i) && Node(g, e) && EnteredFrom(g, e, r) && i !in r && i != e
    requires 0 < k <= |g[i]| && e in Follow(g, seen, i, k) && e !in Follow(g, seen, i, k - 1)
    ensures Entered(g, seen, e, Follow(g, seen, i, k), m, r)
    decreases Nodes(g) - seen, 1, k, 0
  {
    hide *;
    FollowIs(g, seen, i, k);
    EdgeAt(g, i, k - 1);
    EdgeApart(g, i, g[i][k - 1].dest, e, r);
    var before, d := Follow(g, seen, i, k - 1), g[i][k - 1].dest;
    FollowShape(g, seen, i, k - 1);
    FollowApart(g, seen, i, k - 1, e, r);
    var n := VisitEnters(g, seen + Members(before), d, e, r);
    EnteredAfter(g, seen, e, before, Visit(g, seen + Members(before), d), n, r);
    m := n.(pre := before + n.pre);
  }

  lemma {:induction false} EdgeApart(g: Graph, i: int, d: int, e: int, r: set<int>)
    requires HasEdge(g, i, d) && EnteredFrom(g, e, r) && i !in r && i != e
    ensures d !in r
  {
  }

  lemma {:induction false} SearchEnters(g: Graph, roots: seq<int>, n: nat, e: int, r: set<int>) returns (m: Moment)
    requires WellFormed(g) && AreNodes(g, roots) && n <= |roots| && Node(g, e) && EnteredFrom(g, e, r)
    requires RootsApart(g, roots, n, e, r) && e in Search(g, roots, n)
    ensures Entered(g, {}, e, Search(g, roots, n), m, r)
  {
    if e in Search(g, roots, n - 1) {
      var before := Search(g, roots, n - 1);
      SearchIs(g, roots, n);
      var k := SearchEnters(g, roots, n - 1, e, r);
      hide *;
      var more := Visit(g, Members(before), roots[n - 1]);
      EnteredMore(g, {}, e, before, k, r, more);
      m := k.(suf := k.suf + more);
    } else {
      m := SearchEntersNow(g, roots, n, e, r);
    }
  }

  /** Where a root is in the set, an earlier one reaches e. */
  ghost predicate RootsApart(g: Graph, roots: seq<int>, n: int, e: int, r: set<int>)
    requires n <= |roots|
  {
    forall a :: 0 <= a < n && roots[a] in r ==> FromFirst(g, roots, a, e)
  }

  lemma {:induction false} RootOutside(g: Graph, roots: seq<int>, n: nat, e: int, r: set<int>)
    requires 0 < n <= |roots| && RootsApart(g, roots, n, e, r) && !FromFirst(g, roots, n - 1, e)
    ensures roots[n - 1] !in r && RootsApart(g, roots, n - 1, e, r)
  {
  }

  lemma {:induction false} SearchEntersNow(g: Graph, roots: seq<int>, n: nat, e: int, r: set<int>)
    returns (m: Moment)
    requires WellFormed(g) && AreNodes(g, roots) && 0 < n <= |roots| && Node(g, e) && EnteredFrom(g, e, r)
    requires RootsApart(g, roots, n, e, r) && e in Search(g, roots, n) && e !in Search(g, roots, n - 1)
    ensures Entered(g, {}, e, Search(g, roots, n), m, r)
  {
    hide *;
    SearchIs(g, roots, n);
    SearchShape(g, roots, n - 1);
    RootOutside(g, roots, n, e, r);
    var before := Search(g, roots, n - 1);
    assert {} + Members(before) == Members(before);
    SearchApart(g, roots, n - 1, e, r);
    var k := VisitEnters(g, Members(before), roots[n - 1], e, r);
    EnteredAfter(g, {}, e, before, Visit(g, Members(before), roots[n - 1]), k, r);
    m := k.(pre := before + k.pre);
  }

  lemma {:induction false} SearchApart(g: Graph, roots: seq<int>, n: nat, e: int, r: set<int>)
    requires WellFormed(g) && AreNodes(g, roots) && n <= |roots| && EnteredFrom(g, e, r)
    requires RootsApart(g, roots, n, e, r) && e !in Search(g, roots, n)
    ensures Apart(Search(g, roots, n), r)
    decreases n, 1
  {
    if n > 0 {
      SearchApartNext(g, roots, n, e, r);
    }
  }

  lemma {:induction false} SearchApartNext(g: Graph, roots: seq<int>, n: nat, e: int, r: set<int>)
    requires WellFormed(g) && AreNodes(g, roots) && 0 < n <= |roots| && EnteredFrom(g, e, r)
    requires RootsApart(g, roots, n, e, r) && e !in Search(g, roots, n)
    ensures Apart(Search(g, roots, n), r)
    decreases n, 0
  {
    hide *;
    SearchIs(g, roots, n);
    SearchShape(g, roots, n - 1);
    RootOutside(g, roots, n, e, r);
    SearchApart(g, roots, n - 1, e, r);
    VisitApart(g, Members(Search(g, roots, n - 1)), roots[n - 1], e, r);
    ApartAppend(Search(g, roots, n - 1), Visit(g, Members(Search(g, roots, n - 1)), roots[n - 1]), r);
  }

  lemma {:induction false} ApartAppend(a: seq<int>, b: seq<int>, r: set<int>)
    requires Apart(a, r) && Apart(b, r)
    ensures Apart(a + b, r)
  {
  }

  /** Everything that leads to y but not to e lies below e. */
  ghost function Side(g: Graph, e: int, y: int): set<int> {
    set z | z in Nodes(g) && Reach(g, z, y) && !Reach(g, z, e)
  }

  /** y can be reached from outside only through e: whatever leads to y but not to e is entered from e alone. */
  ghost predicate OnlyThrough(g: Graph, e: int, y: int) {
    !Reach(g, y, e) && EnteredFrom(g, e, Side(g, e, y))
  }

  /** Anywhere in the search: what is reached from edge k of e, but not back to e, is finished before what is reached
      only through e, and there from none of the edges up to k. */
  lemma {:induction false} EdgesPartAt(g: Graph, roots: seq<int>, e: int, k: nat, x: int, y: int) returns (q: int)
    requires WellFormed(g) && AreNodes(g, roots) && Node(g, e) && k < |g[e]| && Node(g, y)
    requires e in Search(g, roots, |roots|) && OnlyThrough(g, e, y)
    requires RootsApart(g, roots, |roots|, e, Side(g, e, y))
    requires Reach(g, g[e][k].dest, x) && !Reach(g, g[e][k].dest, e) && !FromEdges(g, e, k + 1, y)
    ensures Parted(Search(g, roots, |roots|), q, x, y)
  {
    ReachRefl(g, y);
    assert y in Side(g, e, y);
    hide *;
    var m := SearchEnters(g, roots, |roots|, e, Side(g, e, y));
    q := MomentParts(g, e, m, k, x, y, Search(g, roots, |roots|), Side(g, e, y));
  }

  lemma {:induction false} MomentParts(g: Graph, e: int, m: Moment, k: nat, x: int, y: int, post: seq<int>,
                                       r: set<int>) returns (q: int)
    requires WellFormed(g) && Node(g, e) && k < |g[e]| && Entered(g, {}, e, post, m, r) && y in r
    requires Reach(g, g[e][k].dest, x) && !Reach(g, g[e][k].dest, e) && !FromEdges(g, e, k + 1, y)
    ensures Parted(post, q, x, y)
  {
    assert e !in m.now && y !in m.pre && post == m.pre + Visit(g, m.now, e) + m.suf;
    hide *;
    var some := m.pre + Follow(g, m.now + {e}, e, k + 1);
    MomentPrefix(g, m, e, k + 1);
    FollowShape(g, m.now + {e}, e, k + 1);
    MomentHas(g, e, m, k, x, post, r);
    PartedBy(some, post, x, y);
    q := |some|;
  }

  lemma {:induction false} MomentPrefix(g: Graph, m: Moment, e: int, k: nat)
    requires WellFormed(g) && Node(g, e) && k <= |g[e]| && e !in m.now
    ensures m.pre + Follow(g, m.now + {e}, e, k) <= m.pre + Visit(g, m.now, e) + m.suf
  {
    FollowPrefix(g, m.now + {e}, e, k, |g[e]|);
    hide Follow;
  }

  lemma {:induction false} MomentHas(g: Graph, e: int, m: Moment, k: nat, x: int, post: seq<int>, r: set<int>)
    requires WellFormed(g) && Node(g, e) && k < |g[e]| && Entered(g, {}, e, post, m, r)
    requires Reach(g, g[e][k].dest, x) && !Reach(g, g[e][k].dest, e)
    ensures x in m.pre + Follow(g, m.now + {e}, e, k + 1)
  {
    var d := g[e][k].dest;
    var before := m.pre + Follow(g, m.now + {e}, e, k + 1);
    var above := (m.now + {e}) - Members(m.pre);
    FollowShape(g, m.now + {e}, e, k + 1);
    hide Follow;
    forall z | z in above && Reach(g, d, z) && Reach(g, z, x) ensures false {
      if z == e {
      } else {
        assert Reach(g, z, e);
        ReachTrans(g, d, z, e);
      }
    }
    ReachRefl(g, d);
    assert d in before;
    assert Covered(g, above, before);
    CoveredHas(g, above, before, d, x);
  }
}
