/** Directed graphs as adjacency lists, and reachability over them. */
module Graphs {

  /** A graph edge: its destination and the two flags carried along with it. */
  datatype Edge = Edge(dest: int, strong: bool, cross: bool)

  type EdgeList = seq<Edge>
  type Graph = seq<EdgeList>
  type NodeList = seq<int>

  predicate Node(g: Graph, u: int) {
    0 <= u < |g|
  }

  ghost function Nodes(g: Graph): set<int> {
    set u | 0 <= u < |g| && Node(g, u)
  }

  ghost predicate WellFormed(g: Graph) {
    forall u, k :: 0 <= u < |g| && 0 <= k < |g[u]| ==> 0 <= g[u][k].dest < |g|
  }

  ghost predicate HasEdge(g: Graph, u: int, v: int) {
    0 <= u < |g| && exists k :: 0 <= k < |g[u]| && g[u][k].dest == v
  }

  ghost predicate IsWalk(g: Graph, p: seq<int>) {
    |p| > 0 && forall k :: 0 <= k < |p| - 1 ==> HasEdge(g, p[k], p[k + 1])
  }

  /** v is reachable from u along a possibly empty walk. */
  ghost predicate Reach(g: Graph, u: int, v: int) {
    exists p :: IsWalk(g, p) && p[0] == u && p[|p| - 1] == v
  }

  ghost predicate Mutual(g: Graph, u: int, v: int) {
    Reach(g, u, v) && Reach(g, v, u)
  }

  /** No edge leads out of the set `s`. */
  ghost predicate Closed(g: Graph, s: set<int>) {
    forall u, v :: u in s && HasEdge(g, u, v) ==> v in s
  }

  lemma EdgeAt(g: Graph, u: int, k: int)
    requires Node(g, u) && 0 <= k < |g[u]|
    ensures HasEdge(g, u, g[u][k].dest)
  {
  }

  lemma ReachRefl(g: Graph, u: int)
    ensures Reach(g, u, u)
  {
    assert IsWalk(g, [u]);
  }

  lemma ReachEdge(g: Graph, u: int, v: int)
    requires HasEdge(g, u, v)
    ensures Reach(g, u, v)
  {
    assert IsWalk(g, [u, v]);
  }

  lemma ReachTrans(g: Graph, u: int, v: int, w: int)
    requires Reach(g, u, v) && Reach(g, v, w)
    ensures Reach(g, u, w)
  {
    var p :| IsWalk(g, p) && p[0] == u && p[|p| - 1] == v;
    var q :| IsWalk(g, q) && q[0] == v && q[|q| - 1] == w;
    var r := p + q[1..];
    forall k | 0 <= k < |r| - 1
      ensures HasEdge(g, r[k], r[k + 1])
    {
      if k >= |p| - 1 {
        assert r[k] == q[k - |p| + 1] && r[k + 1] == q[k - |p| + 2];
      }
    }
    assert IsWalk(g, r);
  }

  lemma WalkTail(g: Graph, p: seq<int>)
    requires IsWalk(g, p) && |p| > 1
    ensures HasEdge(g, p[0], p[1]) && IsWalk(g, p[1..])
  {
    assert HasEdge(g, p[0], p[0 + 1]);
    forall k | 0 <= k < |p[1..]| - 1
      ensures HasEdge(g, p[1..][k], p[1..][k + 1])
    {
      assert HasEdge(g, p[k + 1], p[k + 1 + 1]);
    }
  }

  lemma {:induction false} WalkStaysIn(g: Graph, s: set<int>, p: seq<int>)
    requires Closed(g, s) && IsWalk(g, p) && p[0] in s
    ensures p[|p| - 1] in s
    decreases |p|
  {
    if |p| > 1 {
      WalkTail(g, p);
      WalkStaysIn(g, s, p[1..]);
    }
  }

  /** The induction principle of reachability: a closed set keeps what it reaches. */
  lemma ReachStaysIn(g: Graph, s: set<int>, u: int, v: int)
    requires Closed(g, s) && u in s && Reach(g, u, v)
    ensures v in s
  {
    var p :| IsWalk(g, p) && p[0] == u && p[|p| - 1] == v;
    WalkStaysIn(g, s, p);
  }

  /** Everything reachable from u, as a set. */
  ghost function Reachable(g: Graph, u: int): set<int> {
    set v | 0 <= v < |g| && Reach(g, u, v)
  }

  lemma ReachNode(g: Graph, u: int, v: int)
    requires WellFormed(g) && Node(g, u) && Reach(g, u, v)
    ensures Node(g, v)
  {
    ReachStaysIn(g, Nodes(g), u, v);
  }
}
