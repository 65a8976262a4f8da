/** The final dependency graph: what it must look like, and what that implies for build order. */
module TargetTheory {
  import opened Graphs
  import opened TarjanWalk
  import opened ComponentGraph
  import opened ComponentTheory
  import opened StrongWalks
  import opened ChainSearch

  /** Everything a computation of the final graph starts from and ends with: the initial and the
      intermediate graph, the decomposition of the latter, and the chains, heads, tails and edges found. */
  datatype Solution = Solution(
    initial: Graph,
    intermediate: Graph,
    comp: seq<int>,
    components: seq<NodeList>,
    cg: Graph,
    chains: seq<seq<int>>,
    head: seq<int>,
    tail: seq<int>,
    final: Graph)

  /** Inter-component edges, redirected to the head of the component they lead to. */
  function Redirect(edges: EdgeList, heads: seq<int>): EdgeList
    requires forall k :: 0 <= k < |edges| ==> 0 <= edges[k].dest < |heads|
  {
    if |edges| == 0 then []
    else
      var e := edges[|edges| - 1];
      Redirect(edges[..|edges| - 1], heads) + [e.(dest := heads[e.dest])]
  }

  lemma RedirectMore(edges: EdgeList, heads: seq<int>, k: int)
    requires forall j :: 0 <= j < |edges| ==> 0 <= edges[j].dest < |heads|
    requires 0 <= k < |edges|
    ensures Redirect(edges[..k + 1], heads) == Redirect(edges[..k], heads) + [edges[k].(dest := heads[edges[k].dest])]
  {
    assert edges[..k + 1][..k] == edges[..k];
  }

  lemma {:induction false} RedirectAt(edges: EdgeList, heads: seq<int>)
    requires forall k :: 0 <= k < |edges| ==> 0 <= edges[k].dest < |heads|
    ensures |Redirect(edges, heads)| == |edges|
    ensures forall k :: 0 <= k < |edges| ==> Redirect(edges, heads)[k] == edges[k].(dest := heads[edges[k].dest])
  {
    if |edges| > 0 {
      RedirectAt(edges[..|edges| - 1], heads);
    }
  }

  /** The chain lists the members of the component, each once, from head to tail. */
  ghost predicate ChainOf(members: NodeList, chain: seq<int>, h: int, t: int) {
    && |chain| > 0 && h == chain[0] && t == chain[|chain| - 1]
    && (forall x :: x in chain <==> x in members)
    && (forall p, q :: 0 <= p < q < |chain| ==> chain[p] != chain[q])
  }

  ghost predicate ChainsOk(s: Solution) {
    && |s.chains| == |s.components| == |s.head| == |s.tail|
    && forall c :: 0 <= c < |s.chains| ==> ChainOf(s.components[c], s.chains[c], s.head[c], s.tail[c])
  }

  /** What leaves the node at place p of a chain besides its strong edges. */
  function Onward(s: Solution, c: int, p: int): EdgeList
    requires WellFormed(s.cg) && |s.head| == |s.cg| && 0 <= c < |s.cg| && c < |s.chains| && 0 <= p < |s.chains[c]|
  {
    if p + 1 < |s.chains[c]| then [Edge(s.chains[c][p + 1], false, false)] else Redirect(s.cg[c], s.head)
  }

  /** The edges of the node at place p of the chain of component c; strong ones lead to later places. */
  ghost predicate NodeEdges(s: Solution, c: int, p: int) {
    && WellFormed(s.cg) && |s.head| == |s.cg| && 0 <= c < |s.cg| && c < |s.chains| && 0 <= p < |s.chains[c]|
    && |s.final| == |s.initial| && 0 <= s.chains[c][p] < |s.initial|
    && s.final[s.chains[c][p]] == StrongEdges(s.initial[s.chains[c][p]], s.comp, c) + Onward(s, c, p)
    && (forall k :: StrongStep(s.initial, s.comp, c, s.chains[c][p], k) ==>
          s.initial[s.chains[c][p]][k].dest in s.chains[c][p + 1..])
  }

  /** The outcome of a successful computation. */
  ghost predicate Solved(s: Solution) {
    && |s.intermediate| == |s.initial| == |s.final| && WellFormed(s.initial)
    && Decomposition(s.intermediate, s.comp, s.components)
    && IsComponentGraph(s.intermediate, s.comp, s.components, s.cg)
    && ChainsOk(s)
    && forall c, p :: 0 <= c < |s.chains| && 0 <= p < |s.chains[c]| ==> NodeEdges(s, c, p)
  }

  // ---- the edges of the final graph, one by one ----

  lemma {:induction false} StrongEdgesMember(edges: EdgeList, comp: seq<int>, c: int, e: Edge)
    ensures e in StrongEdges(edges, comp, c) <==>
      exists k :: 0 <= k < |edges| && Stays(edges[k], comp, c) && e == Edge(edges[k].dest, true, edges[k].cross)
  {
    if |edges| > 0 {
      var init := edges[..|edges| - 1];
      StrongEdgesMember(init, comp, c, e);
      assert forall k :: 0 <= k < |init| ==> init[k] == edges[k];
      if e in StrongEdges(init, comp, c) {
        var k :| 0 <= k < |init| && Stays(init[k], comp, c) && e == Edge(init[k].dest, true, init[k].cross);
        assert edges[k] == init[k];
      }
    }
  }

  /** x stands at place p of the chain of component c. */
  ghost predicate At(s: Solution, x: int, c: int, p: int) {
    0 <= c < |s.chains| && 0 <= p < |s.chains[c]| && s.chains[c][p] == x
  }

  lemma PlaceOf(s: Solution, x: int) returns (p: int)
    requires Solved(s) && Node(s.initial, x)
    ensures At(s, x, s.comp[x], p)
  {
    hide SccsOk, DoneClosed, IsComponentGraph, NodeEdges;
    var c := s.comp[x];
    assert ListOk(s.comp, s.components[c], c);
    assert ChainOf(s.components[c], s.chains[c], s.head[c], s.tail[c]);
    assert x in s.chains[c];
    p :| 0 <= p < |s.chains[c]| && s.chains[c][p] == x;
  }

  lemma AtComponent(s: Solution, x: int, c: int, p: int)
    requires Solved(s) && At(s, x, c, p)
    ensures Node(s.initial, x) && s.comp[x] == c
  {
    hide SccsOk, DoneClosed, IsComponentGraph, NodeEdges;
    assert ListOk(s.comp, s.components[c], c);
    assert ChainOf(s.components[c], s.chains[c], s.head[c], s.tail[c]);
    assert x in s.chains[c];
  }

  lemma SamePlace(s: Solution, x: int, c: int, p: int, q: int)
    requires Solved(s) && At(s, x, c, p) && At(s, x, c, q)
    ensures p == q
  {
    hide SccsOk, DoneClosed, IsComponentGraph, NodeEdges, ListsOk;
    assert ChainOf(s.components[c], s.chains[c], s.head[c], s.tail[c]);
  }

  /** Where an edge of the final graph may lead: forward along the chain, or to the head of a
      component that its own component leads to. */
  ghost predicate Onwards(s: Solution, x: int, p: int, y: int, q: int) {
    && Node(s.initial, x) && Node(s.initial, y) && |s.comp| == |s.initial|
    && At(s, x, s.comp[x], p) && At(s, y, s.comp[y], q)
    && ((s.comp[y] == s.comp[x] && p < q) || (q == 0 && s.comp[y] < s.comp[x] && HasEdge(s.cg, s.comp[x], s.comp[y])))
  }

  /** A strong edge that was kept leads to a later place of the same chain. */
  lemma StrongLater(s: Solution, x: int, p: int, k: int) returns (q: int)
    requires Solved(s) && Node(s.initial, x) && At(s, x, s.comp[x], p)
    requires 0 <= k < |s.final[x]| && k < |StrongEdges(s.initial[x], s.comp, s.comp[x])|
    ensures Onwards(s, x, p, s.final[x][k].dest, q)
  {
    var c := s.comp[x];
    var chain, strong := s.chains[c], StrongEdges(s.initial[x], s.comp, c);
    assert NodeEdges(s, c, p);
    hide Decomposition, IsComponentGraph, ChainsOk, Onward;
    assert s.final[x][k] == strong[k] && strong[k] in strong;
    StrongEdgesMember(s.initial[x], s.comp, c, strong[k]);
    var e :| 0 <= e < |s.initial[x]| && Stays(s.initial[x][e], s.comp, c)
      && strong[k] == Edge(s.initial[x][e].dest, true, s.initial[x][e].cross);
    assert StrongStep(s.initial, s.comp, c, x, e);
    var m :| 0 <= m < |chain| - (p + 1) && chain[p + 1..][m] == strong[k].dest;
    q := p + 1 + m;
    AtComponent(s, strong[k].dest, c, q);
  }

  lemma LastEdges(s: Solution, x: int, p: int)
    requires Solved(s) && Node(s.initial, x) && At(s, x, s.comp[x], p) && p + 1 == |s.chains[s.comp[x]]|
    ensures WellFormed(s.cg) && |s.head| == |s.cg| && Node(s.cg, s.comp[x])
    ensures forall k :: 0 <= k < |s.cg[s.comp[x]]| ==> 0 <= s.cg[s.comp[x]][k].dest < |s.head|
    ensures s.final[x] == StrongEdges(s.initial[x], s.comp, s.comp[x]) + Redirect(s.cg[s.comp[x]], s.head)
  {
    hide SccsOk, DoneClosed, ListsOk, IsComponentGraph, ChainsOk, StrongEdges, StrongStep, Redirect;
    assert NodeEdges(s, s.comp[x], p);
  }

  lemma RedirectedTo(s: Solution, x: int, p: int, k: int) returns (d: int)
    requires Solved(s) && Node(s.initial, x) && At(s, x, s.comp[x], p) && p + 1 == |s.chains[s.comp[x]]|
    requires |StrongEdges(s.initial[x], s.comp, s.comp[x])| <= k < |s.final[x]|
    ensures 0 <= d < |s.head| && HasEdge(s.cg, s.comp[x], d) && s.final[x][k].dest == s.head[d]
  {
    LastEdges(s, x, p);
    hide Solved, At, StrongEdges, Redirect, WellFormed, HasEdge;
    var c, strong := s.comp[x], StrongEdges(s.initial[x], s.comp, s.comp[x]);
    RedirectAt(s.cg[c], s.head);
    SecondPart(strong, Redirect(s.cg[c], s.head), k);
    d := s.cg[c][k - |strong|].dest;
    EdgeAt(s.cg, c, k - |strong|);
  }

  lemma SecondPart(a: EdgeList, b: EdgeList, k: int)
    requires |a| <= k < |a + b|
    ensures (a + b)[k] == b[k - |a|]
  {
  }

  /** From the tail of a chain, an edge leads to the head of a lower one. */
  lemma Redirected(s: Solution, x: int, p: int, k: int) returns (q: int)
    requires Solved(s) && Node(s.initial, x) && At(s, x, s.comp[x], p) && p + 1 == |s.chains[s.comp[x]]|
    requires |StrongEdges(s.initial[x], s.comp, s.comp[x])| <= k < |s.final[x]|
    ensures Onwards(s, x, p, s.final[x][k].dest, q)
  {
    var c := s.comp[x];
    var d := RedirectedTo(s, x, p, k);
    hide SccsOk, DoneClosed, ListsOk, IsComponentGraph, StrongEdges, NodeEdges, HasEdge;
    ComponentsDescend(s.intermediate, s.comp, s.components, s.cg, c, d);
    assert ChainOf(s.components[d], s.chains[d], s.head[d], s.tail[d]);
    q := 0;
    AtComponent(s, s.head[d], d, 0);
  }

  lemma FinalEdge(s: Solution, x: int, y: int, p: int) returns (q: int)
    requires Solved(s) && Node(s.initial, x) && At(s, x, s.comp[x], p) && HasEdge(s.final, x, y)
    ensures Onwards(s, x, p, y, q)
  {
    var k :| 0 <= k < |s.final[x]| && s.final[x][k].dest == y;
    var c, strong := s.comp[x], StrongEdges(s.initial[x], s.comp, s.comp[x]);
    assert s.final[x] == strong + Onward(s, c, p) by {
      assert NodeEdges(s, c, p);
    }
    hide Solved, StrongEdges, HasEdge;
    if k < |strong| {
      q := StrongLater(s, x, p, k);
    } else if p + 1 < |s.chains[c]| {
      q := p + 1;
      AtComponent(s, y, c, q);
    } else {
      hide Onwards;
      q := Redirected(s, x, p, k);
    }
  }

  // ---- no cycle is left ----

  /** x comes before y in the build order: in a higher component, or earlier in the same chain. */
  ghost predicate Precedes(s: Solution, x: int, y: int) {
    exists c, p, d, q :: At(s, x, c, p) && At(s, y, d, q) && (d < c || (c == d && p < q))
  }

  lemma PrecedesIrreflexive(s: Solution, x: int)
    requires Solved(s)
    ensures !Precedes(s, x, x)
  {
    hide Solved, At;
    if Precedes(s, x, x) {
      var c, p, d, q :| At(s, x, c, p) && At(s, x, d, q) && (d < c || (c == d && p < q));
      AtComponent(s, x, c, p);
      AtComponent(s, x, d, q);
      SamePlace(s, x, c, p, q);
    }
  }

  /** Everything reached in the final graph is the node itself or comes later in the build order. */
  lemma FinalReachPrecedes(s: Solution, x: int, y: int)
    requires Solved(s) && Node(s.initial, x) && Reach(s.final, x, y)
    ensures Node(s.initial, y) && (x == y || Precedes(s, x, y))
  {
    var p := PlaceOf(s, x);
    var later := set z | 0 <= z < |s.initial| && (z == x || Precedes(s, x, z));
    forall u, v | u in later && HasEdge(s.final, u, v) ensures v in later {
      var pu := PlaceOf(s, u);
      var pv := FinalEdge(s, u, v, pu);
      PrecedesStep(s, x, p, u, pu, v, pv);
    }
    hide Solved, Precedes;
    ReachStaysIn(s.final, later, x, y);
  }

  lemma PrecedesStep(s: Solution, x: int, p: int, u: int, pu: int, v: int, pv: int)
    requires Solved(s) && Node(s.initial, x) && Node(s.initial, u) && At(s, x, s.comp[x], p) &&
      (u == x || Precedes(s, x, u))
    requires Onwards(s, u, pu, v, pv)
    ensures Precedes(s, x, v)
  {
    hide HasEdge;
    if u == x {
      SamePlace(s, x, s.comp[x], p, pu);
    } else {
      var c, a, d, b :| At(s, x, c, a) && At(s, u, d, b) && (d < c || (c == d && a < b));
      AtComponent(s, x, c, a);
      AtComponent(s, u, d, b);
      SamePlace(s, u, d, b, pu);
      assert At(s, x, c, a) && At(s, v, s.comp[v], pv);
    }
  }

  /** The final graph has no cycle, not even an edge from a target to itself. */
  lemma FinalAcyclic(s: Solution, x: int, y: int)
    requires Solved(s) && Node(s.initial, x) && HasEdge(s.final, x, y)
    ensures !Reach(s.final, y, x)
  {
    var p := PlaceOf(s, x);
    var q := FinalEdge(s, x, y, p);
    PrecedesStep(s, x, p, x, p, y, q);
    if Reach(s.final, y, x) {
      FinalReachPrecedes(s, y, x);
      PrecedesIrreflexive(s, x);
      hide Solved;
      if Precedes(s, y, x) {
        PrecedesTrans(s, x, y, x);
      }
    }
  }

  lemma PrecedesTrans(s: Solution, x: int, y: int, z: int)
    requires Solved(s) && Precedes(s, x, y) && Precedes(s, y, z)
    ensures Precedes(s, x, z)
  {
    var c, p, d, q :| At(s, x, c, p) && At(s, y, d, q) && (d < c || (c == d && p < q));
    var d', q', e, r :| At(s, y, d', q') && At(s, z, e, r) && (e < d' || (d' == e && q' < r));
    AtComponent(s, y, d, q);
    AtComponent(s, y, d', q');
    SamePlace(s, y, d, q, q');
    assert At(s, x, c, p) && At(s, z, e, r);
  }

  // ---- no ordering is lost, none is invented ----

  lemma NextInChain(s: Solution, c: int, p: int)
    requires Solved(s) && 0 <= c < |s.chains| && 0 <= p && p + 1 < |s.chains[c]|
    ensures HasEdge(s.final, s.chains[c][p], s.chains[c][p + 1])
  {
    hide SccsOk, DoneClosed, ListsOk, IsComponentGraph;
    assert NodeEdges(s, c, p);
    var x := s.chains[c][p];
    var strong := StrongEdges(s.initial[x], s.comp, c);
    assert s.final[x][|strong|] == Edge(s.chains[c][p + 1], false, false);
  }

  /** Along the chain, every member depends on all later ones. */
  lemma {:induction false} ChainReach(s: Solution, c: int, p: int, q: int)
    requires Solved(s) && 0 <= c < |s.chains| && 0 <= p <= q < |s.chains[c]|
    ensures Reach(s.final, s.chains[c][p], s.chains[c][q])
    decreases q - p
  {
    hide Solved;
    if p == q {
      ReachRefl(s.final, s.chains[c][p]);
    } else {
      NextInChain(s, c, p);
      ReachEdge(s.final, s.chains[c][p], s.chains[c][p + 1]);
      ChainReach(s, c, p + 1, q);
      ReachTrans(s.final, s.chains[c][p], s.chains[c][p + 1], s.chains[c][q]);
    }
  }

  lemma TailToHead(s: Solution, c: int, d: int)
    requires Solved(s) && HasEdge(s.cg, c, d)
    ensures 0 <= d < c < |s.chains| == |s.head| && |s.chains[c]| > 0 && |s.chains[d]| > 0
    ensures HasEdge(s.final, s.chains[c][|s.chains[c]| - 1], s.chains[d][0])
  {
    ComponentsDescend(s.intermediate, s.comp, s.components, s.cg, c, d);
    TailEdges(s, c);
    Nonempty(s, d);
    hide Solved;
    var k :| 0 <= k < |s.cg[c]| && s.cg[c][k].dest == d;
    RedirectAt(s.cg[c], s.head);
    var x := s.chains[c][|s.chains[c]| - 1];
    var strong := |s.final[x]| - |s.cg[c]|;
    assert s.final[x][strong + k] == Redirect(s.cg[c], s.head)[k];
    HeadIs(s, d);
  }

  /** The last node of a chain ends with the redirected edges of its component. */
  lemma TailEdges(s: Solution, c: int)
    requires Solved(s) && 0 <= c < |s.cg|
    ensures WellFormed(s.cg) && |s.head| == |s.cg| == |s.chains| && |s.chains[c]| > 0
    ensures var x := s.chains[c][|s.chains[c]| - 1];
            && 0 <= x < |s.final| && |Redirect(s.cg[c], s.head)| == |s.cg[c]| <= |s.final[x]|
            && s.final[x][|s.final[x]| - |s.cg[c]|..] == Redirect(s.cg[c], s.head)
  {
    hide SccsOk, DoneClosed, ListsOk;
    assert ChainOf(s.components[c], s.chains[c], s.head[c], s.tail[c]);
    var p := |s.chains[c]| - 1;
    assert NodeEdges(s, c, p);
    RedirectAt(s.cg[c], s.head);
    hide StrongEdges, Redirect;
  }

  lemma HeadIs(s: Solution, d: int)
    requires Solved(s) && 0 <= d < |s.chains|
    ensures |s.head| == |s.chains| && |s.chains[d]| > 0 && s.head[d] == s.chains[d][0]
  {
    hide SccsOk, DoneClosed, ListsOk, NodeEdges;
    assert ChainOf(s.components[d], s.chains[d], s.head[d], s.tail[d]);
  }

  lemma Nonempty(s: Solution, c: int)
    requires Solved(s) && 0 <= c < |s.chains|
    ensures |s.chains[c]| > 0 && |s.chains| == |s.cg|
  {
    hide SccsOk, DoneClosed, ListsOk, NodeEdges;
    assert ChainOf(s.components[c], s.chains[c], s.head[c], s.tail[c]);
  }

  /** x reaches the head of every other component its own component leads to. */
  lemma ReachesHead(s: Solution, x: int, d: int)
    requires Solved(s) && Node(s.initial, x) && 0 <= s.comp[x] < |s.cg| && Reach(s.cg, s.comp[x], d) && d != s.comp[x]
    ensures 0 <= d < |s.chains| && |s.chains[d]| > 0 && Reach(s.final, x, s.chains[d][0])
  {
    var p := PlaceOf(s, x);
    var c := s.comp[x];
    var reached := set e | 0 <= e < |s.chains| && HeadReached(s, x, e);
    forall e, f | e in reached && HasEdge(s.cg, e, f) ensures f in reached {
      Nonempty(s, e);
      TailToHead(s, e, f);
      var n := |s.chains[e]| - 1;
      var t := s.chains[e][n];
      if e == c {
        ChainReach(s, c, p, n);
      } else {
        ChainReach(s, e, 0, n);
        ReachTrans(s.final, x, s.chains[e][0], t);
      }
      ReachEdge(s.final, t, s.chains[f][0]);
      ReachTrans(s.final, x, t, s.chains[f][0]);
    }
    hide Solved, Reach;
    ReachStaysIn(s.cg, reached, c, d);
  }

  ghost predicate HeadReached(s: Solution, x: int, e: int)
    requires 0 <= e < |s.chains|
  {
    (Node(s.initial, x) && x < |s.comp| && e == s.comp[x]) || (|s.chains[e]| > 0 && Reach(s.final, x, s.chains[e][0]))
  }

  lemma KeptForward(s: Solution, x: int, y: int)
    requires Solved(s) && Node(s.initial, x) && Node(s.initial, y) && s.comp[x] != s.comp[y]
    requires Reach(s.intermediate, x, y)
    ensures Reach(s.final, x, y)
  {
    ComponentReach(s.intermediate, s.comp, s.components, s.cg, x, y);
    ReachesHead(s, x, s.comp[y]);
    var q := PlaceOf(s, y);
    ChainReach(s, s.comp[y], 0, q);
    ReachTrans(s.final, x, s.chains[s.comp[y]][0], y);
  }

  lemma KeptBackward(s: Solution, x: int, y: int)
    requires Solved(s) && Node(s.initial, x) && Reach(s.final, x, y)
    ensures Node(s.initial, y) && Reach(s.cg, s.comp[x], s.comp[y])
  {
    var reached := set z | 0 <= z < |s.initial| && Reach(s.cg, s.comp[x], s.comp[z]);
    forall u, v | u in reached && HasEdge(s.final, u, v) ensures v in reached {
      var pu := PlaceOf(s, u);
      var pv := FinalEdge(s, u, v, pu);
      if s.comp[u] != s.comp[v] {
        ReachEdge(s.cg, s.comp[u], s.comp[v]);
        ReachTrans(s.cg, s.comp[x], s.comp[u], s.comp[v]);
      }
    }
    ReachRefl(s.cg, s.comp[x]);
    hide Solved, Reach;
    ReachStaysIn(s.final, reached, x, y);
  }

  /** Between different components, the final graph orders exactly what the intermediate graph orders. */
  lemma FinalReach(s: Solution, x: int, y: int)
    requires Solved(s) && Node(s.initial, x) && Node(s.initial, y) && s.comp[x] != s.comp[y]
    ensures Reach(s.final, x, y) <==> Reach(s.intermediate, x, y)
  {
    if Reach(s.final, x, y) {
      KeptBackward(s, x, y);
      ComponentReach(s.intermediate, s.comp, s.components, s.cg, x, y);
    }
    if Reach(s.intermediate, x, y) {
      KeptForward(s, x, y);
    }
  }

  /** Inside a component, it orders the members exactly as the chain does. */
  lemma FinalReachInside(s: Solution, c: int, p: int, q: int)
    requires Solved(s) && 0 <= c < |s.chains| && 0 <= p < |s.chains[c]| && 0 <= q < |s.chains[c]|
    ensures Reach(s.final, s.chains[c][p], s.chains[c][q]) <==> p <= q
  {
    var x, y := s.chains[c][p], s.chains[c][q];
    if p <= q {
      ChainReach(s, c, p, q);
    } else if Reach(s.final, x, y) {
      assert At(s, x, c, p) && At(s, y, c, q);
      AtComponent(s, x, c, p);
      FinalReachPrecedes(s, x, y);
      assert Precedes(s, y, x);
      if x == y {
        PrecedesIrreflexive(s, x);
      } else {
        PrecedesTrans(s, x, y, x);
        PrecedesIrreflexive(s, x);
      }
    }
  }

  // ---- strong dependencies ----

  /** A strong dependency inside a component is kept, as a strong edge that goes forward along the chain. */
  lemma StrongKept(s: Solution, x: int, k: int) returns (p: int, q: int)
    requires Solved(s) && Node(s.initial, x) && StrongStep(s.initial, s.comp, s.comp[x], x, k)
    ensures Edge(s.initial[x][k].dest, true, s.initial[x][k].cross) in s.final[x]
    ensures At(s, x, s.comp[x], p) && At(s, s.initial[x][k].dest, s.comp[x], q) && p < q
  {
    p := PlaceOf(s, x);
    var c := s.comp[x];
    hide SccsOk, DoneClosed, ListsOk, IsComponentGraph;
    assert NodeEdges(s, c, p);
    var e := Edge(s.initial[x][k].dest, true, s.initial[x][k].cross);
    StrongEdgesMember(s.initial[x], s.comp, c, e);
    assert e in StrongEdges(s.initial[x], s.comp, c);
    var m :| 0 <= m < |s.chains[c]| - (p + 1) && s.chains[c][p + 1..][m] == s.initial[x][k].dest;
    q := p + 1 + m;
  }

  /** Places only grow along strong walks ... */
  lemma {:induction false} StrongForward(s: Solution, c: int, r: int, w: Steps, p: int) returns (q: int)
    requires Solved(s) && Node(s.initial, r) && s.comp[r] == c && At(s, r, c, p)
    requires IsStrongWalk(s.initial, s.comp, c, r, w)
    ensures At(s, EndOf(s.initial, r, w), c, q) && p <= q && (|w| > 0 ==> p < q)
    decreases |w|
  {
    if |w| == 0 {
      q := p;
    } else {
      var m := StrongForward(s, c, r, w[..|w| - 1], p);
      var last := w[|w| - 1];
      var a, b := StrongKept(s, last.0, last.1);
      SamePlace(s, last.0, c, a, m);
      q := b;
    }
  }

  /** ... so a solved component has no strong cycle. */
  lemma NoStrongCycle(s: Solution, r: int, w: Steps)
    requires Solved(s) && Node(s.initial, r) && |w| > 0
    requires IsStrongWalk(s.initial, s.comp, s.comp[r], r, w)
    ensures EndOf(s.initial, r, w) != r
  {
    var c := s.comp[r];
    var p := PlaceOf(s, r);
    var q := StrongForward(s, c, r, w, p);
    if EndOf(s.initial, r, w) == r {
      SamePlace(s, r, c, p, q);
    }
  }
}
