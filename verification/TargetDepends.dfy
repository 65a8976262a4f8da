/** cmComputeTargetDepends: breaking dependency cycles among static libraries. */
module TargetDepends {
  import opened Collections
  import opened Graphs
  import opened TarjanWalk
  import opened ComponentGraph
  import opened ComponentTheory
  import opened StrongWalks
  import opened ChainSearch
  import opened TargetTheory
  import opened LinearChains

  class ComputeTargetDepends {
    const initialGraph: Graph
    var finalGraph: Graph
    var componentHead: seq<int>
    var componentTail: seq<int>

    constructor (initial: Graph)
      ensures initialGraph == initial
    {
      initialGraph := initial;
      finalGraph, componentHead, componentTail := [], [], [];
    }

    ghost function Snapshot(head: int, emitted: set<int>, visited: set<int>, chain: seq<int>, rec: Record): State
      reads this
    {
      State(finalGraph, componentTail, head, emitted, visited, chain, rec)
    }

    /** Visits i and, through strong edges, what it needs; false when a node is entered a second time. */
    method IntraComponent(cmap: seq<int>, c: int, i: int, head: int, emitted: set<int>, visited: set<int>,
      ghost ctx: Context, ghost path: set<int>, ghost chain: seq<int>, ghost rec: Record)
      returns (ok: bool, head': int, emitted': set<int>, visited': set<int>, ghost chain': seq<int>, ghost rec': Record)
      requires ctx.g == initialGraph && ctx.comp == cmap && ctx.c == c
      requires i !in visited ==> Entering(ctx, Snapshot(head, emitted, visited, chain, rec), path, i)
      modifies `finalGraph, `componentTail
      ensures |finalGraph| == |old(finalGraph)| && |componentTail| == |old(componentTail)|
      ensures i in visited ==> !ok
      ensures i !in visited && ok ==>
        Linked(ctx, old(Snapshot(head, emitted, visited, chain, rec)),
          Snapshot(head', emitted', visited', chain', rec'), path, i)
      ensures i !in visited && !ok ==> Meeting(ctx.g, cmap, c, ctx.r, ctx.before)
      decreases Nodes(initialGraph) - visited, 0
    {
      head', emitted', visited', chain', rec' := head, emitted, visited, chain, rec;
      ok := false;
      if i in visited {
        // The node is entered a second time: the search has failed.
        return;
      }
      hide Good, Extended, StrongEdges, RecordOk, Explored, Unused, Meeting, Linking, Linked, Entering, Nodes,
        WellFormed;
      visited' := visited' + {i};
      ghost var st := Snapshot(head, emitted, visited, chain, rec);
      if i in emitted {
        AlreadyEmitted(ctx, st, path, i);
        ok := true;
        return;
      }
      emitted' := emitted' + {i};
      StartLinking(ctx, st, path, i);
      EnteringFacts(ctx, st, path, i);
      // A strong edge inside the component stays as it is.
      var el := initialGraph[i];
      for e := 0 to |el|
        invariant |finalGraph| == |old(finalGraph)| && |componentTail| == |old(componentTail)|
        invariant Linking(ctx, st, Snapshot(head', emitted', visited', chain', rec'), path, i, e)
      {
        LinkingShrinks(ctx, st, Snapshot(head', emitted', visited', chain', rec'), path, i, e);
        ok, head', emitted', visited', chain', rec' :=
          FollowEdge(cmap, c, i, e, head', emitted', visited', ctx, st, path, chain', rec');
        if !ok {
          return;
        }
      }
      head', chain' := LinkNode(c, i, head', emitted', visited', ctx, st, path, chain', rec');
      ok := true;
    }

    /** One round of the loop over the edges of i. */
    method FollowEdge(cmap: seq<int>, c: int, i: int, e: int, head: int, emitted: set<int>, visited: set<int>,
      ghost ctx: Context, ghost st: State, ghost path: set<int>, ghost chain: seq<int>, ghost rec: Record)
      returns (ok: bool, head': int, emitted': set<int>, visited': set<int>, ghost chain': seq<int>, ghost rec': Record)
      requires ctx.g == initialGraph && ctx.comp == cmap && ctx.c == c && 0 <= i < |cmap| && cmap[i] == c &&
        i !in st.chain
      requires Linking(ctx, st, Snapshot(head, emitted, visited, chain, rec), path, i, e) && e < |initialGraph[i]|
      modifies `finalGraph, `componentTail
      ensures |finalGraph| == |old(finalGraph)| && |componentTail| == |old(componentTail)|
      ensures ok ==> Linking(ctx, st, Snapshot(head', emitted', visited', chain', rec'), path, i, e + 1)
      ensures !ok ==> Meeting(ctx.g, cmap, c, ctx.r, ctx.before)
      decreases Nodes(initialGraph) - visited, 1
    {
      head', emitted', visited', chain', rec' := head, emitted, visited, chain, rec;
      ok := true;
      hide Good, Extended, StrongEdges, RecordOk, Explored, Unused, Meeting, Linking, Linked, Entering, Nodes;
      ghost var now := Snapshot(head, emitted, visited, chain, rec);
      LinkingFacts(ctx, st, now, path, i, e);
      var edge := initialGraph[i][e];
      assert 0 <= edge.dest < |cmap|;
      hide WellFormed;
      if cmap[edge.dest] == c && edge.strong {
        assert Stays(edge, cmap, c);
        if edge.dest in visited {
          EnteredTwice(ctx, st, now, path, i, e);
        } else {
          EnterChild(ctx, st, now, path, i, e);
        }
        finalGraph := finalGraph[i := finalGraph[i] + [Edge(edge.dest, true, edge.cross)]];
        ghost var walks := rec[edge.dest := rec[i] + [(i, e)]];
        assert edge.dest !in visited ==> Snapshot(head, emitted, visited, chain, walks) == TakeEdge(now, i, e, edge);
        ok, head', emitted', visited', chain', rec' :=
          IntraComponent(cmap, c, edge.dest, head, emitted, visited, ctx, path + {i}, chain, walks);
        if ok {
          ChildFinished(ctx, st, now, Snapshot(head', emitted', visited', chain', rec'), path, i, e);
        }
      } else {
        PassEdge(ctx, st, now, path, i, e);
      }
    }

    /** Prepend i to a linear linked-list of intra-component edges. */
    method LinkNode(c: int, i: int, head: int, ghost emitted: set<int>, ghost visited: set<int>,
      ghost ctx: Context, ghost st: State, ghost path: set<int>, ghost chain: seq<int>, ghost rec: Record)
      returns (head': int, ghost chain': seq<int>)
      requires ctx.g == initialGraph && ctx.c == c && Node(initialGraph, i) && i !in st.chain
      requires 0 <= i < |ctx.comp| && ctx.comp[i] == c
      requires Linking(ctx, st, Snapshot(head, emitted, visited, chain, rec), path, i, |initialGraph[i]|)
      modifies `finalGraph, `componentTail
      ensures |finalGraph| == |old(finalGraph)| && |componentTail| == |old(componentTail)|
      ensures Linked(ctx, st, Snapshot(head', emitted, visited, chain', rec), path, i)
    {
      ghost var now := Snapshot(head, emitted, visited, chain, rec);
      LinkingFacts(ctx, st, now, path, i, |initialGraph[i]|);
      TailInRange(ctx, now, path + {i});
      AllFollowed(ctx, st, now, path, i);
      hide Good, Linking, Linked;
      if head >= 0 {
        finalGraph := finalGraph[i := finalGraph[i] + [Edge(head, false, false)]];
      } else {
        componentTail := componentTail[c := i];
      }
      head' := i;
      chain' := [i] + chain;
      assert Snapshot(head', emitted, visited, chain', rec) == Prepend(ctx, now, i);
    }

    /** Choose intra-component edges to linearize the dependencies of one component. */
    method LinearizeComponent(cmap: seq<int>, c: int, nl: NodeList) returns (ok: bool, head: int, ghost chain: seq<int>)
      requires WellFormed(initialGraph) && |cmap| == |initialGraph| == |finalGraph| && 0 <= c < |componentTail|
      requires ListOk(cmap, nl, c) && forall x :: 0 <= x < |cmap| && cmap[x] == c ==> finalGraph[x] == []
      modifies `finalGraph, `componentTail
      ensures |finalGraph| == |initialGraph| && |componentTail| == |old(componentTail)|
      ensures ok <==> Linearizable(initialGraph, cmap, c, nl)
      ensures ok ==> ChainOk(initialGraph, cmap, c, finalGraph, chain) && ChainOf(nl, chain, head, componentTail[c])
      ensures ok ==> head >= 0 && ByMembers(initialGraph, cmap, c, nl, chain)
      ensures ok ==> forall x :: 0 <= x < |cmap| && cmap[x] != c ==> finalGraph[x] == old(finalGraph)[x]
      ensures ok ==> forall d :: 0 <= d < |componentTail| && d != c ==> componentTail[d] == old(componentTail)[d]
    {
      head, chain := -1, [];
      var emitted: set<int> := {};
      var k := |nl|;
      ghost var g := initialGraph;
      hide ListOk, ChainOk, Linearizable, Linked, Entering, Meeting, Searched, InSections, ByMembers;
      NoSections(g, cmap, c, nl);
      assert Progress(g, cmap, c, nl, k, Snapshot(head, emitted, {}, chain, map[])) by {
        NothingSearched(g, cmap, c, nl, Snapshot(head, emitted, {}, chain, map[]));
      }
      ghost var rec: Record := map[];
      var visited: set<int> := {};
      while k > 0
        invariant 0 <= k <= |nl| && |componentTail| == |old(componentTail)|
        invariant Progress(g, cmap, c, nl, k, Snapshot(head, emitted, visited, chain, rec))
        invariant InSections(g, cmap, c, nl, k, chain)
        invariant forall x :: 0 <= x < |cmap| && cmap[x] != c ==> finalGraph[x] == old(finalGraph)[x]
        invariant forall d :: 0 <= d < |componentTail| && d != c ==> componentTail[d] == old(componentTail)[d]
      {
        k := k - 1;
        var ni := nl[k];
        ghost var st := Snapshot(head, emitted, visited, chain, rec);
        ghost var ctx := RootContext(g, cmap, c, ni, st);
        RootEntering(g, cmap, c, nl, k + 1, st);
        visited, rec := {}, map[ni := []];
        assert Snapshot(head, emitted, visited, chain, rec) == RootState(st, ni);
        ok, head, emitted, visited, chain, rec :=
          IntraComponent(cmap, c, ni, head, emitted, visited, ctx, {}, chain, rec);
        if !ok {
          // Either a strong cycle or two strong walks that meet.
          MetAbove(g, cmap, c, nl, k + 1, st);
          return;
        }
        RootLinked(g, cmap, c, nl, k + 1, st, Snapshot(head, emitted, visited, chain, rec));
        SectionMore(g, cmap, c, nl, k + 1, st, Snapshot(head, emitted, visited, chain, rec));
      }
      ok := true;
      ProgressDone(g, cmap, c, nl, Snapshot(head, emitted, visited, chain, rec));
      SectionsOrder(g, cmap, c, nl, chain);
    }

    /** Breaks the cycles; succeeds exactly when every component can be linearized. */
    method ComputeFinalDepends(ccg: ComputeComponentGraph) returns (ok: bool, ghost chains: seq<seq<int>>)
      requires WellFormed(initialGraph) && |initialGraph| == |ccg.inputGraph|
      requires Decomposition(ccg.inputGraph, ccg.tarjanComponents, ccg.components)
      requires IsComponentGraph(ccg.inputGraph, ccg.tarjanComponents, ccg.components, ccg.componentGraph)
      modifies this
      ensures ok <==>
        forall c :: 0 <= c < |ccg.components| ==> Linearizable(initialGraph, ccg.tarjanComponents, c, ccg.components[c])
      ensures ok ==> Solved(Solution(initialGraph, ccg.inputGraph, ccg.tarjanComponents, ccg.components,
        ccg.componentGraph, chains, componentHead, componentTail, finalGraph))
      ensures ok ==> AllByMembers(initialGraph, ccg.tarjanComponents, ccg.components, chains)
    {
      var cmap, components, cgraph := ccg.tarjanComponents, ccg.components, ccg.componentGraph;
      finalGraph := seq(|initialGraph|, _ => []);
      componentHead := seq(|components|, _ => 0);
      componentTail := seq(|components|, _ => 0);
      ComponentGraphWellFormed(ccg.inputGraph, cmap, components, cgraph);
      DecompositionFacts(ccg.inputGraph, cmap, components, cgraph);
      hide Decomposition, IsComponentGraph, AllChained, Solved, Connected, Linearizable, WellFormed, ListsOk,
        AllByMembers;
      ok, chains := LinearizeAll(cmap, components);
      if ok {
        ghost var linked := finalGraph;
        TailsInside(initialGraph, cmap, components, finalGraph, componentHead, componentTail, chains);
        ConnectComponents(cmap, components, cgraph, chains);
        SolvedNow(linked, Solution(initialGraph, ccg.inputGraph, cmap, components, cgraph, chains,
          componentHead, componentTail, finalGraph));
      }
    }

    method LinearizeAll(cmap: seq<int>, components: seq<NodeList>) returns (ok: bool, ghost chains: seq<seq<int>>)
      requires WellFormed(initialGraph) && |cmap| == |initialGraph| && ListsOk(cmap, components)
      requires finalGraph == seq(|initialGraph|, _ => []) && |componentHead| == |componentTail| == |components|
      modifies `finalGraph, `componentHead, `componentTail
      ensures ok <==> forall c :: 0 <= c < |components| ==> Linearizable(initialGraph, cmap, c, components[c])
      ensures ok ==> AllChained(initialGraph, cmap, components, |components|, finalGraph, componentHead, componentTail,
        chains)
      ensures ok ==> AllByMembers(initialGraph, cmap, components, chains)
    {
      chains := [];
      ok := true;
      hide ChainOk, Linearizable, ChainOf, ByMembers;
      for c := 0 to |components|
        invariant |chains| == c
        invariant AllChained(initialGraph, cmap, components, c, finalGraph, componentHead, componentTail, chains)
        invariant forall d :: 0 <= d < c ==> Linearizable(initialGraph, cmap, d, components[d])
        invariant forall d :: 0 <= d < c ==> ByMembers(initialGraph, cmap, d, components[d], chains[d])
      {
        assert ListOk(cmap, components[c], c);
        ghost var before := finalGraph;
        ghost var beforeTail := componentTail;
        var head;
        ghost var chain;
        ok, head, chain := LinearizeComponent(cmap, c, components[c]);
        if !ok {
          return;
        }
        ghost var beforeHead := componentHead;
        componentHead := componentHead[c := head];
        OneMoreChained(initialGraph, cmap, components, c, before, finalGraph, beforeHead, componentHead,
          beforeTail, componentTail, chains, chain);
        chains := chains + [chain];
      }
    }

    /** The tail of each chain receives the edges of its component, redirected to the heads of the others. */
    method ConnectComponents(cmap: seq<int>, components: seq<NodeList>, cgraph: Graph, ghost chains: seq<seq<int>>)
      requires |cmap| == |initialGraph| && WellFormed(cgraph) && |cgraph| == |components|
      requires AllChained(initialGraph, cmap, components, |components|, finalGraph, componentHead, componentTail,
        chains)
      requires forall c :: 0 <= c < |components| ==> 0 <= componentTail[c] < |cmap| && cmap[componentTail[c]] == c
      modifies `finalGraph
      ensures |finalGraph| == |cmap|
      ensures Connected(cmap, cgraph, |cgraph|, old(finalGraph), finalGraph, componentHead, componentTail)
    {
      ghost var linked := finalGraph;
      hide ChainOk, ChainOf, ListsOk;
      for depender := 0 to |cgraph|
        invariant Connected(cmap, cgraph, depender, linked, finalGraph, componentHead, componentTail)
      {
        ghost var before := finalGraph;
        var tail := componentTail[depender];
        var nl := cgraph[depender];
        for k := 0 to |nl|
          invariant finalGraph == before[tail := before[tail] + Redirect(nl[..k], componentHead)]
        {
          RedirectMore(nl, componentHead, k);
          Associate(before[tail], Redirect(nl[..k], componentHead), [nl[k].(dest := componentHead[nl[k].dest])]);
          var dependeeHead := componentHead[nl[k].dest];
          finalGraph := finalGraph[tail := finalGraph[tail] + [nl[k].(dest := dependeeHead)]];
        }
        assert nl[..|nl|] == nl;
        ConnectedMore(cmap, cgraph, depender, linked, before, componentHead, componentTail);
      }
    }
  }

  ghost predicate AllByMembers(g: Graph, cmap: seq<int>, components: seq<NodeList>, chains: seq<seq<int>>) {
    |chains| == |components| && forall c :: 0 <= c < |chains| ==> ByMembers(g, cmap, c, components[c], chains[c])
  }

  /** The first n components have been linearized, the nodes of the others are still without edges. */
  ghost predicate AllChained(g: Graph, cmap: seq<int>, components: seq<NodeList>, n: int, final: Graph,
    head: seq<int>, tail: seq<int>, chains: seq<seq<int>>)
  {
    && |final| == |g| == |cmap| && |head| == |tail| == |components| && n == |chains| <= |components|
    && (forall c :: 0 <= c < n ==> ChainOk(g, cmap, c, final, chains[c]))
    && (forall c :: 0 <= c < n ==> ChainOf(components[c], chains[c], head[c], tail[c]))
    && (forall x :: 0 <= x < |g| && cmap[x] >= n ==> final[x] == [])
  }

  lemma OneMoreChained(g: Graph, cmap: seq<int>, components: seq<NodeList>, c: int, before: Graph, final: Graph,
    head: seq<int>, head': seq<int>, tail: seq<int>, tail': seq<int>, chains: seq<seq<int>>, chain: seq<int>)
    requires AllChained(g, cmap, components, c, before, head, tail, chains) && c < |components|
    requires |final| == |g| && |tail'| == |tail| && |head'| == |head| && head' == head[c := head'[c]]
    requires ChainOk(g, cmap, c, final, chain) && ChainOf(components[c], chain, head'[c], tail'[c])
    requires forall x :: 0 <= x < |cmap| && cmap[x] != c ==> final[x] == before[x]
    requires forall d :: 0 <= d < |tail| && d != c ==> tail'[d] == tail[d]
    ensures AllChained(g, cmap, components, c + 1, final, head', tail', chains + [chain])
  {
    forall d | 0 <= d < c ensures ChainOk(g, cmap, d, final, chains[d]) {
      forall x | x in chains[d] ensures 0 <= x < |g| && final[x] == before[x] {
        ChainNodes(g, cmap, d, before, chains[d], x);
      }
      ChainFrame(g, cmap, d, before, final, chains[d]);
    }
    hide ChainOk, ChainOf;
  }

  lemma DecompositionFacts(g: Graph, cmap: seq<int>, components: seq<NodeList>, cg: Graph)
    requires Decomposition(g, cmap, components) && IsComponentGraph(g, cmap, components, cg)
    ensures ListsOk(cmap, components) && |cmap| == |g| && |cg| == |components|
  {
  }

  lemma TailsInside(g: Graph, cmap: seq<int>, components: seq<NodeList>, final: Graph,
    head: seq<int>, tail: seq<int>, chains: seq<seq<int>>)
    requires AllChained(g, cmap, components, |components|, final, head, tail, chains)
    ensures |tail| == |components| && forall c :: 0 <= c < |components| ==> 0 <= tail[c] < |cmap| && cmap[tail[c]] == c
  {
    forall c | 0 <= c < |components| ensures 0 <= tail[c] < |cmap| && cmap[tail[c]] == c {
      assert ChainOf(components[c], chains[c], head[c], tail[c]);
      ChainNodes(g, cmap, c, final, chains[c], tail[c]);
    }
  }

  /** The tails of the first n components have been given their redirected edges. */
  ghost predicate Connected(cmap: seq<int>, cg: Graph, n: int, linked: Graph, final: Graph, head: seq<int>,
                            tail: seq<int>)
  {
    && WellFormed(cg) && |head| == |tail| == |cg| && |linked| == |final| == |cmap| && n <= |cg|
    && forall x :: 0 <= x < |cmap| ==> final[x] == linked[x] + Extra(cmap, cg, n, head, tail, x)
  }

  lemma ConnectedMore(cmap: seq<int>, cg: Graph, n: int, linked: Graph, before: Graph, head: seq<int>, tail: seq<int>)
    requires 0 <= n < |cg| && Connected(cmap, cg, n, linked, before, head, tail)
    requires forall c :: 0 <= c < |cg| ==> 0 <= tail[c] < |cmap| && cmap[tail[c]] == c
    ensures Connected(cmap, cg, n + 1, linked, before[tail[n] := before[tail[n]] + Redirect(cg[n], head)], head, tail)
  {
    assert linked[tail[n]] + [] == linked[tail[n]];
    hide Redirect;
  }

  ghost function Extra(cmap: seq<int>, cg: Graph, n: int, head: seq<int>, tail: seq<int>, x: int): EdgeList
    requires WellFormed(cg) && |head| == |tail| == |cg| && n <= |cg| && 0 <= x < |cmap|
  {
    var c := cmap[x];
    if 0 <= c < n && x == tail[c] then Redirect(cg[c], head) else []
  }

  lemma SolvedNow(linked: Graph, s: Solution)
    requires WellFormed(s.initial) && |s.intermediate| == |s.initial|
    requires Decomposition(s.intermediate, s.comp, s.components)
    requires IsComponentGraph(s.intermediate, s.comp, s.components, s.cg)
    requires AllChained(s.initial, s.comp, s.components, |s.components|, linked, s.head, s.tail, s.chains)
    requires Connected(s.comp, s.cg, |s.cg|, linked, s.final, s.head, s.tail)
    ensures Solved(s)
  {
    hide SccsOk, DoneClosed, ListsOk;
    forall c, p | 0 <= c < |s.chains| && 0 <= p < |s.chains[c]| ensures NodeEdges(s, c, p) {
      PlaceSolved(linked, s, c, p);
    }
  }

  lemma PlaceSolved(linked: Graph, s: Solution, c: int, p: int)
    requires AllChained(s.initial, s.comp, s.components, |s.components|, linked, s.head, s.tail, s.chains)
    requires Connected(s.comp, s.cg, |s.cg|, linked, s.final, s.head, s.tail)
    requires |s.components| == |s.cg| && 0 <= c < |s.chains| && 0 <= p < |s.chains[c]|
    ensures NodeEdges(s, c, p)
  {
    var chain := s.chains[c];
    var x := chain[p];
    ChainPlace(s.initial, s.comp, c, linked, chain, p);
    assert ChainOf(s.components[c], chain, s.head[c], s.tail[c]);
    assert p + 1 < |chain| ==> chain[p] != chain[|chain| - 1];
    assert s.final[x] == linked[x] + Extra(s.comp, s.cg, |s.cg|, s.head, s.tail, x);
    assert p + 1 < |chain| ==> chain[p + 1..][0] == chain[p + 1];
    var strong := StrongEdges(s.initial[x], s.comp, c);
    assert strong + [] + Onward(s, c, p) == strong + Onward(s, c, p);
    assert strong + Onward(s, c, p) + [] == strong + Onward(s, c, p);
  }

  lemma NothingSearched(g: Graph, comp: seq<int>, c: int, members: NodeList, st: State)
    requires WellFormed(g) && |comp| == |g| == |st.final| && 0 <= c < |st.tail| && ListOk(comp, members, c)
    requires st.chain == [] && st.head == -1 && st.emitted == {}
    requires forall x :: 0 <= x < |g| && comp[x] == c ==> st.final[x] == []
    ensures Progress(g, comp, c, members, |members|, st)
  {
  }

  lemma MetAbove(g: Graph, comp: seq<int>, c: int, members: NodeList, k: int, st: State)
    requires Progress(g, comp, c, members, k, st) && k > 0
    requires Meeting(g, comp, c, members[k - 1], Elements(st.chain))
    ensures !Linearizable(g, comp, c, members)
  {
    BeforeIsAbove(g, comp, c, members, k, st);
    assert members[k - 1] in members;
  }

  lemma EnteringFacts(ctx: Context, st: State, path: set<int>, i: int)
    requires Entering(ctx, st, path, i)
    ensures Node(ctx.g, i) && |ctx.comp| == |ctx.g| && ctx.comp[i] == ctx.c
    ensures i !in st.emitted ==> i !in st.chain
  {
    hide ChainOk, RecordOk, HeadTail;
  }

  lemma LinkingShrinks(ctx: Context, st: State, st': State, path: set<int>, i: int, e: int)
    requires Linking(ctx, st, st', path, i, e) && i !in st.visited
    ensures Nodes(ctx.g) - st'.visited < Nodes(ctx.g) - st.visited
  {
    hide Linking, Good, WellFormed;
    LinkingFacts(ctx, st, st', path, i, e);
    VisitedGrows(ctx, st, st', path, i, e);
    assert i in st'.visited && i in Nodes(ctx.g) - st.visited;
  }

  lemma TailInRange(ctx: Context, st: State, path: set<int>)
    requires Good(ctx, st, path)
    ensures 0 <= ctx.c < |st.tail|
  {
    hide ChainOk, RecordOk, HeadTail, SetsOk;
  }
}
