/** cmComputeComponentGraph: strongly connected components, and the graph between them. */
module ComponentGraph {
  import opened Graphs
  import opened TarjanWalk
  import opened ComponentNumbers
  import D = DepthFirst

  // ---- sorting the members of a component (std::sort in the source) ----

  lemma AscendingCons(x: int, a: NodeList)
    requires Ascending(a) && forall y :: y in a ==> x < y
    ensures Ascending([x] + a)
  {
    var b := [x] + a;
    forall i, j | 0 <= i < j < |b| ensures b[i] < b[j] {
      assert b[j] == a[j - 1] && a[j - 1] in a;
      assert i > 0 ==> b[i] == a[i - 1];
    }
  }

  lemma AscendingTail(a: NodeList)
    requires Ascending(a) && |a| > 0
    ensures Ascending(a[1..]) && a == [a[0]] + a[1..] && forall y :: y in a[1..] ==> a[0] < y
  {
  }

  function Insert(x: int, a: NodeList): (b: NodeList)
    requires Ascending(a) && x !in a
    ensures Ascending(b) && forall y :: y in b <==> y == x || y in a
  {
    if |a| == 0 then [x]
    else
      AscendingTail(a);
      if x < a[0] then
        AscendingCons(x, a);
        [x] + a
      else
        var rest := Insert(x, a[1..]);
        AscendingCons(a[0], rest);
        [a[0]] + rest
  }

  function Sorted(a: NodeList): (b: NodeList)
    requires D.Distinct(a)
    ensures Ascending(b) && forall y :: y in b <==> y in a
  {
    if |a| == 0 then []
    else
      assert a == [a[0]] + a[1..];
      Insert(a[0], Sorted(a[1..]))
  }

  // ---- the contents of the component graph ----

  /** The edges of one node that leave its component c, redirected to component numbers. */
  function Leaving(edges: EdgeList, comp: seq<int>, c: int): EdgeList
    requires forall k :: 0 <= k < |edges| ==> 0 <= edges[k].dest < |comp|
  {
    if |edges| == 0 then []
    else
      var e := edges[|edges| - 1];
      Leaving(edges[..|edges| - 1], comp, c) + if comp[e.dest] != c then [e.(dest := comp[e.dest])] else []
  }

  /** All edges leaving component c among the first n nodes, in node order. */
  function Transferred(g: Graph, comp: seq<int>, c: int, n: nat): EdgeList
    requires WellFormed(g) && |comp| == |g| && n <= |g|
  {
    if n == 0 then []
    else Transferred(g, comp, c, n - 1) + if comp[n - 1] == c then Leaving(g[n - 1], comp, c) else []
  }

  ghost function Unvisited(visited: seq<int>): set<int> {
    set x | 0 <= x < |visited| && visited[x] == 0
  }

  lemma UnvisitedShrinks(s: Walk, t: Walk, i: int)
    requires Extends(s, t) && |s.visited| == |s.entries| == |s.comp|
    requires forall x :: 0 <= x < |s.visited| ==> s.visited[x] >= 0
    requires 0 <= i < |s.visited| && s.visited[i] == 0 && Visited(t, i)
    ensures Unvisited(t.visited) < Unvisited(s.visited)
  {
    forall x | x in Unvisited(t.visited) ensures x in Unvisited(s.visited) {
      if s.visited[x] != 0 {
        assert Visited(s, x);
      }
    }
    assert i in Unvisited(s.visited) && i !in Unvisited(t.visited);
  }

  /** comp numbers, and components list, exactly the strongly connected components of g, in dependency order. */
  ghost predicate Decomposition(g: Graph, comp: seq<int>, components: seq<NodeList>) {
    && WellFormed(g) && |comp| == |g|
    && (forall x :: 0 <= x < |g| ==> 0 <= comp[x] < |components|)
    && SccsOk(g, comp) && ListsOk(comp, components) && DoneClosed(g, comp)
  }

  /** cg holds, component by component, every inter-component edge once per original edge. */
  ghost predicate IsComponentGraph(g: Graph, comp: seq<int>, components: seq<NodeList>, cg: Graph)
    requires WellFormed(g) && |comp| == |g|
  {
    && |cg| == |components|
    && forall c :: 0 <= c < |cg| ==> cg[c] == Transferred(g, comp, c, |g|)
  }

  class ComputeComponentGraph {
    const inputGraph: Graph
    var componentGraph: Graph
    var tarjanVisited: seq<int>
    var tarjanComponents: seq<int>
    var tarjanEntries: seq<TarjanEntry>
    var components: seq<NodeList>
    var tarjanStack: seq<int>
    var tarjanWalkId: int
    var tarjanIndex: int
    // Ghost record of the nodes whose visit has ended, in this order.
    ghost var finished: seq<int>

    constructor (input: Graph)
      ensures inputGraph == input && components == [] && tarjanStack == []
    {
      inputGraph := input;
      componentGraph := [];
      tarjanVisited, tarjanComponents, tarjanEntries := [], [], [];
      components, tarjanStack := [], [];
      tarjanWalkId, tarjanIndex, finished := 0, 0, [];
    }

    ghost function State(): Walk
      reads this
    {
      Walk(tarjanVisited, tarjanEntries, tarjanComponents, components, tarjanStack, tarjanWalkId, tarjanIndex)
    }

    /** Identify the components and the graph between them. */
    method Compute()
      requires WellFormed(inputGraph) && components == [] && tarjanStack == []
      modifies this
      ensures Decomposition(inputGraph, tarjanComponents, components)
      ensures IsComponentGraph(inputGraph, tarjanComponents, components, componentGraph)
      ensures EarlierNodeFirst(inputGraph, tarjanComponents) && EarlierEdgeFirst(inputGraph, tarjanComponents)
    {
      Tarjan();
      componentGraph := seq(|components|, _ => []);
      TransferEdges();
    }

    method Tarjan()
      requires WellFormed(inputGraph) && components == [] && tarjanStack == []
      modifies `tarjanVisited, `tarjanComponents, `tarjanEntries, `components, `tarjanStack, `tarjanIndex, `tarjanWalkId
      modifies `finished
      ensures Decomposition(inputGraph, tarjanComponents, components)
      ensures EarlierNodeFirst(inputGraph, tarjanComponents) && EarlierEdgeFirst(inputGraph, tarjanComponents)
    {
      ForgetWalks();
      hide Between, SearchRecorded, WellFormed, Decomposition, EarlierNodeFirst, EarlierEdgeFirst;
      for i := 0 to |inputGraph|
        invariant Between(inputGraph, State(), i) && SearchRecorded(inputGraph, State(), finished, i)
      {
        WalkFrom(i);
      }
      AllDone(inputGraph, State());
      AllNumbered(inputGraph, State(), finished);
    }

    /** No node has been visited yet. */
    method ForgetWalks()
      requires WellFormed(inputGraph) && components == [] && tarjanStack == []
      modifies `tarjanVisited, `tarjanComponents, `tarjanEntries, `tarjanWalkId, `finished
      ensures Between(inputGraph, State(), 0) && SearchRecorded(inputGraph, State(), finished, 0)
    {
      var n := |inputGraph|;
      tarjanEntries := seq(n, _ => TarjanEntry(0, 0));
      tarjanComponents := seq(n, _ => -1);
      tarjanWalkId := 0;
      tarjanVisited := seq(n, _ => 0);
      finished := [];
      hide Between, SearchRecorded, WellFormed;
      StartBetween(inputGraph, State());
      StartRecord(inputGraph, State());
    }

    /** One round of the loop over all nodes. */
    method WalkFrom(i: int)
      requires Between(inputGraph, State(), i) && Node(inputGraph, i)
      requires SearchRecorded(inputGraph, State(), finished, i)
      modifies `tarjanVisited, `tarjanComponents, `tarjanEntries, `components, `tarjanStack, `tarjanIndex, `tarjanWalkId
      modifies `finished
      ensures Between(inputGraph, State(), i + 1) && SearchRecorded(inputGraph, State(), finished, i + 1)
    {
      hide Inv, MayVisit, VisitedFrom, Between, SearchRecorded, VisitRecorded, Stamped;
      ghost var s := State();
      ghost var before := finished;
      BetweenFacts(inputGraph, s, i);
      // Nodes of an earlier walk are left alone.
      if tarjanVisited[i] == 0 {
        assert tarjanStack == [];
        tarjanWalkId := tarjanWalkId + 1;
        tarjanIndex := 0;
        ghost var t := State();
        NewWalk(inputGraph, s, i);
        RecordedStart(inputGraph, s, t, before, i);
        TarjanVisit(i, {});
        WalkOver(inputGraph, t, State(), i);
        RecordedWalk(inputGraph, s, t, State(), before, finished, i);
      } else {
        BetweenSkip(inputGraph, s, i);
        RecordedSkip(inputGraph, s, before, i);
      }
    }

    method TransferEdges()
      requires Decomposition(inputGraph, tarjanComponents, components)
      requires componentGraph == seq(|components|, _ => [])
      modifies `componentGraph
      ensures IsComponentGraph(inputGraph, tarjanComponents, components, componentGraph)
    {
      hide SccsOk, DoneClosed, ListsOk;
      // An edge that crosses a component border becomes one between the components.
      for i := 0 to |inputGraph|
        invariant |componentGraph| == |components|
        invariant forall c :: 0 <= c < |components| ==>
          componentGraph[c] == Transferred(inputGraph, tarjanComponents, c, i)
      {
        var iComponent := tarjanComponents[i];
        var nl := inputGraph[i];
        ghost var before := componentGraph[iComponent];
        for k := 0 to |nl|
          invariant |componentGraph| == |components|
          invariant componentGraph[iComponent] == before + Leaving(nl[..k], tarjanComponents, iComponent)
          invariant forall c :: 0 <= c < |components| && c != iComponent ==>
            componentGraph[c] == Transferred(inputGraph, tarjanComponents, c, i)
        {
          assert nl[..k + 1][..k] == nl[..k];
          var jComponent := tarjanComponents[nl[k].dest];
          if iComponent != jComponent {
            // Parallel edges stay parallel: multiplicity is kept.
            componentGraph := componentGraph[iComponent := componentGraph[iComponent] + [nl[k].(dest := jComponent)]];
          }
        }
        assert nl[..|nl|] == nl;
      }
    }

    method TarjanVisit(i: int, ghost grey: set<int>)
      requires MayVisit(inputGraph, State(), grey, i)
      requires Stamped(tarjanComponents, |components|, finished)
      modifies `tarjanVisited, `tarjanComponents, `tarjanEntries, `components, `tarjanStack, `tarjanIndex, `finished
      ensures VisitedFrom(inputGraph, old(State()), State(), grey, i)
      ensures VisitRecorded(inputGraph, old(State()), State(), old(finished), finished, i)
      decreases Unvisited(tarjanVisited), 0
    {
      hide Inv, MayVisit, VisitedFrom, Within, LowUpTo, Extends, HasEdge, Reach, Stamped, VisitRecorded, FollowRecorded;
      ghost var before := finished;
      ghost var s := State();
      MayVisitShape(inputGraph, s, grey, i);
      tarjanVisited := tarjanVisited[i := tarjanWalkId];
      tarjanComponents := tarjanComponents[i := -1];
      tarjanIndex := tarjanIndex + 1;
      tarjanEntries := tarjanEntries[i := TarjanEntry(i, tarjanIndex)];
      tarjanStack := tarjanStack + [i];
      assert State() == Push(s, i);
      StartFollowing(inputGraph, s, grey, i);
      RecordedPush(inputGraph, s, before, i);

      var nl := inputGraph[i];
      for e := 0 to |nl|
        invariant Following(inputGraph, s, State(), grey, i, e)
        invariant FollowRecorded(inputGraph, s, State(), before, finished, i, e)
      {
        FollowingShrinks(inputGraph, s, State(), grey, i, e);
        FollowEdge(i, e, s, grey, before);
      }

      // Nothing reachable goes back above i: all entries from i upwards are its component.
      ghost var t := State();
      WithinFacts(inputGraph, s, t, grey, i);
      if tarjanEntries[i].root == i {
        CloseComponent(i, s, grey);
        RecordedClose(inputGraph, s, t, State(), before, finished, grey, i);
      } else {
        Leave(inputGraph, s, t, grey, i);
        RecordedLeave(inputGraph, s, t, before, finished, i);
      }
      finished := finished + [i];
    }

    /** One round of the loop over the outgoing edges of i. */
    method FollowEdge(i: int, e: int, ghost s: Walk, ghost grey: set<int>, ghost before: seq<int>)
      requires MayVisit(inputGraph, s, grey, i) && Node(inputGraph, i) && 0 <= e < |inputGraph[i]|
      requires Following(inputGraph, s, State(), grey, i, e)
      requires FollowRecorded(inputGraph, s, State(), before, finished, i, e)
      modifies `tarjanVisited, `tarjanComponents, `tarjanEntries, `components, `tarjanStack, `tarjanIndex, `finished
      ensures Following(inputGraph, s, State(), grey, i, e + 1)
      ensures FollowRecorded(inputGraph, s, State(), before, finished, i, e + 1)
      decreases Unvisited(tarjanVisited), 1
    {
      hide Inv, MayVisit, VisitedFrom, Within, LowUpTo, LowPending, Extends, HasEdge, Reach;
      hide Stamped, VisitRecorded, FollowRecorded;
      var j := inputGraph[i][e].dest;
      ghost var t := State();
      FollowingFacts(inputGraph, s, t, grey, i, e);

      // A finished destination is in a lower component.
      if tarjanVisited[j] > 0 && tarjanVisited[j] < tarjanWalkId {
        SeenPending(inputGraph, s, t, grey, i, e);
        RelaxFollowing(inputGraph, s, t, grey, i, e);
        PreviousWalk(inputGraph, s, t, grey, i, j);
        RecordedSeen(inputGraph, s, t, before, finished, i, e);
        return;
      }

      if tarjanVisited[j] == 0 {
        ChildMayVisit(inputGraph, s, t, grey, i, e);
        ghost var sofar := finished;
        RecordedStamps(inputGraph, s, t, before, finished, i, e);
        TarjanVisit(j, grey + {i});
        RecordedChild(inputGraph, s, t, State(), before, sofar, finished, i, e);
        ChildPending(inputGraph, s, t, State(), grey, i, e);
        ChildWithin(inputGraph, s, t, State(), grey, i, j);
      } else {
        SeenPending(inputGraph, s, t, grey, i, e);
        RecordedSeen(inputGraph, s, t, before, finished, i, e);
      }

      // The root index only ever moves down.
      ghost var u := State();
      WithinFacts(inputGraph, s, u, grey, i);
      PendingFacts(inputGraph, s, u, grey, i, j, e);
      RelaxFollowing(inputGraph, s, u, grey, i, e);
      if tarjanComponents[j] < 0 {
        if tarjanEntries[tarjanEntries[j].root].visitIndex < tarjanEntries[tarjanEntries[i].root].visitIndex {
          tarjanEntries := tarjanEntries[i := tarjanEntries[i].(root := tarjanEntries[j].root)];
        }
      }
      assert State() == Relax(u, i, j);
      RecordedRelax(inputGraph, s, u, before, finished, i, j, e + 1);
    }

    method CloseComponent(i: int, ghost s: Walk, ghost grey: set<int>)
      requires MayVisit(inputGraph, s, grey, i) && Followed(inputGraph, s, State(), grey, i)
      requires Root(State(), i) == i
      modifies `tarjanComponents, `tarjanEntries, `components, `tarjanStack
      ensures VisitedFrom(inputGraph, s, State(), grey, i)
      ensures Popped(old(State()), State(), i, |s.stack|)
    {
      hide Inv, MayVisit, VisitedFrom, Within, LowUpTo, Extends, HasEdge, Reach, Popped;
      ghost var t := State();
      PopReady(inputGraph, s, t, grey, i);
      PopComponent(i, |s.stack|);
      Close(inputGraph, s, t, State(), grey, i);
    }

    /** Everything on the stack from i upwards becomes the next component. */
    method PopComponent(i: int, ghost k: nat)
      requires k < |tarjanStack| && tarjanStack[k] == i && D.Distinct(tarjanStack)
      requires |tarjanVisited| == |tarjanEntries| == |tarjanComponents|
      requires forall a :: 0 <= a < |tarjanStack| ==> 0 <= tarjanStack[a] < |tarjanComponents|
      modifies `tarjanComponents, `tarjanEntries, `components, `tarjanStack
      ensures Popped(old(State()), State(), i, k)
    {
      var c := |components|;
      var component: NodeList := [];
      ghost var s := State();
      var j := -1;
      while j != i
        invariant k <= |tarjanStack| <= |s.stack|
        invariant tarjanStack == s.stack[..|tarjanStack|]
        invariant j == i <==> |tarjanStack| == k
        invariant components == s.components
        invariant |tarjanEntries| == |s.entries| && |tarjanComponents| == |s.comp|
        invariant PoppedSoFar(s, tarjanComponents, tarjanEntries, component, i, |tarjanStack|)
        decreases |tarjanStack|
      {
        ghost var m := |tarjanStack|;
        j := tarjanStack[|tarjanStack| - 1];
        assert j == s.stack[m - 1];
        PopOne(s, tarjanComponents, tarjanEntries, component, i, m);
        tarjanStack := tarjanStack[..|tarjanStack| - 1];
        tarjanComponents := tarjanComponents[j := c];
        tarjanEntries := tarjanEntries[j := tarjanEntries[j].(root := i)];
        component := component + [j];
      }
      PoppedAll(s, tarjanComponents, tarjanEntries, component, i, k);
      components := components + [Sorted(component)];
    }
  }

  /** What popping the stack down to height m has done. */
  ghost predicate PoppedSoFar(s: Walk, comp: seq<int>, entries: seq<TarjanEntry>, component: NodeList, i: int, m: int) {
    && 0 <= m <= |s.stack| && |comp| == |s.comp| && |entries| == |s.entries| && |s.comp| == |s.entries|
    && |component| == |s.stack| - m
    && (forall a :: 0 <= a < |component| ==> component[a] == s.stack[|s.stack| - 1 - a])
    && (forall x :: 0 <= x < |s.comp| ==>
          && comp[x] == (if x in s.stack[m..] then |s.components| else s.comp[x])
          && entries[x] == (if x in s.stack[m..] then s.entries[x].(root := i) else s.entries[x]))
  }

  lemma PopOne(s: Walk, comp: seq<int>, entries: seq<TarjanEntry>, component: NodeList, i: int, m: int)
    requires PoppedSoFar(s, comp, entries, component, i, m) && m > 0
    requires 0 <= s.stack[m - 1] < |s.comp|
    ensures var j := s.stack[m - 1];
      PoppedSoFar(s, comp[j := |s.components|], entries[j := entries[j].(root := i)], component + [j], i, m - 1)
  {
    assert s.stack[m - 1..] == [s.stack[m - 1]] + s.stack[m..];
  }

  lemma PoppedAll(s: Walk, comp: seq<int>, entries: seq<TarjanEntry>, component: NodeList, i: int, m: int)
    requires PoppedSoFar(s, comp, entries, component, i, m) && D.Distinct(s.stack)
    ensures D.Distinct(component) && forall x :: x in component <==> x in s.stack[m..]
  {
    forall x | x in s.stack[m..] ensures x in component {
      var a :| 0 <= a < |s.stack| - m && s.stack[m..][a] == x;
      assert component[|s.stack| - 1 - m - a] == x;
    }
    forall x | x in component ensures x in s.stack[m..] {
      var a :| 0 <= a < |component| && component[a] == x;
      assert s.stack[m..][|s.stack| - 1 - a - m] == x;
    }
  }

  // ---- facts the methods need about the invariant ----

  lemma FollowingShrinks(g: Graph, s: Walk, t: Walk, grey: set<int>, i: int, e: int)
    requires MayVisit(g, s, grey, i) && Following(g, s, t, grey, i, e)
    ensures Unvisited(t.visited) < Unvisited(s.visited)
  {
    hide StackOk, RootsOk, GreyOk, ToGrey, FromGrey, Finished, HasEdge, Reach, LowUpTo;
    UnvisitedShrinks(s, t, i);
  }

  lemma FollowingFacts(g: Graph, s: Walk, t: Walk, grey: set<int>, i: int, e: int)
    requires MayVisit(g, s, grey, i) && Following(g, s, t, grey, i, e) && Node(g, i) && 0 <= e < |g[i]|
    ensures Shape(g, t) && Node(g, g[i][e].dest) && Visited(t, i) && !Visited(s, i)
  {
    hide StackOk, RootsOk, GreyOk, ToGrey, FromGrey, Finished, HasEdge, Reach, LowUpTo, Extends;
  }

  lemma PreviousWalk(g: Graph, s: Walk, t: Walk, grey: set<int>, i: int, j: int)
    requires Within(g, s, t, grey, i) && Visited(t, j) && t.visited[j] < t.walkId
    ensures Done(t, j)
  {
    hide StackOk, RootsOk, GreyOk, ToGrey, FromGrey, Finished, Extends;
  }

  lemma PendingFacts(g: Graph, s: Walk, t: Walk, grey: set<int>, i: int, j: int, e: int)
    requires Within(g, s, t, grey, i) && LowPending(g, t, i, j, e)
    ensures Visited(t, j) && Sized(g, t)
    ensures Open(t, j) ==> Open(t, Root(t, j))
  {
    hide StackOk, GreyOk, ToGrey, FromGrey, Finished, Reach, HasEdge, Extends;
  }

  lemma PopReady(g: Graph, s: Walk, t: Walk, grey: set<int>, i: int)
    requires Within(g, s, t, grey, i)
    ensures Sized(g, t) && |s.stack| < |t.stack| && t.stack[|s.stack|] == i && D.Distinct(t.stack)
    ensures forall a :: 0 <= a < |t.stack| ==> 0 <= t.stack[a] < |t.comp|
  {
    hide RootsOk, GreyOk, ToGrey, FromGrey, Finished, Reach, HasEdge, Extends;
    assert t.stack[|s.stack|] == (s.stack + [i])[|s.stack|];
  }

  // ---- between walks ----

  /** No walk is in progress and every node below i has been visited. */
  ghost predicate Between(g: Graph, s: Walk, i: int) {
    && Inv(g, s, {}) && s.stack == []
    && forall x :: 0 <= x < i && x < |g| ==> Visited(s, x)
  }

  lemma StartBetween(g: Graph, s: Walk)
    requires WellFormed(g) && s.stack == [] && s.components == [] && s.walkId == 0 && Sized(g, s)
    requires forall x :: 0 <= x < |s.comp| && x < |s.visited| ==> s.visited[x] == 0 && s.comp[x] == -1
    ensures Between(g, s, 0)
  {
    hide HasEdge, Reach;
  }

  lemma BetweenFacts(g: Graph, s: Walk, i: int)
    requires Between(g, s, i)
    ensures Shape(g, s) && s.stack == [] && forall x :: 0 <= x < i && x < |g| ==> Visited(s, x)
  {
    hide StackOk, RootsOk, GreyOk, ToGrey, FromGrey, Finished;
  }

  lemma BetweenSkip(g: Graph, s: Walk, i: int)
    requires Between(g, s, i) && Visited(s, i)
    ensures Between(g, s, i + 1)
  {
    hide Inv;
  }

  lemma NoneOpen(g: Graph, s: Walk, grey: set<int>, x: int)
    requires Inv(g, s, grey) && s.stack == []
    ensures !Open(s, x)
  {
    hide HasEdge, Reach, RootsOk, ToGrey, FromGrey, Finished, GreyOk;
  }

  lemma NewWalk(g: Graph, s: Walk, i: int)
    requires Between(g, s, i) && Node(g, i) && !Visited(s, i)
    ensures MayVisit(g, s.(walkId := s.walkId + 1, index := 0), {}, i)
  {
    hide HasEdge, Reach, RootsOk, ToGrey, FromGrey, Finished;
    var t := s.(walkId := s.walkId + 1, index := 0);
    forall x ensures !Open(s, x) && !Open(t, x) {
      NoneOpen(g, s, {}, x);
    }
    assert RootsOk(g, t) by { NoRoots(g, t); }
    assert ToGrey(g, t, {}) && FromGrey(g, t, {}) by { NoRoots(g, t); }
    assert GreyOk(g, t, {}) by {
      forall x, y | Visited(t, x) && HasEdge(g, x, y) ensures Visited(t, y) {
        assert Visited(s, x) && Visited(s, y);
      }
    }
    assert Shape(g, t) && Finished(g, t.comp, t.components);
    assert StackOk(t) by {
      assert t.stack == [];
    }
    assert Inv(g, t, {});
  }

  lemma NoRoots(g: Graph, t: Walk)
    requires forall x :: !Open(t, x)
    ensures RootsOk(g, t) && ToGrey(g, t, {}) && FromGrey(g, t, {})
  {
  }

  lemma WalkOver(g: Graph, s: Walk, t: Walk, i: int)
    requires MayVisit(g, s, {}, i) && VisitedFrom(g, s, t, {}, i) && s.stack == []
    requires forall x :: 0 <= x < i ==> Visited(s, x)
    ensures Between(g, t, i + 1)
  {
    hide HasEdge, Reach, RootsOk, ToGrey, FromGrey, Finished, LowOk;
    if Open(t, i) {
      var r := Root(t, i);
      RootFactsSelf(g, t, {}, i);
      assert Open(s, r);
      NoneOpen(g, s, {}, r);
    }
  }

  lemma {:induction false} RecordedStart(g: Graph, s: Walk, t: Walk, fs: seq<int>, i: int)
    requires SearchRecorded(g, s, fs, i) && t == s.(walkId := t.walkId, index := 0)
    ensures Stamped(t.comp, |t.components|, fs)
  {
  }

  lemma AllNumbered(g: Graph, s: Walk, fs: seq<int>)
    requires Decomposition(g, s.comp, s.components) && SearchRecorded(g, s, fs, |g|)
    ensures EarlierNodeFirst(g, s.comp) && EarlierEdgeFirst(g, s.comp)
  {
    hide EarlierNodeFirst, EarlierEdgeFirst, SccsOk, ListsOk, DoneClosed, Stamped, D.Search;
    NodesFirst(g, s.comp, |s.components|);
    EdgesFirst(g, s.comp, |s.components|);
  }

  /** The component just popped is numbered when the visit of i ends. */
  lemma {:induction false} RecordedClose(g: Graph, s: Walk, t: Walk, u: Walk, fs: seq<int>, ft: seq<int>,
                                         grey: set<int>, i: int)
    requires Followed(g, s, t, grey, i) && FollowRecorded(g, s, t, fs, ft, i, |g[i]|)
    requires Popped(t, u, i, |s.stack|) && !Visited(s, i)
    ensures VisitRecorded(g, s, u, fs, ft + [i], i)
  {
    hide Followed, Visited, FollowRecorded, Popped, Stamped, VisitRecorded, Shape, StackOk;
    ClosedFacts(g, s, t, grey, i);
    PoppedFacts(g, s, t, u, i);
    RecordedStamps(g, s, t, fs, ft, i, |g[i]|);
    StampedClosed(t.comp, u.comp, |t.components|, ft, i);
    RecordedSame(g, s, t, u, fs, ft, i);
  }

  lemma {:induction false} ClosedFacts(g: Graph, s: Walk, t: Walk, grey: set<int>, i: int)
    requires Followed(g, s, t, grey, i)
    ensures Shape(g, t) && StackOk(t) && s.stack + [i] <= t.stack
  {
    hide RootsOk, GreyOk, ToGrey, FromGrey, Finished, Reach, HasEdge, Extends, LowUpTo;
  }

  lemma {:induction false} PoppedFacts(g: Graph, s: Walk, t: Walk, u: Walk, i: int)
    requires Shape(g, t) && StackOk(t) && s.stack + [i] <= t.stack && Popped(t, u, i, |s.stack|)
    ensures |u.comp| == |t.comp| && Node(g, i) && i < |t.comp| && u.comp[i] == |t.components|
    ensures u.visited == t.visited && |u.components| == |t.components| + 1
    ensures forall x :: 0 <= x < |t.comp| ==>
              t.comp[x] < |t.components| && (u.comp[x] == t.comp[x] || (u.comp[x] == |t.components| && t.comp[x] < 0))
  {
    var top := t.stack[|s.stack|..];
    assert top[0] == (s.stack + [i])[|s.stack|] == i;
    forall x | x in top ensures Open(t, x) {
      var a :| 0 <= a < |top| && top[a] == x;
      assert t.stack[|s.stack| + a] == x;
    }
    hide StackOk;
  }

  lemma AllDone(g: Graph, s: Walk)
    requires Between(g, s, |g|)
    ensures Decomposition(g, s.comp, s.components)
  {
    hide HasEdge, Reach, RootsOk, ToGrey, FromGrey, GreyOk, StackOk, SccsOk, DoneClosed, ListsOk;
    forall x | 0 <= x < |g| ensures s.comp[x] >= 0 {
      NoneOpen(g, s, {}, x);
    }
  }
}
