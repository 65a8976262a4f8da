/** cmComputeLinkDepends, the ordering half: from the constraint graph to the final link entries. */
module LinkDepends {
  import opened Collections
  import opened Graphs
  import opened ComponentGraph
  import opened ComponentTheory
  import opened ComponentOrder
  import P = ComponentPlaces
  import LinkSchedule
  import opened LinkOrder
  import opened LinkDrain
  import opened LinkLine
  import opened LinkRuns
  import opened LineOrder
  import N = ComponentNumbers

  class ComputeLinkDepends {
    // What is given: the graph over the link entries, and how often each of them wants its cycle repeated.
    const entryConstraintGraph: Graph
    const multiplicity: seq<nat>
    // Its components and the graph between them.
    var componentMap: seq<int>
    var components: seq<NodeList>
    var componentGraph: Graph
    // The state of the two algorithms: numbering the components and emitting the entries.
    var componentVisited: seq<bool>
    var componentOrder: seq<int>
    var componentOrderId: int
    // Ghost record of the components that have their number, in the order in which they got it.
    ghost var finished: seq<int>
    var pendingComponents: LinkSchedule.Pending
    var finalLinkOrder: seq<int>
    // The entries that the line starts with.
    const originalEntries: seq<int>

    constructor (g: Graph, multiplicity: seq<nat>, original: seq<int>)
      ensures entryConstraintGraph == g && this.multiplicity == multiplicity && originalEntries == original
      ensures pendingComponents == map[] && finalLinkOrder == []
    {
      entryConstraintGraph := g;
      this.multiplicity := multiplicity;
      originalEntries := original;
      componentMap, components, componentGraph := [], [], [];
      componentVisited, componentOrder, componentOrderId, finished := [], [], 0, [];
      pendingComponents, finalLinkOrder := map[], [];
    }

    method VisitComponent(c: int, ghost busy: set<int>)
      requires Numbering(componentGraph, componentVisited, componentOrder, componentOrderId, busy)
      requires Descending(componentGraph) && Node(componentGraph, c) && forall b :: b in busy ==> c < b
      requires P.HandedOut(componentOrder, componentOrderId, finished)
      modifies `componentVisited, `componentOrder, `componentOrderId, `finished
      ensures Numbering(componentGraph, componentVisited, componentOrder, componentOrderId, busy)
      ensures componentOrder[c] < |componentGraph| && NumbersKept(old(componentOrder), componentOrder)
      ensures P.HandedOut(componentOrder, componentOrderId, finished)
      ensures P.Searched(componentGraph, old(componentVisited), componentVisited, old(finished), finished, c)
      decreases c
    {
      hide HasEdge, Numbering, P.HandedOut, P.Searched, P.Searching;
      MarkBusy(componentGraph, componentVisited, componentOrder, componentOrderId, busy, c);
      if componentVisited[c] {
        P.SearchedAlready(componentGraph, componentVisited, finished, c);
        return;
      }
      P.SearchingNone(componentGraph, componentVisited, finished, c);
      ghost var visited, before := componentVisited, finished;

      componentVisited := componentVisited[c := true];

      // Everything c leads to is numbered first.
      var nl := componentGraph[c];
      var k := |nl|;
      while k > 0
        invariant 0 <= k <= |nl|
        invariant Numbering(componentGraph, componentVisited, componentOrder, componentOrderId, busy + {c})
        invariant |componentOrder| == |componentGraph| && NumbersKept(old(componentOrder), componentOrder)
        invariant forall m :: k <= m < |nl| ==> componentOrder[nl[m].dest] < |componentGraph|
        invariant P.HandedOut(componentOrder, componentOrderId, finished)
        invariant P.Searching(componentGraph, visited, componentVisited, before, finished, c, k)
      {
        k := k - 1;
        EdgeAt(componentGraph, c, k);
        ghost var during, sofar := componentVisited, finished;
        VisitComponent(nl[k].dest, busy + {c});
        P.SearchingOn(componentGraph, visited, during, componentVisited, before, sofar, finished, c, k);
      }

      // Numbers are handed out downwards, so c comes before all of these.
      StillBusy(componentGraph, componentVisited, componentOrder, componentOrderId, busy + {c}, c);
      NeighborsNumbered(componentGraph, componentOrder, c);
      NumberNext(componentGraph, componentVisited, componentOrder, componentOrderId, busy, c);
      P.HandOut(componentOrder, componentOrderId, finished, c);
      P.SearchingEnds(componentGraph, visited, componentVisited, before, finished, c);
      finished := finished + [c];
      componentOrderId := componentOrderId - 1;
      componentOrder := componentOrder[c := componentOrderId];
    }

    // ---- emitting entries ----

    ghost function TheLayout(): LinkSchedule.Layout
      reads this
    {
      LinkSchedule.Layout(componentMap, components, componentGraph, componentOrder, multiplicity)
    }

    ghost function Now(): LinkSchedule.Schedule
      reads this
    {
      LinkSchedule.Schedule(pendingComponents, finalLinkOrder)
    }

    /** Two passes, or as many as the most demanding member asks for. */
    method ComputeComponentCount(nl: NodeList) returns (count: int)
      requires forall k :: 0 <= k < |nl| ==> 0 <= nl[k] < |multiplicity|
      ensures count == LinkSchedule.MaxMultiplicity(nl, multiplicity, 2)
    {
      count := 2;
      for k := 0 to |nl|
        invariant count == LinkSchedule.MaxMultiplicity(nl[..k], multiplicity, 2)
      {
        assert nl[..k + 1][..k] == nl[..k];
        if multiplicity[nl[k]] > count {
          count := multiplicity[nl[k]];
        }
      }
      assert nl[..|nl|] == nl;
    }

    method MakePendingComponent(component: int)
      requires LinkSchedule.LayoutOk(TheLayout()) && 0 <= component < |components|
      modifies `pendingComponents
      ensures pendingComponents == LinkSchedule.MakePendingComponent(TheLayout(), old(pendingComponents), component)
    {
      var o := componentOrder[component];
      var nl := components[component];
      LinkSchedule.NeedWellDefined(TheLayout(), component);
      var count := 1;
      if |nl| != 1 {
        count := ComputeComponentCount(nl);
      }
      // Entries that waited already keep waiting.
      var kept := if o in pendingComponents then pendingComponents[o].entries else {};
      var members := set v | v in nl;
      pendingComponents := pendingComponents[o := LinkSchedule.PendingComponent(component, count, kept + members)];
    }

    method VisitEntry(index: int)
      requires LinkSchedule.LayoutOk(TheLayout())
      requires 0 <= index < |componentMap|
      modifies `pendingComponents, `finalLinkOrder
      ensures Now() == LinkSchedule.VisitEntry(TheLayout(), old(Now()), index)
    {
      finalLinkOrder := finalLinkOrder + [index];
      var completed := SeeEntry(index);
      // Only a completed component makes others pending.
      assert (pendingComponents, completed) == LinkSchedule.SeeEntry(TheLayout(), old(pendingComponents), index);
      hide LinkSchedule.SeeEntry, LinkSchedule.MakeAllPending;
      if completed {
        var component := componentMap[index];
        CgEdges(TheLayout(), component);
        MakeFollowersPending(component);
      }
    }

    /** The second half: all of them become pending, no matter whether partially seen already. */
    method MakeFollowersPending(component: int)
      requires LinkSchedule.LayoutOk(TheLayout()) && 0 <= component < |components|
      modifies `pendingComponents
      ensures pendingComponents ==
        LinkSchedule.MakeAllPending(TheLayout(), old(pendingComponents), componentGraph[component])
    {
      CgEdges(TheLayout(), component);
      var ol := componentGraph[component];
      for k := 0 to |ol|
        invariant pendingComponents == LinkSchedule.MakeAllPending(TheLayout(), old(pendingComponents), ol[..k])
      {
        assert ol[..k + 1][..k] == ol[..k];
        MakePendingComponent(ol[k].dest);
      }
      assert ol[..|ol|] == ol;
    }

    /** The first half of a visit: the entry's own component. */
    method SeeEntry(index: int) returns (completed: bool)
      requires LinkSchedule.LayoutOk(TheLayout())
      requires 0 <= index < |componentMap|
      modifies `pendingComponents
      ensures pendingComponents == LinkSchedule.SeeEntry(TheLayout(), old(pendingComponents), index).0
      ensures completed == LinkSchedule.SeeEntry(TheLayout(), old(pendingComponents), index).1
    {
      completed := false;
      var component := componentMap[index];
      var o := componentOrder[component];
      if o in pendingComponents {
        completed := SeePending(index);
      } else if |components[component]| > 1 {
        // A cycle begins: its component becomes pending, with this entry seen.
        MakePendingComponent(component);
        var pc := pendingComponents[o];
        pendingComponents := pendingComponents[o := pc.(entries := pc.entries - {index})];
      } else {
        completed := true;
      }
    }

    /** An entry of a component that is pending already: the pass goes on, or a new one begins, or it was the last. */
    method SeePending(index: int) returns (completed: bool)
      requires LinkSchedule.LayoutOk(TheLayout())
      requires 0 <= index < |componentMap| && componentOrder[componentMap[index]] in pendingComponents
      modifies `pendingComponents
      ensures pendingComponents == LinkSchedule.SeeEntry(TheLayout(), old(pendingComponents), index).0
      ensures completed == LinkSchedule.SeeEntry(TheLayout(), old(pendingComponents), index).1
    {
      completed := false;
      var component := componentMap[index];
      var o := componentOrder[component];
      var pc := pendingComponents[o];
      pc := pc.(entries := pc.entries - {index});
      pendingComponents := pendingComponents[o := pc];
      if pc.entries == {} {
        pc := pc.(count := pc.count - 1);
        if pc.count == 0 {
          UpdateRemoved(old(pendingComponents), o, pendingComponents[o]);
          pendingComponents := pendingComponents - {o};
          completed := true;
        } else {
          var members := set v | v in components[component];
          assert members == LinkSchedule.Members(TheLayout(), component);
          pc := pc.(entries := pc.entries + members);
          UpdateTwice(old(pendingComponents), o, pendingComponents[o], pc);
          pendingComponents := pendingComponents[o := pc];
        }
      }
    }

    // ---- the whole ordering ----

    method OrderLinkEntires()
      requires WellFormed(entryConstraintGraph) && |multiplicity| == |entryConstraintGraph|
      requires forall k :: 0 <= k < |originalEntries| ==> 0 <= originalEntries[k] < |entryConstraintGraph|
      requires pendingComponents == map[] && finalLinkOrder == []
      modifies this
      ensures LayoutFor(entryConstraintGraph, TheLayout()) && LineOk(TheLayout(), finalLinkOrder)
      ensures pendingComponents == map[] && Now() == Emit(TheLayout(), finalLinkOrder)
      ensures originalEntries <= finalLinkOrder && Draining(TheLayout(), |originalEntries|, Now())
      ensures DrainRun(TheLayout(), |originalEntries|, finalLinkOrder)
      ensures SafeLine(entryConstraintGraph, finalLinkOrder)
      ensures OnLine(entryConstraintGraph, originalEntries, finalLinkOrder)
      ensures EdgeOrderKept(entryConstraintGraph, originalEntries, finalLinkOrder)
      ensures EntryOrderKept(entryConstraintGraph, originalEntries, finalLinkOrder)
    {
      DecomposeGraph();
      OrderComponents();
      ghost var l := TheLayout();
      SizesOf(entryConstraintGraph, l);
      hide *;

      EmitOriginal(l);
      EmitInvariant(l, finalLinkOrder);
      DrainBegins(l, Now());
      RunBegins(l, finalLinkOrder);
      Drain(|originalEntries|);
      CompletedLineSafe(entryConstraintGraph, l, finalLinkOrder);
      DrainingSorted(l, |originalEntries|, Now());
      EdgesOnLine(entryConstraintGraph, l, originalEntries, finalLinkOrder);
      EntriesOnLine(entryConstraintGraph, l, originalEntries, finalLinkOrder);
      AllOnLine(entryConstraintGraph, l, originalEntries, finalLinkOrder);
    }

    /** The entries that the target links directly are emitted first, as they were given. */
    method EmitOriginal(ghost l: LinkSchedule.Layout)
      requires LinkSchedule.LayoutOk(l) && l == TheLayout() && pendingComponents == map[] && finalLinkOrder == []
      requires |l.comp| == |entryConstraintGraph|
      requires forall k :: 0 <= k < |originalEntries| ==> 0 <= originalEntries[k] < |entryConstraintGraph|
      modifies `pendingComponents, `finalLinkOrder
      ensures finalLinkOrder == originalEntries && LineOk(l, finalLinkOrder) && Now() == Emit(l, finalLinkOrder)
    {
      hide LinkSchedule.LayoutOk, LinkSchedule.PendingOk, LinkSchedule.VisitEntry, Emit;
      EmitNothing(l);
      for k := 0 to |originalEntries|
        invariant TheLayout() == l
        invariant finalLinkOrder == originalEntries[..k] && LineOk(l, finalLinkOrder)
        invariant Now() == Emit(l, finalLinkOrder)
      {
        EmitInvariant(l, originalEntries[..k]);
        EmitOne(l, originalEntries[..k], originalEntries[k]);
        VisitEntry(originalEntries[k]);
        EmitInvariant(l, originalEntries[..k] + [originalEntries[k]]);
        assert originalEntries[..k + 1] == originalEntries[..k] + [originalEntries[k]];
      }
      assert originalEntries[..|originalEntries|] == originalEntries;
    }

    method DecomposeGraph()
      requires WellFormed(entryConstraintGraph)
      modifies `componentMap, `components, `componentGraph
      ensures Decomposition(entryConstraintGraph, componentMap, components)
      ensures IsComponentGraph(entryConstraintGraph, componentMap, components, componentGraph)
      ensures N.EarlierNodeFirst(entryConstraintGraph, componentMap)
    {
      var ccg := new ComputeComponentGraph(entryConstraintGraph);
      ccg.Compute();
      componentMap, components, componentGraph := ccg.tarjanComponents, ccg.components, ccg.componentGraph;
    }

    /** A depth-first search from every component numbers them topologically. */
    method OrderComponents()
      requires Decomposition(entryConstraintGraph, componentMap, components)
      requires IsComponentGraph(entryConstraintGraph, componentMap, components, componentGraph)
      requires |multiplicity| == |entryConstraintGraph|
      modifies `componentVisited, `componentOrder, `componentOrderId, `finished
      ensures LayoutFor(entryConstraintGraph, TheLayout())
      ensures P.LaterNodeLast(componentGraph, componentOrder) && P.LaterEdgeLast(componentGraph, componentOrder)
    {
      ghost var g := entryConstraintGraph;
      ComponentGraphWellFormed(g, componentMap, components, componentGraph);
      AllDescend(g, componentMap, components, componentGraph);
      hide Decomposition, IsComponentGraph, HasEdge, Numbering, Descending, P.HandedOut, P.SearchedDownTo;
      hide P.LaterNodeLast, P.LaterEdgeLast;
      var n := |componentGraph|;
      componentVisited := seq(n, _ => false);
      componentOrder := seq(n, _ => n);
      componentOrderId, finished := n, [];
      NumberingBegins(componentGraph, componentVisited, componentOrder);
      P.NoneHandedOut(componentOrder);
      P.SearchBegins(componentGraph, componentVisited);
      NumberAll();
      NumberingDone(componentGraph, componentVisited, componentOrder, componentOrderId);
      P.SearchDone(componentGraph, componentVisited, componentOrder, componentOrderId, finished);
      MakeLayout(g, TheLayout());
    }

    method NumberAll()
      requires Descending(componentGraph) && |componentOrder| == |componentGraph|
      requires Numbering(componentGraph, componentVisited, componentOrder, componentOrderId, {})
      requires P.HandedOut(componentOrder, componentOrderId, finished)
      requires P.SearchedDownTo(componentGraph, componentVisited, finished, |componentGraph|)
      modifies `componentVisited, `componentOrder, `componentOrderId, `finished
      ensures Numbering(componentGraph, componentVisited, componentOrder, componentOrderId, {})
      ensures |componentOrder| == |componentGraph|
      ensures forall d :: 0 <= d < |componentGraph| ==> componentOrder[d] < |componentGraph|
      ensures P.HandedOut(componentOrder, componentOrderId, finished)
      ensures P.SearchedDownTo(componentGraph, componentVisited, finished, 0)
    {
      hide HasEdge, Numbering, Descending, P.HandedOut, P.Searched, P.SearchedDownTo;
      var n := |componentGraph|;
      var c := n;
      while c > 0
        invariant 0 <= c <= n && |componentOrder| == n
        invariant Numbering(componentGraph, componentVisited, componentOrder, componentOrderId, {})
        invariant forall d :: c <= d < n ==> componentOrder[d] < n
        invariant P.HandedOut(componentOrder, componentOrderId, finished)
        invariant P.SearchedDownTo(componentGraph, componentVisited, finished, c)
      {
        c := c - 1;
        ghost var visited, before := componentVisited, finished;
        VisitComponent(c, {});
        P.SearchGoesOn(componentGraph, visited, componentVisited, before, finished, c);
      }
    }

    /** Explore anything left pending, always from the first pending component. */
    method Drain(ghost start: int)
      requires LinkSchedule.LayoutOk(TheLayout()) && LineOk(TheLayout(), finalLinkOrder)
      requires Now() == Emit(TheLayout(), finalLinkOrder) && Draining(TheLayout(), start, Now())
      requires DrainRun(TheLayout(), start, finalLinkOrder)
      modifies `pendingComponents, `finalLinkOrder
      ensures pendingComponents == map[] && LineOk(TheLayout(), finalLinkOrder)
      ensures Now() == Emit(TheLayout(), finalLinkOrder) && Draining(TheLayout(), start, Now())
      ensures DrainRun(TheLayout(), start, finalLinkOrder)
      ensures old(finalLinkOrder) <= finalLinkOrder
    {
      ghost var l := TheLayout();
      hide LinkSchedule.LayoutOk, LinkSchedule.PendingOk, LinkSchedule.VisitEntry;
      hide TailBelow, TailSorted, RepeatsBounded, Emit, DrainRun;
      while pendingComponents != map[]
        invariant TheLayout() == l && LineOk(l, finalLinkOrder)
        invariant Now() == Emit(l, finalLinkOrder) && Draining(l, start, Now())
        invariant DrainRun(l, start, finalLinkOrder)
        invariant old(finalLinkOrder) <= finalLinkOrder
        decreases |l.cg| - FirstOrder(l, pendingComponents),
                  CountAt(pendingComponents, FirstOrder(l, pendingComponents)),
                  LeftAt(pendingComponents, FirstOrder(l, pendingComponents))
      {
        SomeFirst(pendingComponents);
        var o :| o in pendingComponents && IsFirst(pendingComponents, o);
        FirstEntries(l, pendingComponents, o);
        var e :| e in pendingComponents[o].entries && IsLeast(pendingComponents[o].entries, e);
        DrainDecreases(l, Now(), o, e);
        DrainKept(l, start, Now(), o, e);
        TakesNext(pendingComponents, o, e);
        RunMore(l, start, finalLinkOrder, e);
        EmitOne(l, finalLinkOrder, e);
        EmitInvariant(l, finalLinkOrder + [e]);
        VisitEntry(e);
      }
    }

    /** The final entries: explicit objects in front, then the line, each shared library once, at its last place. */
    method FinalEntries(objectEntries: seq<int>, isShared: seq<bool>) returns (final: seq<int>)
      ensures final == objectEntries + KeepLast(finalLinkOrder, isShared)
    {
      // Backwards, so that the occurrence met first is the one to keep.
      var emitted: set<int> := {};
      var backwards: seq<int> := [];
      var k := |finalLinkOrder|;
      while k > 0
        invariant 0 <= k <= |finalLinkOrder|
        invariant backwards == Reverse(KeepLast(finalLinkOrder[k..], isShared))
        invariant forall x :: x in emitted <==> Shared(isShared, x) && x in finalLinkOrder[k..]
      {
        k := k - 1;
        var i := finalLinkOrder[k];
        assert finalLinkOrder[k..] == [i] + finalLinkOrder[k + 1..];
        assert finalLinkOrder[k..][1..] == finalLinkOrder[k + 1..];
        // The linker will look into a shared library again by itself.
        var uniquify := Shared(isShared, i);
        if !uniquify || i !in emitted {
          ReverseCons(i, KeepLast(finalLinkOrder[k + 1..], isShared));
          backwards := backwards + [i];
        }
        if uniquify {
          emitted := emitted + {i};
        }
      }
      assert finalLinkOrder[0..] == finalLinkOrder;
      // Objects come before all libraries; everything is reversed at the end.
      ReverseAppend(objectEntries, KeepLast(finalLinkOrder, isShared));
      backwards := backwards + Reverse(objectEntries);
      ReverseTwice(objectEntries + KeepLast(finalLinkOrder, isShared));
      final := Reverse(backwards);
    }

    /** The finished link line keeps the order of the unfiltered one and holds the same entries.
        It keeps the passes over a cycle unless several entries are in it and one of them is shared. */
    method Compute(objectEntries: seq<int>, isShared: seq<bool>) returns (final: seq<int>)
      requires WellFormed(entryConstraintGraph) && |multiplicity| == |entryConstraintGraph|
      requires forall k :: 0 <= k < |originalEntries| ==> 0 <= originalEntries[k] < |entryConstraintGraph|
      requires pendingComponents == map[] && finalLinkOrder == []
      modifies this
      ensures LayoutFor(entryConstraintGraph, TheLayout()) && LineOk(TheLayout(), finalLinkOrder)
      ensures originalEntries <= finalLinkOrder && DrainRun(TheLayout(), |originalEntries|, finalLinkOrder)
      ensures final == objectEntries + KeepLast(finalLinkOrder, isShared)
      ensures SafeLine(entryConstraintGraph, KeepLast(finalLinkOrder, isShared))
      ensures OnLine(entryConstraintGraph, originalEntries, KeepLast(finalLinkOrder, isShared))
      ensures PassesExact(entryConstraintGraph, multiplicity, KeepLast(finalLinkOrder, isShared), isShared)
      ensures EdgeOrderKept(entryConstraintGraph, originalEntries, KeepLast(finalLinkOrder, isShared))
      ensures EntryOrderKept(entryConstraintGraph, originalEntries, KeepLast(finalLinkOrder, isShared))
      ensures RepeatsLimited(entryConstraintGraph, multiplicity, originalEntries, KeepLast(finalLinkOrder, isShared))
      ensures SharedOnce(originalEntries, KeepLast(finalLinkOrder, isShared), isShared)
      ensures CyclesAscend(entryConstraintGraph, originalEntries, KeepLast(finalLinkOrder, isShared), isShared)
    {
      OrderLinkEntires();
      final := FinalEntries(objectEntries, isShared);
      hide *;
      KeepLastSafe(entryConstraintGraph, finalLinkOrder, isShared);
      StaysOnLine(entryConstraintGraph, originalEntries, finalLinkOrder, isShared);
      FinishedPasses(entryConstraintGraph, TheLayout(), finalLinkOrder, isShared);
      OrderStays(entryConstraintGraph, originalEntries, finalLinkOrder, isShared);
      FinishedLimited(entryConstraintGraph, TheLayout(), originalEntries, finalLinkOrder, isShared);
      FinishedOnce(originalEntries, finalLinkOrder, isShared);
      CyclesOnLine(entryConstraintGraph, TheLayout(), originalEntries, finalLinkOrder, isShared);
    }
  }

  /** On the line are exactly the entries that can be reached from an original one. */
  ghost predicate OnLine(g: Graph, original: seq<int>, line: seq<int>) {
    forall x :: x in line <==> FromRoots(g, original, x)
  }

  lemma AllOnLine(g: Graph, l: LinkSchedule.Layout, original: seq<int>, line: seq<int>)
    requires LayoutFor(g, l) && LineOk(l, line) && original <= line && DrainRun(l, |original|, line)
    requires Emit(l, line).pending == map[]
    ensures OnLine(g, original, line)
  {
    forall x ensures x in line <==> FromRoots(g, original, x) {
      OnLineExact(g, l, original, line, x);
    }
  }

  lemma StaysOnLine(g: Graph, original: seq<int>, line: seq<int>, isShared: seq<bool>)
    requires OnLine(g, original, line)
    ensures OnLine(g, original, KeepLast(line, isShared))
  {
    forall x ensures x in KeepLast(line, isShared) <==> FromRoots(g, original, x) {
      KeepLastSame(line, isShared, x);
    }
  }

  lemma DrainingSorted(l: LinkSchedule.Layout, start: int, s: LinkSchedule.Schedule)
    requires LinkSchedule.LayoutOk(l) && Draining(l, start, s)
    ensures LineOk(l, s.line) && TailSorted(l, start, s.line)
  {
  }

  /** An entry stands on the line at most once for each time it is linked directly and each pass asked for. */
  ghost predicate RepeatsLimited(g: Graph, multiplicity: seq<nat>, original: seq<int>, line: seq<int>) {
    forall x, need :: Node(g, x) && IsNeed(g, multiplicity, x, need) ==>
      multiset(line)[x] <= multiset(original)[x] + need
  }

  lemma {:induction false} FinishedLimited(g: Graph, l: LinkSchedule.Layout, original: seq<int>, line: seq<int>,
                                           shared: seq<bool>)
    requires LayoutFor(g, l) && Draining(l, |original|, LinkSchedule.Schedule(map[], line)) && original <= line
    ensures RepeatsLimited(g, l.multiplicity, original, KeepLast(line, shared))
  {
    hide LinkSchedule.LayoutOk, IsNeed, IsComponentGraph, Decomposition, LinkSchedule.Need;
    forall x, need | Node(g, x) && IsNeed(g, l.multiplicity, x, need)
      ensures multiset(KeepLast(line, shared))[x] <= multiset(original)[x] + need
    {
      NeedExact(g, l, x, need);
      KeepLastCount(line, shared, x);
      assert line == original + line[|original|..];
      CountAppend(original, line[|original|..], x);
      assert Tail(line, |original|) == line[|original|..];
    }
  }

  /** A shared entry stands on the line at most once, any other at least as often as it is linked directly. */
  ghost predicate SharedOnce(original: seq<int>, line: seq<int>, shared: seq<bool>) {
    forall x :: if Shared(shared, x) then multiset(line)[x] <= 1 else multiset(original)[x] <= multiset(line)[x]
  }

  lemma {:induction false} FinishedOnce(original: seq<int>, line: seq<int>, shared: seq<bool>)
    requires original <= line
    ensures SharedOnce(original, KeepLast(line, shared), shared)
  {
    forall x ensures if Shared(shared, x) then multiset(KeepLast(line, shared))[x] <= 1
                     else multiset(original)[x] <= multiset(KeepLast(line, shared))[x]
    {
      KeepLastCount(line, shared, x);
      CountAppend(original, line[|original|..], x);
      assert line == original + line[|original|..];
      assert x !in line ==> multiset(line)[x] == 0;
      hide KeepLast;
    }
  }

  lemma TakesNext(pending: LinkSchedule.Pending, o: int, e: int)
    requires IsFirst(pending, o) && IsLeast(pending[o].entries, e)
    ensures NextEntry(pending, e)
  {
  }

  lemma FirstEntries(l: LinkSchedule.Layout, pending: LinkSchedule.Pending, o: int)
    requires LinkSchedule.LayoutOk(l) && LinkSchedule.PendingOk(l, pending) && o in pending
    ensures exists e :: IsLeast(pending[o].entries, e)
  {
    assert LinkSchedule.PendingOkAt(l, o, pending[o]);
    SomeLeastEntry(pending[o].entries);
  }

  lemma SizesOf(g: Graph, l: LinkSchedule.Layout)
    requires LayoutFor(g, l)
    ensures |l.comp| == |g|
  {
  }

  lemma AllDescend(g: Graph, comp: seq<int>, components: seq<NodeList>, cg: Graph)
    requires Decomposition(g, comp, components) && IsComponentGraph(g, comp, components, cg)
    ensures Descending(cg)
  {
    forall c, d | HasEdge(cg, c, d) ensures 0 <= d < c < |cg| {
      ComponentsDescend(g, comp, components, cg, c, d);
    }
  }

  lemma MakeLayout(g: Graph, l: LinkSchedule.Layout)
    requires Decomposition(g, l.comp, l.components) && IsComponentGraph(g, l.comp, l.components, l.cg)
    requires WellFormed(l.cg) && LinkSchedule.TopologicalOrder(l.cg, l.order) && |l.multiplicity| == |g|
    ensures LayoutFor(g, l)
  {
  }
}
