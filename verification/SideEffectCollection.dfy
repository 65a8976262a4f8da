/** The collection of side effects as the source does it, in place and depth first. */
module SideEffectCollection {
  import opened Graphs
  import opened SideEffects
  import opened SideEffectOrder

  /** What the targets have at some point: nothing yet, or their own effects and what has been merged into them. */
  ghost function Current(own: seq<SideEffect>, t: Trace): (r: seq<SideEffect>)
    requires InRange(t.merges, |own|)
    ensures |r| == |own|
  {
    seq(|own|, j requires 0 <= j < |own| => if j in t.visited then Fold(own, t.merges)[j] else SideEffect({}, map[]))
  }

  lemma {:induction false} FoldOwn(own: seq<SideEffect>, ms: seq<Merge>, i: int)
    requires InRange(ms, |own|) && 0 <= i < |own| && forall k :: 0 <= k < |ms| ==> ms[k].into != i
    ensures Fold(own, ms)[i] == own[i]
  {
    if |ms| > 0 {
      FoldOwn(own, ms[..|ms| - 1], i);
    }
  }

  /** A target that is entered gets its own effects. */
  lemma CurrentEntered(g: Graph, own: seq<SideEffect>, t: Trace, i: int)
    requires TraceOk(g, t) && |own| == |g| && Node(g, i) && i !in t.visited && InRange(t.merges, |g|)
    ensures Current(own, t)[i := Union(Current(own, t)[i], own[i])] == Current(own, t.(visited := t.visited + {i}))
  {
    FoldOwn(own, t.merges, i);
    EmptyUnion(own[i]);
  }

  lemma EmptyUnion(se: SideEffect)
    ensures Union(SideEffect({}, map[]), se) == se
  {
    var none: map<string, set<int>> := map[];
    var merged := MergeLanguages(none, se.language);
    assert merged.Keys == se.language.Keys;
    assert forall l :: l in se.language ==> merged[l] == se.language[l];
    assert merged == se.language;
  }

  lemma CurrentMerged(g: Graph, own: seq<SideEffect>, t: Trace, i: int, d: int)
    requires TraceOk(g, t) && |own| == |g| && i in t.visited && d in t.visited && HasEdge(g, i, d)
    ensures InRange(t.merges, |g|) && InRange(Merged(t, i, d).merges, |g|) && Node(g, i) && Node(g, d)
    ensures Current(own, t)[i := Union(Current(own, t)[i], Current(own, t)[d])] == Current(own, Merged(t, i, d))
  {
    assert Merged(t, i, d).merges[..|t.merges|] == t.merges;
    hide Union;
  }

  lemma CurrentDone(g: Graph, own: seq<SideEffect>)
    requires WellFormed(g) && |own| == |g|
    ensures Current(own, Collect(g, |g|)) == Collected(g, own)
  {
  }

  /** Nothing is missed at a target that leads to nothing an earlier one leads to, nor at one that an edge of it leads
      to if neither it nor an earlier edge leads to anything that one leads to. */
  ghost predicate FirstOnesComplete(g: Graph, own: seq<SideEffect>, se: seq<SideEffect>)
    requires WellFormed(g)
  {
    && (forall i :: Node(g, i) && NoneBefore(g, i) ==> CompleteAt(g, own, se, i))
    && forall i, k :: Node(g, i) && 0 <= k < |g[i]| && NoneBefore(g, i) && NoneBeforeEdge(g, i, k) ==>
         CompleteAt(g, own, se, g[i][k].dest)
  }

  lemma {:induction false} FirstOnes(g: Graph, own: seq<SideEffect>)
    requires WellFormed(g) && |own| == |g|
    ensures FirstOnesComplete(g, own, Collected(g, own))
  {
    hide CompleteAt, Collected, NoneBefore, NoneBeforeEdge;
    forall i | Node(g, i) && NoneBefore(g, i) ensures CompleteAt(g, own, Collected(g, own), i) {
      FirstComplete(g, i);
    }
    forall i, k | Node(g, i) && 0 <= k < |g[i]| && NoneBefore(g, i) && NoneBeforeEdge(g, i, k)
      ensures CompleteAt(g, own, Collected(g, own), g[i][k].dest)
    {
      FirstEdgesComplete(g, i, k);
    }
  }

  class CollectTargetSideEffects {
    const initialGraph: Graph
    const own: seq<SideEffect>
    var sideEffects: seq<SideEffect>

    constructor (g: Graph, own: seq<SideEffect>)
      ensures initialGraph == g && this.own == own
    {
      initialGraph := g;
      this.own := own;
      sideEffects := [];
    }

    method CollectSideEffects()
      requires WellFormed(initialGraph) && |own| == |initialGraph|
      modifies `sideEffects
      ensures sideEffects == Collected(initialGraph, own)
      ensures forall i, e :: Node(initialGraph, i) ==>
                (Has(sideEffects[i], e) <==> Arrives(own, MergeOrder(initialGraph), i, e))
      ensures FirstOnesComplete(initialGraph, own, sideEffects)
    {
      sideEffects := seq(|initialGraph|, _ => SideEffect({}, map[]));
      var visited: set<int> := {};
      assert sideEffects == Current(own, Collect(initialGraph, 0));
      for i := 0 to |initialGraph|
        invariant visited == Collect(initialGraph, i).visited
        invariant InRange(Collect(initialGraph, i).merges, |own|)
        invariant sideEffects == Current(own, Collect(initialGraph, i))
      {
        assert Node(initialGraph, i);
        ghost var t := Collect(initialGraph, i);
        hide Current, Visit;
        visited := CollectSideEffectsForTarget(visited, i, t);
        assert Collect(initialGraph, i + 1) == Visit(initialGraph, t, i);
      }
      CurrentDone(initialGraph, own);
      FirstOnes(initialGraph, own);
      hide Collected, Current, Has, Arrives;
      forall i, e | Node(initialGraph, i)
        ensures Has(sideEffects[i], e) <==> Arrives(own, MergeOrder(initialGraph), i, e)
      {
        CollectedExact(initialGraph, own, i, e);
      }
    }

    method CollectSideEffectsForTarget(visited: set<int>, dependerIndex: int, ghost t: Trace)
      returns (visited': set<int>)
      requires TraceOk(initialGraph, t) && InRange(t.merges, |own|) && |own| == |initialGraph|
      requires visited == t.visited && sideEffects == Current(own, t) && Node(initialGraph, dependerIndex)
      modifies `sideEffects
      ensures visited' == Visit(initialGraph, t, dependerIndex).visited
      ensures InRange(Visit(initialGraph, t, dependerIndex).merges, |own|)
      ensures sideEffects == Current(own, Visit(initialGraph, t, dependerIndex))
      decreases Nodes(initialGraph) - visited
    {
      visited' := visited;
      if dependerIndex in visited {
        return;
      }
      ghost var g, i := initialGraph, dependerIndex;
      ghost var now := t.(visited := t.visited + {i});
      ghost var entered := now;
      CurrentEntered(g, own, t, i);
      visited' := visited' + {dependerIndex};
      sideEffects := sideEffects[dependerIndex := Union(sideEffects[dependerIndex], own[dependerIndex])];
      hide Current, Visit, Union;

      for k := 0 to |initialGraph[dependerIndex]|
        invariant TraceOk(g, now) && InRange(now.merges, |own|) && t.visited + {i} <= now.visited
        invariant visited' == now.visited && sideEffects == Current(own, now)
        invariant Scan(g, now, i, k) == Scan(g, entered, i, 0)
      {
        var edge := initialGraph[dependerIndex][k].dest;
        assert HasEdge(g, i, edge);
        assert Node(g, edge);
        ghost var v := Visit(g, now, edge);
        visited' := CollectSideEffectsForTarget(visited', edge, now);
        CurrentMerged(g, own, v, i, edge);
        sideEffects := sideEffects[dependerIndex := Union(sideEffects[dependerIndex], sideEffects[edge])];
        MergedOk(g, v, i, edge);
        now := Merged(v, i, edge);
      }
      VisitIsScan(g, t, i);
    }
  }

  lemma MergedOk(g: Graph, t: Trace, i: int, d: int)
    requires TraceOk(g, t) && i in t.visited && d in t.visited && HasEdge(g, i, d)
    ensures TraceOk(g, Merged(t, i, d))
  {
  }

  lemma VisitIsScan(g: Graph, t: Trace, i: int)
    requires TraceOk(g, t) && Node(g, i) && i !in t.visited
    ensures TraceOk(g, t.(visited := t.visited + {i}))
    ensures Visit(g, t, i) == Scan(g, t.(visited := t.visited + {i}), i, 0)
  {
  }
}
