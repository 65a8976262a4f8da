/** What the order of the collection is good for: the targets that come first miss nothing, with cycles or without. */
module SideEffectOrder {
  import opened Graphs
  import opened SideEffects

  /** Edges lead only to targets visited. */
  ghost predicate ClosedIn(g: Graph, news: set<int>, visited: set<int>) {
    forall u, v :: u in news && HasEdge(g, u, v) ==> v in visited
  }

  /** Since t, only targets that i reaches have been visited, and what they have has arrived at i. */
  ghost predicate ArrivedSince(g: Graph, t: Trace, r: Trace, i: int) {
    forall x :: x in r.visited && x !in t.visited ==> Reach(g, i, x) && Flows(r.merges, i, x)
  }

  lemma {:induction false} VisitArrives(g: Graph, t: Trace, i: int)
    requires TraceOk(g, t) && Node(g, i)
    ensures ArrivedSince(g, t, Visit(g, t, i), i)
    ensures ClosedIn(g, Visit(g, t, i).visited - t.visited, Visit(g, t, i).visited)
    decreases Nodes(g) - t.visited, 0, 0
  {
    if i !in t.visited {
      var entered := t.(visited := t.visited + {i});
      ReachRefl(g, i);
      FlowsSelf(t.merges, i);
      hide Flows, Reach, HasEdge;
      ScanArrives(g, t, entered, i, 0);
    }
  }

  lemma {:induction false} ScanArrives(g: Graph, t: Trace, now: Trace, i: int, k: nat)
    requires TraceOk(g, t) && TraceOk(g, now) && Node(g, i) && i !in t.visited && k <= |g[i]|
    requires t.visited + {i} <= now.visited && ArrivedSince(g, t, now, i)
    requires ClosedIn(g, now.visited - t.visited - {i}, now.visited)
    requires forall m :: 0 <= m < k ==> g[i][m].dest in now.visited
    ensures ArrivedSince(g, t, Scan(g, now, i, k), i)
    ensures ClosedIn(g, Scan(g, now, i, k).visited - t.visited, Scan(g, now, i, k).visited)
    decreases Nodes(g) - now.visited, 1, |g[i]| - k
  {
    if k < |g[i]| {
      var d := g[i][k].dest;
      assert HasEdge(g, i, d);
      VisitArrives(g, now, d);
      VisitKeeps(g, now, d);
      hide Visit;
      PassedOver(g, t, now, Visit(g, now, d), i, d);
      hide Flows, Reach, HasEdge;
      ScanArrives(g, t, Merged(Visit(g, now, d), i, d), i, k + 1);
    } else {
      AllClosed(g, t, now, i);
    }
  }

  lemma {:induction false} AllClosed(g: Graph, t: Trace, now: Trace, i: int)
    requires Node(g, i) && ClosedIn(g, now.visited - t.visited - {i}, now.visited)
    requires forall m :: 0 <= m < |g[i]| ==> g[i][m].dest in now.visited
    ensures ClosedIn(g, now.visited - t.visited, now.visited)
  {
    var news := now.visited - t.visited;
    forall u, v | u in news && HasEdge(g, u, v) ensures v in now.visited {
      if u == i {
        var m :| 0 <= m < |g[i]| && g[i][m].dest == v;
      } else {
        assert u in news - {i};
      }
    }
  }

  /** Target d has been visited for i, and is merged into it. */
  lemma {:induction false} PassedOver(g: Graph, t: Trace, now: Trace, v: Trace, i: int, d: int)
    requires HasEdge(g, i, d) && now.visited <= v.visited && now.merges <= v.merges && i in now.visited
    requires ArrivedSince(g, t, now, i) && ArrivedSince(g, now, v, d)
    requires ClosedIn(g, now.visited - t.visited - {i}, now.visited)
    requires ClosedIn(g, v.visited - now.visited, v.visited)
    ensures ArrivedSince(g, t, Merged(v, i, d), i)
    ensures ClosedIn(g, v.visited - t.visited - {i}, v.visited)
  {
    ReachEdge(g, i, d);
    hide Flows, Reach, HasEdge;
    forall x | x in v.visited && x !in t.visited
      ensures Reach(g, i, x) && Flows(Merged(v, i, d).merges, i, x)
    {
      FlowsMore(v.merges, Merge(i, d), i, x);
      if x in now.visited {
        FlowsKept(now.merges, v.merges, i, x);
      } else {
        ReachTrans(g, i, d, x);
      }
    }
  }

  /** If nothing that i reaches has been visited before i, everything arrives at i. */
  lemma {:induction false} FreshArrives(g: Graph, t: Trace, i: int)
    requires TraceOk(g, t) && Node(g, i) && forall x :: Reach(g, i, x) ==> x !in t.visited
    ensures FlowsAll(g, Visit(g, t, i).merges, i)
  {
    var r := Visit(g, t, i);
    VisitArrives(g, t, i);
    ReachRefl(g, i);
    hide Visit, Flows;
    var news := r.visited - t.visited;
    forall u, v | u in news && HasEdge(g, u, v) ensures v in news {
      ReachEdge(g, u, v);
      ReachTrans(g, i, u, v);
    }
    assert Closed(g, news);
    forall x | Reach(g, i, x) ensures Flows(r.merges, i, x) {
      ReachStaysIn(g, news, i, x);
    }
  }

  lemma {:induction false} CollectReached(g: Graph, n: nat, x: int)
    requires WellFormed(g) && n <= |g| && x in Collect(g, n).visited
    ensures exists j :: 0 <= j < n && Reach(g, j, x)
  {
    if x in Collect(g, n - 1).visited {
      CollectReached(g, n - 1, x);
    } else {
      VisitArrives(g, Collect(g, n - 1), n - 1);
      assert Reach(g, n - 1, x);
    }
  }

  lemma {:induction false} CollectKeeps(g: Graph, n: nat, m: nat)
    requires WellFormed(g) && n <= m <= |g|
    ensures Collect(g, n).merges <= Collect(g, m).merges
    decreases m
  {
    if n < m {
      CollectKeeps(g, n, m - 1);
      VisitKeeps(g, Collect(g, m - 1), m - 1);
    }
  }

  lemma {:induction false} AllKept(g: Graph, ms: seq<Merge>, ms': seq<Merge>, i: int)
    requires FlowsAll(g, ms, i) && ms <= ms'
    ensures FlowsAll(g, ms', i)
  {
    hide Flows;
    forall x | Reach(g, i, x) ensures Flows(ms', i, x) {
      FlowsKept(ms, ms', i, x);
    }
  }

  /** No earlier target leads to anything that i leads to. */
  ghost predicate NoneBefore(g: Graph, i: int) {
    forall j, y :: 0 <= j < i && Reach(g, i, y) ==> !Reach(g, j, y)
  }

  /** A target misses nothing if no target before it leads to anything that it leads to: so the first never does. */
  lemma {:induction false} FirstComplete(g: Graph, i: int)
    requires WellFormed(g) && Node(g, i) && NoneBefore(g, i)
    ensures AlwaysComplete(g, i)
  {
    var t := Collect(g, i);
    forall x | Reach(g, i, x) ensures x !in t.visited {
      if x in t.visited {
        CollectReached(g, i, x);
      }
    }
    FreshArrives(g, t, i);
    CollectKeeps(g, i + 1, |g|);
    assert Collect(g, i + 1) == Visit(g, t, i);
    hide Visit, FlowsAll, AlwaysComplete;
    AllKept(g, Visit(g, t, i).merges, MergeOrder(g), i);
    CompleteExact(g, i);
  }

  // ---- the edges of a target in their order ----

  /** The scan of i after k of its edges. */
  ghost function Upto(g: Graph, t: Trace, i: int, k: nat): (r: Trace)
    requires TraceOk(g, t) && Node(g, i) && i in t.visited && k <= |g[i]|
    ensures TraceOk(g, r) && t.visited <= r.visited
  {
    if k == 0 then t
    else
      assert HasEdge(g, i, g[i][k - 1].dest);
      Merged(Visit(g, Upto(g, t, i, k - 1), g[i][k - 1].dest), i, g[i][k - 1].dest)
  }

  lemma {:induction false} ScanUpto(g: Graph, t: Trace, i: int, k: nat)
    requires TraceOk(g, t) && Node(g, i) && i in t.visited && k <= |g[i]|
    ensures Scan(g, t, i, 0) == Scan(g, Upto(g, t, i, k), i, k)
  {
    if k > 0 {
      ScanUpto(g, t, i, k - 1);
    }
  }

  lemma {:induction false} UptoReached(g: Graph, t: Trace, i: int, k: nat, x: int)
    requires TraceOk(g, t) && Node(g, i) && i in t.visited && k <= |g[i]| && x in Upto(g, t, i, k).visited
    ensures x in t.visited || exists m :: 0 <= m < k && Reach(g, g[i][m].dest, x)
  {
    if k > 0 {
      if x in Upto(g, t, i, k - 1).visited {
        UptoReached(g, t, i, k - 1, x);
      } else {
        VisitArrives(g, Upto(g, t, i, k - 1), g[i][k - 1].dest);
        assert Reach(g, g[i][k - 1].dest, x);
      }
    }
  }

  /** Neither i nor an earlier edge of it leads to anything that edge k leads to. */
  ghost predicate NoneBeforeEdge(g: Graph, i: int, k: int)
    requires Node(g, i) && 0 <= k < |g[i]|
  {
    forall y :: Reach(g, g[i][k].dest, y) ==> y != i && forall m :: 0 <= m < k ==> !Reach(g, g[i][m].dest, y)
  }

  /** The same for the targets that the edges of one target lead to. */
  lemma {:induction false} FirstEdgesComplete(g: Graph, i: int, k: int)
    requires WellFormed(g) && Node(g, i) && 0 <= k < |g[i]|
    requires NoneBefore(g, i) && NoneBeforeEdge(g, i, k)
    ensures Node(g, g[i][k].dest) && AlwaysComplete(g, g[i][k].dest)
  {
    var d := g[i][k].dest;
    var t := Collect(g, i);
    EdgeAt(g, i, k);
    ReachRefl(g, i);
    if i in t.visited {
      CollectReached(g, i, i);
    }
    var entered := t.(visited := t.visited + {i});
    var at := Upto(g, entered, i, k);
    forall x | Reach(g, d, x) ensures x !in at.visited {
      if x in at.visited {
        UptoReached(g, entered, i, k, x);
        NotVisited(g, i, d, x);
      }
    }
    FreshArrives(g, at, d);
    EdgeKept(g, t, i, k);
    hide Visit, FlowsAll, AlwaysComplete, Upto;
    AllKept(g, Visit(g, at, d).merges, MergeOrder(g), d);
    CompleteExact(g, d);
  }

  lemma {:induction false} NotVisited(g: Graph, i: int, d: int, x: int)
    requires WellFormed(g) && Node(g, i) && HasEdge(g, i, d) && Reach(g, d, x) && NoneBefore(g, i)
    ensures x !in Collect(g, i).visited
  {
    ReachEdge(g, i, d);
    ReachTrans(g, i, d, x);
    if x in Collect(g, i).visited {
      CollectReached(g, i, x);
    }
  }

  lemma {:induction false} EdgeKept(g: Graph, t: Trace, i: int, k: nat)
    requires WellFormed(g) && Node(g, i) && k < |g[i]| && t == Collect(g, i) && i !in t.visited
    ensures TraceOk(g, t.(visited := t.visited + {i})) && Node(g, g[i][k].dest)
    ensures Visit(g, Upto(g, t.(visited := t.visited + {i}), i, k), g[i][k].dest).merges <= MergeOrder(g)
  {
    var entered := t.(visited := t.visited + {i});
    var at := Upto(g, entered, i, k);
    var d := g[i][k].dest;
    assert HasEdge(g, i, d);
    assert Collect(g, i + 1) == Visit(g, t, i) == Scan(g, entered, i, 0);
    ScanUpto(g, entered, i, k);
    var v := Visit(g, at, d);
    assert Scan(g, at, i, k) == Scan(g, Merged(v, i, d), i, k + 1);
    hide Upto, Visit;
    ScanKeeps(g, Merged(v, i, d), i, k + 1);
    CollectKeeps(g, i + 1, |g|);
  }
}
