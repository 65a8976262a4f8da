/** Side effects of targets: what they are, how merging passes them on, and which of them arrive. */
module SideEffects {
  import opened Graphs

  /** Targets whose custom commands, or whose generated sources by language, have effects elsewhere. */
  datatype SideEffect = SideEffect(customCommand: set<int>, language: map<string, set<int>>)

  datatype Effect = Custom(target: int) | Language(lang: string, target: int)

  predicate Has(se: SideEffect, e: Effect) {
    match e
    case Custom(t) => t in se.customCommand
    case Language(l, t) => l in se.language && t in se.language[l]
  }

  function MergeLanguages(a: map<string, set<int>>, b: map<string, set<int>>): map<string, set<int>> {
    map l | l in a.Keys + b.Keys :: (if l in a then a[l] else {}) + (if l in b then b[l] else {})
  }

  function Union(a: SideEffect, b: SideEffect): SideEffect {
    SideEffect(a.customCommand + b.customCommand, MergeLanguages(a.language, b.language))
  }

  lemma UnionHas(a: SideEffect, b: SideEffect, e: Effect)
    ensures Has(Union(a, b), e) <==> Has(a, e) || Has(b, e)
  {
  }

  // ---- what should be collected ----

  /** Some target reachable from i has the effect itself. */
  ghost predicate Expected(g: Graph, own: seq<SideEffect>, i: int, e: Effect) {
    exists j :: 0 <= j < |own| && Reach(g, i, j) && Has(own[j], e)
  }

  ghost predicate SoundAt(g: Graph, own: seq<SideEffect>, se: seq<SideEffect>, i: int) {
    forall e :: 0 <= i < |se| && Has(se[i], e) ==> Expected(g, own, i, e)
  }

  ghost predicate CompleteAt(g: Graph, own: seq<SideEffect>, se: seq<SideEffect>, i: int) {
    0 <= i < |se| && forall e :: Expected(g, own, i, e) ==> Has(se[i], e)
  }

  // ---- merges, one after another ----

  /** The effects known for one target are added to those of another. */
  datatype Merge = Merge(into: int, from: int)

  ghost predicate InRange(ms: seq<Merge>, n: int) {
    forall k :: 0 <= k < |ms| ==> 0 <= ms[k].into < n && 0 <= ms[k].from < n
  }

  /** What every target has after the merges, beginning with its own effects. */
  ghost function Fold(own: seq<SideEffect>, ms: seq<Merge>): (r: seq<SideEffect>)
    requires InRange(ms, |own|)
    ensures |r| == |own|
  {
    if |ms| == 0 then own
    else
      var f := Fold(own, ms[..|ms| - 1]);
      var m := ms[|ms| - 1];
      f[m.into := Union(f[m.into], f[m.from])]
  }

  /** What target j has itself arrives at target i. */
  ghost predicate Flows(ms: seq<Merge>, i: int, j: int) {
    if |ms| == 0 then i == j
    else
      var init, m := ms[..|ms| - 1], ms[|ms| - 1];
      Flows(init, i, j) || (m.into == i && Flows(init, m.from, j))
  }

  ghost predicate Arrives(own: seq<SideEffect>, ms: seq<Merge>, i: int, e: Effect) {
    exists j :: 0 <= j < |own| && Flows(ms, i, j) && Has(own[j], e)
  }

  /** A target has an effect after the merges iff the effect has arrived from a target that has it itself. */
  lemma {:induction false} FoldExact(own: seq<SideEffect>, ms: seq<Merge>, i: int, e: Effect)
    requires InRange(ms, |own|) && 0 <= i < |own|
    ensures Has(Fold(own, ms)[i], e) <==> Arrives(own, ms, i, e)
  {
    if |ms| == 0 {
      assert Has(own[i], e) ==> Flows(ms, i, i);
    } else {
      var init, m := ms[..|ms| - 1], ms[|ms| - 1];
      var f := Fold(own, init);
      FoldExact(own, init, i, e);
      FoldExact(own, init, m.from, e);
      UnionHas(f[m.into], f[m.from], e);
      hide Fold, Has;
      if Arrives(own, init, i, e) {
        var j :| 0 <= j < |own| && Flows(init, i, j) && Has(own[j], e);
        assert Flows(ms, i, j);
      }
      if m.into == i && Arrives(own, init, m.from, e) {
        var j :| 0 <= j < |own| && Flows(init, m.from, j) && Has(own[j], e);
        assert Flows(ms, i, j);
      }
    }
  }

  /** Places ts of the merges, ever earlier ones, lead from i to j. */
  ghost predicate DecreasingWalk(ms: seq<Merge>, ts: seq<int>, i: int, j: int) {
    if |ts| == 0 then i == j
    else
      && 0 <= ts[0] < |ms| && ms[ts[0]].into == i && (|ts| > 1 ==> ts[1] < ts[0])
      && DecreasingWalk(ms, ts[1..], ms[ts[0]].from, j)
  }

  lemma {:induction false} WalkWithin(ms: seq<Merge>, ts: seq<int>, i: int, j: int, n: nat)
    requires n <= |ms| && (|ts| > 0 ==> ts[0] < n)
    ensures DecreasingWalk(ms, ts, i, j) <==> DecreasingWalk(ms[..n], ts, i, j)
  {
    if |ts| > 0 && 0 <= ts[0] && (|ts| > 1 ==> ts[1] < ts[0]) {
      WalkWithin(ms, ts[1..], ms[ts[0]].from, j, n);
    }
  }

  ghost predicate LeadsBack(ms: seq<Merge>, i: int, j: int) {
    exists ts: seq<int> :: DecreasingWalk(ms, ts, i, j)
  }

  /** Effects of j arrive at i iff merges lead from i to j in decreasing order of time. */
  lemma FlowsExact(ms: seq<Merge>, i: int, j: int)
    ensures Flows(ms, i, j) <==> LeadsBack(ms, i, j)
  {
    if Flows(ms, i, j) {
      var ts := FlowsAlong(ms, i, j);
      hide DecreasingWalk;
      assert LeadsBack(ms, i, j);
    }
    if LeadsBack(ms, i, j) {
      var ts: seq<int> :| DecreasingWalk(ms, ts, i, j);
      WalkFlows(ms, ts, i, j);
    }
  }

  lemma {:induction false} FlowsAlong(ms: seq<Merge>, i: int, j: int) returns (ts: seq<int>)
    requires Flows(ms, i, j)
    ensures DecreasingWalk(ms, ts, i, j) && (|ts| > 0 ==> ts[0] < |ms|)
  {
    ts := [];
    if |ms| > 0 {
      var n := |ms| - 1;
      if Flows(ms[..n], i, j) {
        ts := FlowsAlong(ms[..n], i, j);
        WalkWithin(ms, ts, i, j, n);
      } else {
        var rest := FlowsAlong(ms[..n], ms[n].from, j);
        WalkWithin(ms, rest, ms[n].from, j, n);
        ts := [n] + rest;
        assert ts[1..] == rest;
      }
    }
  }

  lemma {:induction false} WalkFlows(ms: seq<Merge>, ts: seq<int>, i: int, j: int)
    requires DecreasingWalk(ms, ts, i, j)
    ensures Flows(ms, i, j)
    decreases |ms|
  {
    if |ts| == 0 {
      FlowsSelf(ms, i);
    } else {
      var n := |ms| - 1;
      if ts[0] == n {
        WalkWithin(ms, ts[1..], ms[n].from, j, n);
        WalkFlows(ms[..n], ts[1..], ms[n].from, j);
      } else {
        WalkWithin(ms, ts, i, j, n);
        WalkFlows(ms[..n], ts, i, j);
      }
    }
  }

  lemma {:induction false} FlowsSelf(ms: seq<Merge>, i: int)
    ensures Flows(ms, i, i)
  {
    if |ms| > 0 {
      FlowsSelf(ms[..|ms| - 1], i);
    }
  }

  lemma FlowsMore(ms: seq<Merge>, m: Merge, i: int, j: int)
    ensures Flows(ms + [m], i, j) <==> Flows(ms, i, j) || (m.into == i && Flows(ms, m.from, j))
  {
    assert (ms + [m])[..|ms|] == ms;
  }

  // ---- the order of the merges, which depends on the graph alone ----

  /** How far a depth-first collection has come: the targets visited and the merges made. */
  datatype Trace = Trace(visited: set<int>, merges: seq<Merge>)

  ghost predicate TraceOk(g: Graph, t: Trace) {
    && WellFormed(g) && t.visited <= Nodes(g)
    && forall k :: 0 <= k < |t.merges| ==>
         t.merges[k].into in t.visited && t.merges[k].from in t.visited &&
           HasEdge(g, t.merges[k].into, t.merges[k].from)
  }

  ghost function Visit(g: Graph, t: Trace, i: int): (r: Trace)
    requires TraceOk(g, t) && Node(g, i)
    ensures TraceOk(g, r) && t.visited <= r.visited && i in r.visited
    decreases Nodes(g) - t.visited, 0, 0
  {
    if i in t.visited then t else Scan(g, t.(visited := t.visited + {i}), i, 0)
  }

  /** The edges of i from number k on: each target is visited, then merged into i. */
  ghost function Scan(g: Graph, t: Trace, i: int, k: nat): (r: Trace)
    requires TraceOk(g, t) && Node(g, i) && i in t.visited && k <= |g[i]|
    ensures TraceOk(g, r) && t.visited <= r.visited
    decreases Nodes(g) - t.visited, 1, |g[i]| - k
  {
    if k == |g[i]| then t
    else
      var d := g[i][k].dest;
      assert HasEdge(g, i, d);
      Scan(g, Merged(Visit(g, t, d), i, d), i, k + 1)
  }

  function Merged(t: Trace, i: int, d: int): Trace {
    t.(merges := t.merges + [Merge(i, d)])
  }

  ghost function Collect(g: Graph, n: nat): (r: Trace)
    requires WellFormed(g) && n <= |g|
    ensures TraceOk(g, r) && forall j :: 0 <= j < n ==> j in r.visited
  {
    if n == 0 then Trace({}, []) else Visit(g, Collect(g, n - 1), n - 1)
  }

  ghost function MergeOrder(g: Graph): (ms: seq<Merge>)
    requires WellFormed(g)
    ensures InRange(ms, |g|)
  {
    Collect(g, |g|).merges
  }

  /** What the collection is to arrive at. */
  ghost function Collected(g: Graph, own: seq<SideEffect>): seq<SideEffect>
    requires WellFormed(g) && |own| == |g|
  {
    Fold(own, MergeOrder(g))
  }

  // ---- what arrives is what can be reached, as far as the order of the merges allows ----

  lemma {:induction false} FlowsReach(g: Graph, ms: seq<Merge>, i: int, j: int)
    requires Flows(ms, i, j) && forall k :: 0 <= k < |ms| ==> HasEdge(g, ms[k].into, ms[k].from)
    ensures Reach(g, i, j)
  {
    if |ms| == 0 {
      ReachRefl(g, i);
    } else {
      var init, m := ms[..|ms| - 1], ms[|ms| - 1];
      if Flows(init, i, j) {
        FlowsReach(g, init, i, j);
      } else {
        FlowsReach(g, init, m.from, j);
        ReachEdge(g, i, m.from);
        ReachTrans(g, i, m.from, j);
      }
    }
  }

  /** Everything reachable from i arrives at i. */
  ghost predicate FlowsAll(g: Graph, ms: seq<Merge>, i: int) {
    forall j :: Reach(g, i, j) ==> Flows(ms, i, j)
  }

  /** Exactly what is collected, for every graph and all own effects. */
  lemma CollectedExact(g: Graph, own: seq<SideEffect>, i: int, e: Effect)
    requires WellFormed(g) && |own| == |g| && Node(g, i)
    ensures Has(Collected(g, own)[i], e) <==> Arrives(own, MergeOrder(g), i, e)
  {
    FoldExact(own, MergeOrder(g), i, e);
  }

  /** Nothing is collected that should not be. */
  lemma CollectedSound(g: Graph, own: seq<SideEffect>, i: int)
    requires WellFormed(g) && |own| == |g|
    ensures SoundAt(g, own, Collected(g, own), i)
  {
    forall e | 0 <= i < |g| && Has(Collected(g, own)[i], e) ensures Expected(g, own, i, e) {
      assert Node(g, i);
      CollectedExact(g, own, i, e);
      var j :| 0 <= j < |own| && Flows(MergeOrder(g), i, j) && Has(own[j], e);
      hide Flows;
      FlowsReach(g, MergeOrder(g), i, j);
    }
  }

  /** Each target has one custom command and nothing else. */
  ghost function Singletons(n: nat): (own: seq<SideEffect>)
    ensures |own| == n && forall j :: 0 <= j < n ==> own[j] == SideEffect({j}, map[])
  {
    seq(n, j => SideEffect({j}, map[]))
  }

  /** Nothing is missed at i, whatever effects the targets have. */
  ghost predicate AlwaysComplete(g: Graph, i: int)
    requires WellFormed(g)
  {
    forall own: seq<SideEffect> :: |own| == |g| ==> CompleteAt(g, own, Collected(g, own), i)
  }

  /** A condition on the graph alone says when the collection misses nothing at a target. */
  lemma CompleteExact(g: Graph, i: int)
    requires WellFormed(g) && Node(g, i)
    ensures AlwaysComplete(g, i) <==> FlowsAll(g, MergeOrder(g), i)
  {
    hide FlowsAll, AlwaysComplete, MergeOrder;
    if FlowsAll(g, MergeOrder(g), i) {
      FlowingComplete(g, i);
    }
    if AlwaysComplete(g, i) {
      CompleteFlowing(g, i);
    }
  }

  lemma FlowingComplete(g: Graph, i: int)
    requires WellFormed(g) && Node(g, i) && FlowsAll(g, MergeOrder(g), i)
    ensures AlwaysComplete(g, i)
  {
    hide FlowsAll, Collected, MergeOrder, CompleteAt;
    forall own: seq<SideEffect> | |own| == |g| ensures CompleteAt(g, own, Collected(g, own), i) {
      FlowsComplete(g, own, i);
    }
  }

  lemma CompleteFlowing(g: Graph, i: int)
    requires WellFormed(g) && Node(g, i) && AlwaysComplete(g, i)
    ensures FlowsAll(g, MergeOrder(g), i)
  {
    hide Flows, Collected, MergeOrder, CompleteAt, Reach;
    assert CompleteAt(g, Singletons(|g|), Collected(g, Singletons(|g|)), i);
    forall j | Reach(g, i, j) ensures Flows(MergeOrder(g), i, j) {
      ReachNode(g, i, j);
      CompleteFlows(g, i, j);
    }
  }

  lemma FlowsComplete(g: Graph, own: seq<SideEffect>, i: int)
    requires WellFormed(g) && |own| == |g| && Node(g, i) && FlowsAll(g, MergeOrder(g), i)
    ensures CompleteAt(g, own, Collected(g, own), i)
  {
    forall e | Expected(g, own, i, e) ensures Has(Collected(g, own)[i], e) {
      CollectedExact(g, own, i, e);
      hide Flows, Collected;
    }
  }

  lemma CompleteFlows(g: Graph, i: int, j: int)
    requires WellFormed(g) && Node(g, i) && Node(g, j) && Reach(g, i, j)
    requires CompleteAt(g, Singletons(|g|), Collected(g, Singletons(|g|)), i)
    ensures Flows(MergeOrder(g), i, j)
  {
    var own := Singletons(|g|);
    hide Flows, Collected, MergeOrder;
    assert Has(own[j], Custom(j));
    assert Expected(g, own, i, Custom(j));
    CollectedExact(g, own, i, Custom(j));
    var k :| 0 <= k < |own| && Flows(MergeOrder(g), i, k) && Has(own[k], Custom(j));
    assert k == j;
  }

  // ---- without cycles nothing is missed ----

  /** No two different targets reachable from i depend on each other. */
  ghost predicate Simple(g: Graph, i: int) {
    forall j, k :: Reach(g, i, j) && Mutual(g, j, k) ==> j == k
  }

  lemma SimpleStep(g: Graph, i: int, d: int)
    requires Simple(g, i) && HasEdge(g, i, d)
    ensures Simple(g, d)
  {
    forall j, k | Reach(g, d, j) && Mutual(g, j, k) ensures j == k {
      ReachEdge(g, i, d);
      ReachTrans(g, i, d, j);
    }
  }

  /** To get somewhere else, one must take an edge that leads somewhere else. */
  lemma {:induction false} LeavingWalk(g: Graph, p: seq<int>, v: int) returns (w: int)
    requires IsWalk(g, p) && p[|p| - 1] == v && p[0] != v
    ensures w != p[0] && HasEdge(g, p[0], w) && Reach(g, w, v)
    decreases |p|
  {
    WalkTail(g, p);
    if p[1] == p[0] {
      w := LeavingWalk(g, p[1..], v);
    } else {
      w := p[1];
      assert p[1..][|p| - 2] == v;
    }
  }

  lemma LeavingEdge(g: Graph, u: int, v: int) returns (w: int)
    requires Reach(g, u, v) && u != v
    ensures w != u && HasEdge(g, u, w) && Reach(g, w, v)
  {
    var p :| IsWalk(g, p) && p[0] == u && p[|p| - 1] == v;
    w := LeavingWalk(g, p, v);
  }

  /** What is visited and not in progress misses nothing, unless it reaches a cycle. */
  ghost predicate Finished(g: Graph, t: Trace, busy: set<int>) {
    forall j :: j in t.visited && j !in busy && Simple(g, j) ==> FlowsAll(g, t.merges, j)
  }

  ghost predicate AllReach(g: Graph, busy: set<int>, i: int) {
    forall b :: b in busy ==> Reach(g, b, i)
  }

  /** The first k edges of i have been merged, each with all that its target reaches. */
  ghost predicate Scanned(g: Graph, ms: seq<Merge>, i: int, k: int)
    requires 0 <= i < |g| && k <= |g[i]|
  {
    forall m :: 0 <= m < k ==> PassedOn(g, ms, i, g[i][m].dest)
  }

  ghost predicate PassedOn(g: Graph, ms: seq<Merge>, i: int, d: int) {
    d == i || forall j :: Reach(g, d, j) ==> Flows(ms, i, j)
  }

  lemma FinishedMore(g: Graph, t: Trace, busy: set<int>, i: int, d: int)
    requires Finished(g, t, busy)
    ensures Finished(g, Merged(t, i, d), busy)
  {
    hide Flows, Simple;
    forall j, x | FlowsAll(g, t.merges, j) && Reach(g, j, x) ensures Flows(Merged(t, i, d).merges, j, x) {
      FlowsMore(t.merges, Merge(i, d), j, x);
    }
  }

  lemma ScannedKept(g: Graph, ms: seq<Merge>, ms': seq<Merge>, i: int, k: int)
    requires 0 <= i < |g| && k <= |g[i]| && Scanned(g, ms, i, k) && ms <= ms'
    ensures Scanned(g, ms', i, k)
  {
    hide Flows;
    forall m, j | 0 <= m < k && g[i][m].dest != i && Reach(g, g[i][m].dest, j) ensures Flows(ms', i, j) {
      assert PassedOn(g, ms, i, g[i][m].dest);
      FlowsKept(ms, ms', i, j);
    }
  }

  lemma {:induction false} FlowsKept(ms: seq<Merge>, ms': seq<Merge>, i: int, j: int)
    requires Flows(ms, i, j) && ms <= ms'
    ensures Flows(ms', i, j)
    decreases |ms'|
  {
    if |ms| < |ms'| {
      FlowsKept(ms, ms'[..|ms'| - 1], i, j);
    } else {
      assert ms == ms';
    }
  }

  lemma {:induction false} VisitKeeps(g: Graph, t: Trace, i: int)
    requires TraceOk(g, t) && Node(g, i)
    ensures t.merges <= Visit(g, t, i).merges
    decreases Nodes(g) - t.visited, 0, 0
  {
    if i !in t.visited {
      ScanKeeps(g, t.(visited := t.visited + {i}), i, 0);
    }
  }

  lemma {:induction false} ScanKeeps(g: Graph, t: Trace, i: int, k: nat)
    requires TraceOk(g, t) && Node(g, i) && i in t.visited && k <= |g[i]|
    ensures t.merges <= Scan(g, t, i, k).merges
    decreases Nodes(g) - t.visited, 1, |g[i]| - k
  {
    if k < |g[i]| {
      var d := g[i][k].dest;
      assert HasEdge(g, i, d);
      VisitKeeps(g, t, d);
      ScanKeeps(g, Merged(Visit(g, t, d), i, d), i, k + 1);
    }
  }

  lemma NotBusy(g: Graph, busy: set<int>, i: int, d: int)
    requires Simple(g, i) && AllReach(g, busy, i) && HasEdge(g, i, d) && d != i
    ensures d !in busy
  {
    ReachRefl(g, i);
    ReachEdge(g, i, d);
    assert Mutual(g, i, d) <==> Reach(g, i, d) && Reach(g, d, i);
  }

  /** Target d has been visited for i, and is now merged into it. */
  lemma PassOn(g: Graph, t: Trace, busy: set<int>, i: int, k: int)
    requires TraceOk(g, t) && Node(g, i) && 0 <= k < |g[i]| && Simple(g, i) && AllReach(g, busy, i)
    requires Finished(g, t, busy) && g[i][k].dest in t.visited
    ensures PassedOn(g, Merged(t, i, g[i][k].dest).merges, i, g[i][k].dest)
  {
    hide Flows;
    var d := g[i][k].dest;
    assert HasEdge(g, i, d);
    if d != i {
      NotBusy(g, busy, i, d);
      SimpleStep(g, i, d);
      hide Simple;
      forall j | Reach(g, d, j) ensures Flows(Merged(t, i, d).merges, i, j) {
        FlowsMore(t.merges, Merge(i, d), i, j);
      }
    }
  }

  lemma {:induction false} VisitFinished(g: Graph, t: Trace, busy: set<int>, i: int)
    requires TraceOk(g, t) && Node(g, i) && Finished(g, t, busy) && AllReach(g, busy, i)
    ensures Finished(g, Visit(g, t, i), busy)
    decreases Nodes(g) - t.visited, 0, 0
  {
    if i !in t.visited {
      var entered := t.(visited := t.visited + {i});
      BusyMore(g, busy, i);
      hide Simple, FlowsAll, Reach;
      ScanFinished(g, entered, busy + {i}, i, 0);
      LeaveFinished(g, Scan(g, entered, i, 0), busy, i);
    }
  }

  lemma {:induction false} ScanFinished(g: Graph, t: Trace, busy: set<int>, i: int, k: nat)
    requires TraceOk(g, t) && Node(g, i) && i in t.visited && i in busy && k <= |g[i]|
    requires Finished(g, t, busy) && AllReach(g, busy, i) && (Simple(g, i) ==> Scanned(g, t.merges, i, k))
    ensures Finished(g, Scan(g, t, i, k), busy)
    ensures Simple(g, i) ==> Scanned(g, Scan(g, t, i, k).merges, i, |g[i]|)
    decreases Nodes(g) - t.visited, 1, |g[i]| - k
  {
    if k < |g[i]| {
      var d := g[i][k].dest;
      BusyReach(g, busy, i, k);
      hide Simple, FlowsAll, Reach, PassedOn;
      VisitFinished(g, t, busy, d);
      var v := Visit(g, t, d);
      FinishedMore(g, v, busy, i, d);
      if Simple(g, i) {
        VisitKeeps(g, t, d);
        ScannedKept(g, t.merges, Merged(v, i, d).merges, i, k);
        PassOn(g, v, busy, i, k);
      }
      ScanFinished(g, Merged(v, i, d), busy, i, k + 1);
    }
  }

  lemma LeaveFinished(g: Graph, t: Trace, busy: set<int>, i: int)
    requires Node(g, i) && Finished(g, t, busy + {i}) && (Simple(g, i) ==> Scanned(g, t.merges, i, |g[i]|))
    ensures Finished(g, t, busy)
  {
    hide Flows;
    if Simple(g, i) {
      hide Simple;
      forall j | Reach(g, i, j) ensures Flows(t.merges, i, j) {
        if j == i {
          FlowsSelf(t.merges, i);
        } else {
          var d := LeavingEdge(g, i, j);
          var m :| 0 <= m < |g[i]| && g[i][m].dest == d;
          assert PassedOn(g, t.merges, i, g[i][m].dest);
        }
      }
    }
    assert forall j :: j in t.visited && j !in busy ==> j == i || j !in busy + {i};
  }

  lemma BusyMore(g: Graph, busy: set<int>, i: int)
    requires AllReach(g, busy, i)
    ensures AllReach(g, busy + {i}, i)
  {
    ReachRefl(g, i);
  }

  lemma BusyReach(g: Graph, busy: set<int>, i: int, k: int)
    requires WellFormed(g) && Node(g, i) && AllReach(g, busy, i) && 0 <= k < |g[i]|
    ensures HasEdge(g, i, g[i][k].dest) && Node(g, g[i][k].dest) && AllReach(g, busy, g[i][k].dest)
  {
    var d := g[i][k].dest;
    assert HasEdge(g, i, d);
    ReachEdge(g, i, d);
    forall b | b in busy ensures Reach(g, b, d) {
      ReachTrans(g, b, i, d);
    }
  }

  lemma {:induction false} CollectFinished(g: Graph, n: nat)
    requires WellFormed(g) && n <= |g|
    ensures Finished(g, Collect(g, n), {})
  {
    hide Visit, FlowsAll, Simple;
    if n > 0 {
      CollectFinished(g, n - 1);
      VisitFinished(g, Collect(g, n - 1), {}, n - 1);
    }
  }

  /** Where no cycle of different targets can be reached, everything arrives. */
  lemma SimpleFlows(g: Graph, i: int)
    requires WellFormed(g) && Node(g, i) && Simple(g, i)
    ensures FlowsAll(g, MergeOrder(g), i)
  {
    CollectFinished(g, |g|);
  }

  // ---- cycles: some hide effects, others do not ----

  /** Targets 0 and 1 depend on each other, and 0 on 2 as well. */
  function Looped(): Graph {
    [[Edge(1, false, false), Edge(2, false, false)], [Edge(0, false, false)], []]
  }

  function LoopedMerges(): seq<Merge> {
    [Merge(1, 0), Merge(0, 1), Merge(0, 2)]
  }

  lemma LoopedVisit(t0: Trace)
    requires t0 == Trace({} + {0}, [])
    ensures WellFormed(Looped()) && TraceOk(Looped(), t0)
    ensures Visit(Looped(), t0, 1) == Trace({} + {0} + {1}, [] + [Merge(1, 0)])
  {
    var g: Graph := Looped();
    var t1 := Trace({} + {0} + {1}, []);
    assert HasEdge(g, 1, g[1][0].dest);
    // Target 0 is still in progress when its effects are merged.
    var t2 := Merged(t1, 1, 0);
    assert Scan(g, t1, 1, 0) == Scan(g, t2, 1, 1) == t2;
  }

  lemma LoopedScan(t0: Trace)
    requires t0 == Trace({} + {0}, [])
    ensures WellFormed(Looped()) && TraceOk(Looped(), t0)
    ensures Scan(Looped(), t0, 0, 0) == Trace({0, 1, 2}, LoopedMerges())
  {
    var g: Graph := Looped();
    LoopedVisit(t0);
    assert HasEdge(g, 0, g[0][0].dest) && HasEdge(g, 0, g[0][1].dest) && HasEdge(g, 1, g[1][0].dest);
    var t3 := Trace({} + {0} + {1}, [] + [Merge(1, 0)] + [Merge(0, 1)]);
    var t4 := t3.(visited := t3.visited + {2});
    assert Visit(g, t3, 2) == Scan(g, t4, 2, 0) == t4;
    var t5 := Merged(t4, 0, 2);
    assert Scan(g, t0, 0, 0) == Scan(g, t3, 0, 1) == Scan(g, t5, 0, 2) == t5;
    assert t5.visited == {0, 1, 2} && t5.merges == LoopedMerges();
  }

  lemma LoopedOrder()
    ensures WellFormed(Looped()) && MergeOrder(Looped()) == LoopedMerges()
  {
    var g: Graph := Looped();
    var t := Trace({0, 1, 2}, LoopedMerges());
    LoopedScan(Trace({} + {0}, []));
    hide Scan;
    assert Collect(g, 0) == Trace({}, []);
    assert Collect(g, 1) == Visit(g, Trace({}, []), 0) == t;
    assert Collect(g, 2) == Visit(g, t, 1) == t;
    assert Collect(g, 3) == Visit(g, t, 2) == t;
  }

  lemma LoopedFlows()
    ensures !Flows(LoopedMerges(), 1, 2)
  {
    var ms := LoopedMerges();
    var two, one := [Merge(1, 0), Merge(0, 1)], [Merge(1, 0)];
    assert one[..0] == [] && two[..1] == one && ms[..2] == two;
    assert !Flows([], 1, 2) && !Flows([], 0, 2);
    assert !Flows(one, 1, 2);
    assert !Flows(two, 1, 2);
  }

  /** With cycles effects can be missed: here target 1 reaches target 2, but gets none of its effects. */
  lemma CycleMisses()
    ensures WellFormed(Looped()) && Reach(Looped(), 1, 2)
    ensures !Flows(MergeOrder(Looped()), 1, 2) && !AlwaysComplete(Looped(), 1)
  {
    var g: Graph := Looped();
    LoopedOrder();
    LoopedFlows();
    assert HasEdge(g, 1, g[1][0].dest) && HasEdge(g, 0, g[0][1].dest);
    ReachEdge(g, 1, 0);
    ReachEdge(g, 0, 2);
    ReachTrans(g, 1, 0, 2);
    hide Reach, Flows, MergeOrder, AlwaysComplete;
    CompleteExact(g, 1);
  }

  /** Targets 0 and 1 depend on each other, and on nothing else. */
  function Pair(): Graph {
    [[Edge(1, false, false)], [Edge(0, false, false)]]
  }

  lemma PairOrder()
    ensures WellFormed(Pair()) && MergeOrder(Pair()) == [Merge(1, 0), Merge(0, 1)]
  {
    var g: Graph := Pair();
    var t0 := Trace({} + {0}, []);
    var t1 := Trace({} + {0} + {1}, []);
    assert HasEdge(g, 0, g[0][0].dest) && HasEdge(g, 1, g[1][0].dest);
    var t2 := Merged(t1, 1, 0);
    assert Visit(g, t0, 1) == Scan(g, t1, 1, 0) == Scan(g, t2, 1, 1) == t2;
    var t3 := Merged(t2, 0, 1);
    assert Scan(g, t0, 0, 0) == Scan(g, t3, 0, 1) == t3;
    assert Collect(g, 0) == Trace({}, []);
    assert Collect(g, 1) == Visit(g, Trace({}, []), 0) == t3;
    assert t3.visited == {0, 1};
    assert Collect(g, 2) == t3;
  }

  /** A cycle need not hide anything: two targets that depend on each other get all effects. */
  lemma PairComplete()
    ensures WellFormed(Pair()) && AlwaysComplete(Pair(), 0) && AlwaysComplete(Pair(), 1)
    ensures !Simple(Pair(), 0) && !Simple(Pair(), 1)
  {
    var g: Graph := Pair();
    PairOrder();
    var ms := MergeOrder(g);
    var one := ms[..1];
    assert one == [Merge(1, 0)] && one[..0] == [];
    assert Flows(one, 0, 0) && Flows(one, 1, 1) && Flows(one, 1, 0);
    assert HasEdge(g, 0, g[0][0].dest) && HasEdge(g, 1, g[1][0].dest);
    ReachEdge(g, 0, 1);
    ReachEdge(g, 1, 0);
    forall i, j | 0 <= i < 2 && Reach(g, i, j) ensures Flows(ms, i, j) {
      assert Node(g, i);
      ReachNode(g, i, j);
    }
    ReachRefl(g, 0);
    ReachRefl(g, 1);
    assert Mutual(g, 0, 1) && Mutual(g, 1, 0);
    CompleteExact(g, 0);
    CompleteExact(g, 1);
  }
}
