/** Complete runs of the scheduler: what is on the link line, and in which passes. */
module LinkRuns {
  import opened Collections
  import opened Graphs
  import opened TarjanWalk
  import opened ComponentGraph
  import opened ComponentTheory
  import opened LinkSchedule
  import opened LinkOrder
  import opened LinkDrain
  import opened LinkLine

  // ---- the runs of the drain loop ----

  /** e is the entry that the drain loop takes next: the least of the first pending component. */
  ghost predicate NextEntry(pending: Pending, e: int) {
    exists o :: IsFirst(pending, o) && IsLeast(pending[o].entries, e)
  }

  /** From position start on, every entry has been taken by the drain loop. */
  ghost predicate DrainRun(l: Layout, start: int, xs: seq<int>)
    requires LayoutOk(l) && LineOk(l, xs)
  {
    0 <= start <= |xs| && forall q :: start <= q < |xs| ==> NextAt(l, xs, q)
  }

  ghost predicate NextAt(l: Layout, xs: seq<int>, q: int)
    requires LayoutOk(l) && LineOk(l, xs) && 0 <= q < |xs|
  {
    NextEntry(Emit(l, xs[..q]).pending, xs[q])
  }

  lemma RunBegins(l: Layout, xs: seq<int>)
    requires LayoutOk(l) && LineOk(l, xs)
    ensures DrainRun(l, |xs|, xs)
  {
  }

  lemma RunMore(l: Layout, start: int, xs: seq<int>, e: int)
    requires LayoutOk(l) && LineOk(l, xs) && DrainRun(l, start, xs) && 0 <= e < |l.comp|
    requires NextEntry(Emit(l, xs).pending, e)
    ensures LineOk(l, xs + [e]) && DrainRun(l, start, xs + [e])
  {
    hide LayoutOk, Emit, NextEntry;
    var more := xs + [e];
    forall q | start <= q < |more| ensures NextAt(l, more, q) {
      if q < |xs| {
        assert NextAt(l, xs, q);
        assert more[..q] == xs[..q];
      } else {
        assert more[..q] == xs;
      }
    }
  }

  lemma RunShorter(l: Layout, start: int, xs: seq<int>)
    requires LayoutOk(l) && LineOk(l, xs) && DrainRun(l, start, xs) && start < |xs|
    ensures LineOk(l, xs[..|xs| - 1]) && DrainRun(l, start, xs[..|xs| - 1])
    ensures NextEntry(Emit(l, xs[..|xs| - 1]).pending, xs[|xs| - 1])
  {
    hide LayoutOk, Emit, NextEntry;
    var init := xs[..|xs| - 1];
    assert NextAt(l, xs, |xs| - 1);
    forall q | start <= q < |init| ensures NextAt(l, init, q) {
      assert NextAt(l, xs, q);
      assert init[..q] == xs[..q];
    }
  }

  /** An entry taken by the drain loop belongs to the first pending component. */
  lemma NextFacts(l: Layout, pending: Pending, e: int) returns (o: int)
    requires LayoutOk(l) && PendingOk(l, pending) && NextEntry(pending, e)
    ensures IsFirst(pending, o) && e in pending[o].entries && 0 <= e < |l.comp| && OrderOf(l, e) == o
  {
    o :| IsFirst(pending, o) && IsLeast(pending[o].entries, e);
    assert PendingOkAt(l, o, pending[o]);
    MemberOf(l, pending[o].id, e);
  }

  // ---- a component completes at most once while the loop runs ----

  /** The entry at position q completes its component. */
  ghost predicate Completes(l: Layout, xs: seq<int>, q: int)
    requires LayoutOk(l) && LineOk(l, xs) && 0 <= q < |xs|
  {
    SeeEntry(l, Emit(l, xs[..q]).pending, xs[q]).1
  }

  ghost predicate AllAbove(pending: Pending, o: int) {
    forall p :: p in pending ==> o < p
  }

  lemma EmitLast(l: Layout, xs: seq<int>)
    requires LayoutOk(l) && LineOk(l, xs) && |xs| > 0
    ensures LineOk(l, xs[..|xs| - 1]) && 0 <= xs[|xs| - 1] < |l.comp|
    ensures Emit(l, xs) == VisitEntry(l, Emit(l, xs[..|xs| - 1]), xs[|xs| - 1])
  {
  }

  /** One step of the drain: what was behind stays behind, and so does a component completed now. */
  lemma StepBehind(l: Layout, s: Schedule, e: int, b: int)
    requires LayoutOk(l) && PendingOk(l, s.pending) && NextEntry(s.pending, e) && 0 <= e < |l.comp|
    requires AllAbove(s.pending, b) || (b == OrderOf(l, e) && SeeEntry(l, s.pending, e).1)
    ensures AllAbove(VisitEntry(l, s, e).pending, b)
  {
    var o := NextFacts(l, s.pending, e);
    DrainForward(l, s, o, e);
  }

  /** After a completion at position q everything pending comes strictly later in the order. */
  lemma {:induction false} CompletedBehind(l: Layout, start: int, xs: seq<int>, q: int)
    requires LayoutOk(l) && LineOk(l, xs) && DrainRun(l, start, xs) && start <= q < |xs| && Completes(l, xs, q)
    ensures AllAbove(Emit(l, xs).pending, OrderOf(l, xs[q]))
    decreases |xs|, 1
  {
    if q == |xs| - 1 {
      CompletedNow(l, start, xs);
    } else {
      CompletedBefore(l, start, xs, q);
    }
  }

  lemma CompletedNow(l: Layout, start: int, xs: seq<int>)
    requires LayoutOk(l) && LineOk(l, xs) && DrainRun(l, start, xs) && start < |xs| && Completes(l, xs, |xs| - 1)
    ensures AllAbove(Emit(l, xs).pending, OrderOf(l, xs[|xs| - 1]))
  {
    var n := |xs| - 1;
    RunShorter(l, start, xs);
    EmitLast(l, xs);
    EmitInvariant(l, xs[..n]);
    hide LayoutOk, PendingOk, VisitEntry, SeeEntry, DrainRun, NextEntry, Emit, AllAbove;
    StepBehind(l, Emit(l, xs[..n]), xs[n], OrderOf(l, xs[n]));
  }

  lemma {:induction false} CompletedBefore(l: Layout, start: int, xs: seq<int>, q: int)
    requires LayoutOk(l) && LineOk(l, xs) && DrainRun(l, start, xs) && start <= q < |xs| - 1 && Completes(l, xs, q)
    ensures AllAbove(Emit(l, xs).pending, OrderOf(l, xs[q]))
    decreases |xs|, 0
  {
    var n := |xs| - 1;
    RunShorter(l, start, xs);
    EmitLast(l, xs);
    EmitInvariant(l, xs[..n]);
    StillCompletes(l, xs, q);
    hide *;
    CompletedBehind(l, start, xs[..n], q);
    StepBehind(l, Emit(l, xs[..n]), xs[n], OrderOf(l, xs[q]));
  }

  lemma StillCompletes(l: Layout, xs: seq<int>, q: int)
    requires LayoutOk(l) && LineOk(l, xs) && 0 <= q < |xs| - 1 && Completes(l, xs, q)
    ensures LineOk(l, xs[..|xs| - 1]) && Completes(l, xs[..|xs| - 1], q) && xs[..|xs| - 1][q] == xs[q]
  {
    assert xs[..|xs| - 1][..q] == xs[..q];
  }

  /** A component that has completed never occurs again: it completes at most once in the drained tail. */
  lemma CompletedOnce(l: Layout, start: int, xs: seq<int>, q: int, r: int)
    requires LayoutOk(l) && LineOk(l, xs) && DrainRun(l, start, xs) && start <= q < r < |xs| && Completes(l, xs, q)
    ensures l.comp[xs[r]] != l.comp[xs[q]]
  {
    var before := xs[..r];
    RunPrefix(l, start, xs, r);
    assert before[..q] == xs[..q];
    EmitInvariant(l, before);
    assert NextAt(l, xs, r);
    hide DrainRun;
    CompletedBehind(l, start, before, q);
    var o := NextFacts(l, Emit(l, before).pending, xs[r]);
  }

  lemma RunPrefix(l: Layout, start: int, xs: seq<int>, n: int)
    requires LayoutOk(l) && LineOk(l, xs) && DrainRun(l, start, xs) && start <= n <= |xs|
    ensures LineOk(l, xs[..n]) && DrainRun(l, start, xs[..n])
  {
    hide LayoutOk, Emit, NextEntry;
    var p := xs[..n];
    forall q | start <= q < |p| ensures NextAt(l, p, q) {
      assert NextAt(l, xs, q);
      assert p[..q] == xs[..q];
    }
  }

  // ---- the line holds exactly what can be reached from its original entries ----

  ghost predicate FromRoots(g: Graph, roots: seq<int>, x: int) {
    exists k :: 0 <= k < |roots| && Reach(g, roots[k], x)
  }

  lemma FromRootsOn(g: Graph, roots: seq<int>, x: int, y: int)
    requires FromRoots(g, roots, x) && Reach(g, x, y)
    ensures FromRoots(g, roots, y)
  {
    var k :| 0 <= k < |roots| && Reach(g, roots[k], x);
    ReachTrans(g, roots[k], x, y);
  }

  /** All entries emitted or waited for can be reached from the roots. */
  ghost predicate Traced(g: Graph, roots: seq<int>, s: Schedule) {
    && (forall q :: 0 <= q < |s.line| ==> FromRoots(g, roots, s.line[q]))
    && (forall o, v :: o in s.pending && v in s.pending[o].entries ==> FromRoots(g, roots, v))
  }

  /** Seeing an entry makes only members of its own component wait. */
  lemma SeenTraced(g: Graph, l: Layout, roots: seq<int>, s: Schedule, index: int, o: int, v: int)
    requires LayoutFor(g, l) && PendingOk(l, s.pending) && Traced(g, roots, s)
    requires 0 <= index < |l.comp| && FromRoots(g, roots, index)
    requires var m := SeeEntry(l, s.pending, index).0; o in m && v in m[o].entries
    ensures FromRoots(g, roots, v)
  {
    SeenEntry(l, s.pending, index);
    var m := SeeEntry(l, s.pending, index).0;
    if o == OrderOf(l, index) {
      OwnRecord(l, m, l.comp[index]);
      MemberOf(l, l.comp[index], v);
      hide LayoutOk, PendingOk, SeeEntry, FromRoots, IsComponentGraph;
      assert Node(g, index) && Node(g, v);
      SameComponent(g, l.comp, l.components, index, v);
      FromRootsOn(g, roots, index, v);
    }
  }

  /** An entry of a component that the completed one leads to. */
  lemma TargetTraced(g: Graph, l: Layout, roots: seq<int>, index: int, o: int, t: Pending, v: int)
    requires LayoutFor(g, l) && 0 <= index < |l.comp| && FromRoots(g, roots, index)
    requires Targeted(l, l.cg[l.comp[index]], o) && FreshAt(l, t, o) && v in t[o].entries
    ensures FromRoots(g, roots, v)
  {
    var c := l.comp[index];
    CgEdges(l, c);
    var k :| 0 <= k < |l.cg[c]| && 0 <= l.cg[c][k].dest < |l.order| && l.order[l.cg[c][k].dest] == o;
    var d := l.cg[c][k].dest;
    SameOrder(l, t[o].id, d);
    MemberOf(l, d, v);
    assert HasEdge(l.cg, c, d);
    ReachEdge(l.cg, c, d);
    hide LayoutOk, FromRoots, Reach, HasEdge;
    assert Node(g, index) && Node(g, v);
    ComponentReach(g, l.comp, l.components, l.cg, index, v);
    FromRootsOn(g, roots, index, v);
  }

  /** Everything that waits after a visit was made to wait by it, or belongs to its component, or waited before. */
  lemma WaitingTraced(g: Graph, l: Layout, roots: seq<int>, s: Schedule, index: int, o: int, v: int)
    requires LayoutFor(g, l) && PendingOk(l, s.pending) && Traced(g, roots, s)
    requires 0 <= index < |l.comp| && FromRoots(g, roots, index)
    requires var t := VisitEntry(l, s, index).pending; o in t && v in t[o].entries
    ensures FromRoots(g, roots, v)
  {
    var (m, completed) := SeeEntry(l, s.pending, index);
    SeenEntry(l, s.pending, index);
    CgEdges(l, l.comp[index]);
    AllMadePending(l, m, l.cg[l.comp[index]]);
    var t := VisitEntry(l, s, index).pending;
    hide PendingOk, SeeEntry, MakeAllPending, IsComponentGraph, Decomposition, FromRoots, Targeted, FreshAt;
    if completed && Targeted(l, l.cg[l.comp[index]], o) {
      TargetTraced(g, l, roots, index, o, t, v);
    } else {
      SeenTraced(g, l, roots, s, index, o, v);
    }
  }

  lemma VisitTraced(g: Graph, l: Layout, roots: seq<int>, s: Schedule, index: int)
    requires LayoutFor(g, l) && PendingOk(l, s.pending) && Traced(g, roots, s)
    requires 0 <= index < |l.comp| && FromRoots(g, roots, index)
    ensures Traced(g, roots, VisitEntry(l, s, index))
  {
    var t := VisitEntry(l, s, index);
    forall o, v | o in t.pending && v in t.pending[o].entries ensures FromRoots(g, roots, v) {
      WaitingTraced(g, l, roots, s, index, o, v);
    }
    assert t.line == s.line + [index];
  }

  /** Every run traces its entries back to where it started. */
  lemma {:induction false} RunTraced(g: Graph, l: Layout, roots: seq<int>, start: int, xs: seq<int>)
    requires LayoutFor(g, l) && LineOk(l, xs) && 0 <= start
    requires forall q :: 0 <= q < |xs| && q < start ==> xs[q] in roots
    requires start <= |xs| ==> DrainRun(l, start, xs)
    ensures Traced(g, roots, Emit(l, xs))
    decreases |xs|
  {
    if |xs| > 0 {
      var n := |xs| - 1;
      var init := xs[..n];
      var s := Emit(l, init);
      if start < |xs| {
        RunShorter(l, start, xs);
      }
      hide DrainRun, LayoutOk, Decomposition, IsComponentGraph;
      RunTraced(g, l, roots, start, init);
      EmitInvariant(l, init);
      if start < |xs| {
        var o := NextFacts(l, s.pending, xs[n]);
        assert FromRoots(g, roots, xs[n]);
      } else {
        assert xs[n] in roots;
        ReachRefl(g, xs[n]);
      }
      VisitTraced(g, l, roots, s, xs[n]);
    }
  }

  /** On a completed run with the given original entries: an entry is on the line iff one of these reaches it. */
  lemma OnLineExact(g: Graph, l: Layout, original: seq<int>, xs: seq<int>, x: int)
    requires LayoutFor(g, l) && LineOk(l, xs) && original <= xs && DrainRun(l, |original|, xs)
    requires Emit(l, xs).pending == map[]
    ensures x in xs <==> FromRoots(g, original, x)
  {
    if x in xs {
      RunTraced(g, l, original, |original|, xs);
      EmitInvariant(l, xs);
      var q :| 0 <= q < |xs| && xs[q] == x;
      hide LayoutOk, FromRoots, DrainRun;
      assert FromRoots(g, original, Emit(l, xs).line[q]);
    }
    if FromRoots(g, original, x) {
      var k :| 0 <= k < |original| && Reach(g, original[k], x);
      assert original[k] == xs[k];
      ReachedOnLine(g, l, xs, k, x);
    }
  }

  lemma ReachedOnLine(g: Graph, l: Layout, xs: seq<int>, k: int, x: int)
    requires LayoutFor(g, l) && LineOk(l, xs) && Emit(l, xs).pending == map[]
    requires 0 <= k < |xs| && Reach(g, xs[k], x)
    ensures x in xs
  {
    assert |l.comp| == |g|;
    assert Node(g, xs[k]);
    ReachNode(g, xs[k], x);
    if Reach(g, x, xs[k]) {
      CompletedLinePasses(g, l, xs, xs[k]);
      SameComponent(g, l.comp, l.components, xs[k], x);
      MemberOf(l, l.comp[xs[k]], x);
      NeedPositive(l, l.comp[xs[k]]);
      hide LayoutOk, Emit;
      var cut :| 0 <= cut <= |xs| && Covers(xs[cut..], Members(l, l.comp[xs[k]]));
      assert x in xs[cut..];
    } else {
      CompletedLineSafe(g, l, xs);
      assert MustFollow(g, xs[k], x);
    }
  }

  // ---- the passes on the finished line, exactly ----

  /** All entries in a cycle with x, and x itself. */
  ghost function Cycle(g: Graph, x: int): set<int> {
    set v | 0 <= v < |g| && Mutual(g, x, v)
  }

  /** How many passes over the cycle of x are asked for. */
  ghost predicate IsNeed(g: Graph, multiplicity: seq<nat>, x: int, need: int) {
    if Cycle(g, x) == {x} then need == 1
    else
      && need >= 2 && (forall v :: v in Cycle(g, x) && v < |multiplicity| ==> multiplicity[v] <= need)
      && (need == 2 || exists v :: v in Cycle(g, x) && v < |multiplicity| && multiplicity[v] == need)
  }

  /** There always is such a number. */
  lemma {:induction false} SomeNeed(g: Graph, multiplicity: seq<nat>, x: int) returns (need: int)
    ensures IsNeed(g, multiplicity, x, need)
  {
    if Cycle(g, x) == {x} {
      need := 1;
    } else {
      need := Largest(Cycle(g, x), multiplicity);
    }
  }

  lemma {:induction false} Largest(s: set<int>, multiplicity: seq<nat>) returns (m: int)
    requires forall v :: v in s ==> 0 <= v
    ensures m >= 2 && forall v :: v in s && v < |multiplicity| ==> multiplicity[v] <= m
    ensures m == 2 || exists v :: v in s && v < |multiplicity| && multiplicity[v] == m
    decreases s
  {
    m := 2;
    if s != {} {
      var x := SomeElement(s);
      m := Largest(s - {x}, multiplicity);
      if x < |multiplicity| && multiplicity[x] > m {
        m := multiplicity[x];
      }
    }
  }

  /** More passes include fewer. */
  lemma {:induction false} FewerPasses(line: seq<int>, m: set<int>, j: int, k: int)
    requires HasPasses(line, m, k) && j <= k
    ensures HasPasses(line, m, j)
    decreases k
  {
    if j > 0 {
      var cut := LastCut(line, m, k);
      FewerPasses(line[..cut], m, j - 1, k - 1);
    }
  }

  lemma MembersCycle(g: Graph, l: Layout, x: int)
    requires LayoutFor(g, l) && Node(g, x)
    ensures 0 <= x < |l.comp| && Members(l, l.comp[x]) == Cycle(g, x)
    ensures |l.components[l.comp[x]]| == 1 <==> Cycle(g, x) == {x}
  {
    var c := l.comp[x];
    var list := l.components[c];
    forall v ensures v in Members(l, c) <==> v in Cycle(g, x) {
      MemberOf(l, c, v);
      if Node(g, v) {
        SameComponent(g, l.comp, l.components, x, v);
      }
    }
    ReachRefl(g, x);
    assert ListOk(l.comp, list, c);
    hide LayoutOk, Reach, Decomposition, IsComponentGraph;
    assert x in list;
    if |list| == 1 {
      assert list == [list[0]];
    } else {
      assert list[0] in Members(l, c) && list[1] in Members(l, c) && list[0] != list[1];
    }
  }

  lemma NeedExact(g: Graph, l: Layout, x: int, need: int)
    requires LayoutFor(g, l) && Node(g, x)
    ensures 0 <= x < |l.comp| && (IsNeed(g, l.multiplicity, x, need) <==> need == Need(l, l.comp[x]))
  {
    MembersCycle(g, l, x);
    var c := l.comp[x];
    var list := l.components[c];
    NeedWellDefined(l, c);
    hide LayoutOk, Cycle, Decomposition, IsComponentGraph;
    if |list| != 1 {
      assert forall v :: v in Members(l, c) <==> v in list;
      var count := MaxMultiplicity(list, l.multiplicity, 2);
      assert forall k :: 0 <= k < |list| ==> list[k] in list;
    }
  }

  lemma {:induction false} PassesCount(line: seq<int>, m: set<int>, k: int, v: int)
    requires HasPasses(line, m, k) && v in m
    ensures multiset(line)[v] >= k
    decreases k
  {
    hide HasPasses;
    if k > 0 {
      var cut := LastCut(line, m, k);
      PassesCount(line[..cut], m, k - 1, v);
      OneMore(line, cut, v);
    }
  }

  lemma OneMore(line: seq<int>, cut: int, v: int)
    requires 0 <= cut <= |line| && v in line[cut..]
    ensures multiset(line)[v] >= multiset(line[..cut])[v] + 1
  {
    CountAppend(line[..cut], line[cut..], v);
    assert line == line[..cut] + line[cut..];
    assert v in multiset(line[cut..]);
  }

  lemma OnePass(line: seq<int>, x: int)
    requires x in line
    ensures HasPasses(line, {x}, 1)
  {
    assert line[0..] == line && line[..0] == [];
    assert Covers(line[0..], {x}) && HasPasses(line[..0], {x}, 0);
  }

  /** A cycle makes all its passes on the finished line iff it is trivial or none of its members is a shared library. */
  lemma FinishedExact(g: Graph, l: Layout, xs: seq<int>, shared: seq<bool>, x: int)
    requires LayoutFor(g, l) && LineOk(l, xs) && Emit(l, xs).pending == map[] && x in xs
    ensures HasPasses(KeepLast(xs, shared), Members(l, l.comp[x]), Need(l, l.comp[x])) <==>
            |l.components[l.comp[x]]| == 1 || forall v :: v in Members(l, l.comp[x]) ==> !Shared(shared, v)
  {
    var m, need := Members(l, l.comp[x]), Need(l, l.comp[x]);
    CompletedLinePasses(g, l, xs, x);
    NeedPositive(l, l.comp[x]);
    assert Node(g, x);
    MembersCycle(g, l, x);
    hide LayoutOk, Members, HasPasses, Decomposition, IsComponentGraph, Emit;
    if |l.components[l.comp[x]]| == 1 {
      KeepLastSame(xs, shared, x);
      OnePass(KeepLast(xs, shared), x);
    } else if forall v :: v in m ==> !Shared(shared, v) {
      KeepLastPasses(xs, shared, m, need);
    } else {
      var v :| v in m && Shared(shared, v);
      SharedLoses(KeepLast(xs, shared), xs, shared, m, need, v);
    }
  }

  lemma SharedLoses(kept: seq<int>, xs: seq<int>, shared: seq<bool>, m: set<int>, need: int, v: int)
    requires kept == KeepLast(xs, shared) && v in m && Shared(shared, v) && need >= 2
    ensures !HasPasses(kept, m, need)
  {
    KeepLastCount(xs, shared, v);
    hide KeepLast;
    assert v !in xs ==> multiset(xs)[v] == 0;
    if HasPasses(kept, m, need) {
      PassesCount(kept, m, need, v);
    }
  }

  /** The passes on a finished line, for every cycle that occurs on it. */
  ghost predicate PassesExact(g: Graph, multiplicity: seq<nat>, line: seq<int>, shared: seq<bool>) {
    forall x, need :: x in line && Node(g, x) && IsNeed(g, multiplicity, x, need) ==>
      (HasPasses(line, Cycle(g, x), need) <==>
       Cycle(g, x) == {x} || forall v :: v in Cycle(g, x) ==> !Shared(shared, v))
  }

  lemma FinishedPasses(g: Graph, l: Layout, xs: seq<int>, shared: seq<bool>)
    requires LayoutFor(g, l) && LineOk(l, xs) && Emit(l, xs).pending == map[]
    ensures PassesExact(g, l.multiplicity, KeepLast(xs, shared), shared)
  {
    hide LayoutOk, HasPasses, Decomposition, IsComponentGraph, Emit, Cycle, IsNeed;
    forall x, need | x in KeepLast(xs, shared) && Node(g, x) && IsNeed(g, l.multiplicity, x, need)
      ensures HasPasses(KeepLast(xs, shared), Cycle(g, x), need) <==>
              Cycle(g, x) == {x} || forall v :: v in Cycle(g, x) ==> !Shared(shared, v)
    {
      KeepLastSame(xs, shared, x);
      FinishedExact(g, l, xs, shared, x);
      MembersCycle(g, l, x);
      NeedExact(g, l, x, need);
    }
  }

  // ---- a cycle of shared libraries that loses its second pass ----

  const SHARED_PAIR: Graph := [[Edge(1, true, false)], [Edge(0, true, false)]]

  function PairLayout(): Layout {
    Layout(OneMap(2), [OneList(2)], [[]], [0], [0, 0])
  }

  lemma PairLayoutFor()
    ensures LayoutFor(SHARED_PAIR, PairLayout())
  {
    var g: Graph := SHARED_PAIR;
    forall x | Node(g, x) ensures Reach(g, 0, x) && Reach(g, x, 0) {
      PairReach(x);
    }
    hide Reach;
    OneComponent(g);
  }

  lemma PairReach(x: int)
    requires Node(SHARED_PAIR, x)
    ensures Reach(SHARED_PAIR, 0, x) && Reach(SHARED_PAIR, x, 0)
  {
    var g: Graph := SHARED_PAIR;
    assert g[0][0].dest == 1 && g[1][0].dest == 0;
    assert HasEdge(g, 0, 1) && HasEdge(g, 1, 0);
    hide Reach;
    ReachRefl(g, x);
    ReachEdge(g, 0, 1);
    ReachEdge(g, 1, 0);
  }

  lemma PairFacts()
    ensures LayoutOk(PairLayout()) && Need(PairLayout(), 0) == 2 && Members(PairLayout(), 0) == {0, 1}
  {
    var l := PairLayout();
    PairLayoutFor();
    forall v ensures v in Members(l, 0) <==> v in {0, 1} {
      MemberOf(l, 0, v);
    }
    assert MaxMultiplicity(OneList(2), l.multiplicity, 2) == 2;
  }

  /** The pair with count passes to go, waiting for the given entries in the first of them. */
  function PairPending(count: int, entries: set<int>): Pending {
    map[0 := PendingComponent(0, count, entries)]
  }

  /** The first entry begins the first of two passes. */
  lemma PairFirst()
    ensures LayoutOk(PairLayout()) && SeeEntry(PairLayout(), map[], 0).0 == PairPending(2, {1})
  {
    PairFacts();
    var l := PairLayout();
    hide LayoutOk, Need, Members;
    var none: Pending := map[];
    var made := MakePendingComponent(l, none, 0);
    assert made == PairPending(2, {0, 1}) by {
      assert {} + {0, 1} == {0, 1};
    }
    assert {0, 1} - {0} == {1};
  }

  /** Then 1 ends it, 0 begins the second, and 1 completes the component. */
  lemma PairNext()
    ensures LayoutOk(PairLayout())
    ensures SeeEntry(PairLayout(), PairPending(2, {1}), 1).0 == PairPending(1, {0, 1})
    ensures SeeEntry(PairLayout(), PairPending(1, {0, 1}), 0).0 == PairPending(1, {1})
    ensures SeeEntry(PairLayout(), PairPending(1, {1}), 1).0 == map[]
  {
    PairFacts();
    hide LayoutOk, Need, Members, MakePendingComponent;
    assert {1} - {1} == {} && ({1} - {1}) + {0, 1} == {0, 1} && {0, 1} - {0} == {1};
    assert PairPending(1, {1}) - {0} == map[];
  }

  lemma PairStep(xs: seq<int>, e: int, before: Pending, after: Pending)
    requires LayoutOk(PairLayout()) && LineOk(PairLayout(), xs) && 0 <= e < 2
    requires Emit(PairLayout(), xs).pending == before
    requires SeeEntry(PairLayout(), before, e).0 == after
    ensures LineOk(PairLayout(), xs + [e]) && Emit(PairLayout(), xs + [e]).pending == after
  {
    hide LayoutOk, SeeEntry, Emit;
    EmitOne(PairLayout(), xs, e);
  }

  lemma PairLeast()
    ensures NextEntry(PairPending(2, {1}), 1) && NextEntry(PairPending(1, {0, 1}), 0) &&
      NextEntry(PairPending(1, {1}), 1)
  {
    assert IsFirst(PairPending(2, {1}), 0) && IsLeast({1}, 1);
    assert IsFirst(PairPending(1, {0, 1}), 0) && IsLeast({0, 1}, 0);
    assert IsFirst(PairPending(1, {1}), 0);
  }

  lemma PairMore(xs: seq<int>, e: int, before: Pending, after: Pending)
    requires LayoutOk(PairLayout()) && LineOk(PairLayout(), xs) && 0 <= e < 2 && DrainRun(PairLayout(), 1, xs)
    requires Emit(PairLayout(), xs).pending == before && NextEntry(before, e)
    requires SeeEntry(PairLayout(), before, e).0 == after
    ensures LineOk(PairLayout(), xs + [e]) && DrainRun(PairLayout(), 1, xs + [e])
    ensures Emit(PairLayout(), xs + [e]).pending == after
  {
    PairStep(xs, e, before, after);
    RunMore(PairLayout(), 1, xs, e);
  }

  lemma PairBegins()
    ensures LayoutOk(PairLayout()) && LineOk(PairLayout(), [0]) && DrainRun(PairLayout(), 1, [0])
    ensures Emit(PairLayout(), [0]).pending == PairPending(2, {1})
  {
    PairFirst();
    var none: Pending := map[];
    assert Emit(PairLayout(), []).pending == none;
    hide LayoutOk, SeeEntry, Emit, PairPending, DrainRun;
    PairStep([], 0, none, PairPending(2, {1}));
    assert [] + [0] == [0];
    RunBegins(PairLayout(), [0]);
  }

  /** The run that begins with entry 0 alone: both entries are emitted twice, 0 and 1 and then 0 and 1 again. */
  lemma PairRun()
    ensures LayoutOk(PairLayout()) && LineOk(PairLayout(), [0, 1, 0, 1])
    ensures DrainRun(PairLayout(), 1, [0, 1, 0, 1]) && Emit(PairLayout(), [0, 1, 0, 1]).pending == map[]
  {
    PairBegins();
    PairNext();
    PairLeast();
    hide *;
    var p1, p2, p3 := PairPending(2, {1}), PairPending(1, {0, 1}), PairPending(1, {1});
    PairMore([0], 1, p1, p2);
    PairMore([0] + [1], 0, p2, p3);
    PairMore([0] + [1] + [0], 1, p3, map[]);
    assert [0] + [1] + [0] + [1] == [0, 1, 0, 1];
  }

  /** Two shared libraries that need each other are asked for twice, but the finished line has each of them once. */
  lemma SharedPairLosesPass()
    ensures LayoutFor(SHARED_PAIR, PairLayout()) && LineOk(PairLayout(), [0, 1, 0, 1])
    ensures DrainRun(PairLayout(), 1, [0, 1, 0, 1])
    ensures Emit(PairLayout(), [0, 1, 0, 1]).pending == map[] && Need(PairLayout(), 0) == 2
    ensures KeepLast([0, 1, 0, 1], [true, true]) == [0, 1] && !HasPasses([0, 1], Members(PairLayout(), 0), 2)
  {
    var l := PairLayout();
    PairLayoutFor();
    PairRun();
    PairFacts();
    hide LayoutOk, LayoutFor, Emit, Need, Members, HasPasses;
    assert [0, 1, 0, 1][1..] == [1, 0, 1] && [1, 0, 1][1..] == [0, 1] && [0, 1][1..] == [1] && [1][1..] == [];
    var shared := [true, true];
    assert KeepLast([1], shared) == [1] && KeepLast([0, 1], shared) == [0, 1];
    assert KeepLast([1, 0, 1], shared) == [0, 1];
    SharedLoses([0, 1], [0, 1, 0, 1], shared, Members(l, 0), 2, 0);
  }
}
