/** The whole of cmComputeTargetDepends: from the initial graph to a safe build order. */
module TargetCompute {
  import opened Graphs
  import opened TarjanWalk
  import opened ComponentGraph
  import opened SideEffects
  import opened SideEffectCollection
  import I = IntermediateGraph
  import opened StrongWalks
  import opened TargetTheory
  import LinearChains
  import TargetDepends

  /** All non-trivial components may consist of static libraries only, or must not exist at all. */
  ghost predicate ComponentsAllowed(components: seq<NodeList>, targets: seq<I.Target>, noCycles: bool) {
    forall c :: 0 <= c < |components| ==>
      |components[c]| < 2 || (!noCycles && forall k :: 0 <= k < |components[c]| ==> IsStatic(targets, components[c][k]))
  }

  predicate IsStatic(targets: seq<I.Target>, i: int) {
    0 <= i < |targets| && targets[i].kind.StaticLibrary?
  }

  method CheckComponents(components: seq<NodeList>, targets: seq<I.Target>, noCycles: bool) returns (ok: bool)
    ensures ok <==> ComponentsAllowed(components, targets, noCycles)
  {
    for c := 0 to |components|
      invariant ComponentsAllowed(components[..c], targets, noCycles)
    {
      var nl := components[c];
      // A single target is no cycle.
      if |nl| < 2 {
        continue;
      }
      // With cycles forbidden, any larger component is an error.
      if noCycles {
        return false;
      }
      // A cycle is tolerated among static libraries only.
      for k := 0 to |nl|
        invariant forall j :: 0 <= j < k ==> IsStatic(targets, nl[j])
      {
        if !IsStatic(targets, nl[k]) {
          return false;
        }
      }
    }
    assert components[..|components|] == components;
    return true;
  }

  /** The same, said of the graph: targets that depend on each other are static libraries, if any are allowed. */
  ghost predicate CyclesAllowed(g: Graph, targets: seq<I.Target>, noCycles: bool) {
    forall x, y :: Node(g, x) && Node(g, y) && x != y && Mutual(g, x, y) ==>
      !noCycles && x < |targets| && targets[x].kind.StaticLibrary?
  }

  lemma AllowedExact(g: Graph, comp: seq<int>, components: seq<NodeList>, targets: seq<I.Target>, noCycles: bool)
    requires Decomposition(g, comp, components)
    ensures ComponentsAllowed(components, targets, noCycles) <==> CyclesAllowed(g, targets, noCycles)
  {
    if ComponentsAllowed(components, targets, noCycles) {
      forall x, y | Node(g, x) && Node(g, y) && x != y && Mutual(g, x, y) ensures !noCycles && IsStatic(targets, x) {
        MemberAllowed(g, comp, components, targets, noCycles, x, y);
      }
    }
    if CyclesAllowed(g, targets, noCycles) {
      forall c | 0 <= c < |components| && |components[c]| >= 2
        ensures !noCycles && forall k :: 0 <= k < |components[c]| ==> IsStatic(targets, components[c][k])
      {
        AllowedMembers(g, comp, components, targets, noCycles, c);
      }
    }
  }

  lemma MemberAllowed(g: Graph, comp: seq<int>, components: seq<NodeList>, targets: seq<I.Target>, noCycles: bool,
                      x: int, y: int)
    requires Decomposition(g, comp, components) && ComponentsAllowed(components, targets, noCycles)
    requires Node(g, x) && Node(g, y) && x != y && Mutual(g, x, y)
    ensures !noCycles && IsStatic(targets, x)
  {
    var c := comp[x];
    assert comp[y] == c && ListOk(comp, components[c], c);
    hide Mutual, SccsOk, DoneClosed, IsStatic;
    assert x in components[c] && y in components[c];
    var k :| 0 <= k < |components[c]| && components[c][k] == x;
    assert IsStatic(targets, components[c][k]);
  }

  lemma AllowedMembers(g: Graph, comp: seq<int>, components: seq<NodeList>, targets: seq<I.Target>, noCycles: bool,
                       c: int)
    requires Decomposition(g, comp, components) && CyclesAllowed(g, targets, noCycles)
    requires 0 <= c < |components| && |components[c]| >= 2
    ensures !noCycles && forall k :: 0 <= k < |components[c]| ==> IsStatic(targets, components[c][k])
  {
    var nl := components[c];
    assert ListOk(comp, nl, c);
    forall k | 0 <= k < |nl| ensures !noCycles && IsStatic(targets, nl[k]) {
      var m := if k == 0 then 1 else 0;
      assert nl[k] in nl && nl[m] in nl && nl[k] != nl[m];
      assert Node(g, nl[k]) && Node(g, nl[m]) && comp[nl[k]] == comp[nl[m]];
      assert Mutual(g, nl[k], nl[m]);
    }
    assert IsStatic(targets, nl[0]);
  }

  /** Where no cycles are allowed, the collected side effects are complete. */
  lemma NoCyclesComplete(g: Graph, targets: seq<I.Target>, i: int)
    requires WellFormed(g) && CyclesAllowed(g, targets, true) && Node(g, i)
    ensures Simple(g, i) && AlwaysComplete(g, i)
  {
    forall j, k | Reach(g, i, j) && Mutual(g, j, k) ensures j == k {
      ReachNode(g, i, j);
      ReachNode(g, j, k);
    }
    SimpleFlows(g, i);
    CompleteExact(g, i);
  }

  ghost predicate AllLinearizable(s: Solution) {
    forall c :: 0 <= c < |s.components| ==> Linearizable(s.initial, s.comp, c, s.components[c])
  }

  /** The intermediate graph has been built from the collected side effects and decomposed. */
  ghost predicate Prepared(g: Graph, own: seq<SideEffect>, targets: seq<I.Target>, se: seq<SideEffect>, s: Solution) {
    && s.initial == g && |se| == |own| == |targets| == |g|
    && WellFormed(g) && se == Collected(g, own) && I.IsIntermediate(g, se, targets, s.intermediate)
    && Decomposition(s.intermediate, s.comp, s.components)
  }

  /** Succeeds exactly when the cycles of both graphs are allowed and every component can be linearized. */
  method Compute(g: Graph, own: seq<SideEffect>, targets: seq<I.Target>, noCycles: bool)
    returns (ok: bool, final: Graph, ghost se: seq<SideEffect>, ghost s: Solution)
    requires WellFormed(g) && |own| == |targets| == |g| && I.OwnOnly(own)
    ensures !CyclesAllowed(g, targets, noCycles) ==> !ok
    ensures CyclesAllowed(g, targets, noCycles) ==> Prepared(g, own, targets, se, s)
    ensures CyclesAllowed(g, targets, noCycles) ==>
              (ok <==> CyclesAllowed(s.intermediate, targets, noCycles) && AllLinearizable(s))
    ensures ok ==> Solved(s) && final == s.final && MembersOrdered(s)
  {
    hide Decomposition, IsComponentGraph, I.IsIntermediate, Solved, I.OwnOnly, SoundAt, Collected, ComponentsAllowed;
    hide CyclesAllowed, AllLinearizable;
    final, se := [], [];
    s := Solution(g, [], [], [], [], [], [], [], []);
    var ccg1 := new ComputeComponentGraph(g);
    ccg1.Compute();
    AllowedExact(g, ccg1.tarjanComponents, ccg1.components, targets, noCycles);
    ok := CheckComponents(ccg1.components, targets, noCycles);
    if !ok {
      return;
    }

    var effects := CollectEffects(g, own);
    se := effects;
    var intermediate := I.ComputeIntermediateGraph(g, effects, targets);
    I.IntermediateWellFormed(g, own, effects, targets, intermediate);

    SameSize(g, effects, targets, intermediate);
    ok, final, s := FinalDepends(g, intermediate, targets, noCycles);
  }

  method CollectEffects(g: Graph, own: seq<SideEffect>) returns (se: seq<SideEffect>)
    requires WellFormed(g) && |own| == |g|
    ensures se == Collected(g, own) && |se| == |g| && forall i :: 0 <= i < |g| ==> SoundAt(g, own, se, i)
  {
    var collector := new CollectTargetSideEffects(g, own);
    collector.CollectSideEffects();
    se := collector.sideEffects;
    AllSound(g, own);
  }

  lemma AllSound(g: Graph, own: seq<SideEffect>)
    requires WellFormed(g) && |own| == |g|
    ensures forall i :: 0 <= i < |g| ==> SoundAt(g, own, Collected(g, own), i)
  {
    hide SoundAt, Collected;
    forall i | 0 <= i < |g| ensures SoundAt(g, own, Collected(g, own), i) {
      CollectedSound(g, own, i);
    }
  }

  lemma SameSize(g: Graph, se: seq<SideEffect>, targets: seq<I.Target>, h: Graph)
    requires I.IsIntermediate(g, se, targets, h)
    ensures |h| == |g|
  {
  }

  method FinalDepends(g: Graph, intermediate: Graph, targets: seq<I.Target>, noCycles: bool)
    returns (ok: bool, final: Graph, ghost s: Solution)
    requires WellFormed(g) && WellFormed(intermediate) && |g| == |intermediate|
    ensures s.initial == g && s.intermediate == intermediate && Decomposition(intermediate, s.comp, s.components)
    ensures ok <==> CyclesAllowed(intermediate, targets, noCycles) && AllLinearizable(s)
    ensures ok ==> Solved(s) && s.final == final && MembersOrdered(s)
  {
    hide Solved, ComponentsAllowed, CyclesAllowed, Decomposition, IsComponentGraph, WellFormed, Linearizable;
    hide MembersOrdered, TargetDepends.AllByMembers;
    final := [];
    var ccg2 := new ComputeComponentGraph(intermediate);
    ccg2.Compute();
    s := Solution(g, intermediate, ccg2.tarjanComponents, ccg2.components, ccg2.componentGraph, [], [], [], []);
    AllowedExact(intermediate, ccg2.tarjanComponents, ccg2.components, targets, noCycles);
    ok := CheckComponents(ccg2.components, targets, noCycles);
    if !ok {
      return;
    }
    var depends := new TargetDepends.ComputeTargetDepends(g);
    ghost var chains;
    ok, chains := depends.ComputeFinalDepends(ccg2);
    final := depends.finalGraph;
    s := Solution(g, intermediate, ccg2.tarjanComponents, ccg2.components, ccg2.componentGraph, chains,
                  depends.componentHead, depends.componentTail, final);
    if ok {
      ChainsOrdered(s);
    }
  }

  /** Of the targets in a cycle, what a member t leads to along strong dependencies of the cycle is ordered after
      whatever neither t nor a later member leads to that way. */
  ghost predicate MembersOrdered(s: Solution) {
    forall x, y, t :: BehindMember(s, x, y, t) ==> Reach(s.final, x, y) && !Reach(s.final, y, x)
  }

  ghost predicate BehindMember(s: Solution, x: int, y: int, t: int) {
    && |s.comp| == |s.initial| && Node(s.initial, x) && Node(s.initial, y) && Node(s.initial, t)
    && s.comp[x] == s.comp[y] == s.comp[t] && StrongReach(s.initial, s.comp, s.comp[t], t, y)
    && forall u :: t <= u < |s.comp| && s.comp[u] == s.comp[t] ==> !StrongReach(s.initial, s.comp, s.comp[t], u, x)
  }

  lemma {:induction false} ChainsOrdered(s: Solution)
    requires Solved(s) && TargetDepends.AllByMembers(s.initial, s.comp, s.components, s.chains)
    ensures MembersOrdered(s)
  {
    hide Solved, Reach, StrongReach, TargetDepends.AllByMembers;
    forall x, y, t | BehindMember(s, x, y, t) ensures Reach(s.final, x, y) && !Reach(s.final, y, x) {
      BehindOrdered(s, x, y, t);
    }
  }

  lemma {:induction false} MemberPlace(s: Solution, x: int) returns (p: int, m: int)
    requires Solved(s) && Node(s.initial, x)
    ensures |s.comp| == |s.initial| && |s.chains| == |s.components| && 0 <= s.comp[x] < |s.chains|
    ensures 0 <= p < |s.chains[s.comp[x]]| && s.chains[s.comp[x]][p] == x
    ensures 0 <= m < |s.components[s.comp[x]]| && s.components[s.comp[x]][m] == x
    ensures ListOk(s.comp, s.components[s.comp[x]], s.comp[x])
  {
    var c := s.comp[x];
    assert ListOk(s.comp, s.components[c], c);
    assert ChainOf(s.components[c], s.chains[c], s.head[c], s.tail[c]);
    hide Solved;
    assert x in s.components[c];
    m :| 0 <= m < |s.components[c]| && s.components[c][m] == x;
    p :| 0 <= p < |s.chains[c]| && s.chains[c][p] == x;
  }

  lemma {:induction false} BehindOrdered(s: Solution, x: int, y: int, t: int)
    requires Solved(s) && TargetDepends.AllByMembers(s.initial, s.comp, s.components, s.chains)
    requires BehindMember(s, x, y, t)
    ensures Reach(s.final, x, y) && !Reach(s.final, y, x)
  {
    var c := s.comp[t];
    var p, _ := MemberPlace(s, x);
    var q, _ := MemberPlace(s, y);
    var _, m := MemberPlace(s, t);
    var members, chain := s.components[c], s.chains[c];
    hide Solved, Reach, StrongReach;
    forall k | m <= k < |members| ensures !StrongReach(s.initial, s.comp, c, members[k], chain[p]) {
      assert members[k] in members;
      assert m < k ==> members[m] < members[k];
    }
    assert LinearChains.ReachedLater(s.initial, s.comp, c, members, chain, p, q, m);
    assert p < q;
    FinalReachInside(s, c, p, q);
    FinalReachInside(s, c, q, p);
  }

  /** Outside of cycles, the final order is part of the order that the initial dependencies imply. */
  lemma FinalImplied(g: Graph, own: seq<SideEffect>, targets: seq<I.Target>, se: seq<SideEffect>, s: Solution,
                     x: int, y: int)
    requires WellFormed(g) && I.OwnOnly(own) && Prepared(g, own, targets, se, s) && Solved(s)
    requires Node(g, x) && Node(g, y) && s.comp[x] != s.comp[y] && Reach(s.final, x, y)
    ensures Reach(g, x, y)
  {
    AllSound(g, own);
    FinalReach(s, x, y);
    I.IntermediateReach(g, own, se, targets, s.intermediate, x, y);
  }

  /** Every relevant effect that arrives at a weak dependency of x is ordered before x in the final graph. */
  lemma EffectsOrdered(g: Graph, own: seq<SideEffect>, targets: seq<I.Target>, se: seq<SideEffect>, s: Solution,
                       x: int, k: int, e: Effect)
    requires WellFormed(g) && I.OwnOnly(own) && Prepared(g, own, targets, se, s) && Solved(s)
    requires 0 <= x < |g| && 0 <= k < |g[x]| && !g[x][k].strong && I.Optimizes(targets[x])
    requires Arrives(own, MergeOrder(g), g[x][k].dest, e)
    requires e.Language? ==> e.lang in targets[x].languages
    ensures 0 <= e.target < |g| && (s.comp[x] == s.comp[e.target] || Reach(s.final, x, e.target))
  {
    hide Arrives, SoundAt, Solved, ComponentsAllowed;
    AllSound(g, own);
    assert Node(g, g[x][k].dest);
    CollectedExact(g, own, g[x][k].dest, e);
    hide Collected;
    I.EffectsKept(g, se, targets, s.intermediate, x, k, e);
    I.IntermediateImplied(g, own, se, targets, s.intermediate, x, e.target);
    EdgeOrdered(s, x, e.target);
  }

  lemma EdgeOrdered(s: Solution, x: int, y: int)
    requires Solved(s) && Node(s.initial, x) && Node(s.initial, y) && HasEdge(s.intermediate, x, y)
    ensures s.comp[x] == s.comp[y] || Reach(s.final, x, y)
  {
    ReachEdge(s.intermediate, x, y);
    if s.comp[x] != s.comp[y] {
      FinalReach(s, x, y);
    }
  }
}
