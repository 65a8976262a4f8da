/** The intermediate graph: static and object libraries may drop link dependencies that have no effect for them. */
module IntermediateGraph {
  import opened Collections
  import opened Graphs
  import opened SideEffects

  /** What is known of a target apart from its dependencies. */
  datatype Target = Target(kind: TargetKind, optimizeDependencies: bool, languages: seq<string>)

  datatype TargetKind = StaticLibrary | ObjectLibrary | OtherTarget

  // ---- what an optimized list of dependencies looks like ----

  function StrongOnly(edges: EdgeList): EdgeList {
    if |edges| == 0 then []
    else
      var n := |edges| - 1;
      StrongOnly(edges[..n]) + (if edges[n].strong then [edges[n]] else [])
  }

  ghost predicate WeakTo(edges: EdgeList, d: int) {
    exists k :: 0 <= k < |edges| && !edges[k].strong && edges[k].dest == d
  }

  /** No target is emitted twice as a weak dependency. */
  ghost predicate WeakOnce(edges: EdgeList) {
    forall j, k :: 0 <= j < k < |edges| && !edges[j].strong && !edges[k].strong ==> edges[j].dest != edges[k].dest
  }

  /** Target d has an effect that matters to sources in one of the languages. */
  ghost predicate Relevant(se: SideEffect, languages: seq<string>, d: int) {
    Has(se, Custom(d)) || exists l :: l in languages && Has(se, Effect.Language(l, d))
  }

  /** d has a relevant effect among those collected for a weak dependency. */
  ghost predicate Needed(input: EdgeList, se: seq<SideEffect>, languages: seq<string>, d: int) {
    exists k :: NeededBy(input, se, languages, d, k)
  }

  /** Strong dependencies are kept in order; the weak ones are the targets with relevant effects, once each,
      in the order of the dependencies that first need them and with their cross flags. */
  ghost predicate Optimized(input: EdgeList, se: seq<SideEffect>, languages: seq<string>, output: EdgeList) {
    && StrongOnly(output) == StrongOnly(input) && WeakOnce(output)
    && (forall d :: WeakTo(output, d) <==> Needed(input, se, languages, d))
    && exists src: seq<int> :: FollowsInput(input, se, languages, output, src)
  }

  /** Input edge m is the first weak one behind which d has a relevant effect. */
  ghost predicate FirstNeeding(input: EdgeList, se: seq<SideEffect>, languages: seq<string>, d: int, m: int) {
    && NeededBy(input, se, languages, d, m)
    && forall k :: 0 <= k < m ==> !NeededBy(input, se, languages, d, k)
  }

  ghost predicate NeededBy(input: EdgeList, se: seq<SideEffect>, languages: seq<string>, d: int, m: int) {
    0 <= m < |input| && !input[m].strong && 0 <= input[m].dest < |se| && Relevant(se[input[m].dest], languages, d)
  }

  /** Output edge e stems from input edge m: it is that edge, or has its cross flag and was first needed there. */
  ghost predicate Stems(input: EdgeList, se: seq<SideEffect>, languages: seq<string>, e: Edge, m: int) {
    && 0 <= m < |input|
    && if e.strong then e == input[m] else e.cross == input[m].cross && FirstNeeding(input, se, languages, e.dest, m)
  }

  /** The output follows the order of the input edges that it stems from. */
  ghost predicate FollowsInput(input: EdgeList, se: seq<SideEffect>, languages: seq<string>, output: EdgeList,
                               src: seq<int>)
  {
    && |src| == |output| && (forall j, k :: 0 <= j < k < |src| ==> src[j] <= src[k])
    && forall k :: 0 <= k < |output| ==> Stems(input, se, languages, output[k], src[k])
  }

  predicate Optimizes(t: Target) {
    (t.kind.StaticLibrary? || t.kind.ObjectLibrary?) && t.optimizeDependencies
  }

  ghost predicate IsIntermediate(g: Graph, se: seq<SideEffect>, targets: seq<Target>, h: Graph) {
    |h| == |g| == |targets| && forall i :: 0 <= i < |g| ==>
      if Optimizes(targets[i]) then Optimized(g[i], se, targets[i].languages, h[i]) else h[i] == g[i]
  }

  /** One of the effects collected for a weak dependency of target i, of its custom commands or of its sources in one
      of i's languages, concerns target d. */
  ghost predicate Concerns(g: Graph, se: seq<SideEffect>, targets: seq<Target>, i: int, d: int)
    requires 0 <= i < |g| && |targets| == |g|
  {
    exists k :: 0 <= k < |g[i]| && ConcernsBy(g, se, targets, i, d, k)
  }

  ghost predicate ConcernsBy(g: Graph, se: seq<SideEffect>, targets: seq<Target>, i: int, d: int, k: int)
    requires 0 <= i < |g| && |targets| == |g| && 0 <= k < |g[i]|
  {
    && !g[i][k].strong && 0 <= g[i][k].dest < |se|
    && var e := se[g[i][k].dest];
       d in e.customCommand || exists l :: l in targets[i].languages && l in e.language && d in e.language[l]
  }

  /** Libraries that are archives or sets of objects, and say so, keep only what concerns them; others keep all. */
  ghost predicate KeepsWhatConcerns(g: Graph, se: seq<SideEffect>, targets: seq<Target>, h: Graph) {
    && |h| == |g| == |targets|
    && forall i :: 0 <= i < |g| ==>
         if targets[i].optimizeDependencies && !targets[i].kind.OtherTarget? then
           forall d :: WeakTo(h[i], d) <==> Concerns(g, se, targets, i, d)
         else h[i] == g[i]
  }

  lemma {:induction false} ConcernExact(g: Graph, se: seq<SideEffect>, targets: seq<Target>, i: int, d: int)
    requires 0 <= i < |g| && |targets| == |g|
    ensures Needed(g[i], se, targets[i].languages, d) <==> Concerns(g, se, targets, i, d)
  {
    forall k | 0 <= k < |g[i]|
      ensures NeededBy(g[i], se, targets[i].languages, d, k) <==> ConcernsBy(g, se, targets, i, d, k)
    {
      if 0 <= g[i][k].dest < |se| {
        var e := se[g[i][k].dest];
        forall l ensures Has(e, Effect.Language(l, d)) <==> l in e.language && d in e.language[l] {
        }
      }
    }
    hide Relevant;
    if Needed(g[i], se, targets[i].languages, d) {
      var k :| NeededBy(g[i], se, targets[i].languages, d, k);
      assert ConcernsBy(g, se, targets, i, d, k);
    }
    if Concerns(g, se, targets, i, d) {
      var k :| 0 <= k < |g[i]| && ConcernsBy(g, se, targets, i, d, k);
      assert NeededBy(g[i], se, targets[i].languages, d, k);
    }
  }

  lemma {:induction false} IntermediateKeeps(g: Graph, se: seq<SideEffect>, targets: seq<Target>, h: Graph)
    requires IsIntermediate(g, se, targets, h)
    ensures KeepsWhatConcerns(g, se, targets, h)
  {
    forall i | 0 <= i < |g|
      ensures if targets[i].optimizeDependencies && !targets[i].kind.OtherTarget? then
                forall d :: WeakTo(h[i], d) <==> Concerns(g, se, targets, i, d)
              else h[i] == g[i]
    {
      if targets[i].optimizeDependencies && !targets[i].kind.OtherTarget? {
        assert Optimized(g[i], se, targets[i].languages, h[i]);
        hide Needed, Concerns, WeakTo, FollowsInput, StrongOnly, WeakOnce;
        forall d ensures WeakTo(h[i], d) <==> Concerns(g, se, targets, i, d) {
          ConcernExact(g, se, targets, i, d);
        }
      } else {
        hide Optimized;
      }
    }
  }

  // ---- building it ----

  /** The weak edges emitted so far lead to exactly the emitted targets, once each. */
  ghost predicate Emitting(strong: EdgeList, output: EdgeList, emitted: set<int>) {
    StrongOnly(output) == strong && WeakOnce(output) && forall d :: WeakTo(output, d) <==> d in emitted
  }

  lemma EmittedWeak(strong: EdgeList, output: EdgeList, emitted: set<int>, e: Edge)
    requires Emitting(strong, output, emitted) && !e.strong && e.dest !in emitted
    ensures Emitting(strong, output + [e], emitted + {e.dest})
  {
    var more := output + [e];
    assert more[..|output|] == output;
    forall k | 0 <= k < |output| && !output[k].strong ensures output[k].dest != e.dest {
      assert WeakTo(output, output[k].dest);
    }
    forall d ensures WeakTo(more, d) <==> WeakTo(output, d) || d == e.dest {
      assert more[|output|] == e;
      if WeakTo(output, d) {
        var k :| 0 <= k < |output| && !output[k].strong && output[k].dest == d;
        assert more[k] == output[k];
      }
    }
  }

  lemma EmittedStrong(strong: EdgeList, output: EdgeList, emitted: set<int>, e: Edge)
    requires Emitting(strong, output, emitted) && e.strong
    ensures Emitting(strong + [e], output + [e], emitted)
  {
    var more := output + [e];
    assert more[..|output|] == output;
    forall d ensures WeakTo(more, d) <==> WeakTo(output, d) {
      if WeakTo(output, d) {
        var k :| 0 <= k < |output| && !output[k].strong && output[k].dest == d;
        assert more[k] == output[k];
      }
    }
  }

  /** The output has grown by weak edges with this cross flag, to some of the targets not emitted before. */
  ghost predicate Appended(output: EdgeList, more: EdgeList, cross: bool, targets: set<int>, emitted: set<int>) {
    && output <= more
    && forall k :: |output| <= k < |more| ==>
         !more[k].strong && more[k].cross == cross && more[k].dest in targets && more[k].dest !in emitted
  }

  /** Emits each of the given targets that has not been emitted yet, in ascending order. */
  method EmitTargets(targets: set<int>, cross: bool, emitted: set<int>, output: EdgeList, ghost strong: EdgeList)
    returns (emitted': set<int>, output': EdgeList)
    requires Emitting(strong, output, emitted)
    ensures Emitting(strong, output', emitted') && emitted' == emitted + targets
    ensures Appended(output, output', cross, targets, emitted)
  {
    hide Emitting;
    emitted', output' := emitted, output;
    var rest := targets;
    while rest != {}
      invariant rest <= targets && Emitting(strong, output', emitted') && emitted' == emitted + (targets - rest)
      invariant Appended(output, output', cross, targets, emitted)
      decreases rest
    {
      ghost var x := SomeElement(rest);
      SomeLeast(rest, x);
      var index :| index in rest && forall d :: d in rest ==> index <= d;
      if index !in emitted' {
        EmittedWeak(strong, output', emitted', Edge(index, false, cross));
        emitted' := emitted' + {index};
        output' := output' + [Edge(index, false, cross)];
      }
      rest := rest - {index};
    }
  }

  /** The targets with relevant effects, as a set. */
  ghost function RelevantTargets(se: SideEffect, languages: seq<string>): set<int> {
    if |languages| == 0 then se.customCommand
    else
      var n := |languages| - 1;
      RelevantTargets(se, languages[..n]) + (if languages[n] in se.language then se.language[languages[n]] else {})
  }

  lemma {:induction false} RelevantExact(se: SideEffect, languages: seq<string>, d: int)
    ensures d in RelevantTargets(se, languages) <==> Relevant(se, languages, d)
  {
    if |languages| > 0 {
      var n := |languages| - 1;
      RelevantExact(se, languages[..n], d);
      assert languages == languages[..n] + [languages[n]];
      assert Has(se, Effect.Language(languages[n], d)) <==>
        languages[n] in se.language && d in se.language[languages[n]];
      if Relevant(se, languages, d) && !Has(se, Custom(d)) {
        var l :| l in languages && Has(se, Effect.Language(l, d));
        assert l in languages[..n] || l == languages[n];
      }
    }
  }

  /** Emits the targets with effects of their custom commands, then those with effects for the given languages. */
  method EmitEffects(dse: SideEffect, languages: seq<string>, cross: bool, emitted: set<int>, output: EdgeList,
                     ghost strong: EdgeList)
    returns (emitted': set<int>, output': EdgeList)
    requires Emitting(strong, output, emitted)
    ensures Emitting(strong, output', emitted') && emitted' == emitted + RelevantTargets(dse, languages)
    ensures Appended(output, output', cross, RelevantTargets(dse, languages), emitted)
  {
    hide Emitting;
    emitted', output' := EmitTargets(dse.customCommand, cross, emitted, output, strong);
    for k := 0 to |languages|
      invariant Emitting(strong, output', emitted') && emitted' == emitted + RelevantTargets(dse, languages[..k])
      invariant Appended(output, output', cross, RelevantTargets(dse, languages[..k]), emitted)
    {
      assert languages[..k + 1][..k] == languages[..k];
      if languages[k] in dse.language {
        emitted', output' := EmitTargets(dse.language[languages[k]], cross, emitted', output', strong);
      }
    }
    assert languages[..|languages|] == languages;
  }

  method OptimizeLinkDependencies(languages: seq<string>, inputEdges: EdgeList, sideEffects: seq<SideEffect>)
    returns (outputEdges: EdgeList)
    requires forall k :: 0 <= k < |inputEdges| ==> 0 <= inputEdges[k].dest < |sideEffects|
    ensures Optimized(inputEdges, sideEffects, languages, outputEdges)
  {
    hide Relevant, Emitting, Optimized, Needed, RelevantTargets, FollowsInput, Appended;
    outputEdges := [];
    ghost var src: seq<int> := [];
    var emitted: set<int> := {};
    NothingEmitted(inputEdges, sideEffects, languages);
    for k := 0 to |inputEdges|
      invariant Emitting(StrongOnly(inputEdges[..k]), outputEdges, emitted)
      invariant forall d :: d in emitted <==> Needed(inputEdges[..k], sideEffects, languages, d)
      invariant FollowsInput(inputEdges, sideEffects, languages, outputEdges, src) && Within(src, k)
    {
      var edge := inputEdges[k];
      ghost var strong := StrongOnly(inputEdges[..k]);
      StrongMore(inputEdges, k);
      NeededMore(inputEdges, k, sideEffects, languages);
      if edge.strong {
        EmittedStrong(strong, outputEdges, emitted, edge);
        src := FollowsStrong(inputEdges, k, sideEffects, languages, outputEdges, src);
        outputEdges := outputEdges + [edge];
      } else {
        ghost var before, seen := outputEdges, emitted;
        emitted, outputEdges := EmitEffects(sideEffects[edge.dest], languages, edge.cross, emitted, outputEdges,
          strong);
        src := FollowsWeak(inputEdges, k, sideEffects, languages, before, outputEdges, seen, src);
      }
    }
    assert inputEdges[..|inputEdges|] == inputEdges;
    AllEmitted(inputEdges, sideEffects, languages, outputEdges, emitted, src);
  }

  ghost predicate Within(src: seq<int>, n: int) {
    forall k :: 0 <= k < |src| ==> src[k] < n
  }

  lemma FollowsStrong(input: EdgeList, k: nat, se: seq<SideEffect>, languages: seq<string>, output: EdgeList,
                      src: seq<int>)
    returns (src': seq<int>)
    requires k < |input| && input[k].strong && FollowsInput(input, se, languages, output, src) && Within(src, k)
    ensures FollowsInput(input, se, languages, output + [input[k]], src') && Within(src', k + 1)
  {
    src' := src + [k];
    hide FirstNeeding;
    var more := output + [input[k]];
    forall j | 0 <= j < |more| ensures Stems(input, se, languages, more[j], src'[j]) {
      assert j < |output| ==> Stems(input, se, languages, output[j], src[j]);
    }
  }

  lemma FollowsWeak(input: EdgeList, k: nat, se: seq<SideEffect>, languages: seq<string>, output: EdgeList,
                    more: EdgeList, emitted: set<int>, src: seq<int>)
    returns (src': seq<int>)
    requires k < |input| && !input[k].strong && 0 <= input[k].dest < |se|
    requires FollowsInput(input, se, languages, output, src) && Within(src, k)
    requires Appended(output, more, input[k].cross, RelevantTargets(se[input[k].dest], languages), emitted)
    requires forall d :: d in emitted <==> Needed(input[..k], se, languages, d)
    ensures FollowsInput(input, se, languages, more, src') && Within(src', k + 1)
  {
    src' := src + seq(|more| - |output|, _ => k);
    hide FirstNeeding, RelevantTargets, Needed;
    forall j | 0 <= j < |more| ensures Stems(input, se, languages, more[j], src'[j]) {
      if j < |output| {
        assert Stems(input, se, languages, output[j], src[j]);
      } else {
        FirstNeeded(input, k, se, languages, more[j].dest);
      }
    }
  }

  lemma FirstNeeded(input: EdgeList, k: nat, se: seq<SideEffect>, languages: seq<string>, d: int)
    requires k < |input| && !input[k].strong && 0 <= input[k].dest < |se|
    requires d in RelevantTargets(se[input[k].dest], languages) && !Needed(input[..k], se, languages, d)
    ensures FirstNeeding(input, se, languages, d, k)
  {
    RelevantExact(se[input[k].dest], languages, d);
    hide Relevant, RelevantTargets;
    forall m | 0 <= m < k ensures !NeededBy(input, se, languages, d, m) {
      assert !NeededBy(input[..k], se, languages, d, m);
    }
  }

  lemma NothingEmitted(input: EdgeList, se: seq<SideEffect>, languages: seq<string>)
    ensures Emitting(StrongOnly(input[..0]), [], {}) && forall d :: !Needed(input[..0], se, languages, d)
    ensures FollowsInput(input, se, languages, [], [])
  {
  }

  lemma StrongMore(input: EdgeList, k: nat)
    requires k < |input|
    ensures StrongOnly(input[..k + 1]) ==
            if input[k].strong then StrongOnly(input[..k]) + [input[k]] else StrongOnly(input[..k])
  {
    assert input[..k + 1][..k] == input[..k];
  }

  lemma AllEmitted(input: EdgeList, se: seq<SideEffect>, languages: seq<string>, output: EdgeList, emitted: set<int>,
                   src: seq<int>)
    requires FollowsInput(input, se, languages, output, src)
    requires Emitting(StrongOnly(input), output, emitted)
    requires forall d :: d in emitted <==> Needed(input, se, languages, d)
    ensures Optimized(input, se, languages, output)
  {
    hide Needed, WeakOnce, StrongOnly, WeakTo, FollowsInput;
  }

  /** What one more dependency adds to the needed targets. */
  lemma NeededMore(input: EdgeList, k: nat, se: seq<SideEffect>, languages: seq<string>)
    requires k < |input| && 0 <= input[k].dest < |se|
    ensures forall d :: Needed(input[..k + 1], se, languages, d) <==>
            Needed(input[..k], se, languages, d) ||
            (!input[k].strong && d in RelevantTargets(se[input[k].dest], languages))
  {
    hide Relevant, RelevantTargets;
    forall d
      ensures Needed(input[..k + 1], se, languages, d) <==>
        Needed(input[..k], se, languages, d) || (!input[k].strong && d in RelevantTargets(se[input[k].dest], languages))
    {
      RelevantExact(se[input[k].dest], languages, d);
      forall m ensures NeededBy(input[..k + 1], se, languages, d, m) <==>
                       NeededBy(input[..k], se, languages, d, m) || (m == k && NeededBy(input, se, languages, d, k))
      {
      }
      if NeededBy(input, se, languages, d, k) {
        assert NeededBy(input[..k + 1], se, languages, d, k);
      }
      if Needed(input[..k], se, languages, d) {
        var m :| NeededBy(input[..k], se, languages, d, m);
        assert NeededBy(input[..k + 1], se, languages, d, m);
      }
      if Needed(input[..k + 1], se, languages, d) {
        var m :| NeededBy(input[..k + 1], se, languages, d, m);
        assert NeededBy(input[..k], se, languages, d, m) || m == k;
      }
    }
  }

  method ComputeIntermediateGraph(initialGraph: Graph, sideEffects: seq<SideEffect>, targets: seq<Target>)
    returns (intermediateGraph: Graph)
    requires WellFormed(initialGraph) && |sideEffects| == |targets| == |initialGraph|
    ensures IsIntermediate(initialGraph, sideEffects, targets, intermediateGraph)
    ensures KeepsWhatConcerns(initialGraph, sideEffects, targets, intermediateGraph)
  {
    intermediateGraph := [];
    for i := 0 to |initialGraph|
      invariant |intermediateGraph| == i
      invariant forall j :: 0 <= j < i ==>
        if Optimizes(targets[j]) then
          Optimized(initialGraph[j], sideEffects, targets[j].languages, intermediateGraph[j])
        else intermediateGraph[j] == initialGraph[j]
    {
      hide Optimized;
      var gt := targets[i];
      var edges := initialGraph[i];
      if gt.kind.StaticLibrary? || gt.kind.ObjectLibrary? {
        if gt.optimizeDependencies {
          edges := OptimizeLinkDependencies(gt.languages, initialGraph[i], sideEffects);
        }
      }
      intermediateGraph := intermediateGraph + [edges];
    }
    hide Optimized, KeepsWhatConcerns;
    IntermediateKeeps(initialGraph, sideEffects, targets, intermediateGraph);
  }

  // ---- what the intermediate graph means ----

  /** A target's own side effects name only the target itself. */
  ghost predicate OwnOnly(own: seq<SideEffect>) {
    forall j, e :: 0 <= j < |own| && Has(own[j], e) ==> e.target == j
  }

  lemma {:induction false} StrongKept(input: EdgeList, e: Edge)
    ensures e in StrongOnly(input) <==> e.strong && e in input
  {
    if |input| > 0 {
      var n := |input| - 1;
      StrongKept(input[..n], e);
      assert input == input[..n] + [input[n]];
    }
  }

  /** Every dependency of the intermediate graph is one that the initial graph implies. */
  lemma IntermediateImplied(g: Graph, own: seq<SideEffect>, se: seq<SideEffect>, targets: seq<Target>, h: Graph,
                            i: int, d: int)
    requires WellFormed(g) && |own| == |g| && OwnOnly(own) && IsIntermediate(g, se, targets, h) && HasEdge(h, i, d)
    requires forall j :: 0 <= j < |g| ==> SoundAt(g, own, se, j)
    ensures Reach(g, i, d) && 0 <= d < |g|
  {
    var k :| 0 <= k < |h[i]| && h[i][k].dest == d;
    if !Optimizes(targets[i]) {
      ReachEdge(g, i, d);
    } else if h[i][k].strong {
      assert h[i][k] in h[i];
      StrongKept(h[i], h[i][k]);
      StrongKept(g[i], h[i][k]);
      assert HasEdge(g, i, d);
      ReachEdge(g, i, d);
    } else {
      assert WeakTo(h[i], d);
      WeakImplied(g, own, se, targets[i].languages, i, d);
    }
  }

  lemma WeakImplied(g: Graph, own: seq<SideEffect>, se: seq<SideEffect>, languages: seq<string>, i: int, d: int)
    requires WellFormed(g) && |own| == |g| && OwnOnly(own) && 0 <= i < |g| && Needed(g[i], se, languages, d)
    requires forall j :: 0 <= j < |g| ==> SoundAt(g, own, se, j)
    ensures Reach(g, i, d) && 0 <= d < |g|
  {
    var m :| NeededBy(g[i], se, languages, d, m);
    var v := g[i][m].dest;
    var e: Effect;
    if Has(se[v], Custom(d)) {
      e := Custom(d);
    } else {
      var l :| l in languages && Has(se[v], Effect.Language(l, d));
      e := Effect.Language(l, d);
    }
    assert SoundAt(g, own, se, v);
    var j :| 0 <= j < |own| && Reach(g, v, j) && Has(own[j], e);
    assert j == d;
    assert HasEdge(g, i, v);
    ReachEdge(g, i, v);
    ReachTrans(g, i, v, d);
  }

  /** The intermediate graph orders nothing that the initial graph does not order. */
  lemma IntermediateReach(g: Graph, own: seq<SideEffect>, se: seq<SideEffect>, targets: seq<Target>, h: Graph, i: int,
                          d: int)
    requires WellFormed(g) && |own| == |g| && OwnOnly(own) && IsIntermediate(g, se, targets, h)
    requires forall j :: 0 <= j < |g| ==> SoundAt(g, own, se, j)
    requires Node(g, i) && Reach(h, i, d)
    ensures Reach(g, i, d)
  {
    var s := Reachable(g, i);
    hide IsIntermediate, SoundAt, OwnOnly;
    forall u, v | u in s && HasEdge(h, u, v) ensures v in s {
      IntermediateImplied(g, own, se, targets, h, u, v);
      ReachTrans(g, i, u, v);
    }
    ReachRefl(g, i);
    ReachStaysIn(h, s, i, d);
  }

  lemma IntermediateWellFormed(g: Graph, own: seq<SideEffect>, se: seq<SideEffect>, targets: seq<Target>, h: Graph)
    requires WellFormed(g) && |own| == |g| && OwnOnly(own) && IsIntermediate(g, se, targets, h)
    requires forall j :: 0 <= j < |g| ==> SoundAt(g, own, se, j)
    ensures WellFormed(h)
  {
    forall u, k | 0 <= u < |h| && 0 <= k < |h[u]| ensures 0 <= h[u][k].dest < |h| {
      assert HasEdge(h, u, h[u][k].dest);
      IntermediateImplied(g, own, se, targets, h, u, h[u][k].dest);
    }
  }

  /** The optimization loses no effect that was collected: a relevant one is depended on directly. */
  lemma EffectsKept(g: Graph, se: seq<SideEffect>, targets: seq<Target>, h: Graph, i: int, k: int, e: Effect)
    requires WellFormed(g) && |g| == |se| && IsIntermediate(g, se, targets, h)
    requires 0 <= i < |g| && 0 <= k < |g[i]| && !g[i][k].strong && Optimizes(targets[i])
    requires Has(se[g[i][k].dest], e)
    requires e.Language? ==> e.lang in targets[i].languages
    ensures HasEdge(h, i, e.target)
  {
    hide StrongOnly, WeakOnce;
    var v := g[i][k].dest;
    assert Relevant(se[v], targets[i].languages, e.target) by {
      if e.Language? {
        assert e == Effect.Language(e.lang, e.target);
      } else {
        assert e == Custom(e.target);
      }
    }
    assert NeededBy(g[i], se, targets[i].languages, e.target, k);
    assert WeakTo(h[i], e.target);
  }
}
