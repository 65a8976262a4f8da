/** The whole of cmComputeLinkDepends: from a project to the finished link line of a target. */
module LinkCompute {
  import opened Collections
  import opened Graphs
  import opened LinkInference
  import opened LinkItems
  import opened LinkSearch
  import opened LinkShared
  import opened LinkFound
  import opened LinkMeaning
  import opened LinkDirect
  import opened LinkDiscovery
  import opened LinkOrder
  import opened LinkLine
  import opened LinkRuns
  import opened LineOrder
  import opened LinkRequests
  import opened EdgeLists
  import LinkDepends

  // ---- what the ordering needs to know of the discovery ----

  lemma {:induction false} OriginalFrom(lists: seq<ItemList>, i: int)
    requires i in OriginalOf(lists)
    ensures exists l :: 0 <= l < |lists| && i in lists[l].libs
  {
    var n := |lists| - 1;
    if i in OriginalOf(lists[..n]) {
      OriginalFrom(lists[..n], i);
      var l :| 0 <= l < n && i in lists[..n][l].libs;
      assert i in lists[l].libs;
    } else {
      assert i in lists[n].libs;
    }
  }

  lemma OriginalInRange(p: Project, s: Items)
    requires Indexed(p, s) && ListsKnown(p, s) && s.original == OriginalOf(s.lists)
    ensures forall k :: 0 <= k < |s.original| ==> 0 <= s.original[k] < |s.entries|
  {
    forall k | 0 <= k < |s.original| ensures 0 <= s.original[k] < |s.entries| {
      OriginalFrom(s.lists, s.original[k]);
      var l :| 0 <= l < |s.lists| && s.original[k] in s.lists[l].libs;
      assert ListKnown(p, s.index, s.lists[l]);
      LibsBounded(p, s, s.lists[l]);
    }
  }

  /** Each shared dependency that a step asks for has an entry, which must come later. */
  lemma SharedDependency(p: Project, s: Items, followed: seq<int>, handled: seq<SharedDepEntry>, steps: seq<SharedStep>,
                         st: SharedStep, h: SharedDepEntry)
    requires Discovered(p, s, followed, handled, steps) && st in steps && 0 <= st.index < |s.entries|
    requires h in StepDeps(p, s.entries[st.index], st)
    ensures h.item in s.index && HasEdge(s.graph, st.index, s.index[h.item])
  {
    var k :| 0 <= k < |steps| && steps[k] == st;
    SharedHas(p, s.entries, steps, k, h);
    assert h.dependerIndex == st.index;
    hide StepDeps, StepsComplete, StepsSound, Indexed, ListsKnown;
    assert SharedLink(s, handled, st.index, s.index[h.item]);
    assert Constraint(p, s, handled, st.index, s.index[h.item]);
  }

  // ---- the finished line ----

  function MultiplicityOf(p: Project, e: LinkEntry): nat {
    match InterfaceOf(p, e)
    case None => 0
    case Some(i) => i.multiplicity
  }

  predicate IsSharedLibrary(p: Project, e: LinkEntry) {
    e.target.Some? && p.targetTypes(e.target.value).SharedLibrary?
  }

  /** How often each entry's link interface asks for a cycle that it is in. */
  function Multiplicities(p: Project, entries: seq<LinkEntry>): seq<nat> {
    seq(|entries|, i requires 0 <= i < |entries| => MultiplicityOf(p, entries[i]))
  }

  function SharedFlags(p: Project, entries: seq<LinkEntry>): seq<bool> {
    seq(|entries|, i requires 0 <= i < |entries| => IsSharedLibrary(p, entries[i]))
  }

  ghost predicate Needs(p: Project, s: Items, u: int, x: Item) {
    0 <= u < |s.entries| && NamedBy(p, s.entries[u], x) && Linkable(p, x)
  }

  /** Wherever an entry stands on the line, each library it names stands later, except within a cycle. */
  ghost predicate ListsRespected(p: Project, s: Items, line: seq<int>) {
    forall i, x :: 0 <= i < |line| && Needs(p, s, line[i], x) ==>
      x in s.index && (Reach(s.graph, s.index[x], line[i]) || Later(line, i, s.index[x]))
  }

  lemma {:induction false} LineRespectsLists(p: Project, s: Items, handled: seq<SharedDepEntry>, line: seq<int>)
    requires AsAskedFor(p, s, handled) && SafeLine(s.graph, line) && WellFormed(s.graph)
    ensures ListsRespected(p, s, line)
  {
    hide Reach, Later, NamedBy, Linkable, SafeLine;
    forall i, x | 0 <= i < |line| && Needs(p, s, line[i], x)
      ensures x in s.index && (Reach(s.graph, s.index[x], line[i]) || Later(line, i, s.index[x]))
    {
      assert EntryOf(s, x, s.index[x]);
      assert ListEdge(p, s, line[i], s.index[x]);
      EdgeFollows(s.graph, line, i, s.index[x]);
    }
  }

  lemma EdgeFollows(g: Graph, line: seq<int>, i: int, v: int)
    requires SafeLine(g, line) && WellFormed(g) && 0 <= i < |line| && HasEdge(g, line[i], v)
    ensures Reach(g, v, line[i]) || Later(line, i, v)
  {
    ReachEdge(g, line[i], v);
    assert Node(g, v);
    if !Reach(g, v, line[i]) {
      assert MustFollow(g, line[i], v);
    }
  }

  /** Everything that is linked directly is there. */
  ghost predicate DirectOnLine(p: Project, s: Items, line: seq<int>) {
    forall x :: NamedDirectly(p, x) && Linkable(p, x) ==> x in s.index && s.index[x] in line
  }

  // ---- how often each entry stands on the line ----

  /** An entry of a shared library is there once at most, any other at least as often as it is linked directly. */
  ghost predicate SharedLibrariesOnce(p: Project, s: Items, line: seq<int>) {
    forall i :: 0 <= i < |s.entries| ==>
      if s.entries[i].target.Some? && p.targetTypes(s.entries[i].target.value).SharedLibrary?
      then multiset(line)[i] <= 1
      else multiset(s.original)[i] <= multiset(line)[i]
  }

  /** Entry v is in a cycle with x, or it is x. */
  ghost predicate Together(s: Items, x: int, v: int) {
    0 <= v < |s.entries| && Mutual(s.graph, x, v)
  }

  ghost predicate NoSharedLibrary(p: Project, s: Items, x: int) {
    forall v :: Together(s, x, v) && s.entries[v].target.Some? ==>
      !p.targetTypes(s.entries[v].target.value).SharedLibrary?
  }

  /** An interface in the cycle of x declares multiplicity k. */
  ghost predicate Declared(p: Project, s: Items, x: int, k: int) {
    exists v :: Together(s, x, v) && s.entries[v].target.Some? && s.entries[v].target.value in p.interfaces
      && p.interfaces[s.entries[v].target.value].multiplicity == k
  }

  /** The entries of a cycle without shared libraries come in two passes, or in as many as an interface declares. */
  ghost predicate CyclesRepeated(p: Project, s: Items, line: seq<int>) {
    forall x, k :: x in line && PassesAsked(p, s, x, k) ==> HasPasses(line, Cycle(s.graph, x), k)
  }

  ghost predicate PassesAsked(p: Project, s: Items, x: int, k: int) {
    && (exists y :: Together(s, x, y) && y != x) && NoSharedLibrary(p, s, x)
    && (k == 2 || Declared(p, s, x, k))
  }

  /** k passes are enough for the cycle of x. */
  ghost predicate Enough(p: Project, s: Items, x: int, k: int) {
    if forall v :: Together(s, x, v) ==> v == x then k >= 1
    else k >= 2 && forall m :: Declared(p, s, x, m) ==> m <= k
  }

  /** Beyond where it is linked directly, no entry is there more often than passes are needed. */
  ghost predicate RepeatsNeeded(p: Project, s: Items, line: seq<int>) {
    forall x, k :: 0 <= x < |s.entries| && Enough(p, s, x, k) ==> multiset(line)[x] <= multiset(s.original)[x] + k
  }

  // ---- in which order they stand there ----

  /** The line begins with what is linked directly, as it is given, without the shared libraries that come again. */
  ghost predicate GivenFirst(p: Project, s: Items, line: seq<int>) {
    exists places :: |places| <= |line| && PlacedIn(s.original, line, places)
      && forall q :: 0 <= q < |s.original| && 0 <= s.original[q] < |s.entries| ==>
           var e := s.entries[s.original[q]];
           var isShared := e.target.Some? && p.targetTypes(e.target.value).SharedLibrary?;
           (q !in places <==> isShared && ComesAgain(s.original, line, places, q))
  }

  ghost predicate StandsBefore(xs: seq<int>, a: int, b: int) {
    exists q, r :: 0 <= q < r < |xs| && xs[q] == a && xs[r] == b
  }

  /** The objects of the target, and those that one interface alone names, stand in the order of their lists. */
  ghost predicate ObjectsInOrder(p: Project, s: Items, objects: seq<int>) {
    && (forall j, k :: ObjectPair(s, p.implementation.objects, j, k) ==>
          BothInOrder(s, objects, p.implementation.objects[j], p.implementation.objects[k]))
    && (forall u, t, j, k :: InterfacePair(p, s, u, t, j, k) ==>
          BothInOrder(s, objects, p.interfaces[t].objects[j], p.interfaces[t].objects[k]))
  }

  /** They are the entries of object files, each once. */
  ghost predicate ObjectsOnce(s: Items, objects: seq<int>) {
    && (forall i :: i in objects <==> 0 <= i < |s.entries| && s.entries[i].isObject)
    && forall j, k :: 0 <= j < k < |objects| ==> objects[j] != objects[k]
  }

  ghost predicate BothInOrder(s: Items, objects: seq<int>, x: Item, y: Item) {
    && x in s.index && y in s.index
    && (0 <= s.index[x] < |s.entries| && s.entries[s.index[x]].isObject ==>
          StandsBefore(objects, s.index[x], s.index[y]))
  }

  /** Libraries that one entry alone needs, and that do not need it, stand in the order in which it lists them. */
  ghost predicate LibrariesInOrder(p: Project, s: Items, line: seq<int>) {
    forall u, j, k :: LibraryPair(p, s, u, j, k) ==>
      var list := ListedBy(p, s.entries[u]);
      && list[j] in s.index && list[k] in s.index
      && (OnlyUnder(s.graph, u, s.index[list[j]]) && s.index[list[j]] !in s.original
          && !Reach(s.graph, s.index[list[k]], u) ==>
            AllBefore(line, s.index[list[j]], s.index[list[k]]))
  }

  /** Of two entries of a cycle that are not linked directly the one found first comes first, unless it is that of a
      shared library. */
  ghost predicate CyclesInOrder(p: Project, s: Items, line: seq<int>) {
    forall a, b :: CyclePair(p, s, a, b) ==> LeadsIn(line, a, b)
  }

  ghost predicate CyclePair(p: Project, s: Items, a: int, b: int) {
    && 0 <= a < b && a < |s.entries| && Together(s, a, b) && a !in s.original && b !in s.original
    && !(s.entries[a].target.Some? && p.targetTypes(s.entries[a].target.value).SharedLibrary?)
  }

  // ---- from the ordering half ----

  lemma {:induction false} CyclesFound(p: Project, s: Items, line: seq<int>)
    requires |s.graph| == |s.entries|
    requires CyclesAscend(s.graph, s.original, line, SharedFlags(p, s.entries))
    ensures CyclesInOrder(p, s, line)
  {
    var flags := SharedFlags(p, s.entries);
    forall i | 0 <= i < |s.entries| ensures Shared(flags, i) <==> IsSharedLibrary(p, s.entries[i]) {
    }
    hide Mutual, LeadsIn, Shared;
  }

  lemma {:induction false} GivenFound(p: Project, s: Items, line: seq<int>, places: seq<int>)
    requires FrontOf(s.original, line, SharedFlags(p, s.entries), places)
    ensures GivenFirst(p, s, line)
  {
    var flags := SharedFlags(p, s.entries);
    forall i | 0 <= i < |s.entries| ensures Shared(flags, i) <==> IsSharedLibrary(p, s.entries[i]) {
    }
    hide PlacedIn, ComesAgain, Shared;
  }

  lemma {:induction false} OnceFound(p: Project, s: Items, line: seq<int>)
    requires LinkDepends.SharedOnce(s.original, line, SharedFlags(p, s.entries))
    ensures SharedLibrariesOnce(p, s, line)
  {
    var flags := SharedFlags(p, s.entries);
    forall i | 0 <= i < |s.entries| ensures Shared(flags, i) <==> IsSharedLibrary(p, s.entries[i]) {
    }
  }

  lemma {:induction false} TogetherCycle(s: Items, x: int, v: int)
    requires |s.graph| == |s.entries|
    ensures Together(s, x, v) <==> v in Cycle(s.graph, x)
  {
  }

  lemma {:induction false} DeclaredMultiplicity(p: Project, s: Items, x: int, k: int)
    requires |s.graph| == |s.entries| && Declared(p, s, x, k)
    ensures exists v :: v in Cycle(s.graph, x) && v < |s.entries| && Multiplicities(p, s.entries)[v] == k
  {
    var v :| Together(s, x, v) && s.entries[v].target.Some? && s.entries[v].target.value in p.interfaces
      && p.interfaces[s.entries[v].target.value].multiplicity == k;
    TogetherCycle(s, x, v);
    assert Multiplicities(p, s.entries)[v] == k;
  }

  lemma {:induction false} PassesFound(p: Project, s: Items, line: seq<int>)
    requires |s.graph| == |s.entries|
    requires PassesExact(s.graph, Multiplicities(p, s.entries), line, SharedFlags(p, s.entries))
    requires forall i :: i in line ==> 0 <= i < |s.entries|
    ensures CyclesRepeated(p, s, line)
  {
    var g, multiplicity, flags := s.graph, Multiplicities(p, s.entries), SharedFlags(p, s.entries);
    forall x, k | x in line && PassesAsked(p, s, x, k) ensures HasPasses(line, Cycle(g, x), k) {
      var need := SomeNeed(g, multiplicity, x);
      var y :| Together(s, x, y) && y != x;
      TogetherCycle(s, x, y);
      NoneFlagged(p, s, x);
      hide Together, Cycle, NoSharedLibrary, Declared, HasPasses, Shared;
      if k != 2 {
        DeclaredMultiplicity(p, s, x, k);
      }
      assert Cycle(g, x) != {x};
      assert HasPasses(line, Cycle(g, x), need);
      FewerPasses(line, Cycle(g, x), k, need);
    }
  }

  lemma {:induction false} NoneFlagged(p: Project, s: Items, x: int)
    requires |s.graph| == |s.entries| && NoSharedLibrary(p, s, x)
    ensures forall v :: v in Cycle(s.graph, x) ==> !Shared(SharedFlags(p, s.entries), v)
  {
    hide Mutual;
    forall v | v in Cycle(s.graph, x) ensures !Shared(SharedFlags(p, s.entries), v) {
      TogetherCycle(s, x, v);
    }
  }

  lemma {:induction false} RepeatsFound(p: Project, s: Items, line: seq<int>)
    requires |s.graph| == |s.entries|
    requires LinkDepends.RepeatsLimited(s.graph, Multiplicities(p, s.entries), s.original, line)
    ensures RepeatsNeeded(p, s, line)
  {
    forall x, k | 0 <= x < |s.entries| && Enough(p, s, x, k)
      ensures multiset(line)[x] <= multiset(s.original)[x] + k
    {
      var need := SomeNeed(s.graph, Multiplicities(p, s.entries), x);
      NeedEnough(p, s, x, k, need);
      hide IsNeed, Enough;
      assert Node(s.graph, x);
    }
  }

  lemma {:induction false} NeedEnough(p: Project, s: Items, x: int, k: int, need: int)
    requires |s.graph| == |s.entries| && 0 <= x < |s.entries| && Enough(p, s, x, k)
    requires IsNeed(s.graph, Multiplicities(p, s.entries), x, need)
    ensures need <= k
  {
    ReachRefl(s.graph, x);
    hide Reach;
    forall v ensures Together(s, x, v) <==> v in Cycle(s.graph, x) {
      TogetherCycle(s, x, v);
    }
    if Cycle(s.graph, x) != {x} && need > 2 {
      var v :| v in Cycle(s.graph, x) && v < |s.entries| && Multiplicities(p, s.entries)[v] == need;
      assert MultiplicityOf(p, s.entries[v]) == need;
      assert Declared(p, s, x, need);
    }
  }

  lemma {:induction false} ObjectsExact(entries: seq<LinkEntry>, i: int)
    ensures i in ObjectsOf(entries) <==> 0 <= i < |entries| && entries[i].isObject
  {
    if |entries| > 0 {
      ObjectsExact(entries[..|entries| - 1], i);
    }
  }

  lemma {:induction false} ObjectsAscending(entries: seq<LinkEntry>)
    ensures forall j, k :: 0 <= j < k < |ObjectsOf(entries)| ==> ObjectsOf(entries)[j] < ObjectsOf(entries)[k]
    ensures forall j :: 0 <= j < |ObjectsOf(entries)| ==> ObjectsOf(entries)[j] < |entries|
  {
    if |entries| > 0 {
      ObjectsAscending(entries[..|entries| - 1]);
    }
  }

  lemma {:induction false} IndexStands(entries: seq<LinkEntry>, a: int, b: int)
    requires 0 <= a < b < |entries| && entries[a].isObject && entries[b].isObject
    ensures StandsBefore(ObjectsOf(entries), a, b)
  {
    ObjectsExact(entries, a);
    ObjectsExact(entries, b);
    ObjectsAscending(entries);
    var xs := ObjectsOf(entries);
    var q :| 0 <= q < |xs| && xs[q] == a;
    var r :| 0 <= r < |xs| && xs[r] == b;
    assert q < r;
  }

  lemma {:induction false} ObjectsFound(p: Project, s: Items)
    requires ListOrderKept(p, s)
    ensures ObjectsInOrder(p, s, ObjectsOf(s.entries)) && ObjectsOnce(s, ObjectsOf(s.entries))
  {
    hide StandsBefore, ObjectOfOnly;
    forall j, k | ObjectPair(s, p.implementation.objects, j, k)
      ensures BothInOrder(s, ObjectsOf(s.entries), p.implementation.objects[j], p.implementation.objects[k])
    {
      PairStands(s, p.implementation.objects, j, k);
    }
    forall u, t, j, k | InterfacePair(p, s, u, t, j, k)
      ensures BothInOrder(s, ObjectsOf(s.entries), p.interfaces[t].objects[j], p.interfaces[t].objects[k])
    {
      PairStands(s, p.interfaces[t].objects, j, k);
    }
    ObjectsAscending(s.entries);
    forall i ensures i in ObjectsOf(s.entries) <==> 0 <= i < |s.entries| && s.entries[i].isObject {
      ObjectsExact(s.entries, i);
    }
  }

  lemma {:induction false} PairStands(s: Items, objs: seq<Item>, j: int, k: int)
    requires ObjectPair(s, objs, j, k) && IndexedBefore(s, objs[j], objs[k])
    ensures BothInOrder(s, ObjectsOf(s.entries), objs[j], objs[k])
  {
    hide StandsBefore, ObjectsOf;
    var a, b := s.index[objs[j]], s.index[objs[k]];
    if 0 <= a < |s.entries| && s.entries[a].isObject {
      IndexStands(s.entries, a, b);
    }
  }

  lemma {:induction false} LibrariesFound(p: Project, s: Items, line: seq<int>)
    requires ListOrderKept(p, s) && EdgeOrderKept(s.graph, s.original, line) && |s.graph| == |s.entries|
    requires forall u :: 0 <= u < |s.graph| ==> OnePerDest(s.graph[u])
    requires forall u, j, k :: LibraryPair(p, s, u, j, k) ==>
      HasEdge(s.graph, u, s.index[ListedBy(p, s.entries[u])[k]])
    ensures LibrariesInOrder(p, s, line)
  {
    hide ListedBy, HasEdge, OnePerDest, Reach, AllBefore, Linkable;
    forall u, j, k | LibraryPair(p, s, u, j, k)
      ensures var list := ListedBy(p, s.entries[u]);
        && list[j] in s.index && list[k] in s.index
        && (OnlyUnder(s.graph, u, s.index[list[j]]) && s.index[list[j]] !in s.original
            && !Reach(s.graph, s.index[list[k]], u) ==>
              AllBefore(line, s.index[list[j]], s.index[list[k]]))
    {
      var list := ListedBy(p, s.entries[u]);
      assert IndexedBefore(s, list[j], list[k]);
      var a, b := s.index[list[j]], s.index[list[k]];
      if OnlyUnder(s.graph, u, a) && a !in s.original && !Reach(s.graph, b, u) {
        var m := LaterEdge(s.graph, u, a, b);
        assert SecondEdge(s.graph, u, m, a, b);
      }
    }
  }

  lemma {:induction false} LaterEdge(g: Graph, u: int, a: int, b: int) returns (m: int)
    requires HasEdge(g, u, b) && a < b && OnePerDest(g[u])
    ensures 0 <= u < |g| && 0 <= m < |g[u]| && g[u][m].dest == b && forall n :: m <= n < |g[u]| ==> g[u][n].dest != a
  {
    m :| 0 <= m < |g[u]| && g[u][m].dest == b;
  }

  lemma {:induction false} PairEdges(p: Project, s: Items, followed: seq<int>, handled: seq<SharedDepEntry>,
                                     steps: seq<SharedStep>)
    requires Explored(p, s, followed, handled, steps)
    ensures forall u, j, k :: LibraryPair(p, s, u, j, k) ==>
      HasEdge(s.graph, u, s.index[ListedBy(p, s.entries[u])[k]])
  {
    forall u, j, k | LibraryPair(p, s, u, j, k) ensures HasEdge(s.graph, u, s.index[ListedBy(p, s.entries[u])[k]]) {
      var y := ListedBy(p, s.entries[u])[k];
      var n := ListedIn(p, s.entries[u], y);
      LinkableExact(p, y);
      hide Explored, HasEdge, DependLists, Skipped;
      ListedLibrary(p, s, followed, handled, steps, u, n, y);
    }
  }

  /** Discovers the items and orders them. `objects` come first on the link line, then the libraries of `line`:
      exactly those that can be reached from a directly linked one, in a safe order, with the passes over each cycle. */
  method Compute(p: Project)
    returns (entries: seq<LinkEntry>, objects: seq<int>, line: seq<int>, final: seq<int>,
             ghost s: Items, ghost followed: seq<int>, ghost handled: seq<SharedDepEntry>, ghost steps: seq<SharedStep>)
    ensures Discovered(p, s, followed, handled, steps) && entries == s.entries && objects == ObjectsOf(entries)
    ensures final == objects + line && SafeLine(s.graph, line)
    ensures LinkDepends.OnLine(s.graph, s.original, line)
    ensures PassesExact(s.graph, Multiplicities(p, entries), line, SharedFlags(p, entries))
    ensures AsAskedFor(p, s, handled) && EntriesAsGiven(p, s) && OriginalAsGiven(p, s)
    ensures GivenFirst(p, s, line) && ListsRespected(p, s, line) && DirectOnLine(p, s, line)
    ensures SharedLibrariesOnce(p, s, line) && CyclesRepeated(p, s, line) && RepeatsNeeded(p, s, line)
    ensures ObjectsOnce(s, objects) && ObjectsKnown(p, s)
    ensures ObjectsInOrder(p, s, objects) && LibrariesInOrder(p, s, line) && CyclesInOrder(p, s, line)
    ensures EntryOrderKept(s.graph, s.original, line)
  {
    var items := new ComputeLinkItems(p);
    items.Discover();
    s, followed, handled, steps := items.Now(), items.followed, items.handled, items.steps;
    entries, objects := items.entryList, items.objectEntries;
    OriginalInRange(p, s);
    hide *;
    GraphFound(p, s, followed, handled, steps);
    line, final := Order(p, entries, items.entryConstraintGraph, items.originalEntries, objects, s);
    AskedFor(p, s, followed, handled, steps);
    LineRespectsLists(p, s, handled, line);
    DirectStays(p, s, handled, line);
    PairEdges(p, s, followed, handled, steps);
    EntriesKept(p, s);
    OriginalGiven(p, s, followed);
    ObjectsFound(p, s);
    LibrariesFound(p, s, line);
  }

  lemma GraphFound(p: Project, s: Items, followed: seq<int>, handled: seq<SharedDepEntry>, steps: seq<SharedStep>)
    requires Discovered(p, s, followed, handled, steps)
    ensures WellFormed(s.graph) && |s.graph| == |s.entries|
    ensures Explored(p, s, followed, handled, steps) && ListOrderKept(p, s) && Indexed(p, s) && ListsKnown(p, s)
    ensures ListsFollow(p, s, followed) && s.original == OriginalOf(s.lists)
  {
  }

  /** The ordering half, for the entries and the constraint graph that have been found. */
  method Order(p: Project, entries: seq<LinkEntry>, graph: Graph, original: seq<int>, objects: seq<int>, ghost s: Items)
    returns (line: seq<int>, final: seq<int>)
    requires entries == s.entries && graph == s.graph && original == s.original
    requires WellFormed(s.graph) && |s.graph| == |s.entries|
    requires forall k :: 0 <= k < |s.original| ==> 0 <= s.original[k] < |s.entries|
    ensures final == objects + line && SafeLine(s.graph, line) && LinkDepends.OnLine(s.graph, s.original, line)
    ensures PassesExact(s.graph, Multiplicities(p, s.entries), line, SharedFlags(p, s.entries))
    ensures SharedLibrariesOnce(p, s, line) && CyclesRepeated(p, s, line) && RepeatsNeeded(p, s, line)
    ensures EdgeOrderKept(s.graph, s.original, line) && EntryOrderKept(s.graph, s.original, line)
    ensures GivenFirst(p, s, line) && CyclesInOrder(p, s, line)
  {
    var multiplicity := Multiplicities(p, entries);
    var isShared := SharedFlags(p, entries);
    assert |multiplicity| == |entries|;
    hide *;
    var order := new LinkDepends.ComputeLinkDepends(graph, multiplicity, original);
    final := order.Compute(objects, isShared);
    line := final[|objects|..];
    assert line == KeepLast(order.finalLinkOrder, isShared);
    ghost var places := FrontFound(original, order.finalLinkOrder, isShared);
    GivenFound(p, s, line, places);
    OnceFound(p, s, line);
    LineInRange(s, line);
    PassesFound(p, s, line);
    RepeatsFound(p, s, line);
    CyclesFound(p, s, line);
  }

  lemma {:induction false} LineInRange(s: Items, line: seq<int>)
    requires WellFormed(s.graph) && |s.graph| == |s.entries| && LinkDepends.OnLine(s.graph, s.original, line)
    requires forall k :: 0 <= k < |s.original| ==> 0 <= s.original[k] < |s.entries|
    ensures forall i :: i in line ==> 0 <= i < |s.entries|
  {
    forall i | i in line ensures 0 <= i < |s.entries| {
      assert FromRoots(s.graph, s.original, i);
      var k :| 0 <= k < |s.original| && Reach(s.graph, s.original[k], i);
      ReachNode(s.graph, s.original[k], i);
    }
  }

  lemma OriginalOnLine(g: Graph, original: seq<int>, line: seq<int>, x: int)
    requires LinkDepends.OnLine(g, original, line) && x in original && Node(g, x)
    ensures x in line
  {
    ReachRefl(g, x);
    var k :| 0 <= k < |original| && original[k] == x;
    assert FromRoots(g, original, x);
  }

  lemma {:induction false} DirectStays(p: Project, s: Items, handled: seq<SharedDepEntry>, line: seq<int>)
    requires AsAskedFor(p, s, handled) && LinkDepends.OnLine(s.graph, s.original, line)
    requires |s.graph| == |s.entries| && forall k :: 0 <= k < |s.original| ==> 0 <= s.original[k] < |s.entries|
    ensures DirectOnLine(p, s, line)
  {
    hide NamedDirectly, Linkable, LinkDepends.OnLine;
    forall x | NamedDirectly(p, x) && Linkable(p, x) ensures x in s.index && s.index[x] in line {
      OriginalOnLine(s.graph, s.original, line, s.index[x]);
    }
  }
}
