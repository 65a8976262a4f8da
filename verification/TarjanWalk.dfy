/** Tarjan's algorithm as the source runs it: the state of one walk, the invariant every step keeps,
    and the steps themselves as functions on that state. */
module TarjanWalk {
  import opened Graphs

  datatype TarjanEntry = TarjanEntry(root: int, visitIndex: int)

  /** The algorithm's variables at one moment. */
  datatype Walk = Walk(
    visited: seq<int>,
    entries: seq<TarjanEntry>,
    comp: seq<int>,
    components: seq<NodeList>,
    stack: seq<int>,
    walkId: int,
    index: int)

  predicate Visited(s: Walk, x: int) {
    0 <= x < |s.visited| && s.visited[x] > 0
  }

  /** Assigned to a component. */
  predicate Done(s: Walk, x: int) {
    0 <= x < |s.comp| && s.comp[x] >= 0
  }

  /** Reached, and not yet assigned: these are the nodes on the stack. */
  predicate Open(s: Walk, x: int) {
    Visited(s, x) && 0 <= x < |s.comp| && s.comp[x] < 0
  }

  function Idx(s: Walk, x: int): int {
    if 0 <= x < |s.entries| then s.entries[x].visitIndex else 0
  }

  function Root(s: Walk, x: int): int {
    if 0 <= x < |s.entries| then s.entries[x].root else 0
  }

  ghost predicate Ascending(a: seq<int>) {
    forall i, j :: 0 <= i < j < |a| ==> a[i] < a[j]
  }

  // ---- the invariant, in independent parts ----

  ghost predicate Shape(g: Graph, s: Walk) {
    && WellFormed(g)
    && |s.visited| == |s.entries| == |s.comp| == |g|
    && s.walkId >= 0
    && (forall x :: 0 <= x < |g| ==> 0 <= s.visited[x] <= s.walkId)
    && (forall x :: 0 <= x < |g| ==> -1 <= s.comp[x] < |s.components|)
    && (forall x :: Done(s, x) ==> Visited(s, x))
    && (forall x :: Open(s, x) ==> s.visited[x] == s.walkId)
  }

  ghost predicate StackOk(s: Walk) {
    && (forall a :: 0 <= a < |s.stack| ==> Open(s, s.stack[a]))
    && (forall a, b :: 0 <= a < b < |s.stack| ==> Idx(s, s.stack[a]) < Idx(s, s.stack[b]))
    && (forall x :: Open(s, x) ==> x in s.stack && Idx(s, x) <= s.index)
  }

  ghost predicate RootsOk(g: Graph, s: Walk) {
    forall x {:trigger Root(s, x)} :: Open(s, x) ==>
      Open(s, Root(s, x)) && Idx(s, Root(s, x)) <= Idx(s, x) && Reach(g, x, Root(s, x))
  }

  /** `grey` are the nodes whose visit is still in progress. */
  ghost predicate GreyOk(g: Graph, s: Walk, grey: set<int>) {
    && (forall x :: x in grey ==> Open(s, x))
    && (forall x, y :: Visited(s, x) && x !in grey && HasEdge(g, x, y) ==> Visited(s, y))
  }

  // The next three speak of the finished part only: the component map and the component lists.

  /** Assigned nodes only lead to assigned nodes, of the same or an earlier component. */
  ghost predicate DoneClosed(g: Graph, comp: seq<int>) {
    forall x, y :: 0 <= x < |comp| && comp[x] >= 0 && HasEdge(g, x, y) ==>
      0 <= y < |comp| && 0 <= comp[y] <= comp[x]
  }

  ghost predicate SccsOk(g: Graph, comp: seq<int>) {
    forall x, y :: 0 <= x < |comp| && 0 <= y < |comp| && comp[x] >= 0 && comp[y] >= 0 ==>
      (comp[x] == comp[y] <==> Mutual(g, x, y))
  }

  ghost predicate ListsOk(comp: seq<int>, components: seq<NodeList>) {
    forall c :: 0 <= c < |components| ==> ListOk(comp, components[c], c)
  }

  ghost predicate ListOk(comp: seq<int>, list: NodeList, c: int) {
    |list| > 0 && Ascending(list) && forall x :: x in list <==> 0 <= x < |comp| && comp[x] == c
  }

  ghost predicate Finished(g: Graph, comp: seq<int>, components: seq<NodeList>) {
    DoneClosed(g, comp) && SccsOk(g, comp) && ListsOk(comp, components)
  }

  ghost predicate ReachesGrey(g: Graph, s: Walk, grey: set<int>, x: int) {
    exists h :: h in grey && Idx(s, h) <= Idx(s, x) && Reach(g, x, h)
  }

  ghost predicate ToGrey(g: Graph, s: Walk, grey: set<int>) {
    forall x {:trigger ReachesGrey(g, s, grey, x)} :: Open(s, x) ==> ReachesGrey(g, s, grey, x)
  }

  ghost predicate FromGrey(g: Graph, s: Walk, grey: set<int>) {
    forall h, x :: h in grey && Open(s, x) && Idx(s, h) <= Idx(s, x) ==> Reach(g, h, x)
  }

  ghost predicate Inv(g: Graph, s: Walk, grey: set<int>) {
    && Shape(g, s) && StackOk(s) && RootsOk(g, s) && GreyOk(g, s, grey)
    && ToGrey(g, s, grey) && FromGrey(g, s, grey) && Finished(g, s.comp, s.components)
  }

  // ---- what a stretch of the walk leaves alone ----

  ghost predicate Extends(s: Walk, t: Walk) {
    && |t.visited| == |s.visited| && |t.entries| == |s.entries| && |t.comp| == |s.comp|
    && t.walkId == s.walkId && t.index >= s.index
    && s.stack <= t.stack && s.components <= t.components
    && (forall x :: Visited(s, x) && x < |s.entries| && x < |s.comp| ==>
          t.visited[x] == s.visited[x] && t.entries[x] == s.entries[x] && t.comp[x] == s.comp[x])
    && (forall x :: Open(t, x) && !Visited(s, x) ==> Idx(t, x) > s.index)
  }

  /** No stacked node from i upwards has an edge to a stacked node below i's root. */
  ghost predicate LowOk(g: Graph, s: Walk, i: int) {
    forall x, y :: Open(s, x) && Idx(s, i) <= Idx(s, x) && HasEdge(g, x, y) && Open(s, y) ==>
      Idx(s, Root(s, i)) <= Idx(s, y)
  }

  /** The same while the edges of i itself have been followed only up to number e. */
  ghost predicate LowUpTo(g: Graph, s: Walk, i: int, e: int) {
    && 0 <= i < |g| && 0 <= e <= |g[i]|
    && (forall x, y :: Open(s, x) && Idx(s, i) <= Idx(s, x) && x != i && HasEdge(g, x, y) && Open(s, y) ==>
          Idx(s, Root(s, i)) <= Idx(s, y))
    && (forall k :: 0 <= k < e ==> Visited(s, g[i][k].dest))
    && (forall k :: 0 <= k < e && Open(s, g[i][k].dest) ==> Idx(s, Root(s, i)) <= Idx(s, g[i][k].dest))
  }

  /** The outcome of visiting i from state s: assigned, or left on the stack under an older root. */
  ghost predicate VisitedFrom(g: Graph, s: Walk, t: Walk, grey: set<int>, i: int) {
    && Inv(g, t, grey) && Extends(s, t) && Visited(t, i)
    && (Done(t, i) ==> t.stack == s.stack)
    && (Open(t, i) ==> Idx(t, i) == s.index + 1 && Visited(s, Root(t, i)) && LowOk(g, t, i))
  }

  ghost predicate MayVisit(g: Graph, s: Walk, grey: set<int>, i: int) {
    && Inv(g, s, grey) && Node(g, i) && !Visited(s, i) && s.walkId > 0
    && (forall h :: h in grey ==> Reach(g, h, i))
  }

  // ---- the steps ----

  ghost predicate Sized(g: Graph, s: Walk) {
    |s.visited| == |s.entries| == |s.comp| == |g|
  }

  function Push(s: Walk, i: int): Walk
    requires 0 <= i < |s.visited| && |s.visited| == |s.entries| == |s.comp|
  {
    s.(visited := s.visited[i := s.walkId],
       entries := s.entries[i := TarjanEntry(i, s.index + 1)],
       comp := s.comp[i := -1],
       index := s.index + 1,
       stack := s.stack + [i])
  }

  function SetRoot(s: Walk, i: int, r: int): Walk
    requires 0 <= i < |s.entries|
  {
    s.(entries := s.entries[i := s.entries[i].(root := r)])
  }

  /** t is s after everything on the stack from position k up has become one new component rooted at i. */
  ghost predicate Popped(s: Walk, t: Walk, i: int, k: int) {
    && 0 <= k <= |s.stack|
    && |s.visited| == |s.entries| == |s.comp|
    && t.visited == s.visited && t.walkId == s.walkId && t.index == s.index
    && |t.entries| == |s.entries| && |t.comp| == |s.comp|
    && t.stack == s.stack[..k]
    && (forall x :: 0 <= x < |s.comp| ==>
          && t.comp[x] == (if x in s.stack[k..] then |s.components| else s.comp[x])
          && t.entries[x] == (if x in s.stack[k..] then s.entries[x].(root := i) else s.entries[x]))
    && |t.components| == |s.components| + 1 && s.components <= t.components
    && Ascending(t.components[|s.components|])
    && (forall x :: x in t.components[|s.components|] <==> x in s.stack[k..])
  }

  // ---- pushing a node ----

  lemma PushFacts(g: Graph, s: Walk, i: int)
    requires Shape(g, s) && Node(g, i) && !Visited(s, i) && s.walkId > 0
    ensures Push(s, i).comp == s.comp
    ensures forall x :: Visited(Push(s, i), x) <==> x == i || Visited(s, x)
    ensures forall x :: Open(Push(s, i), x) <==> x == i || Open(s, x)
    ensures forall x :: x != i ==> Idx(Push(s, i), x) == Idx(s, x) && Root(Push(s, i), x) == Root(s, x)
    ensures Idx(Push(s, i), i) == s.index + 1 && Root(Push(s, i), i) == i
    ensures Shape(g, Push(s, i))
  {
    assert !Done(s, i);
  }

  lemma PushStack(g: Graph, s: Walk, i: int)
    requires Shape(g, s) && Node(g, i) && !Visited(s, i) && s.walkId > 0 && StackOk(s)
    ensures StackOk(Push(s, i)) && Extends(s, Push(s, i))
  {
    PushFacts(g, s, i);
    var t := Push(s, i);
    assert forall a :: 0 <= a < |s.stack| ==> t.stack[a] == s.stack[a] && s.stack[a] != i;
    assert Extends(s, t);
    hide Shape, Extends, Open, Idx;
    forall x | Open(t, x) ensures x in t.stack {
      assert t.stack[|s.stack|] == i;
    }
  }

  lemma PushGrey(g: Graph, s: Walk, grey: set<int>, i: int)
    requires MayVisit(g, s, grey, i)
    ensures ToGrey(g, Push(s, i), grey + {i}) && FromGrey(g, Push(s, i), grey + {i})
  {
    hide Reach, HasEdge, Finished, RootsOk;
    var t := Push(s, i);
    PushFacts(g, s, i);
    ReachRefl(g, i);
    forall x | Open(t, x)
      ensures ReachesGrey(g, t, grey + {i}, x)
    {
      if x != i {
        assert ReachesGrey(g, s, grey, x);
        var h :| h in grey && Idx(s, h) <= Idx(s, x) && Reach(g, x, h);
        assert h in grey + {i} && Idx(t, h) <= Idx(t, x);
      } else {
        assert i in grey + {i};
      }
    }
  }

  lemma PushRoots(g: Graph, s: Walk, grey: set<int>, i: int)
    requires MayVisit(g, s, grey, i)
    ensures RootsOk(g, Push(s, i)) && GreyOk(g, Push(s, i), grey + {i})
  {
    hide Reach, HasEdge, Finished, ToGrey, FromGrey, StackOk, Push;
    PushFacts(g, s, i);
    ReachRefl(g, i);
  }

  lemma PushLow(g: Graph, s: Walk, grey: set<int>, i: int)
    requires MayVisit(g, s, grey, i)
    ensures LowUpTo(g, Push(s, i), i, 0)
  {
    hide Reach, HasEdge, Finished, ToGrey, FromGrey, RootsOk, Push, GreyOk;
    PushFacts(g, s, i);
  }

  lemma PushInv(g: Graph, s: Walk, grey: set<int>, i: int)
    requires MayVisit(g, s, grey, i)
    ensures Inv(g, Push(s, i), grey + {i}) && Extends(s, Push(s, i))
    ensures LowUpTo(g, Push(s, i), i, 0)
  {
    hide Reach, HasEdge, Finished, ToGrey, FromGrey, StackOk, Extends, RootsOk, GreyOk, LowUpTo;
    PushFacts(g, s, i);
    PushStack(g, s, i);
    PushRoots(g, s, grey, i);
    PushGrey(g, s, grey, i);
    PushLow(g, s, grey, i);
  }

  // ---- following the edges of i ----

  /** The situation inside the visit of i that began in state s, after e of its edges. */
  ghost predicate Following(g: Graph, s: Walk, t: Walk, grey: set<int>, i: int, e: int) {
    && Within(g, s, t, grey, i)
    && LowUpTo(g, t, i, e)
  }

  ghost predicate Within(g: Graph, s: Walk, t: Walk, grey: set<int>, i: int) {
    && Inv(g, t, grey + {i}) && Extends(s, t)
    && s.stack + [i] <= t.stack
    && Open(t, i) && Idx(t, i) == s.index + 1
  }

  /** Like `LowUpTo`, where the root of the node j just looked at may be needed as the bound. */
  ghost predicate LowPending(g: Graph, s: Walk, i: int, j: int, e: int) {
    && 0 <= i < |g| && 0 <= e < |g[i]| && g[i][e].dest == j && Visited(s, j)
    && (forall x, y :: Open(s, x) && Idx(s, i) <= Idx(s, x) && x != i && HasEdge(g, x, y) && Open(s, y) ==>
          Bounded(s, i, j, y))
    && (forall k :: 0 <= k < e ==> Visited(s, g[i][k].dest))
    && (forall k :: 0 <= k < e && Open(s, g[i][k].dest) ==> Bounded(s, i, j, g[i][k].dest))
  }

  ghost predicate Bounded(s: Walk, i: int, j: int, y: int) {
    Idx(s, Root(s, i)) <= Idx(s, y) || (Open(s, j) && Idx(s, Root(s, j)) <= Idx(s, y))
  }

  /** The comparison of roots after edge i -> j has been dealt with. */
  function Relax(s: Walk, i: int, j: int): Walk
    requires 0 <= i < |s.entries|
  {
    if !Done(s, j) && Idx(s, Root(s, j)) < Idx(s, Root(s, i)) then SetRoot(s, i, Root(s, j)) else s
  }

  lemma StartFollowing(g: Graph, s: Walk, grey: set<int>, i: int)
    requires MayVisit(g, s, grey, i)
    ensures Following(g, s, Push(s, i), grey, i, 0)
  {
    hide Reach, HasEdge, Inv, Extends, LowUpTo, Push;
    assert Shape(g, s) by { hide *; MayVisitShape(g, s, grey, i); }
    PushInv(g, s, grey, i);
    PushFacts(g, s, i);
    assert Push(s, i).stack == s.stack + [i] by { hide *; PushStackIs(s, i); }
  }

  lemma PushStackIs(s: Walk, i: int)
    requires 0 <= i < |s.visited| && |s.visited| == |s.entries| == |s.comp|
    ensures Push(s, i).stack == s.stack + [i]
  {
  }

  lemma MayVisitShape(g: Graph, s: Walk, grey: set<int>, i: int)
    requires MayVisit(g, s, grey, i)
    ensures Shape(g, s) && StackOk(s) && GreyOk(g, s, grey) && Node(g, i) && !Visited(s, i) && s.walkId > 0
    ensures forall h :: h in grey ==> Reach(g, h, i)
  {
  }

  lemma ChildMayVisit(g: Graph, s: Walk, t: Walk, grey: set<int>, i: int, e: int)
    requires MayVisit(g, s, grey, i) && Following(g, s, t, grey, i, e)
    requires e < |g[i]| && !Visited(t, g[i][e].dest)
    ensures MayVisit(g, t, grey + {i}, g[i][e].dest)
  {
    hide Reach, Finished, ToGrey, FromGrey, StackOk, RootsOk, GreyOk;
    var j := g[i][e].dest;
    assert HasEdge(g, i, j);
    hide LowUpTo;
    ReachEdge(g, i, j);
    forall h | h in grey + {i}
      ensures Reach(g, h, j)
    {
      ReachRefl(g, i);
      ReachTrans(g, h, i, j);
    }
  }

  lemma SeenPending(g: Graph, s: Walk, t: Walk, grey: set<int>, i: int, e: int)
    requires Following(g, s, t, grey, i, e) && e < |g[i]| && Visited(t, g[i][e].dest)
    ensures LowPending(g, t, i, g[i][e].dest, e)
  {
    hide Reach, HasEdge, Finished, ToGrey, FromGrey, StackOk, RootsOk, GreyOk, Extends;
  }

  lemma ChildWithin(g: Graph, s: Walk, t: Walk, u: Walk, grey: set<int>, i: int, j: int)
    requires Within(g, s, t, grey, i) && VisitedFrom(g, t, u, grey + {i}, j)
    ensures Within(g, s, u, grey, i) && Root(u, i) == Root(t, i)
  {
    hide Reach, HasEdge, Finished, ToGrey, FromGrey, RootsOk, LowOk;
    ExtendsTrans(s, t, u);
    assert Open(u, i);
  }

  lemma ExtendsTrans(s: Walk, t: Walk, u: Walk)
    requires Extends(s, t) && Extends(t, u)
    requires |s.visited| == |s.entries| == |s.comp|
    ensures Extends(s, u)
  {
    assert forall x :: Visited(s, x) ==> Visited(t, x) && Visited(u, x);
  }

  /** What was on the stack before the child's visit still is, unchanged; what came later has a larger index. */
  lemma ChildFrame(g: Graph, t: Walk, u: Walk, grey: set<int>, j: int, x: int)
    requires Inv(g, t, grey) && VisitedFrom(g, t, u, grey, j) && Open(u, x)
    ensures Visited(t, x) ==> Open(t, x) && Idx(u, x) == Idx(t, x) <= t.index
    ensures !Visited(t, x) ==> Open(u, j) && Idx(u, j) <= Idx(u, x) && t.index < Idx(u, x)
  {
    hide Reach, HasEdge, Finished, ToGrey, FromGrey, RootsOk, GreyOk, LowOk;
    if Done(u, j) {
      assert x in u.stack;
    }
  }

  lemma ChildFacts(g: Graph, s: Walk, t: Walk, u: Walk, grey: set<int>, i: int, j: int)
    requires Within(g, s, t, grey, i) && VisitedFrom(g, t, u, grey + {i}, j)
    ensures Visited(u, j) && Idx(u, i) == Idx(t, i) && Root(u, i) == Root(t, i)
    ensures Idx(u, Root(u, i)) == Idx(t, Root(t, i)) <= Idx(t, i) <= t.index
  {
    hide Reach, HasEdge, Finished, ToGrey, FromGrey, GreyOk, LowOk;
    assert Visited(t, Root(t, i));
  }

  lemma ChildBound(g: Graph, s: Walk, t: Walk, u: Walk, grey: set<int>, i: int, e: int, x: int, y: int)
    requires Following(g, s, t, grey, i, e) && e < |g[i]|
    requires VisitedFrom(g, t, u, grey + {i}, g[i][e].dest)
    requires Open(u, x) && Idx(u, i) <= Idx(u, x) && x != i && HasEdge(g, x, y) && Open(u, y)
    ensures Bounded(u, i, g[i][e].dest, y)
  {
    hide Reach, HasEdge, Inv, Extends;
    var j := g[i][e].dest;
    ChildFacts(g, s, t, u, grey, i, j);
    ChildFrame(g, t, u, grey + {i}, j, x);
    ChildFrame(g, t, u, grey + {i}, j, y);
  }

  lemma ChildPending(g: Graph, s: Walk, t: Walk, u: Walk, grey: set<int>, i: int, e: int)
    requires Following(g, s, t, grey, i, e) && e < |g[i]|
    requires VisitedFrom(g, t, u, grey + {i}, g[i][e].dest)
    ensures LowPending(g, u, i, g[i][e].dest, e)
  {
    hide Reach, HasEdge, Inv, VisitedFrom, Within, Bounded;
    var j := g[i][e].dest;
    ChildFacts(g, s, t, u, grey, i, j);
    forall x, y | Open(u, x) && Idx(u, i) <= Idx(u, x) && x != i && HasEdge(g, x, y) && Open(u, y)
      ensures Bounded(u, i, j, y)
    {
      ChildBound(g, s, t, u, grey, i, e, x, y);
    }
    forall k | 0 <= k < e
      ensures Visited(u, g[i][k].dest)
      ensures Open(u, g[i][k].dest) ==> Bounded(u, i, j, g[i][k].dest)
    {
      ChildEdge(g, s, t, u, grey, i, e, k);
    }
  }

  lemma ChildEdge(g: Graph, s: Walk, t: Walk, u: Walk, grey: set<int>, i: int, e: int, k: int)
    requires Following(g, s, t, grey, i, e) && 0 <= k < e < |g[i]|
    requires VisitedFrom(g, t, u, grey + {i}, g[i][e].dest)
    ensures Visited(u, g[i][k].dest)
    ensures Open(u, g[i][k].dest) ==> Bounded(u, i, g[i][e].dest, g[i][k].dest)
  {
    hide Reach, HasEdge, Inv;
    var j := g[i][e].dest;
    var y := g[i][k].dest;
    assert Visited(t, y);
    ChildFacts(g, s, t, u, grey, i, j);
    assert Visited(u, y) by { hide Inv, LowOk; assert Sized(g, t) by { SizedOf(g, t, grey + {i}); } }
    if Open(u, y) {
      ChildFrame(g, t, u, grey + {i}, j, y);
    }
  }

  lemma SizedOf(g: Graph, s: Walk, grey: set<int>)
    requires Inv(g, s, grey)
    ensures Sized(g, s)
  {
  }

  // ---- comparing roots ----

  /** u is t with another root for i: everything but that root reads the same. */
  ghost predicate Rerooted(t: Walk, u: Walk, i: int, r: int) {
    && u.comp == t.comp && u.components == t.components && u.stack == t.stack && u.walkId == t.walkId
    && u.index == t.index && u.visited == t.visited && |u.entries| == |t.entries|
    && (forall x :: Visited(u, x) == Visited(t, x)) && (forall x :: Open(u, x) == Open(t, x))
    && (forall x :: Idx(u, x) == Idx(t, x)) && (forall x :: x != i ==> Root(u, x) == Root(t, x))
    && Root(u, i) == r
    && (forall x :: x != i && 0 <= x < |t.entries| ==> u.entries[x] == t.entries[x])
  }

  lemma SetRootRerooted(t: Walk, i: int, r: int)
    requires 0 <= i < |t.entries|
    ensures Rerooted(t, SetRoot(t, i, r), i, r)
  {
  }

  lemma RerootedStack(g: Graph, t: Walk, u: Walk, grey: set<int>, i: int, r: int)
    requires Rerooted(t, u, i, r) && Shape(g, t) && StackOk(t) && GreyOk(g, t, grey)
    ensures Shape(g, u) && StackOk(u) && GreyOk(g, u, grey)
  {
    hide HasEdge;
  }

  lemma RerootedReach(g: Graph, t: Walk, u: Walk, grey: set<int>, i: int, r: int)
    requires Rerooted(t, u, i, r) && ToGrey(g, t, grey) && FromGrey(g, t, grey) && RootsOk(g, t)
    requires Reach(g, i, r) && Open(t, r) && Idx(t, r) <= Idx(t, i)
    ensures ToGrey(g, u, grey) && FromGrey(g, u, grey) && RootsOk(g, u)
  {
    hide Reach;
    forall x | Open(u, x) ensures ReachesGrey(g, u, grey, x) {
      assert ReachesGrey(g, t, grey, x);
    }
  }

  lemma RerootedInv(g: Graph, t: Walk, u: Walk, grey: set<int>, i: int, r: int)
    requires Rerooted(t, u, i, r) && Inv(g, t, grey)
    requires Reach(g, i, r) && Open(t, r) && Idx(t, r) <= Idx(t, i)
    ensures Inv(g, u, grey)
  {
    hide Reach, HasEdge, Finished, Shape, StackOk, GreyOk, ToGrey, FromGrey, RootsOk;
    RerootedStack(g, t, u, grey, i, r);
    RerootedReach(g, t, u, grey, i, r);
  }

  lemma RerootedExtends(s: Walk, t: Walk, u: Walk, i: int, r: int)
    requires Rerooted(t, u, i, r) && Extends(s, t) && !Visited(s, i)
    ensures Extends(s, u)
  {
  }

  lemma RootFacts(g: Graph, t: Walk, grey: set<int>, i: int, j: int)
    requires Inv(g, t, grey) && Open(t, j) && HasEdge(g, i, j)
    ensures Open(t, Root(t, j)) && Reach(g, i, Root(t, j)) && Idx(t, Root(t, j)) <= Idx(t, j)
  {
    hide Finished, StackOk, GreyOk, ToGrey, FromGrey;
    ReachEdge(g, i, j);
    ReachTrans(g, i, j, Root(t, j));
  }

  lemma WithinFacts(g: Graph, s: Walk, t: Walk, grey: set<int>, i: int)
    requires Within(g, s, t, grey, i)
    ensures 0 <= i < |t.entries| && Sized(g, t)
    ensures Open(t, i) && Open(t, Root(t, i)) && Idx(t, Root(t, i)) <= Idx(t, i)
  {
    hide Finished, StackOk, GreyOk, ToGrey, FromGrey, Extends;
  }

  lemma RelaxInv(g: Graph, s: Walk, t: Walk, grey: set<int>, i: int, j: int)
    requires Within(g, s, t, grey, i) && HasEdge(g, i, j) && Visited(t, j) && !Visited(s, i)
    ensures 0 <= i < |t.entries|
    ensures Within(g, s, Relax(t, i, j), grey, i)
  {
    WithinFacts(g, s, t, grey, i);
    var u := Relax(t, i, j);
    if u != t {
      var r := Root(t, j);
      SetRootRerooted(t, i, r);
      RootFacts(g, t, grey + {i}, i, j);
      hide Reach, HasEdge, Inv, Extends, SetRoot;
      RerootedInv(g, t, u, grey + {i}, i, r);
      RerootedExtends(s, t, u, i, r);
    }
  }

  lemma RelaxLow(g: Graph, t: Walk, i: int, j: int, e: int)
    requires LowPending(g, t, i, j, e) && 0 <= i < |t.entries| && |t.visited| == |t.comp|
    requires Open(t, j) ==> Idx(t, Root(t, j)) <= Idx(t, j)
    requires Open(t, Root(t, i))
    ensures LowUpTo(g, Relax(t, i, j), i, e + 1)
  {
    hide HasEdge;
    var u := Relax(t, i, j);
    if u != t {
      SetRootRerooted(t, i, Root(t, j));
      hide SetRoot;
    }
  }

  /** One more edge of i is dealt with. */
  lemma RelaxFollowing(g: Graph, s: Walk, t: Walk, grey: set<int>, i: int, e: int)
    requires Within(g, s, t, grey, i) && !Visited(s, i) && Node(g, i) && 0 <= e < |g[i]|
    requires LowPending(g, t, i, g[i][e].dest, e)
    ensures 0 <= i < |t.entries|
    ensures Following(g, s, Relax(t, i, g[i][e].dest), grey, i, e + 1)
  {
    var j := g[i][e].dest;
    assert HasEdge(g, i, j);
    WithinFacts(g, s, t, grey, i);
    RelaxInv(g, s, t, grey, i, j);
    if Open(t, j) {
      RootFacts(g, t, grey + {i}, i, j);
    }
    hide Inv, Extends, Relax, Within;
    RelaxLow(g, t, i, j, e);
  }

  // ---- leaving i on the stack ----

  /** The last edge of i has been followed. */
  ghost predicate Followed(g: Graph, s: Walk, t: Walk, grey: set<int>, i: int) {
    Node(g, i) && Following(g, s, t, grey, i, |g[i]|)
  }

  lemma FollowedEdge(g: Graph, s: Walk, t: Walk, grey: set<int>, i: int, x: int, y: int)
    requires Followed(g, s, t, grey, i) && Open(t, x) && Idx(t, i) <= Idx(t, x) && HasEdge(g, x, y)
    ensures Open(t, y) ==> Idx(t, Root(t, i)) <= Idx(t, y)
  {
    hide Inv, Extends;
    if x == i {
      var k :| 0 <= k < |g[i]| && g[i][k].dest == y;
    }
  }

  lemma FollowedVisited(g: Graph, s: Walk, t: Walk, grey: set<int>, i: int, x: int, y: int)
    requires Followed(g, s, t, grey, i) && Visited(t, x) && x !in grey && HasEdge(g, x, y)
    ensures Visited(t, y)
  {
    hide Finished, StackOk, ToGrey, FromGrey, RootsOk, Extends;
    if x == i {
      var k :| 0 <= k < |g[i]| && g[i][k].dest == y;
    }
  }

  /** What is on the stack is older than i exactly when it was there before the visit of i. */
  lemma Older(g: Graph, s: Walk, t: Walk, grey: set<int>, i: int, x: int)
    requires MayVisit(g, s, grey, i) && Within(g, s, t, grey, i) && Open(t, x)
    ensures Visited(s, x) <==> Idx(t, x) < Idx(t, i)
    ensures Visited(s, x) ==> Open(s, x) && Idx(s, x) == Idx(t, x)
    ensures Idx(t, x) == Idx(t, i) ==> x == i
  {
    hide Finished, ToGrey, FromGrey, RootsOk, GreyOk, Reach, HasEdge;
    assert x in t.stack && i in t.stack;
    if Visited(s, x) {
      assert t.entries[x] == s.entries[x] && t.comp[x] == s.comp[x];
      assert Open(s, x);
    }
  }

  lemma LeaveGrey(g: Graph, s: Walk, t: Walk, grey: set<int>, i: int)
    requires MayVisit(g, s, grey, i) && Followed(g, s, t, grey, i) && Root(t, i) != i
    ensures ToGrey(g, t, grey)
  {
    hide Reach, HasEdge, Finished, StackOk, FromGrey, RootsOk, Extends, MayVisit, LowUpTo;
    WithinFacts(g, s, t, grey, i);
    var r := Root(t, i);
    RootFactsSelf(g, t, grey + {i}, i);
    Older(g, s, t, grey, i, r);
    assert ToGrey(g, t, grey + {i});
    hide Inv;
    forall x | Open(t, x) ensures ReachesGrey(g, t, grey, x) {
      assert ReachesGrey(g, t, grey + {i}, x);
      var h :| h in grey + {i} && Idx(t, h) <= Idx(t, x) && Reach(g, x, h);
      if h == i {
        assert ReachesGrey(g, t, grey + {i}, r);
        var h' :| h' in grey + {i} && Idx(t, h') <= Idx(t, r) && Reach(g, r, h');
        ReachTrans(g, x, i, r);
        ReachTrans(g, x, r, h');
      }
    }
  }

  lemma RootFactsSelf(g: Graph, t: Walk, grey: set<int>, i: int)
    requires Inv(g, t, grey) && Open(t, i)
    ensures Open(t, Root(t, i)) && Reach(g, i, Root(t, i)) && Idx(t, Root(t, i)) <= Idx(t, i)
  {
    hide Finished, StackOk, GreyOk, ToGrey, FromGrey;
  }

  lemma LeaveInv(g: Graph, s: Walk, t: Walk, grey: set<int>, i: int)
    requires MayVisit(g, s, grey, i) && Followed(g, s, t, grey, i) && Root(t, i) != i
    ensures Inv(g, t, grey)
  {
    LeaveGrey(g, s, t, grey, i);
    assert GreyOk(g, t, grey) by {
      forall x, y | Visited(t, x) && x !in grey && HasEdge(g, x, y) ensures Visited(t, y) {
        FollowedVisited(g, s, t, grey, i, x, y);
      }
      hide Finished, StackOk, ToGrey, FromGrey, RootsOk, Extends, Reach, HasEdge;
    }
    hide Finished, StackOk, ToGrey, RootsOk, Extends, Reach, HasEdge, GreyOk;
  }

  lemma Leave(g: Graph, s: Walk, t: Walk, grey: set<int>, i: int)
    requires MayVisit(g, s, grey, i) && Followed(g, s, t, grey, i) && Root(t, i) != i
    ensures VisitedFrom(g, s, t, grey, i)
  {
    LeaveInv(g, s, t, grey, i);
    WithinFacts(g, s, t, grey, i);
    Older(g, s, t, grey, i, Root(t, i));
    hide Inv, Extends, Reach, MayVisit;
    forall x, y | Open(t, x) && Idx(t, i) <= Idx(t, x) && HasEdge(g, x, y) && Open(t, y)
      ensures Idx(t, Root(t, i)) <= Idx(t, y)
    {
      FollowedEdge(g, s, t, grey, i, x, y);
    }
  }

  // ---- closing a component ----

  /** The nodes on the stack from i upwards: the component about to be closed. */
  ghost predicate Above(t: Walk, i: int, x: int) {
    Open(t, x) && Idx(t, i) <= Idx(t, x)
  }

  ghost function Confined(t: Walk, i: int): set<int> {
    set x | 0 <= x < |t.visited| && (Above(t, i, x) || Done(t, x))
  }

  lemma ConfinedClosed(g: Graph, s: Walk, t: Walk, grey: set<int>, i: int)
    requires MayVisit(g, s, grey, i) && Followed(g, s, t, grey, i) && Root(t, i) == i
    ensures Closed(g, Confined(t, i))
  {
    WithinFacts(g, s, t, grey, i);
    assert Sized(g, t);
    forall x, y | x in Confined(t, i) && HasEdge(g, x, y)
      ensures y in Confined(t, i)
    {
      if Done(t, x) {
        assert Done(t, y) && 0 <= y < |t.visited| by { DoneStays(g, t, grey + {i}, x, y); }
      } else {
        GreyBelow(g, s, t, grey, i, x);
        FollowedVisited(g, s, t, grey, i, x, y);
        FollowedEdge(g, s, t, grey, i, x, y);
      }
    }
  }

  lemma DoneStays(g: Graph, t: Walk, grey: set<int>, x: int, y: int)
    requires Inv(g, t, grey) && Done(t, x) && HasEdge(g, x, y)
    ensures Done(t, y) && 0 <= y < |t.visited| && t.comp[y] <= t.comp[x]
  {
    hide StackOk, ToGrey, FromGrey, RootsOk, Reach, HasEdge, GreyOk;
  }

  lemma GreyBelow(g: Graph, s: Walk, t: Walk, grey: set<int>, i: int, x: int)
    requires MayVisit(g, s, grey, i) && Within(g, s, t, grey, i) && Above(t, i, x)
    ensures x !in grey
  {
    Older(g, s, t, grey, i, x);
    hide Finished, StackOk, ToGrey, FromGrey, RootsOk, Extends, Reach, HasEdge;
  }

  /** Every node of the component reaches i and is reached from it. */
  lemma AboveMutual(g: Graph, s: Walk, t: Walk, grey: set<int>, i: int, x: int)
    requires MayVisit(g, s, grey, i) && Followed(g, s, t, grey, i) && Root(t, i) == i && Above(t, i, x)
    ensures Mutual(g, i, x)
  {
    ConfinedClosed(g, s, t, grey, i);
    assert Sized(g, t) by { WithinFacts(g, s, t, grey, i); }
    assert ReachesGrey(g, t, grey + {i}, x) && Reach(g, i, x) by {
      hide Finished, StackOk, RootsOk, Extends, Reach, GreyOk;
    }
    var h :| h in grey + {i} && Idx(t, h) <= Idx(t, x) && Reach(g, x, h);
    assert x in Confined(t, i);
    ReachStaysIn(g, Confined(t, i), x, h);
    if h != i {
      assert Open(t, h) by { hide Finished, StackOk, ToGrey, FromGrey, RootsOk, Extends, Reach; }
      GreyBelow(g, s, t, grey, i, h);
    }
  }

  lemma DoneReach(g: Graph, t: Walk, grey: set<int>, x: int, y: int)
    requires Inv(g, t, grey) && Done(t, x) && Reach(g, x, y)
    ensures Done(t, y)
  {
    var d := set z | 0 <= z < |t.comp| && Done(t, z);
    forall u, v | u in d && HasEdge(g, u, v) ensures v in d {
      DoneStays(g, t, grey, u, v);
    }
    ReachStaysIn(g, d, x, y);
  }

  /** u is t with the nodes above i turned into the next component. */
  ghost predicate Sealed(s: Walk, t: Walk, u: Walk, i: int) {
    && |t.visited| == |t.entries| == |t.comp|
    && u.visited == t.visited && u.walkId == t.walkId && u.index == t.index && u.stack == s.stack
    && |u.entries| == |t.entries| && |u.comp| == |t.comp|
    && |u.components| == |t.components| + 1 && t.components <= u.components
    && (forall x :: 0 <= x < |t.comp| ==> u.comp[x] == if Above(t, i, x) then |t.components| else t.comp[x])
    && (forall x :: 0 <= x < |t.comp| && !Above(t, i, x) ==> u.entries[x] == t.entries[x])
    && (forall x :: Idx(u, x) == Idx(t, x))
    && Ascending(u.components[|t.components|])
    && (forall x :: x in u.components[|t.components|] <==> Above(t, i, x))
  }

  lemma PoppedSealed(g: Graph, s: Walk, t: Walk, u: Walk, grey: set<int>, i: int)
    requires Within(g, s, t, grey, i) && Popped(t, u, i, |s.stack|)
    ensures Sealed(s, t, u, i)
  {
    hide HasEdge, Reach, Finished, ToGrey, FromGrey, RootsOk, GreyOk, Extends;
    forall x ensures x in t.stack[|s.stack|..] <==> Above(t, i, x) {
      StackAbove(g, s, t, grey, i, x);
    }
    hide StackOk, Above;
    assert u.stack == s.stack;
    forall x ensures Idx(u, x) == Idx(t, x) {
    }
  }

  lemma StackAbove(g: Graph, s: Walk, t: Walk, grey: set<int>, i: int, x: int)
    requires Within(g, s, t, grey, i)
    ensures x in t.stack[|s.stack|..] <==> Above(t, i, x)
  {
    hide HasEdge, Reach, Finished, ToGrey, FromGrey, RootsOk, GreyOk, Extends;
    var k := |s.stack|;
    assert t.stack[k] == (s.stack + [i])[k] == i;
    if Above(t, i, x) {
      var a :| 0 <= a < |t.stack| && t.stack[a] == x;
      assert a >= k;
      assert t.stack[k..][a - k] == x;
    }
    if x in t.stack[k..] {
      var a :| 0 <= a < |t.stack| - k && t.stack[k..][a] == x;
      assert t.stack[k + a] == x;
    }
  }

  lemma SealedFacts(g: Graph, s: Walk, t: Walk, u: Walk, i: int)
    requires Sealed(s, t, u, i) && Shape(g, t)
    ensures forall x :: Visited(u, x) == Visited(t, x)
    ensures forall x :: Open(u, x) <==> Open(t, x) && Idx(t, x) < Idx(t, i)
    ensures forall x :: Done(u, x) <==> Done(t, x) || Above(t, i, x)
    ensures forall x :: Open(u, x) ==> Root(u, x) == Root(t, x)
    ensures Shape(g, u)
  {
  }

  lemma SealedExtends(g: Graph, s: Walk, t: Walk, u: Walk, grey: set<int>, i: int)
    requires MayVisit(g, s, grey, i) && Within(g, s, t, grey, i) && Sealed(s, t, u, i)
    ensures Extends(s, u)
  {
    forall x | Visited(s, x)
      ensures u.visited[x] == s.visited[x] && u.entries[x] == s.entries[x] && u.comp[x] == s.comp[x]
    {
      if Open(t, x) {
        Older(g, s, t, grey, i, x);
      }
    }
    hide HasEdge, Reach, Finished, ToGrey, FromGrey, RootsOk, GreyOk, StackOk;
    SealedFacts(g, s, t, u, i);
  }

  lemma SealedStack(g: Graph, s: Walk, t: Walk, u: Walk, grey: set<int>, i: int)
    requires MayVisit(g, s, grey, i) && Within(g, s, t, grey, i) && Sealed(s, t, u, i)
    ensures StackOk(u)
  {
    hide HasEdge, Reach, Finished, ToGrey, FromGrey, RootsOk, GreyOk;
    SealedFacts(g, s, t, u, i);
    assert StackOk(t);
    forall a | 0 <= a < |u.stack| ensures Open(u, u.stack[a]) && u.stack[a] == t.stack[a] {
      assert t.stack[a] == (s.stack + [i])[a] == s.stack[a];
      assert t.stack[|s.stack|] == (s.stack + [i])[|s.stack|] == i;
    }
    forall x | Open(u, x) ensures x in u.stack {
      Older(g, s, t, grey, i, x);
    }
  }

  lemma SealedReach(g: Graph, s: Walk, t: Walk, u: Walk, grey: set<int>, i: int)
    requires MayVisit(g, s, grey, i) && Within(g, s, t, grey, i) && Sealed(s, t, u, i)
    ensures RootsOk(g, u) && ToGrey(g, u, grey) && FromGrey(g, u, grey)
  {
    hide HasEdge, Reach, Finished, StackOk, GreyOk, Extends, MayVisit;
    SealedFacts(g, s, t, u, i);
    hide Sealed;
    assert forall x :: Idx(u, x) == Idx(t, x) by { SealedIdx(s, t, u, i); }
    forall x | Open(u, x) ensures ReachesGrey(g, u, grey, x) {
      assert ReachesGrey(g, t, grey + {i}, x);
    }
  }

  lemma SealedIdx(s: Walk, t: Walk, u: Walk, i: int)
    requires Sealed(s, t, u, i)
    ensures forall x :: Idx(u, x) == Idx(t, x)
  {
  }

  lemma SealedGrey(g: Graph, s: Walk, t: Walk, u: Walk, grey: set<int>, i: int)
    requires MayVisit(g, s, grey, i) && Followed(g, s, t, grey, i) && Sealed(s, t, u, i)
    ensures GreyOk(g, u, grey)
  {
    hide HasEdge, Reach, Finished, StackOk, Extends, ToGrey, FromGrey, RootsOk, LowUpTo;
    SealedFacts(g, s, t, u, i);
    forall h | h in grey ensures Open(u, h) {
      assert Open(t, h);
      if Above(t, i, h) {
        GreyBelow(g, s, t, grey, i, h);
      }
    }
    forall x, y | Visited(u, x) && x !in grey && HasEdge(g, x, y) ensures Visited(u, y) {
      FollowedVisited(g, s, t, grey, i, x, y);
    }
  }

  lemma SealedDoneClosed(g: Graph, s: Walk, t: Walk, u: Walk, grey: set<int>, i: int)
    requires MayVisit(g, s, grey, i) && Followed(g, s, t, grey, i) && Root(t, i) == i && Sealed(s, t, u, i)
    ensures DoneClosed(g, u.comp)
  {
    hide HasEdge, Reach, Finished, StackOk, Extends, ToGrey, FromGrey, RootsOk, LowUpTo, GreyOk;
    SealedFacts(g, s, t, u, i);
    ConfinedClosed(g, s, t, grey, i);
    forall x, y | 0 <= x < |u.comp| && u.comp[x] >= 0 && HasEdge(g, x, y)
      ensures 0 <= y < |u.comp| && 0 <= u.comp[y] <= u.comp[x]
    {
      assert Done(u, x);
      assert x in Confined(t, i);
      assert y in Confined(t, i);
      if Done(t, x) {
        DoneStays(g, t, grey + {i}, x, y);
      }
    }
  }

  lemma SealedSccs(g: Graph, s: Walk, t: Walk, u: Walk, grey: set<int>, i: int)
    requires MayVisit(g, s, grey, i) && Followed(g, s, t, grey, i) && Root(t, i) == i && Sealed(s, t, u, i)
    ensures SccsOk(g, u.comp)
  {
    hide HasEdge, Reach, StackOk, Extends, ToGrey, FromGrey, RootsOk, LowUpTo, GreyOk, DoneClosed, ListsOk;
    SealedFacts(g, s, t, u, i);
    forall x, y | 0 <= x < |u.comp| && 0 <= y < |u.comp| && u.comp[x] >= 0 && u.comp[y] >= 0
      ensures u.comp[x] == u.comp[y] <==> Mutual(g, x, y)
    {
      assert Done(u, x) && Done(u, y);
      if Above(t, i, x) {
        AboveMutual(g, s, t, grey, i, x);
      }
      if Above(t, i, y) {
        AboveMutual(g, s, t, grey, i, y);
      }
      if Above(t, i, x) && Above(t, i, y) {
        ReachTrans(g, x, i, y);
        ReachTrans(g, y, i, x);
      } else if Mutual(g, x, y) {
        if Done(t, x) {
          DoneReach(g, t, grey + {i}, x, y);
        } else {
          DoneReach(g, t, grey + {i}, y, x);
        }
      }
    }
  }

  lemma SealedLists(g: Graph, s: Walk, t: Walk, u: Walk, grey: set<int>, i: int)
    requires Within(g, s, t, grey, i) && Sealed(s, t, u, i)
    ensures ListsOk(u.comp, u.components)
  {
    hide HasEdge, Reach, StackOk, Extends, ToGrey, FromGrey, RootsOk, GreyOk, DoneClosed, SccsOk;
    forall c | 0 <= c < |u.components| ensures ListOk(u.comp, u.components[c], c) {
      if c == |t.components| {
        assert Above(t, i, i);
      } else {
        assert ListOk(t.comp, t.components[c], c);
      }
    }
  }

  /** Closing the component of i ends its visit as promised. */
  lemma Close(g: Graph, s: Walk, t: Walk, u: Walk, grey: set<int>, i: int)
    requires MayVisit(g, s, grey, i) && Followed(g, s, t, grey, i) && Root(t, i) == i
    requires Popped(t, u, i, |s.stack|)
    ensures VisitedFrom(g, s, u, grey, i)
  {
    hide HasEdge, Reach, StackOk, Extends, ToGrey, FromGrey, RootsOk, GreyOk, DoneClosed, SccsOk, ListsOk, LowOk,
      Popped, MayVisit;
    PoppedSealed(g, s, t, u, grey, i);
    SealedExtends(g, s, t, u, grey, i);
    SealedStack(g, s, t, u, grey, i);
    SealedReach(g, s, t, u, grey, i);
    SealedGrey(g, s, t, u, grey, i);
    SealedDoneClosed(g, s, t, u, grey, i);
    SealedSccs(g, s, t, u, grey, i);
    SealedLists(g, s, t, u, grey, i);
    SealedFacts(g, s, t, u, i);
  }
}
