/** In which order entries that do not need each other stand on the link line. */
module LineOrder {
  import opened Graphs
  import opened TarjanWalk
  import opened ComponentNumbers
  import opened ComponentGraph
  import opened ComponentTheory
  import opened ComponentPlaces
  import opened LinkSchedule
  import opened LinkOrder
  import opened LinkDrain
  import opened LinkLine
  import opened LinkRuns

  /** Wherever a and b stand on the line, a stands first. */
  ghost predicate AllBefore(line: seq<int>, a: int, b: int) {
    forall q, r :: 0 <= q < |line| && 0 <= r < |line| && line[q] == a && line[r] == b ==> q < r
  }

  /** Only u has edges to a, and a does not lead back to u. */
  ghost predicate OnlyUnder(g: Graph, u: int, a: int) {
    HasEdge(g, u, a) && !Reach(g, a, u) && forall v :: HasEdge(g, v, a) ==> v == u
  }

  /** Entries that only u needs, and that are not linked directly, come in the order of the edges of u. */
  ghost predicate EdgeOrderKept(g: Graph, original: seq<int>, line: seq<int>) {
    forall u, m, a, b :: SecondEdge(g, u, m, a, b) && a !in original && b !in original ==> AllBefore(line, a, b)
  }

  /** Edge m of u leads to b, and none from number m up to a. */
  ghost predicate SecondEdge(g: Graph, u: int, m: int, a: int, b: int) {
    && OnlyUnder(g, u, a) && OnlyUnder(g, u, b) && 0 <= u < |g| && 0 <= m < |g[u]| && g[u][m].dest == b
    && forall n :: m <= n < |g[u]| ==> g[u][n].dest != a
  }

  /** Everything that leads to a is led to by an entry such that neither it nor an earlier one leads to y. */
  ghost predicate Earlier(g: Graph, a: int, y: int) {
    forall z :: Node(g, z) && Reach(g, z, a) ==> exists i :: Node(g, i) && Reach(g, i, z) && Unreached(g, i, y)
  }

  /** What is needed by earlier entries only comes before what a later one leads to. */
  ghost predicate EntryOrderKept(g: Graph, original: seq<int>, line: seq<int>) {
    forall y, a, b :: LaterEntry(g, y, a, b) && a !in original && b !in original ==> AllBefore(line, a, b)
  }

  ghost predicate LaterEntry(g: Graph, y: int, a: int, b: int) {
    Node(g, y) && Node(g, a) && Node(g, b) && Reach(g, y, b) && Earlier(g, a, y)
  }

  // ---- from the components to the entries ----

  /** The last edge of a walk to another node. */
  lemma {:induction false} LastEdgeTo(g: Graph, z: int, a: int) returns (v: int)
    requires Reach(g, z, a) && z != a
    ensures HasEdge(g, v, a) && Reach(g, z, v)
  {
    var p :| IsWalk(g, p) && p[0] == z && p[|p| - 1] == a;
    var q := p[..|p| - 1];
    v := q[|q| - 1];
    assert HasEdge(g, p[|p| - 2], p[|p| - 2 + 1]);
    assert IsWalk(g, q) by {
      forall k | 0 <= k < |q| - 1 ensures HasEdge(g, q[k], q[k + 1]) {
        assert HasEdge(g, p[k], p[k + 1]);
      }
    }
  }

  /** Whatever leads to a leads to u, except a itself. */
  lemma {:induction false} ThroughOnly(g: Graph, u: int, a: int, z: int)
    requires OnlyUnder(g, u, a) && Reach(g, z, a) && z != a
    ensures Reach(g, z, u)
  {
    var v := LastEdgeTo(g, z, a);
  }

  /** Such an entry is a component of its own. */
  lemma {:induction false} OwnComponent(g: Graph, l: Layout, u: int, a: int, w: int)
    requires LayoutFor(g, l) && OnlyUnder(g, u, a) && Node(g, a) && Node(g, w) && Node(g, u)
    ensures l.comp[w] == l.comp[a] ==> w == a
    ensures l.comp[u] != l.comp[a]
  {
    hide Reach, HasEdge, LayoutOk, IsComponentGraph, Decomposition;
    SameComponent(g, l.comp, l.components, w, a);
    SameComponent(g, l.comp, l.components, u, a);
    if Mutual(g, w, a) && w != a {
      ThroughOnly(g, u, a, w);
      ReachTrans(g, a, w, u);
    }
  }

  lemma {:induction false} SomeMember(g: Graph, l: Layout, c: int) returns (w: int)
    requires LayoutFor(g, l) && Node(l.cg, c)
    ensures Node(g, w) && l.comp[w] == c
  {
    assert ListOk(l.comp, l.components[c], c);
    w := l.components[c][0];
    assert w in l.components[c];
  }

  /** A component that leads to that of a leads to that of u, except the one of a itself. */
  lemma {:induction false} ThroughComponent(g: Graph, l: Layout, u: int, a: int, z: int)
    requires LayoutFor(g, l) && OnlyUnder(g, u, a) && Node(g, u) && Node(g, a) && Reach(l.cg, z, l.comp[a])
    ensures z == l.comp[a] || Reach(l.cg, z, l.comp[u])
  {
    if z != l.comp[a] {
      hide Reach, HasEdge, LayoutOk, OnlyUnder, LayoutFor;
      ReachSource(l.cg, z, l.comp[a]);
      var w := SomeMember(g, l, z);
      Layouts(g, l);
      hide IsComponentGraph, Decomposition;
      ComponentReach(g, l.comp, l.components, l.cg, w, a);
      ThroughOnly(g, u, a, w);
      ComponentReach(g, l.comp, l.components, l.cg, w, u);
    }
  }

  lemma Layouts(g: Graph, l: Layout)
    requires LayoutFor(g, l)
    ensures Decomposition(g, l.comp, l.components) && IsComponentGraph(g, l.comp, l.components, l.cg)
    ensures |l.comp| == |g| && |l.cg| == |l.components| == |l.order| && WellFormed(g) && LayoutOk(l)
    ensures forall x :: 0 <= x < |l.comp| ==> Node(l.cg, l.comp[x])
  {
  }

  lemma {:induction false} ReachSource(g: Graph, u: int, v: int)
    requires Reach(g, u, v) && u != v
    ensures Node(g, u)
  {
    var p :| IsWalk(g, p) && p[0] == u && p[|p| - 1] == v;
    assert HasEdge(g, p[0], p[0 + 1]);
  }

  lemma {:induction false} BelowComponent(g: Graph, l: Layout, u: int, a: int)
    requires LayoutFor(g, l) && OnlyUnder(g, u, a) && Node(g, u) && Node(g, a)
    ensures OnlyBelow(l.cg, l.comp[u], l.comp[a])
  {
    Layouts(g, l);
    ReachEdge(g, u, a);
    hide Reach, HasEdge, LayoutOk, LayoutFor, IsComponentGraph, Decomposition;
    ComponentReach(g, l.comp, l.components, l.cg, u, a);
    ComponentReach(g, l.comp, l.components, l.cg, a, u);
    var e, c := l.comp[u], l.comp[a];
    forall z | Reach(l.cg, z, c) && !Reach(l.cg, z, e) ensures z == c {
      ThroughComponent(g, l, u, a, z);
    }
    forall x, v | HasEdge(l.cg, x, v) && Reach(l.cg, v, c) && !Reach(l.cg, v, e) && Reach(l.cg, x, e) ensures x == e {
      ThroughComponent(g, l, u, a, v);
      EdgeInto(g, l, u, a, x);
    }
  }

  lemma {:induction false} EdgeInto(g: Graph, l: Layout, u: int, a: int, x: int)
    requires LayoutFor(g, l) && OnlyUnder(g, u, a) && Node(g, u) && Node(g, a) && HasEdge(l.cg, x, l.comp[a])
    ensures x == l.comp[u]
  {
    Layouts(g, l);
    hide Reach, LayoutOk, LayoutFor, IsComponentGraph, Decomposition, HasEdge;
    ComponentEdge(g, l.comp, l.components, l.cg, x, l.comp[a]);
    var w, v :| Crossing(g, l.comp, w, v, x, l.comp[a]);
    OwnComponent(g, l, u, a, v);
  }

  // ---- where the edges of one node are among those of its component ----

  lemma {:induction false} LeavingAt(edges: EdgeList, comp: seq<int>, c: int, k: nat, n: nat) returns (j: int)
    requires forall i :: 0 <= i < |edges| ==> 0 <= edges[i].dest < |comp|
    requires k <= |edges| && |Leaving(edges[..k], comp, c)| <= n < |Leaving(edges, comp, c)|
    ensures k <= j < |edges| && comp[edges[j].dest] != c && Leaving(edges, comp, c)[n].dest == comp[edges[j].dest]
    decreases |edges|
  {
    assert edges[..|edges|] == edges;
    var last := |edges| - 1;
    var init := edges[..last];
    assert init[..k] == edges[..k];
    if n < |Leaving(init, comp, c)| {
      j := LeavingAt(init, comp, c, k, n);
    } else {
      j := last;
    }
  }

  lemma {:induction false} LeavingPrefix(edges: EdgeList, comp: seq<int>, c: int, k: nat)
    requires forall i :: 0 <= i < |edges| ==> 0 <= edges[i].dest < |comp|
    requires k < |edges| && comp[edges[k].dest] != c
    ensures |Leaving(edges[..k], comp, c)| < |Leaving(edges, comp, c)|
    ensures Leaving(edges, comp, c)[|Leaving(edges[..k], comp, c)|].dest == comp[edges[k].dest]
    decreases |edges|
  {
    var last := |edges| - 1;
    if k < last {
      LeavingPrefix(edges[..last], comp, c, k);
      assert edges[..last][..k] == edges[..k];
    }
  }

  /** The place of edge k of u among the edges of component c. */
  ghost function PlaceOf(g: Graph, comp: seq<int>, c: int, u: int, k: int): (m: nat)
    requires WellFormed(g) && |comp| == |g| && Node(g, u) && 0 <= k <= |g[u]|
  {
    |Transferred(g, comp, c, u)| + |Leaving(g[u][..k], comp, c)|
  }

  lemma {:induction false} PlaceHolds(g: Graph, comp: seq<int>, c: int, u: int, k: int, n: nat)
    requires WellFormed(g) && |comp| == |g| && Node(g, u) && 0 <= k < |g[u]| && u < n <= |g|
    requires comp[u] == c && comp[g[u][k].dest] != c
    ensures PlaceOf(g, comp, c, u, k) < |Transferred(g, comp, c, n)|
    ensures Transferred(g, comp, c, n)[PlaceOf(g, comp, c, u, k)].dest == comp[g[u][k].dest]
    decreases n
  {
    if n == u + 1 {
      LeavingPrefix(g[u], comp, c, k);
    } else {
      PlaceHolds(g, comp, c, u, k, n - 1);
    }
  }

  /** From there on come only edges of u from number k up, and edges of later nodes. */
  lemma {:induction false} AfterPlace(g: Graph, comp: seq<int>, c: int, u: int, k: int, n: nat, m: int)
    returns (v: int, j: int)
    requires WellFormed(g) && |comp| == |g| && Node(g, u) && 0 <= k <= |g[u]| && u < n <= |g|
    requires comp[u] == c && PlaceOf(g, comp, c, u, k) <= m < |Transferred(g, comp, c, n)|
    ensures u <= v < n && comp[v] == c && 0 <= j < |g[v]| && (v == u ==> k <= j)
    ensures comp[g[v][j].dest] != c && Transferred(g, comp, c, n)[m].dest == comp[g[v][j].dest]
    decreases n
  {
    var before := Transferred(g, comp, c, n - 1);
    if m < |before| {
      assert n - 1 != u;
      v, j := AfterPlace(g, comp, c, u, k, n - 1, m);
    } else {
      v := n - 1;
      assert g[v][..0] == [];
      j := LeavingAt(g[v], comp, c, if v == u then k else 0, m - |before|);
    }
  }

  /** Edges of u decide about the components that only they lead to. */
  lemma {:induction false} EdgePlaced(g: Graph, l: Layout, u: int, m: int, a: int, b: int)
    requires LayoutFor(g, l) && SecondEdge(g, u, m, a, b) && Node(g, a) && Node(g, b)
    ensures LastEdge(l.cg, l.comp[u], PlaceOf(g, l.comp, l.comp[u], u, m), l.comp[a], l.comp[b])
  {
    Layouts(g, l);
    var e := l.comp[u];
    var place := PlaceOf(g, l.comp, e, u, m);
    BelowComponent(g, l, u, a);
    OwnComponent(g, l, u, b, b);
    PlaceHolds(g, l.comp, e, u, m, |g|);
    ReachRefl(l.cg, l.comp[b]);
    forall n | place <= n < |l.cg[e]| ensures !Reach(l.cg, l.cg[e][n].dest, l.comp[a]) {
      NotThere(g, l, u, m, a, b, n);
    }
    hide Reach, LayoutOk, OnlyUnder, Decomposition, PlaceOf, Transferred;
  }

  lemma {:induction false} NotThere(g: Graph, l: Layout, u: int, m: int, a: int, b: int, n: int)
    requires LayoutFor(g, l) && SecondEdge(g, u, m, a, b) && Node(g, a) && |l.comp| == |g| && WellFormed(g)
    requires Node(l.cg, l.comp[u]) && PlaceOf(g, l.comp, l.comp[u], u, m) <= n < |l.cg[l.comp[u]]|
    ensures !Reach(l.cg, l.cg[l.comp[u]][n].dest, l.comp[a])
  {
    Layouts(g, l);
    var e := l.comp[u];
    assert l.cg[e] == Transferred(g, l.comp, e, |g|);
    var v, j := AfterPlace(g, l.comp, e, u, m, |g|, n);
    var d := l.cg[e][n].dest;
    EdgeAt(l.cg, e, n);
    EdgeAt(g, v, j);
    var w := g[v][j].dest;
    hide Reach, LayoutOk, LayoutFor, IsComponentGraph, Decomposition, HasEdge, PlaceOf, Transferred;
    if Reach(l.cg, d, l.comp[a]) {
      ThroughComponent(g, l, u, a, d);
      if d == l.comp[a] {
        OwnComponent(g, l, u, a, w);
      } else {
        ReachEdge(l.cg, e, d);
        ComponentGraphAcyclic(g, l.comp, l.components, l.cg, e, d);
      }
    }
  }

  // ---- from the components to the line ----

  /** The drained tail follows the order of the components. */
  lemma {:induction false} TailBefore(l: Layout, original: seq<int>, line: seq<int>, a: int, b: int)
    requires LayoutOk(l) && LineOk(l, line) && original <= line && TailSorted(l, |original|, line)
    requires 0 <= a < |l.comp| && 0 <= b < |l.comp| && OrderOf(l, a) < OrderOf(l, b)
    requires a !in original && b !in original
    ensures AllBefore(line, a, b)
  {
    hide LayoutOk, OrderOf;
    forall q, r | 0 <= q < |line| && 0 <= r < |line| && line[q] == a && line[r] == b ensures q < r {
      assert forall k :: 0 <= k < |original| ==> line[k] == original[k];
    }
  }

  lemma {:induction false} EdgesOnLine(g: Graph, l: Layout, original: seq<int>, line: seq<int>)
    requires LayoutFor(g, l) && LineOk(l, line) && original <= line && TailSorted(l, |original|, line)
    requires LaterEdgeLast(l.cg, l.order)
    ensures EdgeOrderKept(g, original, line)
  {
    Layouts(g, l);
    forall u, m, a, b | SecondEdge(g, u, m, a, b) && a !in original && b !in original ensures AllBefore(line, a, b) {
      EdgeNode(g, u, a);
      EdgeNode(g, u, b);
      EndNode(g, u, a);
      EndNode(g, u, b);
      EdgePlaced(g, l, u, m, a, b);
      hide LayoutFor, LayoutOk, SecondEdge, LastEdge, TailSorted, AllBefore;
      TailBefore(l, original, line, a, b);
    }
  }

  lemma EndNode(g: Graph, u: int, v: int)
    requires WellFormed(g) && HasEdge(g, u, v)
    ensures Node(g, v)
  {
  }

  lemma {:induction false} EntriesOnLine(g: Graph, l: Layout, original: seq<int>, line: seq<int>)
    requires LayoutFor(g, l) && LineOk(l, line) && original <= line && TailSorted(l, |original|, line)
    requires LaterNodeLast(l.cg, l.order) && EarlierNodeFirst(g, l.comp)
    ensures EntryOrderKept(g, original, line)
  {
    Layouts(g, l);
    forall y, a, b | LaterEntry(g, y, a, b) && a !in original && b !in original ensures AllBefore(line, a, b) {
      hide LayoutFor, LayoutOk, TailSorted, AllBefore, Reach, IsComponentGraph, Decomposition, Earlier;
      ComponentReach(g, l.comp, l.components, l.cg, y, b);
      EntryPlaced(g, l, y, a);
      TailBefore(l, original, line, a, b);
    }
  }

  lemma {:induction false} EntryPlaced(g: Graph, l: Layout, y: int, a: int)
    requires LayoutFor(g, l) && EarlierNodeFirst(g, l.comp) && Node(g, y) && Node(g, a) && Earlier(g, a, y)
    ensures |l.comp| == |g| && UnreachedFrom(l.cg, l.comp[y], l.comp[a])
  {
    Layouts(g, l);
    hide LayoutFor, LayoutOk, Reach, IsComponentGraph, Decomposition;
    forall c | l.comp[y] <= c < |l.cg| ensures !Reach(l.cg, c, l.comp[a]) {
      if Reach(l.cg, c, l.comp[a]) {
        var w := SomeMember(g, l, c);
        ComponentReach(g, l.comp, l.components, l.cg, w, a);
      }
    }
  }

  // ---- the filter keeps the order ----

  lemma {:induction false} KeepLastBefore(line: seq<int>, shared: seq<bool>, a: int, b: int)
    requires AllBefore(line, a, b)
    ensures AllBefore(KeepLast(line, shared), a, b)
  {
    if |line| > 0 {
      var t := line[1..];
      forall q, r | 0 <= q < |t| && 0 <= r < |t| && t[q] == a && t[r] == b ensures q < r {
        assert line[q + 1] == a && line[r + 1] == b;
      }
      KeepLastBefore(t, shared, a, b);
      if line[0] == b {
        assert a !in t by {
          assert forall q :: 0 <= q < |t| ==> t[q] == line[q + 1];
        }
        KeepLastSame(t, shared, a);
        assert a != b;
      }
      hide Shared;
      BeforeCons(line[0], KeepLast(t, shared), a, b);
    }
  }

  lemma {:induction false} BeforeCons(h: int, t: seq<int>, a: int, b: int)
    requires AllBefore(t, a, b) && (h == b ==> a !in t && a != b)
    ensures AllBefore([h] + t, a, b)
  {
    var line := [h] + t;
    forall q, r | 0 <= q < |line| && 0 <= r < |line| && line[q] == a && line[r] == b ensures q < r {
      assert q > 0 ==> line[q] == t[q - 1] && t[q - 1] in t;
      assert r > 0 ==> line[r] == t[r - 1];
    }
  }

  lemma {:induction false} OrderStays(g: Graph, original: seq<int>, line: seq<int>, shared: seq<bool>)
    requires EdgeOrderKept(g, original, line) && EntryOrderKept(g, original, line)
    ensures EdgeOrderKept(g, original, KeepLast(line, shared)) && EntryOrderKept(g, original, KeepLast(line, shared))
  {
    hide SecondEdge, LaterEntry, AllBefore, KeepLast;
    forall u, m, a, b | SecondEdge(g, u, m, a, b) && a !in original && b !in original
      ensures AllBefore(KeepLast(line, shared), a, b)
    {
      KeepLastBefore(line, shared, a, b);
    }
    forall y, a, b | LaterEntry(g, y, a, b) && a !in original && b !in original
      ensures AllBefore(KeepLast(line, shared), a, b)
    {
      KeepLastBefore(line, shared, a, b);
    }
  }

  // ---- the entries of one cycle ----

  /** Before b stands on the line for the first time, a does. */
  ghost predicate LeadsIn(line: seq<int>, a: int, b: int) {
    forall r :: 0 <= r < |line| && line[r] == b ==> a in line[..r]
  }

  /** Entries of one cycle that are not linked directly come in ascending order, except that of a shared one only the
      last place remains. */
  ghost predicate CyclesAscend(g: Graph, original: seq<int>, line: seq<int>, shared: seq<bool>) {
    forall a, b :: 0 <= a < b < |g| && Mutual(g, a, b) && a !in original && b !in original && !Shared(shared, a) ==>
      LeadsIn(line, a, b)
  }

  /** If the component of v is pending and v has not been emitted, then v is waited for. */
  ghost predicate StillWaits(l: Layout, s: Schedule, v: int)
    requires LayoutOk(l) && 0 <= v < |l.comp|
  {
    v !in s.line && OrderOf(l, v) in s.pending ==> v in s.pending[OrderOf(l, v)].entries
  }

  lemma {:induction false} WaitsKept(l: Layout, s: Schedule, e: int, v: int)
    requires LayoutOk(l) && PendingOk(l, s.pending) && 0 <= e < |l.comp| && 0 <= v < |l.comp| && StillWaits(l, s, v)
    ensures StillWaits(l, VisitEntry(l, s, e), v)
  {
    var t, o := VisitEntry(l, s, e), OrderOf(l, v);
    if v !in t.line && o in t.pending {
      assert v !in s.line && v != e by {
        assert t.line == s.line + [e];
      }
      SeenEntry(l, s.pending, e);
      CgEdges(l, l.comp[e]);
      var (m, completed) := SeeEntry(l, s.pending, e);
      AllMadePending(l, m, l.cg[l.comp[e]]);
      MemberOf(l, l.comp[v], v);
      hide SeeEntry, MakeAllPending, PendingOk, Need;
      if completed && Targeted(l, l.cg[l.comp[e]], o) {
        SameOrder(l, t.pending[o].id, l.comp[v]);
      } else if o == OrderOf(l, e) {
        SameOrder(l, l.comp[v], l.comp[e]);
      }
    }
  }

  lemma {:induction false} LeadsMore(line: seq<int>, e: int, a: int, b: int)
    requires LeadsIn(line, a, b) && (e == b ==> a in line)
    ensures LeadsIn(line + [e], a, b)
  {
    var more := line + [e];
    forall r | 0 <= r < |more| && more[r] == b ensures a in more[..r] {
      assert r < |line| ==> more[..r] == line[..r];
      assert r == |line| ==> more[..r] == line;
    }
  }

  /** Of two entries of a cycle the drain loop takes the lesser first. */
  lemma {:induction false} RunAscends(l: Layout, start: int, xs: seq<int>, a: int, b: int)
    requires LayoutOk(l) && LineOk(l, xs) && (start <= |xs| ==> DrainRun(l, start, xs)) && 0 <= start
    requires 0 <= a < b < |l.comp| && l.comp[a] == l.comp[b]
    requires forall q :: 0 <= q < |xs| && q < start ==> xs[q] != a && xs[q] != b
    ensures LeadsIn(xs, a, b) && StillWaits(l, Emit(l, xs), a)
    decreases |xs|, 1
  {
    if |xs| > 0 {
      RunAscendsNext(l, start, xs, a, b);
    }
  }

  lemma {:induction false} RunAscendsNext(l: Layout, start: int, xs: seq<int>, a: int, b: int)
    requires LayoutOk(l) && LineOk(l, xs) && (start <= |xs| ==> DrainRun(l, start, xs)) && 0 <= start && |xs| > 0
    requires 0 <= a < b < |l.comp| && l.comp[a] == l.comp[b]
    requires forall q :: 0 <= q < |xs| && q < start ==> xs[q] != a && xs[q] != b
    ensures LeadsIn(xs, a, b) && StillWaits(l, Emit(l, xs), a)
    decreases |xs|, 0
  {
    var n := |xs| - 1;
    var init, e := xs[..n], xs[n];
    hide *;
    EmitLast(l, xs);
    RunBefore(l, start, xs, a, b);
    RunAscends(l, start, init, a, b);
    EmitInvariant(l, init);
    WaitsKept(l, Emit(l, init), e, a);
    LastTaken(l, start, xs, a, b);
    LeadsMore(init, e, a, b);
    assert init + [e] == xs;
  }

  lemma {:induction false} RunBefore(l: Layout, start: int, xs: seq<int>, a: int, b: int)
    requires LayoutOk(l) && LineOk(l, xs) && (start <= |xs| ==> DrainRun(l, start, xs)) && |xs| > 0
    requires forall q :: 0 <= q < |xs| && q < start ==> xs[q] != a && xs[q] != b
    ensures var init := xs[..|xs| - 1];
      && LineOk(l, init) && (start <= |init| ==> DrainRun(l, start, init))
      && (start < |xs| ==> NextEntry(Emit(l, init).pending, xs[|xs| - 1]))
      && forall q :: 0 <= q < |init| && q < start ==> init[q] != a && init[q] != b
  {
    if start < |xs| {
      RunShorter(l, start, xs);
    }
    hide LayoutOk, Emit, NextEntry, DrainRun;
  }

  lemma {:induction false} LastTaken(l: Layout, start: int, xs: seq<int>, a: int, b: int)
    requires LayoutOk(l) && |xs| > 0 && LineOk(l, xs[..|xs| - 1])
    requires 0 <= a < b < |l.comp| && l.comp[a] == l.comp[b]
    requires StillWaits(l, Emit(l, xs[..|xs| - 1]), a)
    requires start < |xs| ==> NextEntry(Emit(l, xs[..|xs| - 1]).pending, xs[|xs| - 1])
    requires |xs| <= start ==> xs[|xs| - 1] != b
    ensures xs[|xs| - 1] == b ==> a in xs[..|xs| - 1]
  {
    EmitInvariant(l, xs[..|xs| - 1]);
    hide *;
    if xs[|xs| - 1] == b {
      TakesLesser(l, Emit(l, xs[..|xs| - 1]), a, b);
    }
  }

  lemma {:induction false} TakesLesser(l: Layout, s: Schedule, a: int, b: int)
    requires LayoutOk(l) && PendingOk(l, s.pending) && NextEntry(s.pending, b)
    requires 0 <= a < b < |l.comp| && l.comp[a] == l.comp[b] && StillWaits(l, s, a)
    ensures a in s.line
  {
    var o :| IsFirst(s.pending, o) && IsLeast(s.pending[o].entries, b);
    assert PendingOkAt(l, o, s.pending[o]);
    MemberOf(l, s.pending[o].id, b);
    hide LayoutOk, PendingOk;
  }

  lemma {:induction false} LeadsFilter(line: seq<int>, shared: seq<bool>, a: int, b: int)
    requires LeadsIn(line, a, b) && !Shared(shared, a) && a != b
    ensures LeadsIn(KeepLast(line, shared), a, b)
  {
    if |line| > 0 && line[0] != a {
      var t := line[1..];
      forall r | 0 <= r < |t| && t[r] == b ensures a in t[..r] {
        assert line[r + 1] == b;
        assert line[..r + 1] == [line[0]] + t[..r];
      }
      LeadsFilter(t, shared, a, b);
      assert line[..0] == [];
      LeadsCons(line[0], KeepLast(t, shared), a, b);
    } else if |line| > 0 {
      assert KeepLast(line, shared)[0] == a;
      LeadsFirst(KeepLast(line, shared), a, b);
    }
  }

  lemma {:induction false} LeadsCons(h: int, t: seq<int>, a: int, b: int)
    requires LeadsIn(t, a, b) && h != b
    ensures LeadsIn([h] + t, a, b)
  {
    var line := [h] + t;
    forall r | 0 <= r < |line| && line[r] == b ensures a in line[..r] {
      assert line[r] == t[r - 1];
      assert line[..r] == [h] + t[..r - 1];
    }
  }

  lemma {:induction false} LeadsFirst(line: seq<int>, a: int, b: int)
    requires |line| > 0 && line[0] == a && a != b
    ensures LeadsIn(line, a, b)
  {
    forall r | 0 <= r < |line| && line[r] == b ensures a in line[..r] {
      assert line[..r][0] == a;
    }
  }

  lemma {:induction false} CyclesOnLine(g: Graph, l: Layout, original: seq<int>, line: seq<int>, shared: seq<bool>)
    requires LayoutFor(g, l) && LineOk(l, line) && original <= line && DrainRun(l, |original|, line)
    ensures CyclesAscend(g, original, KeepLast(line, shared), shared)
  {
    Layouts(g, l);
    hide LayoutFor, LayoutOk, DrainRun, KeepLast, LeadsIn, Decomposition, IsComponentGraph;
    forall a, b | 0 <= a < b < |g| && Mutual(g, a, b) && a !in original && b !in original && !Shared(shared, a)
      ensures LeadsIn(KeepLast(line, shared), a, b)
    {
      SameComponent(g, l.comp, l.components, a, b);
      assert forall q :: 0 <= q < |original| ==> line[q] == original[q];
      RunAscends(l, |original|, line, a, b);
      LeadsFilter(line, shared, a, b);
    }
  }
}
