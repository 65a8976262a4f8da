/** One step-by-step account of the search that linearizes a component: the state it changes,
    what holds between its steps, and why each step keeps that. */
module ChainSearch {
  import opened Graphs
  import opened StrongWalks

  /** The fixed surroundings of a search: the graph, its components, the component, the root of
      the current search, and the nodes finished before it began. */
  datatype Context = Context(g: Graph, comp: seq<int>, c: int, r: int, before: set<int>)

  /** What the search changes, with the chain built so far (head first) and the walks it has taken. */
  datatype State = State(
    final: Graph,
    tail: seq<int>,
    head: int,
    emitted: set<int>,
    visited: set<int>,
    chain: seq<int>,
    rec: Record)

  /** The strong edges that stay in component c, in their original order. */
  function StrongEdges(edges: EdgeList, comp: seq<int>, c: int): EdgeList {
    if |edges| == 0 then []
    else
      var e := edges[|edges| - 1];
      StrongEdges(edges[..|edges| - 1], comp, c) + if Stays(e, comp, c) then [Edge(e.dest, true, e.cross)] else []
  }

  predicate Stays(e: Edge, comp: seq<int>, c: int) {
    e.strong && 0 <= e.dest < |comp| && comp[e.dest] == c
  }

  function Elements(chain: seq<int>): set<int> {
    set x | x in chain
  }

  /** Each node of the chain depends on the next one and, strongly, only on later ones. */
  ghost predicate ChainOk(g: Graph, comp: seq<int>, c: int, final: Graph, chain: seq<int>) {
    if |chain| == 0 then true
    else LinkOk(g, comp, c, final, chain[0], chain[1..]) && ChainOk(g, comp, c, final, chain[1..])
  }

  ghost predicate LinkOk(g: Graph, comp: seq<int>, c: int, final: Graph, x: int, rest: seq<int>) {
    && 0 <= x < |g| && |final| == |comp| == |g| && comp[x] == c && x !in rest
    && final[x] == StrongEdges(g[x], comp, c) + (if |rest| > 0 then [Edge(rest[0], false, false)] else [])
    && (forall k :: StrongStep(g, comp, c, x, k) ==> g[x][k].dest in rest)
  }

  ghost predicate Shape(ctx: Context, st: State) {
    WellFormed(ctx.g) && |ctx.comp| == |ctx.g| == |st.final| && 0 <= ctx.c < |st.tail|
  }

  ghost predicate HeadTail(ctx: Context, st: State)
    requires Shape(ctx, st)
  {
    && (|st.chain| == 0 ==> st.head == -1)
    && (|st.chain| > 0 ==> st.head == st.chain[0] && st.tail[ctx.c] == st.chain[|st.chain| - 1])
  }

  /** `path` are the nodes whose visit is in progress. */
  ghost predicate SetsOk(ctx: Context, st: State, path: set<int>)
    requires Shape(ctx, st)
  {
    && st.emitted == Elements(st.chain) + path && Elements(st.chain) !! path
    && ctx.before <= Elements(st.chain) && st.emitted - ctx.before <= st.visited
    && (forall x :: 0 <= x < |ctx.g| && ctx.comp[x] == ctx.c && x !in st.emitted ==> st.final[x] == [])
  }

  ghost predicate Good(ctx: Context, st: State, path: set<int>) {
    && Shape(ctx, st) && HeadTail(ctx, st) && SetsOk(ctx, st, path)
    && ChainOk(ctx.g, ctx.comp, ctx.c, st.final, st.chain)
    && RecordOk(ctx.g, ctx.comp, ctx.c, ctx.r, ctx.before, st.rec)
  }

  // ---- how far a visit may change things ----

  ghost predicate ChainGrows(st: State, st': State) {
    |st.chain| <= |st'.chain| && st'.chain[|st'.chain| - |st.chain|..] == st.chain
  }

  /** The walks already recorded stay; the new ones all go through i, and the new nodes are explored. */
  ghost predicate RecordGrows(ctx: Context, rec: Record, rec': Record, i: int) {
    && i in rec
    && (forall x :: x in rec ==> x in rec' && rec'[x] == rec[x])
    && (forall x :: x in rec' && x !in rec ==>
          rec[i] < rec'[x] && (x !in ctx.before ==> ExploredAll(ctx.g, ctx.comp, ctx.c, rec', x)))
  }

  ghost predicate Frame(ctx: Context, st: State, st': State, i: int) {
    && |st'.final| == |st.final| && |st'.tail| == |st.tail| && st.visited <= st'.visited
    && (forall d :: 0 <= d < |st.tail| && d != ctx.c ==> st'.tail[d] == st.tail[d])
    && (forall x :: 0 <= x < |st.final| && (x in st.chain || (x != i && x !in st'.chain)) ==>
          st'.final[x] == st.final[x])
  }

  ghost predicate Extended(ctx: Context, st: State, st': State, i: int) {
    ChainGrows(st, st') && RecordGrows(ctx, st.rec, st'.rec, i) && Frame(ctx, st, st', i)
  }

  // ---- entering a node ----

  /** i is about to be visited for the first time in this search; its walk is already recorded. */
  ghost predicate Entering(ctx: Context, st: State, path: set<int>, i: int) {
    && Good(ctx, st, path) && 0 <= i < |ctx.g| && ctx.comp[i] == ctx.c
    && i !in st.visited && i !in path && st.rec.Keys == st.visited + {i}
    && (forall k :: 0 <= k < |ctx.g[i]| ==> Unused(st.rec, i, k))
  }

  /** The visit of i has succeeded. */
  ghost predicate Linked(ctx: Context, st: State, st': State, path: set<int>, i: int) {
    && Good(ctx, st', path) && st'.rec.Keys == st'.visited && Extended(ctx, st, st', i)
    && i in st'.chain && (i !in ctx.before ==> ExploredAll(ctx.g, ctx.comp, ctx.c, st'.rec, i))
  }

  /** Between the edges of i: the first e of them have been dealt with. */
  ghost predicate Linking(ctx: Context, st: State, st': State, path: set<int>, i: int, e: int) {
    && 0 <= i < |ctx.g| && 0 <= e <= |ctx.g[i]| && i !in path && i !in ctx.before
    && Good(ctx, st', path + {i}) && st'.rec.Keys == st'.visited && Extended(ctx, st, st', i)
    && st'.final[i] == StrongEdges(ctx.g[i][..e], ctx.comp, ctx.c)
    && (forall k :: 0 <= k < e && StrongStep(ctx.g, ctx.comp, ctx.c, i, k) ==>
          Explored(ctx.g, st'.rec, i, k) && ctx.g[i][k].dest in st'.chain)
    && (forall k :: e <= k < |ctx.g[i]| ==> Unused(st'.rec, i, k))
  }

  function Visit(st: State, i: int): State {
    st.(visited := st.visited + {i})
  }

  function EmitNode(st: State, i: int): State {
    st.(visited := st.visited + {i}, emitted := st.emitted + {i})
  }

  lemma ExtendedRefl(ctx: Context, st: State, i: int)
    requires i in st.rec
    ensures Extended(ctx, st, Visit(st, i), i) && Extended(ctx, st, EmitNode(st, i), i)
  {
  }

  /** A node emitted by an earlier search is only marked. */
  lemma AlreadyEmitted(ctx: Context, st: State, path: set<int>, i: int)
    requires Entering(ctx, st, path, i) && i in st.emitted
    ensures Linked(ctx, st, Visit(st, i), path, i)
  {
    hide ChainOk, RecordOk, Extended;
    ExtendedRefl(ctx, st, i);
  }

  lemma StartLinking(ctx: Context, st: State, path: set<int>, i: int)
    requires Entering(ctx, st, path, i) && i !in st.emitted
    ensures Linking(ctx, st, EmitNode(st, i), path, i, 0)
  {
    hide ChainOk, RecordOk, Extended;
    ExtendedRefl(ctx, st, i);
    assert EmitNode(st, i).emitted == Elements(st.chain) + (path + {i});
  }

  /** An edge that is weak or leaves the component is passed over. */
  lemma PassEdge(ctx: Context, st: State, st': State, path: set<int>, i: int, e: int)
    requires Linking(ctx, st, st', path, i, e) && e < |ctx.g[i]| && !Stays(ctx.g[i][e], ctx.comp, ctx.c)
    ensures Linking(ctx, st, st', path, i, e + 1)
  {
    hide Good, Extended, RecordOk;
    assert ctx.g[i][..e + 1][..e] == ctx.g[i][..e];
  }

  // ---- following a strong edge ----

  /** The edge has been recorded in the final graph, and the walk along it in the record. */
  function TakeEdge(st: State, i: int, e: int, edge: Edge): State
    requires 0 <= i < |st.final| && i in st.rec
  {
    st.(final := st.final[i := st.final[i] + [Edge(edge.dest, true, edge.cross)]],
        rec := st.rec[edge.dest := st.rec[i] + [(i, e)]])
  }

  lemma {:induction false} ChainFrame(g: Graph, comp: seq<int>, c: int, final: Graph, final': Graph, chain: seq<int>)
    requires ChainOk(g, comp, c, final, chain) && |final'| == |final|
    requires forall x :: x in chain && 0 <= x < |final| ==> final'[x] == final[x]
    ensures ChainOk(g, comp, c, final', chain)
  {
    if |chain| > 0 {
      assert forall x :: x in chain[1..] ==> x in chain;
      assert chain[0] in chain;
      ChainFrame(g, comp, c, final, final', chain[1..]);
    }
  }

  lemma PathVisited(ctx: Context, st: State, path: set<int>)
    requires Shape(ctx, st) && SetsOk(ctx, st, path)
    ensures path <= st.visited
  {
  }

  lemma FreshUnused(ctx: Context, rec: Record, i: int, e: int, j: int, k: int)
    requires RecordOk(ctx.g, ctx.comp, ctx.c, ctx.r, ctx.before, rec) && i in rec && j !in rec
    ensures Unused(rec[j := rec[i] + [(i, e)]], j, k)
  {
    var rec' := rec[j := rec[i] + [(i, e)]];
    forall x | x in rec' && |rec'[x]| > 0 ensures rec'[x][|rec'[x]| - 1] != (j, k) {
      if x != j {
        assert RecordedAt(ctx.g, ctx.comp, ctx.c, ctx.r, ctx.before, rec, x);
      }
    }
  }

  lemma TakenGood(ctx: Context, st: State, path: set<int>, i: int, e: int)
    requires Good(ctx, st, path) && i in path && 0 <= i < |ctx.g| && 0 <= e < |ctx.g[i]| && i in st.rec
    requires Stays(ctx.g[i][e], ctx.comp, ctx.c) && ctx.comp[i] == ctx.c && ctx.g[i][e].dest !in st.rec
    ensures Good(ctx, TakeEdge(st, i, e, ctx.g[i][e]), path)
  {
    var t := TakeEdge(st, i, e, ctx.g[i][e]);
    assert StrongStep(ctx.g, ctx.comp, ctx.c, i, e);
    EnterRecord(ctx.g, ctx.comp, ctx.c, ctx.r, ctx.before, st.rec, i, e);
    hide RecordOk;
    assert i !in st.chain && i in st.emitted;
    ChainFrame(ctx.g, ctx.comp, ctx.c, st.final, t.final, st.chain);
    hide ChainOk, StrongStep, WellFormed;
  }

  lemma LinkingFacts(ctx: Context, st: State, st': State, path: set<int>, i: int, e: int)
    requires Linking(ctx, st, st', path, i, e)
    ensures Good(ctx, st', path + {i}) && st'.rec.Keys == st'.visited && i in st'.rec
    ensures path + {i} <= st'.visited && Node(ctx.g, i) && e >= 0
    ensures WellFormed(ctx.g) && |st'.final| == |ctx.comp| == |ctx.g|
  {
    hide StrongEdges, ChainOk, RecordOk, Explored, Unused, Extended;
    PathVisited(ctx, st', path + {i});
  }

  lemma VisitedGrows(ctx: Context, st: State, st': State, path: set<int>, i: int, e: int)
    requires Linking(ctx, st, st', path, i, e)
    ensures st.visited <= st'.visited
  {
    hide Good, ChainGrows, RecordGrows, StrongEdges, Explored, Unused;
  }

  lemma EnterChild(ctx: Context, st: State, st': State, path: set<int>, i: int, e: int)
    requires Linking(ctx, st, st', path, i, e) && e < |ctx.g[i]| && Stays(ctx.g[i][e], ctx.comp, ctx.c)
    requires ctx.g[i][e].dest !in st'.visited && ctx.comp[i] == ctx.c
    ensures i in st'.rec && Entering(ctx, TakeEdge(st', i, e, ctx.g[i][e]), path + {i}, ctx.g[i][e].dest)
  {
    hide Extended, StrongEdges, ChainOk, RecordOk, Explored, Unused, Good;
    var j := ctx.g[i][e].dest;
    LinkingFacts(ctx, st, st', path, i, e);
    hide Linking;
    TakenGood(ctx, st', path + {i}, i, e);
    var t := TakeEdge(st', i, e, ctx.g[i][e]);
    forall k | 0 <= k < |ctx.g[j]| ensures Unused(t.rec, j, k) {
      assert RecordOk(ctx.g, ctx.comp, ctx.c, ctx.r, ctx.before, st'.rec) by { GoodRecord(ctx, st', path + {i}); }
      FreshUnused(ctx, st'.rec, i, e, j, k);
    }
    assert t.rec.Keys == st'.rec.Keys + {j};
  }

  lemma GoodRecord(ctx: Context, st: State, path: set<int>)
    requires Good(ctx, st, path)
    ensures RecordOk(ctx.g, ctx.comp, ctx.c, ctx.r, ctx.before, st.rec)
  {
  }

  /** A node entered a second time: the search fails, and two strong walks meet there. */
  lemma EnteredTwice(ctx: Context, st: State, st': State, path: set<int>, i: int, e: int)
    requires Linking(ctx, st, st', path, i, e) && e < |ctx.g[i]| && Stays(ctx.g[i][e], ctx.comp, ctx.c)
    requires ctx.g[i][e].dest in st'.visited && ctx.comp[i] == ctx.c
    ensures Meeting(ctx.g, ctx.comp, ctx.c, ctx.r, ctx.before)
  {
    PathVisited(ctx, st', path + {i});
    assert StrongStep(ctx.g, ctx.comp, ctx.c, i, e);
    hide Extended, StrongEdges, ChainOk, Meeting, RecordOk, Explored, Unused;
    Entered(ctx.g, ctx.comp, ctx.c, ctx.r, ctx.before, st'.rec, i, e);
  }

  // ---- coming back from a child ----

  lemma ChainGrowsTrans(a: State, b: State, c: State)
    requires ChainGrows(a, b) && ChainGrows(b, c)
    ensures ChainGrows(a, c)
    ensures forall x :: x in a.chain ==> x in b.chain
    ensures forall x :: x in b.chain ==> x in c.chain
  {
    var n, m := |b.chain| - |a.chain|, |c.chain| - |b.chain|;
    assert c.chain[m..][n..] == c.chain[m + n..];
    ChainGrowsMember(a, b);
    ChainGrowsMember(b, c);
  }

  lemma ChainGrowsMember(a: State, b: State)
    requires ChainGrows(a, b)
    ensures forall x :: x in a.chain ==> x in b.chain
  {
    forall x | x in a.chain ensures x in b.chain {
      assert x in b.chain[|b.chain| - |a.chain|..];
    }
  }

  lemma RecordGrowsChild(ctx: Context, rec: Record, mid: Record, rec': Record, i: int, e: int, j: int)
    requires RecordGrows(ctx, rec, mid, i) && j !in mid && i in mid
    requires RecordGrows(ctx, mid[j := mid[i] + [(i, e)]], rec', j)
    requires j !in ctx.before ==> ExploredAll(ctx.g, ctx.comp, ctx.c, rec', j)
    ensures RecordGrows(ctx, rec, rec', i)
  {
    var mid' := mid[j := mid[i] + [(i, e)]];
    forall x | x in rec' && x !in rec
      ensures rec[i] < rec'[x] && (x !in ctx.before ==> ExploredAll(ctx.g, ctx.comp, ctx.c, rec', x))
    {
      if x in mid {
        assert rec'[x] == mid'[x] == mid[x];
        if x !in ctx.before {
          hide ExploredAll;
          ExploredMid(ctx, mid, mid', rec', i, j, x);
        }
      } else if x == j {
        assert rec'[j] == rec[i] + [(i, e)];
      } else {
        assert mid'[j] < rec'[x];
      }
    }
  }

  lemma ExploredMid(ctx: Context, mid: Record, mid': Record, rec': Record, i: int, j: int, x: int)
    requires ExploredAll(ctx.g, ctx.comp, ctx.c, mid, x) && RecordGrows(ctx, mid', rec', j)
    requires forall y :: y in mid ==> y in mid' && mid'[y] == mid[y]
    ensures ExploredAll(ctx.g, ctx.comp, ctx.c, rec', x)
  {
    forall k | StrongStep(ctx.g, ctx.comp, ctx.c, x, k) ensures Explored(ctx.g, rec', x, k) {
      assert Explored(ctx.g, mid, x, k);
    }
  }

  lemma FrameChild(ctx: Context, st: State, st': State, u: State, i: int, e: int, edge: Edge)
    requires 0 <= i < |st'.final| && i in st'.rec && i !in st.chain && i !in u.chain
    requires ChainGrows(st, st') && ChainGrows(st', u)
    requires Frame(ctx, st, st', i) && Frame(ctx, TakeEdge(st', i, e, edge), u, edge.dest) && edge.dest in u.chain
    ensures Frame(ctx, st, u, i)
    ensures u.final[i] == st'.final[i] + [Edge(edge.dest, true, edge.cross)]
  {
    ChainGrowsTrans(st, st', u);
    var t := TakeEdge(st', i, e, edge);
    forall x | 0 <= x < |st.final| && (x in st.chain || (x != i && x !in u.chain))
      ensures u.final[x] == st.final[x]
    {
      assert st'.final[x] == st.final[x];
      assert t.final[x] == st'.final[x];
    }
  }

  /** The new walks are too long to end with one of i's later edges. */
  lemma LaterUnused(ctx: Context, mid: Record, rec': Record, i: int, e: int, j: int, k: int)
    requires RecordOk(ctx.g, ctx.comp, ctx.c, ctx.r, ctx.before, rec') && i in mid && j !in mid
    requires RecordGrows(ctx, mid[j := mid[i] + [(i, e)]], rec', j)
    requires Unused(mid, i, k) && k != e
    ensures Unused(rec', i, k)
  {
    var mid' := mid[j := mid[i] + [(i, e)]];
    forall x | x in rec' && |rec'[x]| > 0 ensures rec'[x][|rec'[x]| - 1] != (i, k) {
      if x in mid {
        assert rec'[x] == mid'[x] == mid[x];
      } else if x != j {
        assert mid'[j] < rec'[x];
        assert RecordedAt(ctx.g, ctx.comp, ctx.c, ctx.r, ctx.before, rec', x);
        assert rec'[i] == mid[i];
      }
    }
  }

  lemma ChildFinished(ctx: Context, st: State, st': State, u: State, path: set<int>, i: int, e: int)
    requires Linking(ctx, st, st', path, i, e) && e < |ctx.g[i]| && Stays(ctx.g[i][e], ctx.comp, ctx.c)
    requires ctx.g[i][e].dest !in st'.visited && ctx.comp[i] == ctx.c && i in st'.rec && i !in st.chain
    requires Linked(ctx, TakeEdge(st', i, e, ctx.g[i][e]), u, path + {i}, ctx.g[i][e].dest)
    ensures Linking(ctx, st, u, path, i, e + 1)
  {
    hide Good, RecordOk, ChainOk, Explored, Unused, ExploredAll, StrongEdges, Frame, ChainGrows, RecordGrows;
    ChildFinal(ctx, st, st', u, path, i, e);
    ChildExtends(ctx, st, st', u, path, i, e);
    ChildUnused(ctx, st, st', u, path, i, e);
    ChildSteps(ctx, st, st', u, path, i, e);
    hide Extended, StrongStep;
  }

  lemma ChildExtends(ctx: Context, st: State, st': State, u: State, path: set<int>, i: int, e: int)
    requires Linking(ctx, st, st', path, i, e) && e < |ctx.g[i]| && Stays(ctx.g[i][e], ctx.comp, ctx.c)
    requires ctx.g[i][e].dest !in st'.visited && ctx.comp[i] == ctx.c && i in st'.rec && i !in st.chain
    requires Linked(ctx, TakeEdge(st', i, e, ctx.g[i][e]), u, path + {i}, ctx.g[i][e].dest)
    ensures Extended(ctx, st, u, i)
  {
    ChildFinal(ctx, st, st', u, path, i, e);
    ChildFrames(ctx, st, st', u, path, i, e);
    hide *;
    ChainGrowsTrans(st, st', u);
    FrameChild(ctx, st, st', u, i, e, ctx.g[i][e]);
    RecordGrowsChild(ctx, st.rec, st'.rec, u.rec, i, e, ctx.g[i][e].dest);
    MakeExtended(ctx, st, u, i);
  }

  lemma MakeExtended(ctx: Context, st: State, st': State, i: int)
    requires ChainGrows(st, st') && RecordGrows(ctx, st.rec, st'.rec, i) && Frame(ctx, st, st', i)
    ensures Extended(ctx, st, st', i)
  {
  }

  /** How far both stretches of the search have changed things. */
  lemma ChildFrames(ctx: Context, st: State, st': State, u: State, path: set<int>, i: int, e: int)
    requires Linking(ctx, st, st', path, i, e) && e < |ctx.g[i]| && i in st'.rec
    requires i < |st'.final| && Linked(ctx, TakeEdge(st', i, e, ctx.g[i][e]), u, path + {i}, ctx.g[i][e].dest)
    ensures ChainGrows(st, st') && RecordGrows(ctx, st.rec, st'.rec, i) && Frame(ctx, st, st', i)
    ensures var edge := ctx.g[i][e]; var t := TakeEdge(st', i, e, edge);
      && ChainGrows(st', u) && RecordGrows(ctx, st'.rec[edge.dest := st'.rec[i] + [(i, e)]], u.rec, edge.dest)
      && Frame(ctx, t, u, edge.dest) && edge.dest in u.chain
      && (edge.dest !in ctx.before ==> ExploredAll(ctx.g, ctx.comp, ctx.c, u.rec, edge.dest))
  {
    hide Good, Explored, Unused, ExploredAll, StrongEdges, Frame, RecordGrows, StrongStep;
  }

  lemma ChildUnused(ctx: Context, st: State, st': State, u: State, path: set<int>, i: int, e: int)
    requires Linking(ctx, st, st', path, i, e) && e < |ctx.g[i]| && Stays(ctx.g[i][e], ctx.comp, ctx.c)
    requires ctx.g[i][e].dest !in st'.visited && i in st'.rec
    requires Linked(ctx, TakeEdge(st', i, e, ctx.g[i][e]), u, path + {i}, ctx.g[i][e].dest)
    ensures forall k :: e + 1 <= k < |ctx.g[i]| ==> Unused(u.rec, i, k)
  {
    hide Explored, Unused, ExploredAll, StrongEdges, Frame, ChainGrows, RecordGrows, StrongStep, ChainOk, RecordOk;
    hide SetsOk, HeadTail;
    forall k | e + 1 <= k < |ctx.g[i]| ensures Unused(u.rec, i, k) {
      LaterUnused(ctx, st'.rec, u.rec, i, e, ctx.g[i][e].dest, k);
    }
  }

  lemma ChildSteps(ctx: Context, st: State, st': State, u: State, path: set<int>, i: int, e: int)
    requires Linking(ctx, st, st', path, i, e) && e < |ctx.g[i]| && Stays(ctx.g[i][e], ctx.comp, ctx.c)
    requires ctx.g[i][e].dest !in st'.visited && i in st'.rec
    requires Linked(ctx, TakeEdge(st', i, e, ctx.g[i][e]), u, path + {i}, ctx.g[i][e].dest)
    ensures forall k :: 0 <= k < e + 1 && StrongStep(ctx.g, ctx.comp, ctx.c, i, k) ==>
      Explored(ctx.g, u.rec, i, k) && ctx.g[i][k].dest in u.chain
  {
    hide HeadTail, SetsOk, ChainOk, RecordOk;
    hide Explored, Unused, ExploredAll, StrongEdges, Frame, ChainGrows, RecordGrows, StrongStep;
    ChainGrowsMember(TakeEdge(st', i, e, ctx.g[i][e]), u);
    forall k | 0 <= k < e + 1 && StrongStep(ctx.g, ctx.comp, ctx.c, i, k)
      ensures Explored(ctx.g, u.rec, i, k) && ctx.g[i][k].dest in u.chain
    {
      ChildExplored(ctx, st'.rec, u.rec, i, e, ctx.g[i][e].dest, k);
    }
  }

  /** The edges of i now include the one to its child; the child's search has left them alone. */
  lemma ChildFinal(ctx: Context, st: State, st': State, u: State, path: set<int>, i: int, e: int)
    requires Linking(ctx, st, st', path, i, e) && e < |ctx.g[i]| && Stays(ctx.g[i][e], ctx.comp, ctx.c)
    requires ctx.g[i][e].dest !in st'.visited && ctx.comp[i] == ctx.c && i in st'.rec && i !in st.chain
    requires Linked(ctx, TakeEdge(st', i, e, ctx.g[i][e]), u, path + {i}, ctx.g[i][e].dest)
    ensures i !in u.chain && i < |u.final| && u.final[i] == StrongEdges(ctx.g[i][..e + 1], ctx.comp, ctx.c)
  {
    hide RecordOk, ChainOk, Explored, Unused, ExploredAll, ChainGrows, RecordGrows;
    assert i !in u.chain;
    assert ctx.g[i][..e + 1][..e] == ctx.g[i][..e];
  }

  lemma ChildExplored(ctx: Context, mid: Record, rec': Record, i: int, e: int, j: int, k: int)
    requires i in mid && j !in mid && RecordGrows(ctx, mid[j := mid[i] + [(i, e)]], rec', j)
    requires 0 <= i < |ctx.g| && 0 <= k <= e < |ctx.g[i]| && ctx.g[i][e].dest == j
    requires k < e ==> Explored(ctx.g, mid, i, k)
    ensures Explored(ctx.g, rec', i, k)
  {
  }

  // ---- finishing i ----

  /** i becomes the new head of the chain. */
  function Prepend(ctx: Context, st: State, i: int): State
    requires 0 <= i < |st.final| && 0 <= ctx.c < |st.tail|
  {
    st.(final := if st.head >= 0 then st.final[i := st.final[i] + [Edge(st.head, false, false)]] else st.final,
        tail := if st.head >= 0 then st.tail else st.tail[ctx.c := i],
        head := i,
        chain := [i] + st.chain)
  }

  lemma PrependGood(ctx: Context, st: State, path: set<int>, i: int)
    requires Good(ctx, st, path + {i}) && i !in path && 0 <= i < |ctx.g| && ctx.comp[i] == ctx.c && i !in ctx.before
    requires st.final[i] == StrongEdges(ctx.g[i], ctx.comp, ctx.c)
    requires forall k :: StrongStep(ctx.g, ctx.comp, ctx.c, i, k) ==> ctx.g[i][k].dest in st.chain
    ensures Good(ctx, Prepend(ctx, st, i), path)
  {
    hide RecordOk;
    var t := Prepend(ctx, st, i);
    assert i !in st.chain;
    ChainFrame(ctx.g, ctx.comp, ctx.c, st.final, t.final, st.chain);
    assert t.chain[1..] == st.chain;
    if |st.chain| > 0 {
      assert st.head >= 0;
    }
    assert LinkOk(ctx.g, ctx.comp, ctx.c, t.final, i, st.chain);
    hide ChainOk;
    assert Elements(t.chain) == Elements(st.chain) + {i};
    assert st.emitted == Elements(t.chain) + path;
  }

  lemma AllFollowed(ctx: Context, st: State, st': State, path: set<int>, i: int)
    requires 0 <= i < |ctx.g| && Linking(ctx, st, st', path, i, |ctx.g[i]|) && ctx.comp[i] == ctx.c && i !in st.chain
    ensures Linked(ctx, st, Prepend(ctx, st', i), path, i)
  {
    assert ctx.g[i][..|ctx.g[i]|] == ctx.g[i];
    assert i !in st'.chain;
    var t := Prepend(ctx, st', i);
    hide RecordOk, ChainOk, Unused, Explored;
    PrependGood(ctx, st', path, i);
    hide Good;
    assert t.chain[1..] == st'.chain;
    assert ChainGrows(st', t);
    ChainGrowsTrans(st, st', t);
    PrependFrame(ctx, st, st', i);
    hide Frame, Prepend;
  }

  lemma PrependFrame(ctx: Context, st: State, st': State, i: int)
    requires Frame(ctx, st, st', i) && 0 <= i < |st'.final| && 0 <= ctx.c < |st'.tail| && i !in st.chain
    requires forall x :: x in st.chain ==> x in st'.chain
    ensures Frame(ctx, st, Prepend(ctx, st', i), i)
  {
  }
}
