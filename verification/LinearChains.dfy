/** Linearizing a whole component: one search per member, from the last member to the first. */
module LinearChains {
  import opened Graphs
  import opened TarjanWalk
  import opened StrongWalks
  import opened ChainSearch
  import opened TargetTheory

  /** What holds after the searches from members number k and up. */
  ghost predicate Progress(g: Graph, comp: seq<int>, c: int, members: NodeList, k: int, st: State) {
    && WellFormed(g) && |comp| == |g| == |st.final| && 0 <= c < |st.tail| && ListOk(comp, members, c)
    && 0 <= k <= |members|
    && ChainOk(g, comp, c, st.final, st.chain) && st.emitted == Elements(st.chain)
    && (|st.chain| == 0 ==> st.head == -1)
    && (|st.chain| > 0 ==> st.head == st.chain[0] && st.tail[c] == st.chain[|st.chain| - 1])
    && (forall x :: 0 <= x < |g| && comp[x] == c && x !in st.emitted ==> st.final[x] == [])
    && Searched(g, comp, c, members, k, st.chain)
  }

  /** The chain holds exactly what the searched members reach, and none of the searches met a node twice. */
  ghost predicate Searched(g: Graph, comp: seq<int>, c: int, members: NodeList, k: int, chain: seq<int>)
    requires 0 <= k <= |members|
  {
    && (forall m :: k <= m < |members| ==> members[m] in chain)
    && (forall x {:trigger ReachedFrom(g, comp, c, members, k, x)} :: x in chain ==>
      ReachedFrom(g, comp, c, members, k, x))
    && (forall m :: k <= m < |members| ==> Unmet(g, comp, c, members, m))
  }

  ghost predicate ReachedFrom(g: Graph, comp: seq<int>, c: int, members: NodeList, k: int, x: int)
    requires 0 <= k <= |members|
  {
    exists m :: k <= m < |members| && StrongReach(g, comp, c, members[m], x)
  }

  ghost predicate Unmet(g: Graph, comp: seq<int>, c: int, members: NodeList, m: int)
    requires 0 <= m < |members|
  {
    !Meeting(g, comp, c, members[m], ReachedFromAbove(g, comp, c, members, members[m]))
  }

  lemma {:induction false} ChainClosed(g: Graph, comp: seq<int>, c: int, final: Graph, chain: seq<int>, x: int, k: int)
    requires ChainOk(g, comp, c, final, chain) && x in chain && StrongStep(g, comp, c, x, k)
    ensures g[x][k].dest in chain
  {
    if x != chain[0] {
      assert chain == [chain[0]] + chain[1..];
      ChainClosed(g, comp, c, final, chain[1..], x, k);
    }
  }

  lemma {:induction false} ChainNodes(g: Graph, comp: seq<int>, c: int, final: Graph, chain: seq<int>, x: int)
    requires ChainOk(g, comp, c, final, chain) && x in chain
    ensures 0 <= x < |g| && |comp| == |g| && comp[x] == c
  {
    if x != chain[0] {
      assert chain == [chain[0]] + chain[1..];
      ChainNodes(g, comp, c, final, chain[1..], x);
    }
  }

  /** What has been finished before a search is what the members above its root reach. */
  lemma BeforeIsAbove(g: Graph, comp: seq<int>, c: int, members: NodeList, k: int, st: State)
    requires Progress(g, comp, c, members, k, st) && k > 0
    ensures Elements(st.chain) == ReachedFromAbove(g, comp, c, members, members[k - 1])
  {
    var r := members[k - 1];
    forall x | x in st.chain ensures x in ReachedFromAbove(g, comp, c, members, r) {
      ChainNodes(g, comp, c, st.final, st.chain, x);
      assert ReachedFrom(g, comp, c, members, k, x);
      var m :| k <= m < |members| && StrongReach(g, comp, c, members[m], x);
      assert members[m] in members && members[m] > r;
    }
    forall x | x in ReachedFromAbove(g, comp, c, members, r) ensures x in st.chain {
      var b :| b in members && b > r && StrongReach(g, comp, c, b, x);
      AboveSearched(g, comp, c, members, k, st.chain, b);
      var w :| IsStrongWalk(g, comp, c, b, w) && EndOf(g, b, w) == x;
      forall u, e | u in Elements(st.chain) && StrongStep(g, comp, c, u, e) ensures g[u][e].dest in Elements(st.chain) {
        ChainClosed(g, comp, c, st.final, st.chain, u, e);
      }
      hide Progress;
      StrongStaysIn(g, comp, c, b, w, Elements(st.chain));
    }
  }

  lemma AboveSearched(g: Graph, comp: seq<int>, c: int, members: NodeList, k: int, chain: seq<int>, b: int)
    requires 0 < k <= |members| && Searched(g, comp, c, members, k, chain) && Ascending(members)
    requires b in members && b > members[k - 1]
    ensures b in chain
  {
    var m :| 0 <= m < |members| && members[m] == b;
    assert m >= k;
  }

  function RootContext(g: Graph, comp: seq<int>, c: int, r: int, st: State): Context {
    Context(g, comp, c, r, Elements(st.chain))
  }

  /** The state in which the search from r starts: nothing visited yet, the empty walk recorded. */
  function RootState(st: State, r: int): State {
    st.(visited := {}, rec := map[r := []])
  }

  lemma RootEntering(g: Graph, comp: seq<int>, c: int, members: NodeList, k: int, st: State)
    requires Progress(g, comp, c, members, k, st) && k > 0
    ensures var r := members[k - 1]; Entering(RootContext(g, comp, c, r, st), RootState(st, r), {}, r)
  {
    var r := members[k - 1];
    assert r in members;
    StartRecord(g, comp, c, r, Elements(st.chain));
    hide ChainOk, RecordOk, Searched;
  }

  lemma RootReached(g: Graph, comp: seq<int>, c: int, members: NodeList, k: int, st: State, u: State, x: int)
    requires Progress(g, comp, c, members, k, st) && k > 0 && x in u.chain
    requires var r := members[k - 1]; Linked(RootContext(g, comp, c, r, st), RootState(st, r), u, {}, r)
    ensures ReachedFrom(g, comp, c, members, k - 1, x)
  {
    var r := members[k - 1];
    var ctx := RootContext(g, comp, c, r, st);
    if x in st.chain {
      assert ReachedFrom(g, comp, c, members, k, x);
    } else {
      hide ChainOk, ListOk, Progress, Extended, ExploredAll;
      assert x in u.rec;
      assert RecordedAt(g, comp, c, r, ctx.before, u.rec, x);
      assert StrongReach(g, comp, c, members[k - 1], x);
    }
  }

  lemma RootSearched(g: Graph, comp: seq<int>, c: int, members: NodeList, k: int, st: State, u: State)
    requires Progress(g, comp, c, members, k, st) && k > 0
    requires var r := members[k - 1]; Linked(RootContext(g, comp, c, r, st), RootState(st, r), u, {}, r)
    ensures Searched(g, comp, c, members, k - 1, u.chain)
  {
    assert k <= |members|;
    hide Progress, Linked, ReachedFrom, Unmet, RootContext, RootState;
    forall x | x in u.chain ensures ReachedFrom(g, comp, c, members, k - 1, x) {
      RootReached(g, comp, c, members, k, st, u, x);
    }
    RootHeld(g, comp, c, members, k, st, u);
    RootAlone(g, comp, c, members, k, st, u);
  }

  /** The chain holds the new root along with all members searched before. */
  lemma RootHeld(g: Graph, comp: seq<int>, c: int, members: NodeList, k: int, st: State, u: State)
    requires Progress(g, comp, c, members, k, st) && k > 0
    requires var r := members[k - 1]; Linked(RootContext(g, comp, c, r, st), RootState(st, r), u, {}, r)
    ensures forall m :: k - 1 <= m < |members| ==> members[m] in u.chain
  {
    hide ChainOk, ListOk, Good, RecordGrows, Frame, ReachedFrom, Unmet, ExploredAll;
    ChainGrowsMember(RootState(st, members[k - 1]), u);
  }

  /** None of the searches from the roots so far met a node twice. */
  lemma RootAlone(g: Graph, comp: seq<int>, c: int, members: NodeList, k: int, st: State, u: State)
    requires Progress(g, comp, c, members, k, st) && k > 0
    requires var r := members[k - 1]; Linked(RootContext(g, comp, c, r, st), RootState(st, r), u, {}, r)
    ensures forall m :: k - 1 <= m < |members| ==> Unmet(g, comp, c, members, m)
  {
    assert Searched(g, comp, c, members, k, st.chain);
    hide Progress, Linked, ReachedFrom, Unmet;
    NewRootAlone(g, comp, c, members, k, st, u);
  }

  lemma NewRootAlone(g: Graph, comp: seq<int>, c: int, members: NodeList, k: int, st: State, u: State)
    requires Progress(g, comp, c, members, k, st) && k > 0
    requires var r := members[k - 1]; Linked(RootContext(g, comp, c, r, st), RootState(st, r), u, {}, r)
    ensures Unmet(g, comp, c, members, k - 1)
  {
    hide Linked, Searched, ChainOk, ListOk, Meeting, ReachedFromAbove, WellFormed;
    BeforeIsAbove(g, comp, c, members, k, st);
    RootUnmet(RootContext(g, comp, c, members[k - 1], st), RootState(st, members[k - 1]), u, members[k - 1]);
  }

  lemma RootUnmet(ctx: Context, st: State, u: State, r: int)
    requires Linked(ctx, st, u, {}, r) && st.rec == map[r := []] && ctx.r == r
    ensures !Meeting(ctx.g, ctx.comp, ctx.c, r, ctx.before)
  {
    hide ChainOk, ExploredAll, Frame, ChainGrows;
    assert forall x :: x in u.rec && x !in ctx.before ==> ExploredAll(ctx.g, ctx.comp, ctx.c, u.rec, x);
    hide Linked;
    assert RecordOk(ctx.g, ctx.comp, ctx.c, r, ctx.before, u.rec) by { LinkedRecord(ctx, st, u, r); }
    NoMeeting(ctx.g, ctx.comp, ctx.c, r, ctx.before, u.rec);
  }

  lemma LinkedRecord(ctx: Context, st: State, u: State, r: int)
    requires Linked(ctx, st, u, {}, r)
    ensures RecordOk(ctx.g, ctx.comp, ctx.c, ctx.r, ctx.before, u.rec)
  {
  }

  /** One more member searched; nothing outside the component has changed. */
  lemma RootLinked(g: Graph, comp: seq<int>, c: int, members: NodeList, k: int, st: State, u: State)
    requires Progress(g, comp, c, members, k, st) && k > 0
    requires var r := members[k - 1]; Linked(RootContext(g, comp, c, r, st), RootState(st, r), u, {}, r)
    ensures Progress(g, comp, c, members, k - 1, u)
    ensures |u.tail| == |st.tail| && forall d :: 0 <= d < |st.tail| && d != c ==> u.tail[d] == st.tail[d]
    ensures forall x :: 0 <= x < |g| && comp[x] != c ==> u.final[x] == st.final[x]
  {
    var r := members[k - 1];
    RootSearched(g, comp, c, members, k, st, u);
    forall x | 0 <= x < |g| && comp[x] != c ensures u.final[x] == st.final[x] {
      if x in u.chain {
        ChainNodes(g, comp, c, u.final, u.chain, x);
      }
      assert r in members;
    }
    hide ChainOk, RecordOk, Searched, ChainGrows, RecordGrows, ExploredAll, ListOk;
  }

  // ---- from the recursive account of a chain to its places ----

  lemma {:induction false} ChainPlace(g: Graph, comp: seq<int>, c: int, final: Graph, chain: seq<int>, p: int)
    requires ChainOk(g, comp, c, final, chain) && 0 <= p < |chain|
    ensures LinkOk(g, comp, c, final, chain[p], chain[p + 1..])
  {
    if p > 0 {
      ChainPlace(g, comp, c, final, chain[1..], p - 1);
      assert chain[1..][p - 1] == chain[p] && chain[1..][p..] == chain[p + 1..];
    }
  }

  lemma ChainDistinct(g: Graph, comp: seq<int>, c: int, final: Graph, chain: seq<int>, p: int, q: int)
    requires ChainOk(g, comp, c, final, chain) && 0 <= p < q < |chain|
    ensures chain[p] != chain[q]
  {
    ChainPlace(g, comp, c, final, chain, p);
    assert chain[p + 1..][q - (p + 1)] == chain[q];
  }

  /** After the last search the chain is the component. */
  lemma ProgressDone(g: Graph, comp: seq<int>, c: int, members: NodeList, st: State)
    requires Progress(g, comp, c, members, 0, st)
    ensures st.head >= 0 && ChainOf(members, st.chain, st.head, st.tail[c]) && Linearizable(g, comp, c, members)
  {
    forall x ensures x in st.chain <==> x in members {
      if x in st.chain {
        ChainNodes(g, comp, c, st.final, st.chain, x);
      }
      if x in members {
        var m :| 0 <= m < |members| && members[m] == x;
      }
    }
    forall p, q | 0 <= p < q < |st.chain| ensures st.chain[p] != st.chain[q] {
      ChainDistinct(g, comp, c, st.final, st.chain, p, q);
    }
    assert members[0] in members;
    forall r | r in members ensures !Meeting(g, comp, c, r, ReachedFromAbove(g, comp, c, members, r)) {
      var m :| 0 <= m < |members| && members[m] == r;
      assert Unmet(g, comp, c, members, m);
    }
    assert st.chain[0] in members;
  }

  // ---- in which order the members come ----

  /** The end of the chain is what member m and the ones above it reach. */
  ghost predicate EndsWith(g: Graph, comp: seq<int>, c: int, members: NodeList, m: int, chain: seq<int>)
    requires 0 <= m <= |members|
  {
    exists n :: 0 <= n <= |chain| && IsEnd(g, comp, c, members, m, chain, n)
  }

  ghost predicate IsEnd(g: Graph, comp: seq<int>, c: int, members: NodeList, m: int, chain: seq<int>, n: int)
    requires 0 <= m <= |members| && 0 <= n <= |chain|
  {
    forall x {:trigger ReachedFrom(g, comp, c, members, m, x)} ::
      x in chain[n..] <==> ReachedFrom(g, comp, c, members, m, x)
  }

  ghost predicate InSections(g: Graph, comp: seq<int>, c: int, members: NodeList, k: int, chain: seq<int>)
    requires 0 <= k
  {
    forall m :: k <= m <= |members| ==> EndsWith(g, comp, c, members, m, chain)
  }

  lemma {:induction false} NoSections(g: Graph, comp: seq<int>, c: int, members: NodeList)
    ensures InSections(g, comp, c, members, |members|, [])
  {
    assert IsEnd(g, comp, c, members, |members|, [], 0);
  }

  /** After the search from a member the whole chain is what it and the ones above it reach. */
  lemma {:induction false} WholeChain(g: Graph, comp: seq<int>, c: int, members: NodeList, k: int, st: State)
    requires Progress(g, comp, c, members, k, st) && k < |members|
    ensures EndsWith(g, comp, c, members, k, st.chain)
  {
    assert Searched(g, comp, c, members, k, st.chain) && ChainOk(g, comp, c, st.final, st.chain);
    assert st.chain[0..] == st.chain;
    hide Progress, ChainOk, StrongReach, Unmet;
    forall x ensures x in st.chain[0..] <==> ReachedFrom(g, comp, c, members, k, x) {
      if ReachedFrom(g, comp, c, members, k, x) {
        var m :| k <= m < |members| && StrongReach(g, comp, c, members[m], x);
        ChainReaches(g, comp, c, st.final, st.chain, members[m], x);
      }
    }
    assert IsEnd(g, comp, c, members, k, st.chain, 0);
  }

  lemma {:induction false} ChainReaches(g: Graph, comp: seq<int>, c: int, final: Graph, chain: seq<int>, r: int, x: int)
    requires ChainOk(g, comp, c, final, chain) && r in chain && StrongReach(g, comp, c, r, x)
    ensures x in chain
  {
    var w :| IsStrongWalk(g, comp, c, r, w) && EndOf(g, r, w) == x;
    hide ChainOk, IsStrongWalk;
    forall u, e | u in Elements(chain) && StrongStep(g, comp, c, u, e) ensures g[u][e].dest in Elements(chain) {
      ChainClosed(g, comp, c, final, chain, u, e);
    }
    StrongStaysIn(g, comp, c, r, w, Elements(chain));
  }

  lemma {:induction false} SectionsKept(g: Graph, comp: seq<int>, c: int, members: NodeList, k: int, st: State,
                                        u: State)
    requires ChainGrows(st, u) && 0 <= k && InSections(g, comp, c, members, k, st.chain)
    ensures InSections(g, comp, c, members, k, u.chain)
  {
    hide ReachedFrom;
    var d := |u.chain| - |st.chain|;
    forall m | k <= m <= |members| ensures EndsWith(g, comp, c, members, m, u.chain) {
      assert EndsWith(g, comp, c, members, m, st.chain);
      var n :| 0 <= n <= |st.chain| && IsEnd(g, comp, c, members, m, st.chain, n);
      assert u.chain[d..][n..] == u.chain[d + n..];
      assert u.chain[d + n..] == st.chain[n..];
      assert IsEnd(g, comp, c, members, m, u.chain, d + n);
    }
  }

  lemma {:induction false} SectionMore(g: Graph, comp: seq<int>, c: int, members: NodeList, k: int, st: State, u: State)
    requires 0 < k <= |members| && InSections(g, comp, c, members, k, st.chain)
    requires Progress(g, comp, c, members, k - 1, u)
    requires var r := members[k - 1]; Linked(RootContext(g, comp, c, r, st), RootState(st, r), u, {}, r)
    ensures InSections(g, comp, c, members, k - 1, u.chain)
  {
    assert ChainGrows(st, u);
    hide Progress, Linked, EndsWith;
    SectionsKept(g, comp, c, members, k, st, u);
    WholeChain(g, comp, c, members, k - 1, u);
  }

  /** What a member reaches along strong edges comes after whatever neither it nor any above it reaches. */
  ghost predicate ByMembers(g: Graph, comp: seq<int>, c: int, members: NodeList, chain: seq<int>) {
    forall p, q, m :: ReachedLater(g, comp, c, members, chain, p, q, m) ==> p < q
  }

  ghost predicate ReachedLater(g: Graph, comp: seq<int>, c: int, members: NodeList, chain: seq<int>, p: int, q: int,
                               m: int)
  {
    && 0 <= p < |chain| && 0 <= q < |chain| && 0 <= m < |members| && StrongReach(g, comp, c, members[m], chain[q])
    && forall k :: m <= k < |members| ==> !StrongReach(g, comp, c, members[k], chain[p])
  }

  lemma {:induction false} SectionsOrder(g: Graph, comp: seq<int>, c: int, members: NodeList, chain: seq<int>)
    requires InSections(g, comp, c, members, 0, chain)
    requires forall p, q :: 0 <= p < q < |chain| ==> chain[p] != chain[q]
    ensures ByMembers(g, comp, c, members, chain)
  {
    hide StrongReach;
    forall p, q, m | ReachedLater(g, comp, c, members, chain, p, q, m) ensures p < q {
      assert EndsWith(g, comp, c, members, m, chain);
      var n :| 0 <= n <= |chain| && IsEnd(g, comp, c, members, m, chain, n);
      assert ReachedFrom(g, comp, c, members, m, chain[q]) && !ReachedFrom(g, comp, c, members, m, chain[p]);
      PlacedAfter(chain, n, p, q);
    }
  }

  lemma {:induction false} PlacedAfter(chain: seq<int>, n: int, p: int, q: int)
    requires 0 <= n <= |chain| && 0 <= p < |chain| && 0 <= q < |chain|
    requires chain[q] in chain[n..] && chain[p] !in chain[n..]
    requires forall j, k :: 0 <= j < k < |chain| ==> chain[j] != chain[k]
    ensures p < q
  {
    var k :| 0 <= k < |chain| - n && chain[n..][k] == chain[q];
    assert chain[n + k] == chain[q];
    forall j | n <= j < |chain| ensures chain[j] in chain[n..] {
      assert chain[n..][j - n] == chain[j];
    }
  }
}
