/** Walks along the strong edges inside one component, and when two of them meet. */
module StrongWalks {
  import opened Graphs

  /** A walk as the edges taken: (node, number of the edge at that node). */
  type Steps = seq<(int, int)>

  /** Edge number e of u is strong and stays in component c. */
  predicate StrongStep(g: Graph, comp: seq<int>, c: int, u: int, e: int) {
    0 <= u < |g| && |comp| == |g| && comp[u] == c && 0 <= e < |g[u]| && g[u][e].strong &&
    0 <= g[u][e].dest < |comp| && comp[g[u][e].dest] == c
  }

  function Target(g: Graph, s: (int, int)): int {
    if 0 <= s.0 < |g| && 0 <= s.1 < |g[s.0]| then g[s.0][s.1].dest else -1
  }

  function EndOf(g: Graph, r: int, w: Steps): int {
    if |w| == 0 then r else Target(g, w[|w| - 1])
  }

  ghost predicate IsStrongWalk(g: Graph, comp: seq<int>, c: int, r: int, w: Steps) {
    if |w| == 0 then true
    else
      var init := w[..|w| - 1];
      var last := w[|w| - 1];
      IsStrongWalk(g, comp, c, r, init) && last.0 == EndOf(g, r, init) && StrongStep(g, comp, c, last.0, last.1)
  }

  /** No edge of the walk starts in e. */
  ghost predicate Avoids(w: Steps, e: set<int>) {
    forall k :: 0 <= k < |w| ==> w[k].0 !in e
  }

  ghost predicate StrongReach(g: Graph, comp: seq<int>, c: int, r: int, x: int) {
    exists w :: IsStrongWalk(g, comp, c, r, w) && EndOf(g, r, w) == x
  }

  /** Two different strong walks from r that avoid e end in the same node. */
  ghost predicate Meeting(g: Graph, comp: seq<int>, c: int, r: int, e: set<int>) {
    exists v, w :: SameEnd(g, comp, c, r, e, v, w)
  }

  ghost predicate SameEnd(g: Graph, comp: seq<int>, c: int, r: int, e: set<int>, v: Steps, w: Steps) {
    && v != w && EndOf(g, r, v) == EndOf(g, r, w)
    && IsStrongWalk(g, comp, c, r, v) && IsStrongWalk(g, comp, c, r, w) && Avoids(v, e) && Avoids(w, e)
  }

  /** What is reached along strong edges from members of the component above r. */
  ghost function ReachedFromAbove(g: Graph, comp: seq<int>, c: int, members: NodeList, r: int): set<int> {
    set x | 0 <= x < |g| && FromAbove(g, comp, c, members, r, x)
  }

  ghost predicate FromAbove(g: Graph, comp: seq<int>, c: int, members: NodeList, r: int, x: int) {
    exists m :: m in members && m > r && StrongReach(g, comp, c, m, x)
  }

  /** The static condition under which the component can be linearized. */
  ghost predicate Linearizable(g: Graph, comp: seq<int>, c: int, members: NodeList) {
    forall r :: r in members ==> !Meeting(g, comp, c, r, ReachedFromAbove(g, comp, c, members, r))
  }

  lemma ExtendWalk(g: Graph, comp: seq<int>, c: int, r: int, w: Steps, u: int, e: int)
    requires IsStrongWalk(g, comp, c, r, w) && EndOf(g, r, w) == u && StrongStep(g, comp, c, u, e)
    ensures IsStrongWalk(g, comp, c, r, w + [(u, e)]) && EndOf(g, r, w + [(u, e)]) == g[u][e].dest
  {
    assert (w + [(u, e)])[..|w|] == w;
  }

  /** A set that strong edges cannot leave keeps everything strongly reachable from it. */
  lemma {:induction false} StrongStaysIn(g: Graph, comp: seq<int>, c: int, r: int, w: Steps, s: set<int>)
    requires IsStrongWalk(g, comp, c, r, w) && r in s
    requires forall u, e :: u in s && StrongStep(g, comp, c, u, e) ==> g[u][e].dest in s
    ensures EndOf(g, r, w) in s
    decreases |w|
  {
    if |w| > 0 {
      StrongStaysIn(g, comp, c, r, w[..|w| - 1], s);
    }
  }

  // ---- the record one search keeps: a walk to every node it has entered ----

  type Record = map<int, Steps>

  ghost predicate RecordOk(g: Graph, comp: seq<int>, c: int, r: int, e: set<int>, rec: Record) {
    && r in rec && rec[r] == []
    && (forall x :: x in rec ==> RecordedAt(g, comp, c, r, e, rec, x))
  }

  ghost predicate RecordedAt(g: Graph, comp: seq<int>, c: int, r: int, e: set<int>, rec: Record, x: int)
    requires x in rec
  {
    var w := rec[x];
    && IsStrongWalk(g, comp, c, r, w) && Avoids(w, e) && EndOf(g, r, w) == x
    && (|w| > 0 ==> w[|w| - 1].0 in rec && w == rec[w[|w| - 1].0] + [w[|w| - 1]])
  }

  /** Edge number k of u has been followed, and led to a node not entered before. */
  ghost predicate Explored(g: Graph, rec: Record, u: int, k: int) {
    && 0 <= u < |g| && 0 <= k < |g[u]| && u in rec
    && g[u][k].dest in rec && rec[g[u][k].dest] == rec[u] + [(u, k)]
  }

  ghost predicate ExploredAll(g: Graph, comp: seq<int>, c: int, rec: Record, u: int) {
    forall k :: StrongStep(g, comp, c, u, k) ==> Explored(g, rec, u, k)
  }

  /** No recorded walk ends with edge number k of u. */
  ghost predicate Unused(rec: Record, u: int, k: int) {
    forall x :: x in rec && |rec[x]| > 0 ==> rec[x][|rec[x]| - 1] != (u, k)
  }

  /** A finished search has met no node twice: its walks are the only ones. */
  lemma {:induction false} RecordedUnique(g: Graph, comp: seq<int>, c: int, r: int, e: set<int>, rec: Record, w: Steps)
    requires RecordOk(g, comp, c, r, e, rec)
    requires forall u :: u in rec && u !in e ==> ExploredAll(g, comp, c, rec, u)
    requires IsStrongWalk(g, comp, c, r, w) && Avoids(w, e)
    ensures EndOf(g, r, w) in rec && rec[EndOf(g, r, w)] == w
    decreases |w|
  {
    if |w| > 0 {
      var init := w[..|w| - 1];
      var last := w[|w| - 1];
      assert Avoids(init, e);
      RecordedUnique(g, comp, c, r, e, rec, init);
      assert ExploredAll(g, comp, c, rec, last.0);
      assert Explored(g, rec, last.0, last.1);
      assert w == init + [(last.0, last.1)];
    }
  }

  lemma NoMeeting(g: Graph, comp: seq<int>, c: int, r: int, e: set<int>, rec: Record)
    requires RecordOk(g, comp, c, r, e, rec)
    requires forall u :: u in rec && u !in e ==> ExploredAll(g, comp, c, rec, u)
    ensures !Meeting(g, comp, c, r, e)
  {
    if Meeting(g, comp, c, r, e) {
      var v, w :| SameEnd(g, comp, c, r, e, v, w);
      RecordedUnique(g, comp, c, r, e, rec, v);
      RecordedUnique(g, comp, c, r, e, rec, w);
    }
  }

  lemma StartRecord(g: Graph, comp: seq<int>, c: int, r: int, e: set<int>)
    ensures RecordOk(g, comp, c, r, e, map[r := []])
  {
  }

  lemma EnterRecord(g: Graph, comp: seq<int>, c: int, r: int, e: set<int>, rec: Record, u: int, k: int)
    requires RecordOk(g, comp, c, r, e, rec) && u in rec && u !in e && StrongStep(g, comp, c, u, k)
    requires g[u][k].dest !in rec
    ensures RecordOk(g, comp, c, r, e, rec[g[u][k].dest := rec[u] + [(u, k)]])
  {
    var y := g[u][k].dest;
    var rec' := rec[y := rec[u] + [(u, k)]];
    NewRecorded(g, comp, c, r, e, rec, u, k);
    forall x | x in rec' && x != y ensures RecordedAt(g, comp, c, r, e, rec', x) {
      StillRecorded(g, comp, c, r, e, rec, x, y, rec[u] + [(u, k)]);
    }
    hide RecordedAt;
  }

  lemma NewRecorded(g: Graph, comp: seq<int>, c: int, r: int, e: set<int>, rec: Record, u: int, k: int)
    requires u in rec && RecordedAt(g, comp, c, r, e, rec, u) && u !in e && StrongStep(g, comp, c, u, k)
    requires g[u][k].dest !in rec
    ensures RecordedAt(g, comp, c, r, e, rec[g[u][k].dest := rec[u] + [(u, k)]], g[u][k].dest)
  {
    ExtendWalk(g, comp, c, r, rec[u], u, k);
    var w := rec[u] + [(u, k)];
    assert w[|w| - 1] == (u, k);
    hide IsStrongWalk, EndOf;
  }

  lemma StillRecorded(g: Graph, comp: seq<int>, c: int, r: int, e: set<int>, rec: Record, x: int, y: int, w: Steps)
    requires x in rec && RecordedAt(g, comp, c, r, e, rec, x) && y !in rec
    ensures RecordedAt(g, comp, c, r, e, rec[y := w], x)
  {
    hide IsStrongWalk, EndOf, Avoids;
  }

  /** Entering a node a second time exhibits two walks that meet. */
  lemma Entered(g: Graph, comp: seq<int>, c: int, r: int, e: set<int>, rec: Record, u: int, k: int)
    requires RecordOk(g, comp, c, r, e, rec) && u in rec && u !in e && StrongStep(g, comp, c, u, k)
    requires g[u][k].dest in rec && Unused(rec, u, k)
    ensures Meeting(g, comp, c, r, e)
  {
    var y := g[u][k].dest;
    var w := rec[u] + [(u, k)];
    assert RecordedAt(g, comp, c, r, e, rec, u);
    assert RecordedAt(g, comp, c, r, e, rec, y);
    ExtendWalk(g, comp, c, r, rec[u], u, k);
    assert w[|w| - 1] == (u, k);
    assert SameEnd(g, comp, c, r, e, rec[y], w);
  }
}
