/** What every emitted link line guarantees: order, and complete passes over each component. */
module LinkOrder {
  import opened Graphs
  import opened TarjanWalk
  import opened LinkSchedule

  /** v occurs on the line strictly after position p. */
  ghost predicate Later(line: seq<int>, p: int, v: int) {
    exists q :: 0 <= q < |line| && p < q && line[q] == v
  }

  ghost predicate LineOk(l: Layout, line: seq<int>) {
    forall p :: 0 <= p < |line| ==> 0 <= line[p] < |l.comp|
  }

  // ---- the order invariant ----

  /** v will still come after position p: it already has, or its component waits for it. */
  ghost predicate Owed(l: Layout, s: Schedule, p: int, v: int)
    requires LayoutOk(l) && 0 <= v < |l.comp|
  {
    Later(s.line, p, v) || (OrderOf(l, v) in s.pending && v in s.pending[OrderOf(l, v)].entries)
  }

  function OrderOf(l: Layout, v: int): int
    requires LayoutOk(l) && 0 <= v < |l.comp|
  {
    l.order[l.comp[v]]
  }

  /** The component of u leads directly to that of v. */
  ghost predicate Follows(l: Layout, u: int, v: int) {
    0 <= u < |l.comp| && 0 <= v < |l.comp| && HasEdge(l.cg, l.comp[u], l.comp[v])
  }

  ghost predicate SettledAt(l: Layout, s: Schedule, p: int)
    requires LayoutOk(l) && LineOk(l, s.line) && 0 <= p < |s.line|
  {
    OrderOf(l, s.line[p]) in s.pending || forall v :: Follows(l, s.line[p], v) ==> Owed(l, s, p, v)
  }

  ghost predicate Settled(l: Layout, s: Schedule)
    requires LayoutOk(l) && LineOk(l, s.line)
  {
    forall p :: 0 <= p < |s.line| ==> SettledAt(l, s, p)
  }

  lemma LaterGrows(line: seq<int>, p: int, v: int, x: int)
    requires Later(line, p, v) || (x == v && p < |line|)
    ensures Later(line + [x], p, v)
  {
    if Later(line, p, v) {
      var q :| 0 <= q < |line| && p < q && line[q] == v;
      assert (line + [x])[q] == v;
    } else {
      assert (line + [x])[|line|] == v;
    }
  }

  /** What was owed before an entry is emitted is still owed, or has just been delivered. */
  lemma OwedKept(l: Layout, s: Schedule, index: int, p: int, v: int)
    requires LayoutOk(l) && PendingOk(l, s.pending) && 0 <= index < |l.comp|
    requires 0 <= p < |s.line| && 0 <= v < |l.comp| && Owed(l, s, p, v)
    ensures Owed(l, VisitEntry(l, s, index), p, v)
  {
    var t := VisitEntry(l, s, index);
    var (m, completed) := SeeEntry(l, s.pending, index);
    assert t.line == s.line + [index];
    if Later(s.line, p, v) || v == index {
      LaterGrows(s.line, p, v, index);
    } else {
      var o := OrderOf(l, v);
      SeenEntry(l, s.pending, index);
      MemberOf(l, l.comp[v], v);
      hide SeeEntry, PendingOk, LayoutOk, Need, Members;
      assert o in m && v in m[o].entries;
      if completed {
        VisitedPending(l, s, index, m, v);
      }
    }
  }

  lemma CgEdges(l: Layout, c: int)
    requires LayoutOk(l) && 0 <= c < |l.components|
    ensures |l.cg| == |l.order| == |l.components|
    ensures forall k :: 0 <= k < |l.cg[c]| ==> 0 <= l.cg[c][k].dest < |l.components|
  {
  }

  lemma VisitedPending(l: Layout, s: Schedule, index: int, m: Pending, v: int)
    requires LayoutOk(l) && PendingOk(l, s.pending) && 0 <= index < |l.comp| && 0 <= v < |l.comp|
    requires SeeEntry(l, s.pending, index) == (m, true)
    requires OrderOf(l, v) in m && v in m[OrderOf(l, v)].entries
    ensures OrderOf(l, v) in VisitEntry(l, s, index).pending
    ensures v in VisitEntry(l, s, index).pending[OrderOf(l, v)].entries
  {
    var o := OrderOf(l, v);
    var c := l.comp[index];
    SeenEntry(l, s.pending, index);
    CgEdges(l, c);
    AllMadePending(l, m, l.cg[c]);
    MemberOf(l, l.comp[v], v);
    var t := VisitEntry(l, s, index).pending;
    if Targeted(l, l.cg[c], o) {
      assert FreshAt(l, t, o);
      SameOrder(l, t[o].id, l.comp[v]);
    }
  }

  /** A completed component makes everything it leads to owed, after every position. */
  lemma CompletionOwes(l: Layout, s: Schedule, index: int, p: int, v: int)
    requires LayoutOk(l) && PendingOk(l, s.pending) && 0 <= index < |l.comp|
    requires SeeEntry(l, s.pending, index).1 && Follows(l, index, v)
    ensures Owed(l, VisitEntry(l, s, index), p, v)
  {
    var c := l.comp[index];
    var m := SeeEntry(l, s.pending, index).0;
    SeenEntry(l, s.pending, index);
    CgEdges(l, c);
    AllMadePending(l, m, l.cg[c]);
    MemberOf(l, l.comp[v], v);
    var k :| 0 <= k < |l.cg[c]| && l.cg[c][k].dest == l.comp[v];
    var o := OrderOf(l, v);
    assert Targeted(l, l.cg[c], o);
    var t := VisitEntry(l, s, index).pending;
    assert FreshAt(l, t, o);
    SameOrder(l, t[o].id, l.comp[v]);
  }

  lemma VisitedShape(l: Layout, s: Schedule, index: int)
    requires LayoutOk(l) && PendingOk(l, s.pending) && LineOk(l, s.line) && 0 <= index < |l.comp|
    ensures var t := VisitEntry(l, s, index);
      PendingOk(l, t.pending) && LineOk(l, t.line) && t.line == s.line + [index]
  {
    SeenEntry(l, s.pending, index);
    CgEdges(l, l.comp[index]);
    FollowersOk(l, SeeEntry(l, s.pending, index).0, l.comp[index]);
  }

  lemma FollowersOk(l: Layout, pending: Pending, c: int)
    requires LayoutOk(l) && PendingOk(l, pending) && 0 <= c < |l.components|
    requires forall k :: 0 <= k < |l.cg[c]| ==> 0 <= l.cg[c][k].dest < |l.components|
    ensures PendingOk(l, MakeAllPending(l, pending, l.cg[c]))
  {
    AllMadePending(l, pending, l.cg[c]);
  }

  /** A pending component is pending after the visit, unless the visit completed it. */
  lemma PendingKept(l: Layout, s: Schedule, index: int, o: int)
    requires LayoutOk(l) && PendingOk(l, s.pending) && 0 <= index < |l.comp|
    requires o in s.pending || o == OrderOf(l, index)
    requires !(o == OrderOf(l, index) && SeeEntry(l, s.pending, index).1)
    ensures o in VisitEntry(l, s, index).pending
  {
    SeenEntry(l, s.pending, index);
    CgEdges(l, l.comp[index]);
    var (m, completed) := SeeEntry(l, s.pending, index);
    AllMadePending(l, m, l.cg[l.comp[index]]);
  }

  lemma SettledStep(l: Layout, s: Schedule, index: int, p: int)
    requires LayoutOk(l) && PendingOk(l, s.pending) && LineOk(l, s.line) && Settled(l, s) && 0 <= index < |l.comp|
    requires 0 <= p <= |s.line|
    ensures LineOk(l, VisitEntry(l, s, index).line) && |VisitEntry(l, s, index).line| == |s.line| + 1
    ensures SettledAt(l, VisitEntry(l, s, index), p)
  {
    VisitedShape(l, s, index);
    var t := VisitEntry(l, s, index);
    var completed := SeeEntry(l, s.pending, index).1;
    var o := OrderOf(l, t.line[p]);
    if o == OrderOf(l, index) && completed {
      SameOrder(l, l.comp[t.line[p]], l.comp[index]);
      forall v | Follows(l, t.line[p], v) ensures Owed(l, t, p, v) {
        CompletionOwes(l, s, index, p, v);
      }
    } else if p == |s.line| || o in s.pending {
      PendingKept(l, s, index, o);
    } else {
      assert SettledAt(l, s, p);
      forall v | Follows(l, t.line[p], v) ensures Owed(l, t, p, v) {
        OwedKept(l, s, index, p, v);
      }
    }
  }

  /** Emitting any entry keeps the order invariant. */
  lemma SettledKept(l: Layout, s: Schedule, index: int)
    requires LayoutOk(l) && PendingOk(l, s.pending) && LineOk(l, s.line) && Settled(l, s) && 0 <= index < |l.comp|
    ensures PendingOk(l, VisitEntry(l, s, index).pending) && LineOk(l, VisitEntry(l, s, index).line)
    ensures Settled(l, VisitEntry(l, s, index))
  {
    VisitedShape(l, s, index);
    hide LayoutOk, PendingOk, VisitEntry, SettledAt;
    forall p | 0 <= p <= |s.line| ensures SettledAt(l, VisitEntry(l, s, index), p) {
      SettledStep(l, s, index, p);
    }
  }

  // ---- from single steps of the component graph to reachability ----

  /** Every item of every component reachable from that of position p comes later. */
  ghost predicate OrderedAt(l: Layout, line: seq<int>, p: int)
    requires 0 <= p < |line|
  {
    0 <= line[p] < |l.comp| &&
    forall v :: 0 <= v < |l.comp| && l.comp[v] != l.comp[line[p]] && Reach(l.cg, l.comp[line[p]], l.comp[v]) ==>
      Later(line, p, v)
  }

  ghost predicate Ordered(l: Layout, line: seq<int>) {
    forall p :: 0 <= p < |line| ==> OrderedAt(l, line, p)
  }

  lemma {:induction false} ReachLater(l: Layout, line: seq<int>, w: seq<int>, p: int, v: int)
    requires LayoutOk(l) && LineOk(l, line) && Settled(l, Schedule(map[], line))
    requires IsWalk(l.cg, w) && |w| > 1 && 0 <= p < |line| && 0 <= v < |l.comp|
    requires w[0] == l.comp[line[p]] && w[|w| - 1] == l.comp[v]
    ensures Later(line, p, v)
    decreases |w|
  {
    WalkTail(l.cg, w);
    assert SettledAt(l, Schedule(map[], line), p);
    hide LayoutOk, Settled, HasEdge;
    if |w| == 2 {
      assert Follows(l, line[p], v);
      assert Owed(l, Schedule(map[], line), p, v);
    } else {
      var x := AnyMember(l, w[0], w[1]);
      assert Follows(l, line[p], x);
      assert Owed(l, Schedule(map[], line), p, x);
      var q :| p < q < |line| && line[q] == x;
      ReachLater(l, line, w[1..], q, v);
      var r :| q < r < |line| && line[r] == v;
    }
  }

  lemma AnyMember(l: Layout, b: int, c: int) returns (x: int)
    requires LayoutOk(l) && HasEdge(l.cg, b, c)
    ensures 0 <= x < |l.comp| && l.comp[x] == c
  {
    assert Node(l.cg, c);
    NeedPositive(l, c);
    x := l.components[c][0];
    assert x in Members(l, c);
    MemberOf(l, c, x);
  }

  /** When nothing is pending any more, the line is ordered. */
  lemma DrainedOrdered(l: Layout, s: Schedule)
    requires LayoutOk(l) && LineOk(l, s.line) && Settled(l, s) && s.pending == map[]
    ensures Ordered(l, s.line)
  {
    assert s == Schedule(map[], s.line);
    forall p, v | 0 <= p < |s.line| && 0 <= v < |l.comp| && l.comp[v] != l.comp[s.line[p]] &&
      Reach(l.cg, l.comp[s.line[p]], l.comp[v])
      ensures Later(s.line, p, v)
    {
      var w :| IsWalk(l.cg, w) && w[0] == l.comp[s.line[p]] && w[|w| - 1] == l.comp[v];
      ReachLater(l, s.line, w, p, v);
    }
  }

  // ---- complete passes ----

  ghost predicate Covers(segment: seq<int>, m: set<int>) {
    forall v :: v in m ==> v in segment
  }

  /** The line splits into k successive stretches (and a remainder in front), each containing all of m. */
  ghost predicate HasPasses(line: seq<int>, m: set<int>, k: int)
    decreases k
  {
    k <= 0 || exists cut :: 0 <= cut <= |line| && Covers(line[cut..], m) && HasPasses(line[..cut], m, k - 1)
  }

  lemma PassesGrow(line: seq<int>, x: int, m: set<int>, k: int)
    requires HasPasses(line, m, k)
    ensures HasPasses(line + [x], m, k)
  {
    if k > 0 {
      var cut :| 0 <= cut <= |line| && Covers(line[cut..], m) && HasPasses(line[..cut], m, k - 1);
      var t := line + [x];
      assert t[cut..] == line[cut..] + [x] && t[..cut] == line[..cut];
      assert Covers(t[cut..], m);
    }
  }

  /** The passes made for component c so far, given how its pending record stands. */
  ghost predicate PassesAt(l: Layout, s: Schedule, c: int)
    requires LayoutOk(l) && 0 <= c < |l.components|
  {
    var o := l.order[c];
    if o in s.pending then
      InProgress(s.line, Members(l, c), Need(l, c) - s.pending[o].count, s.pending[o].entries)
    else
      (exists p :: 0 <= p < |s.line| && s.line[p] in Members(l, c)) ==> HasPasses(s.line, Members(l, c), Need(l, c))
  }

  /** k passes up to `cut`, and since then everything but `left`. */
  ghost predicate Partial(line: seq<int>, cut: int, m: set<int>, k: int, left: set<int>) {
    0 <= cut <= |line| && HasPasses(line[..cut], m, k) && Covers(line[cut..], m - left)
  }

  ghost predicate InProgress(line: seq<int>, m: set<int>, k: int, left: set<int>) {
    exists cut :: Partial(line, cut, m, k, left)
  }

  ghost predicate Passes(l: Layout, s: Schedule)
    requires LayoutOk(l)
  {
    forall c :: 0 <= c < |l.components| ==> PassesAt(l, s, c)
  }

  lemma ProgressGrows(line: seq<int>, x: int, m: set<int>, k: int, left: set<int>)
    requires InProgress(line, m, k, left)
    ensures InProgress(line + [x], m, k, left - {x})
  {
    var cut :| Partial(line, cut, m, k, left);
    var t := line + [x];
    assert t[..cut] == line[..cut] && t[cut..] == line[cut..] + [x];
    assert t[cut..][|t[cut..]| - 1] == x;
    assert Partial(t, cut, m, k, left - {x});
  }

  lemma ProgressDone(line: seq<int>, m: set<int>, k: int)
    requires InProgress(line, m, k, {}) && k >= 0
    ensures HasPasses(line, m, k + 1)
    ensures InProgress(line, m, k + 1, m)
  {
    var cut :| Partial(line, cut, m, k, {});
    assert m - {} == m;
    assert line[..|line|] == line;
    assert Partial(line, |line|, m, k + 1, m);
  }

  /** A record just made starts a new count of passes at the end of the line. */
  lemma ProgressFresh(line: seq<int>, m: set<int>)
    ensures InProgress(line, m, 0, m)
  {
    assert Partial(line, |line|, m, 0, m);
  }

  /** Keying the pending map by order loses nothing: the record found there is the component's own. */
  lemma OwnRecord(l: Layout, pending: Pending, c: int)
    requires LayoutOk(l) && PendingOk(l, pending) && 0 <= c < |l.components| && l.order[c] in pending
    ensures pending[l.order[c]].id == c && 1 <= pending[l.order[c]].count <= Need(l, c)
    ensures pending[l.order[c]].entries != {} && pending[l.order[c]].entries <= Members(l, c)
  {
    assert PendingOkAt(l, l.order[c], pending[l.order[c]]);
    SameOrder(l, c, pending[l.order[c]].id);
  }

  lemma ProgressStep(line: seq<int>, x: int, m: set<int>, need: int, pc: PendingComponent)
    requires InProgress(line, m, need - pc.count, pc.entries) && pc.count <= need
    ensures InProgress(line + [x], m, need - pc.count, pc.entries - {x})
    ensures pc.entries - {x} == {} ==> HasPasses(line + [x], m, need - (pc.count - 1))
    ensures pc.entries - {x} == {} ==> InProgress(line + [x], m, need - (pc.count - 1), m)
  {
    hide InProgress, HasPasses;
    ProgressGrows(line, x, m, need - pc.count, pc.entries);
    if pc.entries - {x} == {} {
      ProgressDone(line + [x], m, need - pc.count);
    }
  }

  /** Emitting an entry of component c, in each of its situations. */
  lemma PassesOwnPending(l: Layout, s: Schedule, index: int, m: Pending)
    requires LayoutOk(l) && PendingOk(l, s.pending) && 0 <= index < |l.comp|
    requires SeenInPass(l, s.pending, m, index) && PassesAt(l, s, l.comp[index])
    requires OrderOf(l, index) in s.pending
    ensures PassesAt(l, Schedule(m, s.line + [index]), l.comp[index])
  {
    var c := l.comp[index];
    var o := l.order[c];
    OwnRecord(l, s.pending, c);
    hide LayoutOk, Need, Members, PendingOk, HasPasses, InProgress, TopologicalOrder, ListsOk, ListOk;
    var pc, mem, need, line := s.pending[o], Members(l, c), Need(l, c), s.line + [index];
    ProgressStep(s.line, index, mem, need, pc);
    if pc.entries - {index} != {} {
      assert m[o] == PendingComponent(c, pc.count, pc.entries - {index});
    } else if pc.count == 1 {
      assert need - (pc.count - 1) == need && HasPasses(line, mem, need);
    } else {
      assert m[o] == PendingComponent(c, pc.count - 1, mem);
    }
  }

  lemma PassesOwnNew(l: Layout, s: Schedule, index: int, m: Pending)
    requires LayoutOk(l) && PendingOk(l, s.pending) && 0 <= index < |l.comp|
    requires SeenInPass(l, s.pending, m, index) && OrderOf(l, index) !in s.pending
    ensures PassesAt(l, Schedule(m, s.line + [index]), l.comp[index])
  {
    var c := l.comp[index];
    var mem := Members(l, c);
    NeedPositive(l, c);
    MemberOf(l, c, index);
    ProgressFresh(s.line, mem);
    ProgressGrows(s.line, index, mem, 0, mem);
    if Need(l, c) == 1 {
      SingleMember(l, c, index);
      hide InProgress, HasPasses;
      ProgressDone(s.line + [index], mem, 0);
    }
  }

  lemma SingleMember(l: Layout, c: int, x: int)
    requires LayoutOk(l) && 0 <= c < |l.components| && Need(l, c) == 1 && x in Members(l, c)
    ensures Members(l, c) - {x} == {}
  {
    NeedPositive(l, c);
    assert |l.components[c]| == 1;
    assert l.components[c][0] == x;
  }

  lemma PendingElsewhere(l: Layout, pending: Pending, c: int, index: int)
    requires LayoutOk(l) && PendingOk(l, pending) && 0 <= c < |l.components| && l.order[c] in pending
    requires 0 <= index < |l.comp| && c != l.comp[index]
    ensures index !in pending[l.order[c]].entries
  {
    OwnRecord(l, pending, c);
    MemberOf(l, c, index);
  }

  lemma PassesOther(l: Layout, s: Schedule, index: int, m: Pending, c: int)
    requires LayoutOk(l) && PendingOk(l, s.pending) && 0 <= index < |l.comp|
    requires 0 <= c < |l.components| && c != l.comp[index] && PassesAt(l, s, c)
    requires l.order[c] in m <==> l.order[c] in s.pending
    requires l.order[c] in m ==> m[l.order[c]] == s.pending[l.order[c]]
    ensures PassesAt(l, Schedule(m, s.line + [index]), c)
  {
    var o := l.order[c];
    var t := s.line + [index];
    var mem := Members(l, c);
    MemberOf(l, c, index);
    hide LayoutOk, Need, Members, PendingOk, HasPasses;
    if o in m {
      var k := Need(l, c) - m[o].count;
      ProgressGrows(s.line, index, mem, k, m[o].entries);
      assert m[o].entries - {index} == m[o].entries by { PendingElsewhere(l, s.pending, c, index); }
    } else if exists p :: 0 <= p < |t| && t[p] in mem {
      var p :| 0 <= p < |t| && t[p] in mem;
      assert p < |s.line| && s.line[p] in mem;
      PassesGrow(s.line, index, mem, Need(l, c));
    }
  }

  /** Components made pending by a completion start over. */
  lemma PassesReset(l: Layout, s: Schedule, m: Pending, edges: EdgeList, c: int)
    requires LayoutOk(l) && PendingOk(l, s.pending)
    requires forall k :: 0 <= k < |edges| ==> 0 <= edges[k].dest < |l.components|
    requires m == MakeAllPending(l, s.pending, edges) && 0 <= c < |l.components| && PassesAt(l, s, c)
    ensures PassesAt(l, Schedule(m, s.line), c)
  {
    AllMadePending(l, s.pending, edges);
    if Targeted(l, edges, l.order[c]) {
      PassesFresh(l, s.line, m, c);
    } else {
      PassesSame(l, s, m, c);
    }
  }

  lemma PassesFresh(l: Layout, line: seq<int>, m: Pending, c: int)
    requires LayoutOk(l) && 0 <= c < |l.components| && FreshAt(l, m, l.order[c])
    ensures PassesAt(l, Schedule(m, line), c)
  {
    SameOrder(l, c, m[l.order[c]].id);
    ProgressFresh(line, Members(l, c));
  }

  lemma PassesSame(l: Layout, s: Schedule, m: Pending, c: int)
    requires LayoutOk(l) && 0 <= c < |l.components| && PassesAt(l, s, c)
    requires l.order[c] in m <==> l.order[c] in s.pending
    requires l.order[c] in m ==> m[l.order[c]] == s.pending[l.order[c]]
    ensures PassesAt(l, Schedule(m, s.line), c)
  {
  }
  lemma PassesStep(l: Layout, s: Schedule, index: int, c: int)
    requires LayoutOk(l) && PendingOk(l, s.pending) && 0 <= index < |l.comp| && 0 <= c < |l.components|
    requires PassesAt(l, s, l.comp[index]) && PassesAt(l, s, c)
    ensures PassesAt(l, VisitEntry(l, s, index), c)
  {
    SeenEntry(l, s.pending, index);
    var (m, completed) := SeeEntry(l, s.pending, index);
    var mid := Schedule(m, s.line + [index]);
    if c == l.comp[index] {
      if l.order[c] in s.pending {
        PassesOwnPending(l, s, index, m);
      } else {
        PassesOwnNew(l, s, index, m);
      }
    } else {
      PassesOther(l, s, index, m, c);
    }
    if completed {
      CgEdges(l, l.comp[index]);
      PassesReset(l, mid, MakeAllPending(l, m, l.cg[l.comp[index]]), l.cg[l.comp[index]], c);
    }
  }

  /** Emitting any entry keeps the account of passes. */
  lemma PassesKept(l: Layout, s: Schedule, index: int)
    requires LayoutOk(l) && PendingOk(l, s.pending) && 0 <= index < |l.comp| && Passes(l, s)
    ensures Passes(l, VisitEntry(l, s, index))
  {
    hide PassesAt, PendingOk, VisitEntry;
    forall c | 0 <= c < |l.components| ensures PassesAt(l, VisitEntry(l, s, index), c) {
      PassesStep(l, s, index, c);
    }
  }

  /** A drained schedule has given every component it touched all its passes. */
  lemma DrainedPasses(l: Layout, s: Schedule, x: int)
    requires LayoutOk(l) && LineOk(l, s.line) && Passes(l, s) && s.pending == map[] && x in s.line
    ensures HasPasses(s.line, Members(l, l.comp[x]), Need(l, l.comp[x]))
  {
    var c := l.comp[x];
    assert PassesAt(l, s, c);
    MemberOf(l, c, x);
    var p :| 0 <= p < |s.line| && s.line[p] == x;
    assert s.line[p] in Members(l, c);
  }
}
