/** Working off what is left pending once the original link line has been emitted. */
module LinkDrain {
  import opened Collections
  import opened Graphs
  import opened LinkSchedule
  import opened LinkOrder

  predicate IsFirst(pending: Pending, o: int) {
    o in pending && forall p :: p in pending ==> o <= p
  }

  predicate IsLeast(entries: set<int>, e: int) {
    e in entries && forall x :: x in entries ==> e <= x
  }

  lemma SomeLeastEntry(entries: set<int>)
    requires entries != {}
    ensures exists e :: IsLeast(entries, e)
  {
    var x := SomeElement(entries);
    SomeLeast(entries, x);
    var e :| e in entries && forall p :: p in entries ==> e <= p;
    assert IsLeast(entries, e);
  }

  /** How far the drain still has to go, compared lexicographically. */
  ghost function FirstOrder(l: Layout, pending: Pending): (o: int)
    ensures pending != map[] ==> IsFirst(pending, o)
    ensures pending == map[] ==> o == |l.cg|
  {
    if pending == map[] then |l.cg|
    else
      SomeFirst(pending);
      var o :| IsFirst(pending, o);
      o
  }

  lemma SomeFirst(pending: Pending)
    requires pending != map[]
    ensures exists o :: IsFirst(pending, o)
  {
    var x := SomeKey(pending);
    SomeLeast(pending.Keys, x);
    var o :| o in pending.Keys && forall p :: p in pending.Keys ==> o <= p;
    assert IsFirst(pending, o);
  }

  ghost function CountAt(pending: Pending, o: int): int {
    if o in pending then pending[o].count else 0
  }

  ghost function LeftAt(pending: Pending, o: int): nat {
    if o in pending then |pending[o].entries| else 0
  }

  /** Completing the first pending component adds only components that come later. */
  lemma DrainForward(l: Layout, s: Schedule, o: int, e: int)
    requires LayoutOk(l) && PendingOk(l, s.pending) && IsFirst(s.pending, o) && e in s.pending[o].entries
    requires 0 <= e < |l.comp| && OrderOf(l, e) == o
    ensures var t := VisitEntry(l, s, e).pending;
      && (forall p :: p in t ==> o <= p < |l.cg|)
      && (SeeEntry(l, s.pending, e).1 ==> o !in t)
      && (!SeeEntry(l, s.pending, e).1 ==> t == SeeEntry(l, s.pending, e).0)
  {
    var c := l.comp[e];
    SeenEntry(l, s.pending, e);
    var (m, completed) := SeeEntry(l, s.pending, e);
    CgEdges(l, c);
    AllMadePending(l, m, l.cg[c]);
    var t := VisitEntry(l, s, e).pending;
    VisitedPendingOk(l, s, e);
    forall p | p in t ensures o <= p < |l.cg| && (completed ==> p != o) {
      assert PendingOkAt(l, p, t[p]);
      if completed && Targeted(l, l.cg[c], p) {
        TargetedAbove(l, c, p);
      }
    }
  }

  /** Emitting an entry of the first pending component moves only forward in the order. */
  lemma DrainStep(l: Layout, s: Schedule, o: int, e: int)
    requires LayoutOk(l) && PendingOk(l, s.pending) && IsFirst(s.pending, o) && e in s.pending[o].entries
    ensures 0 <= e < |l.comp| && OrderOf(l, e) == o
    ensures var t := VisitEntry(l, s, e).pending;
      && (forall p :: p in t ==> o <= p < |l.cg|)
      && (o in t ==>
            CountAt(t, o) < CountAt(s.pending, o) ||
            (CountAt(t, o) == CountAt(s.pending, o) && LeftAt(t, o) < LeftAt(s.pending, o)))
  {
    assert PendingOkAt(l, o, s.pending[o]);
    MemberOf(l, s.pending[o].id, e);
    DrainForward(l, s, o, e);
    SeenEntry(l, s.pending, e);
    hide VisitEntry, PendingOk, LayoutOk, SeeEntry, Need, Members;
    assert SeenInPass(l, s.pending, SeeEntry(l, s.pending, e).0, e);
  }

  lemma VisitedPendingOk(l: Layout, s: Schedule, e: int)
    requires LayoutOk(l) && PendingOk(l, s.pending) && 0 <= e < |l.comp|
    ensures PendingOk(l, VisitEntry(l, s, e).pending)
  {
    SeenEntry(l, s.pending, e);
    CgEdges(l, l.comp[e]);
    AllMadePending(l, SeeEntry(l, s.pending, e).0, l.cg[l.comp[e]]);
  }

  /** The measure of the drain loop: a larger first order, or fewer passes left, or fewer entries in this pass. */
  lemma DrainDecreases(l: Layout, s: Schedule, o: int, e: int)
    requires LayoutOk(l) && PendingOk(l, s.pending) && IsFirst(s.pending, o) && e in s.pending[o].entries
    ensures 0 <= e < |l.comp|
    ensures var t := VisitEntry(l, s, e).pending;
      var o' := FirstOrder(l, t);
      && FirstOrder(l, s.pending) == o
      && o <= o' <= |l.cg|
      && (o' == o ==>
            0 <= CountAt(t, o') && (CountAt(t, o') < CountAt(s.pending, o) ||
            (CountAt(t, o') == CountAt(s.pending, o) && LeftAt(t, o') < LeftAt(s.pending, o))))
  {
    DrainStep(l, s, o, e);
    VisitedPendingOk(l, s, e);
    var t := VisitEntry(l, s, e).pending;
    var o' := FirstOrder(l, t);
    assert PendingOkAt(l, o, s.pending[o]);
    if t != map[] {
      assert o' in t;
      assert PendingOkAt(l, o', t[o']);
    }
  }

  // ---- the drained tail: sorted by component, with bounded repeats ----

  ghost function Tail(line: seq<int>, start: int): seq<int> {
    if 0 <= start <= |line| then line[start..] else []
  }

  /** How often v is still going to be emitted for the records now pending. */
  ghost function Remaining(l: Layout, pending: Pending, v: int): int
    requires LayoutOk(l) && 0 <= v < |l.comp|
  {
    var o := OrderOf(l, v);
    if o in pending then pending[o].count - 1 + (if v in pending[o].entries then 1 else 0) else 0
  }

  ghost predicate TailBelow(l: Layout, start: int, s: Schedule)
    requires LayoutOk(l) && LineOk(l, s.line)
  {
    forall q, o :: 0 <= q < |s.line| && start <= q && o in s.pending ==> OrderOf(l, s.line[q]) <= o
  }

  ghost predicate TailSorted(l: Layout, start: int, line: seq<int>)
    requires LayoutOk(l) && LineOk(l, line)
  {
    forall q, r :: 0 <= q < r < |line| && start <= q ==> OrderOf(l, line[q]) <= OrderOf(l, line[r])
  }

  ghost predicate RepeatsBounded(l: Layout, start: int, s: Schedule)
    requires LayoutOk(l)
  {
    forall v :: 0 <= v < |l.comp| ==>
      multiset(Tail(s.line, start))[v] + Remaining(l, s.pending, v) <= Need(l, l.comp[v])
  }

  ghost predicate Draining(l: Layout, start: int, s: Schedule)
    requires LayoutOk(l)
  {
    && 0 <= start <= |s.line| && PendingOk(l, s.pending) && LineOk(l, s.line)
    && TailBelow(l, start, s) && TailSorted(l, start, s.line) && RepeatsBounded(l, start, s)
  }

  lemma DrainBegins(l: Layout, s: Schedule)
    requires LayoutOk(l) && PendingOk(l, s.pending) && LineOk(l, s.line)
    ensures Draining(l, |s.line|, s)
  {
    forall v | 0 <= v < |l.comp|
      ensures multiset(Tail(s.line, |s.line|))[v] + Remaining(l, s.pending, v) <= Need(l, l.comp[v])
    {
      NeedPositive(l, l.comp[v]);
      assert Tail(s.line, |s.line|) == [];
      if OrderOf(l, v) in s.pending {
        OwnRecord(l, s.pending, l.comp[v]);
      }
    }
  }

  lemma NotInTail(l: Layout, start: int, s: Schedule, o: int, v: int)
    requires LayoutOk(l) && Draining(l, start, s) && IsFirst(s.pending, o)
    requires 0 <= v < |l.comp| && o < OrderOf(l, v)
    ensures multiset(Tail(s.line, start))[v] == 0
  {
    assert forall q :: 0 <= q < |s.line| && start <= q ==> s.line[q] != v;
    assert v !in Tail(s.line, start);
  }

  /** The account of the component being drained balances: one more emitted, one fewer remaining. */
  lemma BalanceOwn(l: Layout, pending: Pending, m: Pending, e: int, v: int)
    requires LayoutOk(l) && PendingOk(l, pending) && 0 <= e < |l.comp| && 0 <= v < |l.comp| && l.comp[v] == l.comp[e]
    requires OrderOf(l, e) in pending && e in pending[OrderOf(l, e)].entries && SeenInPass(l, pending, m, e)
    ensures Remaining(l, m, v) + (if v == e then 1 else 0) <= Remaining(l, pending, v)
  {
    OwnRecord(l, pending, l.comp[e]);
    MemberOf(l, l.comp[e], v);
    hide LayoutOk, Need, Members, PendingOk;
    if v != e && v in pending[OrderOf(l, e)].entries {
      assert v in pending[OrderOf(l, e)].entries - {e};
    }
  }

  lemma RepeatsStep(l: Layout, start: int, s: Schedule, o: int, e: int, v: int)
    requires LayoutOk(l) && Draining(l, start, s) && IsFirst(s.pending, o) && e in s.pending[o].entries
    requires 0 <= v < |l.comp|
    ensures 0 <= e < |l.comp|
    ensures multiset(Tail(VisitEntry(l, s, e).line, start))[v] + Remaining(l, VisitEntry(l, s, e).pending, v)
      <= Need(l, l.comp[v])
  {
    DrainStep(l, s, o, e);
    TailMore(l, start, s, e, v);
    if OrderOf(l, v) == o {
      RepeatsOwn(l, s, o, e, v);
    } else {
      RepeatsOther(l, start, s, o, e, v);
    }
    hide VisitEntry, LayoutOk, Need, Remaining, Tail;
  }

  lemma TailMore(l: Layout, start: int, s: Schedule, e: int, v: int)
    requires LayoutOk(l) && PendingOk(l, s.pending) && 0 <= start <= |s.line| && 0 <= e < |l.comp|
    ensures multiset(Tail(VisitEntry(l, s, e).line, start))[v] ==
            multiset(Tail(s.line, start))[v] + if v == e then 1 else 0
  {
    assert Tail(VisitEntry(l, s, e).line, start) == Tail(s.line, start) + [e];
    CountAppend(Tail(s.line, start), [e], v);
  }

  /** An entry of the component being drained: what is emitted is no longer remaining. */
  lemma RepeatsOwn(l: Layout, s: Schedule, o: int, e: int, v: int)
    requires LayoutOk(l) && PendingOk(l, s.pending) && IsFirst(s.pending, o) && e in s.pending[o].entries
    requires 0 <= e < |l.comp| && OrderOf(l, e) == o && 0 <= v < |l.comp| && OrderOf(l, v) == o
    ensures Remaining(l, VisitEntry(l, s, e).pending, v) + (if v == e then 1 else 0) <= Remaining(l, s.pending, v)
  {
    SeenEntry(l, s.pending, e);
    var m := SeeEntry(l, s.pending, e).0;
    SameOrder(l, l.comp[v], l.comp[e]);
    BalanceOwn(l, s.pending, m, e, v);
    DrainForward(l, s, o, e);
    hide VisitEntry, PendingOk, LayoutOk, SeeEntry;
  }

  /** Any other entry: nothing changes for it, or its component is to be seen afresh and was not in the tail. */
  lemma RepeatsOther(l: Layout, start: int, s: Schedule, o: int, e: int, v: int)
    requires LayoutOk(l) && Draining(l, start, s) && IsFirst(s.pending, o) && e in s.pending[o].entries
    requires 0 <= e < |l.comp| && OrderOf(l, e) == o && 0 <= v < |l.comp| && OrderOf(l, v) != o
    ensures v != e
    ensures multiset(Tail(s.line, start))[v] + Remaining(l, VisitEntry(l, s, e).pending, v) <= Need(l, l.comp[v])
  {
    OtherAfterVisit(l, s, e, v);
    var t := VisitEntry(l, s, e);
    if FreshAt(l, t.pending, OrderOf(l, v)) && o < OrderOf(l, v) {
      NotInTail(l, start, s, o, v);
      RemainingFresh(l, t.pending, v);
    } else {
      RemainingSame(l, s.pending, t.pending, v);
    }
  }

  /** A visit makes the record of another component fresh, and then that one comes later, or leaves it alone. */
  lemma OtherAfterVisit(l: Layout, s: Schedule, e: int, v: int)
    requires LayoutOk(l) && PendingOk(l, s.pending) && 0 <= e < |l.comp| && 0 <= v < |l.comp|
    requires OrderOf(l, v) != OrderOf(l, e)
    ensures var t, p := VisitEntry(l, s, e).pending, OrderOf(l, v);
      (FreshAt(l, t, p) && OrderOf(l, e) < p) || ((p in t <==> p in s.pending) && (p in t ==> t[p] == s.pending[p]))
  {
    SeenEntry(l, s.pending, e);
    if SeeEntry(l, s.pending, e).1 {
      CgEdges(l, l.comp[e]);
      AllMadePending(l, SeeEntry(l, s.pending, e).0, l.cg[l.comp[e]]);
      if Targeted(l, l.cg[l.comp[e]], OrderOf(l, v)) {
        TargetedAbove(l, l.comp[e], OrderOf(l, v));
      }
    }
  }

  lemma RemainingSame(l: Layout, pending: Pending, m: Pending, v: int)
    requires LayoutOk(l) && 0 <= v < |l.comp|
    requires OrderOf(l, v) in m <==> OrderOf(l, v) in pending
    requires OrderOf(l, v) in m ==> m[OrderOf(l, v)] == pending[OrderOf(l, v)]
    ensures Remaining(l, m, v) == Remaining(l, pending, v)
  {
  }

  lemma RemainingFresh(l: Layout, pending: Pending, v: int)
    requires LayoutOk(l) && 0 <= v < |l.comp| && FreshAt(l, pending, OrderOf(l, v))
    ensures Remaining(l, pending, v) == Need(l, l.comp[v])
  {
    SameOrder(l, pending[OrderOf(l, v)].id, l.comp[v]);
    MemberOf(l, l.comp[v], v);
    hide LayoutOk, Need, Members;
  }

  lemma TargetedAbove(l: Layout, c: int, o: int)
    requires LayoutOk(l) && 0 <= c < |l.components| && Targeted(l, l.cg[c], o)
    ensures l.order[c] < o
  {
    var k :| 0 <= k < |l.cg[c]| && 0 <= l.cg[c][k].dest < |l.order| && l.order[l.cg[c][k].dest] == o;
    assert HasEdge(l.cg, c, l.cg[c][k].dest);
  }

  lemma DrainKept(l: Layout, start: int, s: Schedule, o: int, e: int)
    requires LayoutOk(l) && Draining(l, start, s) && IsFirst(s.pending, o) && e in s.pending[o].entries
    ensures 0 <= e < |l.comp| && Draining(l, start, VisitEntry(l, s, e))
  {
    DrainStep(l, s, o, e);
    VisitedShape(l, s, e);
    var t := VisitEntry(l, s, e);
    assert RepeatsBounded(l, start, t) by {
      forall v | 0 <= v < |l.comp|
        ensures multiset(Tail(t.line, start))[v] + Remaining(l, t.pending, v) <= Need(l, l.comp[v])
      {
        RepeatsStep(l, start, s, o, e, v);
      }
    }
    hide VisitEntry, LayoutOk, PendingOk, RepeatsBounded, Need;
    assert TailSorted(l, start, t.line);
    assert TailBelow(l, start, t);
  }
}
