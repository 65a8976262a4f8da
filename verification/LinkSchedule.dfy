/** The schedule of the link line: which components are still owed, and what has been emitted.
    The operations are the source's updates of its pending map, as functions on values. */
module LinkSchedule {
  import opened Graphs
  import opened TarjanWalk

  /** A component that must still be seen: how many more times, and which entries this time round. */
  datatype PendingComponent = PendingComponent(id: int, count: int, entries: set<int>)

  type Pending = map<int, PendingComponent>

  datatype Schedule = Schedule(pending: Pending, line: seq<int>)

  /** What stays fixed while the line is emitted. `order` numbers the components topologically;
      `multiplicity` is that of each entry's link interface, 0 where it has none. */
  datatype Layout = Layout(
    comp: seq<int>,
    components: seq<NodeList>,
    cg: Graph,
    order: seq<int>,
    multiplicity: seq<nat>)

  // ---- how often a component must be seen ----

  function MaxMultiplicity(nl: NodeList, multiplicity: seq<nat>, least: int): (count: int)
    requires forall k :: 0 <= k < |nl| ==> 0 <= nl[k] < |multiplicity|
    ensures count >= least && forall k :: 0 <= k < |nl| ==> multiplicity[nl[k]] <= count
    ensures count == least || exists k :: 0 <= k < |nl| && multiplicity[nl[k]] == count
  {
    if |nl| == 0 then least
    else
      var rest := MaxMultiplicity(nl[..|nl| - 1], multiplicity, least);
      var last := multiplicity[nl[|nl| - 1]];
      assert forall k :: 0 <= k < |nl| - 1 ==> nl[..|nl| - 1][k] == nl[k];
      if last > rest then last else rest
  }

  /** Passes needed: one for a trivial component, otherwise two or the largest declared multiplicity. */
  function Need(l: Layout, c: int): int
    requires LayoutOk(l) && 0 <= c < |l.components|
  {
    NeedWellDefined(l, c);
    if |l.components[c]| == 1 then 1 else MaxMultiplicity(l.components[c], l.multiplicity, 2)
  }

  lemma NeedWellDefined(l: Layout, c: int)
    requires LayoutOk(l) && 0 <= c < |l.components|
    ensures |l.components[c]| > 0
    ensures forall k :: 0 <= k < |l.components[c]| ==> 0 <= l.components[c][k] < |l.multiplicity|
  {
    assert ListOk(l.comp, l.components[c], c);
    assert forall k :: 0 <= k < |l.components[c]| ==> l.components[c][k] in l.components[c];
  }

  ghost predicate TopologicalOrder(cg: Graph, order: seq<int>) {
    && |order| == |cg|
    && (forall c :: 0 <= c < |cg| ==> 0 <= order[c] < |cg|)
    && (forall c, d :: 0 <= c < d < |cg| ==> order[c] != order[d])
    && (forall c, d :: HasEdge(cg, c, d) ==> Node(cg, c) && Node(cg, d) && order[c] < order[d])
  }

  ghost predicate LayoutOk(l: Layout) {
    && |l.multiplicity| == |l.comp| && |l.cg| == |l.components|
    && (forall x :: 0 <= x < |l.comp| ==> 0 <= l.comp[x] < |l.components|)
    && ListsOk(l.comp, l.components)
    && WellFormed(l.cg) && TopologicalOrder(l.cg, l.order)
  }

  function Members(l: Layout, c: int): set<int>
    requires 0 <= c < |l.components|
  {
    set v | v in l.components[c]
  }

  // ---- the operations ----

  function MakePendingComponent(l: Layout, pending: Pending, c: int): Pending
    requires LayoutOk(l) && 0 <= c < |l.components|
  {
    var o := l.order[c];
    var kept := if o in pending then pending[o].entries else {};
    pending[o := PendingComponent(c, Need(l, c), kept + Members(l, c))]
  }

  /** All components following a completed one become pending. */
  function MakeAllPending(l: Layout, pending: Pending, edges: EdgeList): Pending
    requires LayoutOk(l) && forall k :: 0 <= k < |edges| ==> 0 <= edges[k].dest < |l.components|
  {
    if |edges| == 0 then pending
    else MakePendingComponent(l, MakeAllPending(l, pending, edges[..|edges| - 1]), edges[|edges| - 1].dest)
  }

  /** The component of an emitted entry is updated; the flag tells whether that completed it. */
  function SeeEntry(l: Layout, pending: Pending, index: int): (r: (Pending, bool))
    requires LayoutOk(l) && 0 <= index < |l.comp|
  {
    var c := l.comp[index];
    var o := l.order[c];
    if o in pending then
      var pc := pending[o];
      var left := pc.entries - {index};
      if left != {} then (pending[o := pc.(entries := left)], false)
      else if pc.count - 1 == 0 then (pending - {o}, true)
      else (pending[o := pc.(count := pc.count - 1, entries := left + Members(l, c))], false)
    else if |l.components[c]| > 1 then
      var made := MakePendingComponent(l, pending, c);
      (made[o := made[o].(entries := made[o].entries - {index})], false)
    else (pending, true)
  }

  function VisitEntry(l: Layout, s: Schedule, index: int): Schedule
    requires LayoutOk(l) && 0 <= index < |l.comp|
  {
    var (pending, completed) := SeeEntry(l, s.pending, index);
    Schedule(
      if completed then MakeAllPending(l, pending, l.cg[l.comp[index]]) else pending,
      s.line + [index])
  }

  // ---- the pending map is well formed ----

  ghost predicate PendingOk(l: Layout, pending: Pending)
    requires LayoutOk(l)
  {
    forall o :: o in pending ==> PendingOkAt(l, o, pending[o])
  }

  ghost predicate PendingOkAt(l: Layout, o: int, pc: PendingComponent)
    requires LayoutOk(l)
  {
    && 0 <= pc.id < |l.components| && l.order[pc.id] == o
    && 1 <= pc.count <= Need(l, pc.id)
    && pc.entries != {} && pc.entries <= Members(l, pc.id)
  }

  lemma NeedPositive(l: Layout, c: int)
    requires LayoutOk(l) && 0 <= c < |l.components|
    ensures Need(l, c) >= 1 && Members(l, c) != {} && (|l.components[c]| > 1 <==> Need(l, c) >= 2)
  {
    NeedWellDefined(l, c);
    assert l.components[c][0] in Members(l, c);
  }

  lemma SameOrder(l: Layout, c: int, d: int)
    requires LayoutOk(l) && 0 <= c < |l.components| && 0 <= d < |l.components| && l.order[c] == l.order[d]
    ensures c == d
  {
    hide ListsOk, WellFormed;
  }

  lemma MemberOf(l: Layout, c: int, x: int)
    requires LayoutOk(l) && 0 <= c < |l.components|
    ensures x in Members(l, c) <==> 0 <= x < |l.comp| && l.comp[x] == c
  {
    assert ListOk(l.comp, l.components[c], c);
  }

  lemma MadePendingOk(l: Layout, pending: Pending, c: int)
    requires LayoutOk(l) && PendingOk(l, pending) && 0 <= c < |l.components|
    ensures PendingOk(l, MakePendingComponent(l, pending, c))
    ensures var m := MakePendingComponent(l, pending, c);
      && l.order[c] in m && m[l.order[c]] == PendingComponent(c, Need(l, c), Members(l, c))
      && m.Keys == pending.Keys + {l.order[c]}
      && forall o :: o in pending && o != l.order[c] ==> m[o] == pending[o]
  {
    NeedPositive(l, c);
    var o := l.order[c];
    if o in pending {
      assert PendingOkAt(l, o, pending[o]);
      SameOrder(l, c, pending[o].id);
    }
  }

  /** o is the order of one of the edges' destinations. */
  ghost predicate Targeted(l: Layout, edges: EdgeList, o: int)
  {
    exists k :: 0 <= k < |edges| && 0 <= edges[k].dest < |l.order| && l.order[edges[k].dest] == o
  }

  ghost predicate FreshAt(l: Layout, pending: Pending, o: int)
    requires LayoutOk(l)
  {
    && o in pending && 0 <= pending[o].id < |l.components| && l.order[pending[o].id] == o
    && pending[o].count == Need(l, pending[o].id) && pending[o].entries == Members(l, pending[o].id)
  }

  lemma {:induction false} AllMadePending(l: Layout, pending: Pending, edges: EdgeList)
    requires LayoutOk(l) && PendingOk(l, pending)
    requires forall k :: 0 <= k < |edges| ==> 0 <= edges[k].dest < |l.components|
    ensures var m := MakeAllPending(l, pending, edges);
      && PendingOk(l, m)
      && (forall o :: o in m <==> o in pending || Targeted(l, edges, o))
      && (forall o :: o in m && Targeted(l, edges, o) ==> FreshAt(l, m, o))
      && (forall o :: o in m && !Targeted(l, edges, o) ==> o in pending && m[o] == pending[o])
  {
    assert |l.order| == |l.components|;
    hide LayoutOk, Need, Members, PendingOk;
    if |edges| > 0 {
      var init := edges[..|edges| - 1];
      var last := edges[|edges| - 1].dest;
      AllMadePending(l, pending, init);
      var before := MakeAllPending(l, pending, init);
      MadePendingOk(l, before, last);
      TargetedMore(l, edges);
      hide Targeted, MakePendingComponent;
    }
  }

  lemma TargetedMore(l: Layout, edges: EdgeList)
    requires |edges| > 0 && 0 <= edges[|edges| - 1].dest < |l.order|
    ensures forall o ::
      Targeted(l, edges, o) <==> Targeted(l, edges[..|edges| - 1], o) || l.order[edges[|edges| - 1].dest] == o
  {
    var init := edges[..|edges| - 1];
    forall o ensures Targeted(l, edges, o) <==> Targeted(l, init, o) || l.order[edges[|edges| - 1].dest] == o {
      if Targeted(l, init, o) {
        var k :| 0 <= k < |init| && 0 <= init[k].dest < |l.order| && l.order[init[k].dest] == o;
        assert edges[k] == init[k];
      }
      if Targeted(l, edges, o) {
        var k :| 0 <= k < |edges| && 0 <= edges[k].dest < |l.order| && l.order[edges[k].dest] == o;
        assert k < |init| ==> init[k] == edges[k];
      }
    }
  }

  /** What emitting an entry does to its own component; all others are left alone. */
  lemma SeenEntry(l: Layout, pending: Pending, index: int)
    requires LayoutOk(l) && PendingOk(l, pending) && 0 <= index < |l.comp|
    ensures var (m, completed) := SeeEntry(l, pending, index);
      PendingOk(l, m) && SeenFrame(l, pending, m, index, completed) && SeenInPass(l, pending, m, index)
  {
    SeenOk(l, pending, index);
    SeenFramed(l, pending, index);
    SeenPassed(l, pending, index);
  }

  ghost predicate SeenFrame(l: Layout, pending: Pending, m: Pending, index: int, completed: bool)
    requires LayoutOk(l) && 0 <= index < |l.comp|
  {
    var c := l.comp[index]; var o := l.order[c];
    && (completed <==> o !in m)
    && m.Keys == (if completed then pending.Keys - {o} else pending.Keys + {o})
    && (forall p :: p in m && p != o ==> p in pending && m[p] == pending[p])
    && (forall p :: p in pending && p != o ==> p in m)
    && (o in m ==> m[o].id == c)
  }

  lemma OwnPending(l: Layout, pending: Pending, c: int)
    requires LayoutOk(l) && PendingOk(l, pending) && 0 <= c < |l.components| && l.order[c] in pending
    ensures PendingOkAt(l, l.order[c], pending[l.order[c]]) && pending[l.order[c]].id == c
  {
    SameOrder(l, c, pending[l.order[c]].id);
  }

  lemma PendingUpdated(l: Layout, pending: Pending, o: int, pc: PendingComponent)
    requires LayoutOk(l) && PendingOk(l, pending) && PendingOkAt(l, o, pc)
    ensures PendingOk(l, pending[o := pc]) && PendingOk(l, pending - {o})
  {
  }

  lemma SeenOk(l: Layout, pending: Pending, index: int)
    requires LayoutOk(l) && PendingOk(l, pending) && 0 <= index < |l.comp|
    ensures PendingOk(l, SeeEntry(l, pending, index).0)
  {
    var c := l.comp[index];
    NeedPositive(l, c);
    if l.order[c] in pending {
      OwnPending(l, pending, c);
      WaitingOk(l, pending, index);
    } else {
      MadePendingOk(l, pending, c);
      if |l.components[c]| > 1 {
        TwoMembers(l, c, index);
        var pc := PendingComponent(c, Need(l, c), Members(l, c) - {index});
        PendingUpdated(l, MakePendingComponent(l, pending, c), l.order[c], pc);
      }
    }
  }

  lemma WaitingOk(l: Layout, pending: Pending, index: int)
    requires LayoutOk(l) && PendingOk(l, pending) && 0 <= index < |l.comp| && l.order[l.comp[index]] in pending
    ensures PendingOk(l, SeeEntry(l, pending, index).0)
  {
    var c := l.comp[index];
    NeedPositive(l, c);
    OwnPending(l, pending, c);
    var pc := pending[l.order[c]];
    var left := pc.entries - {index};
    if left != {} {
      PendingUpdated(l, pending, l.order[c], pc.(entries := left));
    } else if pc.count == 1 {
      PendingUpdated(l, pending, l.order[c], pc);
    } else {
      PendingUpdated(l, pending, l.order[c], pc.(count := pc.count - 1, entries := left + Members(l, c)));
    }
  }

  lemma SeenFramed(l: Layout, pending: Pending, index: int)
    requires LayoutOk(l) && PendingOk(l, pending) && 0 <= index < |l.comp|
    ensures SeenFrame(l, pending, SeeEntry(l, pending, index).0, index, SeeEntry(l, pending, index).1)
  {
    var c := l.comp[index];
    if l.order[c] in pending {
      OwnPending(l, pending, c);
    }
  }

  lemma SeenPassed(l: Layout, pending: Pending, index: int)
    requires LayoutOk(l) && PendingOk(l, pending) && 0 <= index < |l.comp|
    ensures SeenInPass(l, pending, SeeEntry(l, pending, index).0, index)
  {
    var c := l.comp[index];
    NeedPositive(l, c);
    if l.order[c] in pending {
      OwnPending(l, pending, c);
    } else {
      MadePendingOk(l, pending, c);
    }
  }

  /** The transitions of one component: an entry of the same pass, the last one of a pass, or a first pass begun. */
  ghost predicate SeenInPass(l: Layout, pending: Pending, m: Pending, index: int)
    requires LayoutOk(l) && 0 <= index < |l.comp|
  {
    var c := l.comp[index]; var o := l.order[c];
    if o in pending then
      var left := pending[o].entries - {index};
      if left != {} then o in m && m[o] == PendingComponent(c, pending[o].count, left)
      else if pending[o].count == 1 then o !in m
      else o in m && m[o] == PendingComponent(c, pending[o].count - 1, Members(l, c))
    else if Need(l, c) > 1 then
      o in m && m[o] == PendingComponent(c, Need(l, c), Members(l, c) - {index})
    else o !in m
  }

  lemma TwoMembers(l: Layout, c: int, x: int)
    requires LayoutOk(l) && 0 <= c < |l.components| && |l.components[c]| > 1
    ensures Members(l, c) - {x} != {}
  {
    assert ListOk(l.comp, l.components[c], c);
    var a, b := l.components[c][0], l.components[c][1];
    assert a in Members(l, c) && b in Members(l, c) && a < b;
    assert a in Members(l, c) - {x} || b in Members(l, c) - {x};
  }
}
