/** Dependencies among shared libraries: which are followed, and what is queued for them. */
module LinkShared {
  import opened Collections
  import opened Graphs
  import opened LinkInference
  import opened LinkItems
  import opened LinkSearch

  datatype SharedDepEntry = SharedDepEntry(item: Item, dependerIndex: int)

  /** The shared dependencies of an entry have been queued, with the libraries of its interface or without. */
  datatype SharedStep = SharedStep(index: int, followInterface: bool)

  function Deps(index: int, xs: seq<Item>): (r: seq<SharedDepEntry>)
    ensures |r| == |xs| && forall k :: 0 <= k < |xs| ==> r[k] == SharedDepEntry(xs[k], index)
  {
    seq(|xs|, k requires 0 <= k < |xs| => SharedDepEntry(xs[k], index))
  }

  /** The interface of the target that an entry names, if there is one. */
  function InterfaceOf(p: Project, e: LinkEntry): Option<LinkInterface> {
    if e.target.Some? && e.target.value in p.interfaces then Some(p.interfaces[e.target.value]) else None
  }

  function StepDeps(p: Project, e: LinkEntry, st: SharedStep): seq<SharedDepEntry> {
    match InterfaceOf(p, e)
    case None => []
    case Some(i) => Deps(st.index, if st.followInterface then i.libraries + i.sharedDeps else i.sharedDeps)
  }

  ghost function SharedQueued(p: Project, entries: seq<LinkEntry>, steps: seq<SharedStep>): seq<SharedDepEntry> {
    if |steps| == 0 then []
    else
      var n := |steps| - 1;
      SharedQueued(p, entries, steps[..n])
      + (if 0 <= steps[n].index < |entries| then StepDeps(p, entries[steps[n].index], steps[n]) else [])
  }

  ghost predicate Stepped(steps: seq<SharedStep>, i: int) {
    exists k :: 0 <= k < |steps| && steps[k].index == i
  }

  ghost predicate StepsDistinct(steps: seq<SharedStep>) {
    forall j, k :: 0 <= j < k < |steps| ==> steps[j].index != steps[k].index
  }

  /** What has been queued, handled already or not, is exactly what the steps ask for; no entry is stepped twice. */
  ghost predicate SharedKnown(p: Project, entries: seq<LinkEntry>, steps: seq<SharedStep>, handled: seq<SharedDepEntry>,
                              queue: seq<SharedDepEntry>, followed: set<int>) {
    && handled + queue == SharedQueued(p, entries, steps) && StepsDistinct(steps)
    && (forall k :: 0 <= k < |steps| ==> 0 <= steps[k].index < |entries|)
    && (forall i :: i in followed <==> Stepped(steps, i))
  }

  lemma {:induction false} SharedQueuedSame(p: Project, entries: seq<LinkEntry>, more: seq<LinkEntry>,
                                            steps: seq<SharedStep>)
    requires entries <= more && forall k :: 0 <= k < |steps| ==> 0 <= steps[k].index < |entries|
    ensures SharedQueued(p, entries, steps) == SharedQueued(p, more, steps)
  {
    hide StepDeps;
    if |steps| > 0 {
      SharedQueuedSame(p, entries, more, steps[..|steps| - 1]);
    }
  }

  lemma SharedGrows(p: Project, entries: seq<LinkEntry>, more: seq<LinkEntry>, steps: seq<SharedStep>,
                    handled: seq<SharedDepEntry>, queue: seq<SharedDepEntry>, followed: set<int>)
    requires SharedKnown(p, entries, steps, handled, queue, followed) && entries <= more
    ensures SharedKnown(p, more, steps, handled, queue, followed)
  {
    SharedQueuedSame(p, entries, more, steps);
  }

  lemma SharedPushed(p: Project, entries: seq<LinkEntry>, steps: seq<SharedStep>, handled: seq<SharedDepEntry>,
                     queue: seq<SharedDepEntry>, followed: set<int>, st: SharedStep)
    requires SharedKnown(p, entries, steps, handled, queue, followed)
    requires 0 <= st.index < |entries| && st.index !in followed
    ensures SharedKnown(p, entries, steps + [st], handled, queue + StepDeps(p, entries[st.index], st),
                        followed + {st.index})
  {
    hide StepDeps;
    var more := steps + [st];
    assert more[..|steps|] == steps;
    assert handled + (queue + StepDeps(p, entries[st.index], st)) == (handled + queue) +
      StepDeps(p, entries[st.index], st);
    forall i ensures Stepped(more, i) <==> Stepped(steps, i) || i == st.index {
      if Stepped(steps, i) {
        var k :| 0 <= k < |steps| && steps[k].index == i;
        assert more[k].index == i;
      }
      assert more[|steps|].index == st.index;
    }
    forall k | 0 <= k < |steps| ensures steps[k].index != st.index {
      assert Stepped(steps, steps[k].index);
    }
  }

  lemma SharedPopped(p: Project, entries: seq<LinkEntry>, steps: seq<SharedStep>, handled: seq<SharedDepEntry>,
                     queue: seq<SharedDepEntry>, followed: set<int>)
    requires SharedKnown(p, entries, steps, handled, queue, followed) && |queue| > 0
    ensures SharedKnown(p, entries, steps, handled + [queue[0]], queue[1..], followed)
  {
    assert (handled + [queue[0]]) + queue[1..] == handled + queue;
  }

  lemma InterfaceItem(p: Project, t: nat, x: Item)
    requires t in p.interfaces && (x in p.interfaces[t].libraries || x in p.interfaces[t].sharedDeps)
    ensures x in AllItems(p) && IsSharedDepItem(p, x)
  {
    hide AllItems;
    InterfaceIn(p, t);
    assert x in InterfaceItems(p.interfaces[t]);
  }

  /** Whatever is queued comes from a step, and names an item of the project. */
  lemma {:induction false} SharedFrom(p: Project, entries: seq<LinkEntry>, steps: seq<SharedStep>, h: SharedDepEntry)
    requires h in SharedQueued(p, entries, steps)
    ensures h.item in AllItems(p) && IsSharedDepItem(p, h.item) && Stepped(steps, h.dependerIndex) &&
      0 <= h.dependerIndex < |entries|
  {
    hide AllItems, InterfaceItems;
    var n := |steps| - 1;
    if h in SharedQueued(p, entries, steps[..n]) {
      SharedFrom(p, entries, steps[..n], h);
      var k :| 0 <= k < n && steps[..n][k].index == h.dependerIndex;
      assert steps[k].index == h.dependerIndex;
    } else {
      var e := entries[steps[n].index];
      assert steps[n].index == h.dependerIndex;
      InterfaceItem(p, e.target.value, h.item);
    }
  }

  /** All that a step asks for is queued. */
  lemma {:induction false} SharedHas(p: Project, entries: seq<LinkEntry>, steps: seq<SharedStep>, k: int,
                                     h: SharedDepEntry)
    requires 0 <= k < |steps| && 0 <= steps[k].index < |entries| && h in StepDeps(p, entries[steps[k].index], steps[k])
    ensures h in SharedQueued(p, entries, steps)
  {
    hide StepDeps;
    if k < |steps| - 1 {
      SharedHas(p, entries, steps[..|steps| - 1], k, h);
    }
  }

  /** The handled dependencies have entries, and they are the strong edges in this order. */
  ghost predicate SharedLinked(index: map<Item, int>, handled: seq<SharedDepEntry>, strong: seq<Strong>) {
    |strong| == |handled| && forall k :: 0 <= k < |handled| ==>
      handled[k].item in index && strong[k] == Strong(handled[k].dependerIndex, index[handled[k].item])
  }

  /** The target types whose shared dependencies are followed as soon as they are found. */
  predicate HasSharedDeps(p: Project, e: LinkEntry) {
    InterfaceOf(p, e).Some? && !p.targetTypes(e.target.value).InterfaceLibrary?
  }

  /** Which steps there are: one for each followed entry that has shared dependencies, and one for each entry
      found as a shared dependency itself that has an interface. */
  ghost predicate StepsComplete(p: Project, s: Items, followed: seq<int>, handled: seq<SharedDepEntry>,
                                steps: seq<SharedStep>)
  {
    && (forall i :: i in followed && 0 <= i < |s.entries| && HasSharedDeps(p, s.entries[i]) ==>
      SharedStep(i, false) in steps)
    && (forall h :: h in handled && Interfaced(p, s, h.item) ==> Stepped(steps, s.index[h.item]))
  }

  ghost predicate Interfaced(p: Project, s: Items, x: Item) {
    x in s.index && 0 <= s.index[x] < |s.entries| && InterfaceOf(p, s.entries[s.index[x]]).Some?
  }

  ghost predicate StepsSound(p: Project, s: Items, followed: seq<int>, handled: seq<SharedDepEntry>,
                             steps: seq<SharedStep>)
  {
    forall st :: st in steps ==>
      if st.followInterface then exists h :: h in handled && h.item in s.index && s.index[h.item] == st.index
      else st.index in followed && 0 <= st.index < |s.entries| && HasSharedDeps(p, s.entries[st.index])
  }

  /** v is the entry of a shared dependency of u. */
  ghost predicate SharedLink(s: Items, handled: seq<SharedDepEntry>, u: int, v: int) {
    exists h :: h in handled && h.dependerIndex == u && h.item in s.index && s.index[h.item] == v
  }

  // ---- strong edges, by what they lead to ----

  lemma {:induction false} StrongExact(strong: seq<Strong>, u: int, v: int)
    ensures HasDest(StrongOf(strong, u), v) <==> Strong(u, v) in strong
  {
    if |strong| > 0 {
      var n := |strong| - 1;
      StrongExact(strong[..n], u, v);
      var last := if strong[n].depender == u then [Edge(strong[n].dest, true, false)] else [];
      HasDestAppend(StrongOf(strong[..n], u), last, v);
      assert strong == strong[..n] + [strong[n]];
      assert HasDest([Edge(strong[n].dest, true, false)], v) <==> strong[n].dest == v by {
        assert [Edge(strong[n].dest, true, false)][0].dest == strong[n].dest;
      }
    }
  }

  lemma SharedLinkExact(s: Items, handled: seq<SharedDepEntry>, strong: seq<Strong>, u: int, v: int)
    requires SharedLinked(s.index, handled, strong)
    ensures Strong(u, v) in strong <==> SharedLink(s, handled, u, v)
  {
    if Strong(u, v) in strong {
      var k :| 0 <= k < |strong| && strong[k] == Strong(u, v);
      assert handled[k] in handled;
    }
    if SharedLink(s, handled, u, v) {
      var h :| h in handled && h.dependerIndex == u && h.item in s.index && s.index[h.item] == v;
      var k :| 0 <= k < |handled| && handled[k] == h;
      assert strong[k] == Strong(u, v);
    }
  }

  // ---- keeping the steps complete ----

  /** Entry i has been followed, and with it its shared dependencies. */
  lemma StepsFollow(p: Project, s: Items, t: Items, followed: seq<int>, i: int, steps: seq<SharedStep>)
    requires StepsComplete(p, s, followed, [], steps) && StepsSound(p, s, followed, [], steps) && s.entries <= t.entries
    requires (forall j :: j in followed ==> 0 <= j < |s.entries|) && 0 <= i < |s.entries|
    ensures var more := steps + if HasSharedDeps(p, s.entries[i]) then [SharedStep(i, false)] else [];
      StepsComplete(p, t, followed + [i], [], more) && StepsSound(p, t, followed + [i], [], more)
  {
    hide HasSharedDeps;
  }

  lemma NotStepped(p: Project, s: Items, followed: seq<int>, i: int, steps: seq<SharedStep>)
    requires StepsSound(p, s, followed, [], steps) && i !in followed
    ensures !Stepped(steps, i)
  {
  }

  /** Dependency h has been handled, and its own shared dependencies followed if it has an interface. */
  lemma StepsHandle(p: Project, s: Items, t: Items, followed: seq<int>, handled: seq<SharedDepEntry>,
                    h: SharedDepEntry, steps: seq<SharedStep>, more: seq<SharedStep>)
    requires StepsComplete(p, s, followed, handled, steps) && StepsSound(p, s, followed, handled, steps)
    requires Grows(s, t) && Indexed(p, s) && h.item in t.index
    requires (forall g :: g in handled ==> g.item in s.index) && forall j :: j in followed ==> 0 <= j < |s.entries|
    requires more == steps || more == steps + [SharedStep(t.index[h.item], true)]
    requires Interfaced(p, t, h.item) ==> Stepped(more, t.index[h.item])
    ensures StepsComplete(p, t, followed, handled + [h], more) && StepsSound(p, t, followed, handled + [h], more)
  {
    hide HasSharedDeps, InterfaceOf, EntryFor;
    forall st | st in more && st.followInterface
      ensures exists g :: g in handled + [h] && g.item in t.index && t.index[g.item] == st.index
    {
      if st in steps {
        var g :| g in handled && g.item in s.index && s.index[g.item] == st.index;
        assert g in handled + [h];
      } else {
        assert h in handled + [h];
      }
    }
    forall g | g in handled + [h] && Interfaced(p, t, g.item) ensures Stepped(more, t.index[g.item]) {
      if g in handled {
        assert Interfaced(p, s, g.item);
        var k :| 0 <= k < |steps| && steps[k].index == s.index[g.item];
        assert more[k].index == t.index[g.item];
      }
    }
  }
}
