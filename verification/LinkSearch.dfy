/** The breadth-first search for link items: its queue, and which lists the search goes through. */
module LinkSearch {
  import opened Collections
  import opened Graphs
  import opened LinkInference
  import opened LinkItems

  /** An entry whose dependencies are to be followed, with those an old-style variable lists for it. */
  datatype BFSEntry = BFSEntry(index: int, libDepends: Option<seq<Item>>)

  function QueuedEntry(p: Project, e: LinkEntry, i: int): BFSEntry {
    BFSEntry(i, if e.target.None? && e.item in p.libDepends then Some(p.libDepends[e.item]) else None)
  }

  /** The entries to follow, in the order of their discovery. */
  ghost function Followable(p: Project, entries: seq<LinkEntry>): seq<int> {
    if |entries| == 0 then []
    else
      var n := |entries| - 1;
      Followable(p, entries[..n]) + (if ToFollow(p, entries[n]) then [n] else [])
  }

  ghost function ObjectsOf(entries: seq<LinkEntry>): seq<int> {
    if |entries| == 0 then []
    else
      var n := |entries| - 1;
      ObjectsOf(entries[..n]) + (if entries[n].isObject then [n] else [])
  }

  lemma {:induction false} FollowableExact(p: Project, entries: seq<LinkEntry>, i: int)
    ensures i in Followable(p, entries) <==> 0 <= i < |entries| && ToFollow(p, entries[i])
  {
    hide ToFollow;
    if |entries| > 0 {
      FollowableExact(p, entries[..|entries| - 1], i);
    }
  }

  /** No entry is to be followed twice: the list is strictly increasing. */
  lemma {:induction false} FollowableAscending(p: Project, entries: seq<LinkEntry>)
    ensures forall j, k :: 0 <= j < k < |Followable(p, entries)| ==>
      Followable(p, entries)[j] < Followable(p, entries)[k]
    ensures forall j :: 0 <= j < |Followable(p, entries)| ==> 0 <= Followable(p, entries)[j] < |entries|
  {
    if |entries| > 0 {
      FollowableAscending(p, entries[..|entries| - 1]);
    }
  }

  function Indices(queue: seq<BFSEntry>): (r: seq<int>)
    ensures |r| == |queue| && forall k :: 0 <= k < |queue| ==> r[k] == queue[k].index
  {
    seq(|queue|, k requires 0 <= k < |queue| => queue[k].index)
  }

  /** Entries followed already and entries queued are, in this order, all that are to be followed. */
  ghost predicate QueueKnown(p: Project, entries: seq<LinkEntry>, followed: seq<int>, queue: seq<BFSEntry>) {
    && followed + Indices(queue) == Followable(p, entries)
    && forall k :: 0 <= k < |queue| ==>
         0 <= queue[k].index < |entries| && queue[k] == QueuedEntry(p, entries[queue[k].index], queue[k].index)
  }

  lemma QueuePushed(p: Project, entries: seq<LinkEntry>, e: LinkEntry, followed: seq<int>, queue: seq<BFSEntry>)
    requires QueueKnown(p, entries, followed, queue)
    ensures QueueKnown(p, entries + [e], followed,
                       queue + if ToFollow(p, e) then [QueuedEntry(p, e, |entries|)] else [])
  {
    var more := entries + [e];
    assert more[..|entries|] == entries;
    if ToFollow(p, e) {
      var q := queue + [QueuedEntry(p, e, |entries|)];
      assert Indices(q) == Indices(queue) + [|entries|];
      Associate(followed, Indices(queue), [|entries|]);
    } else {
      assert queue + [] == queue;
    }
  }

  lemma ObjectsMore(entries: seq<LinkEntry>, e: LinkEntry)
    ensures ObjectsOf(entries + [e]) == ObjectsOf(entries) + if e.isObject then [|entries|] else []
  {
    assert (entries + [e])[..|entries|] == entries;
  }

  lemma QueuePopped(p: Project, entries: seq<LinkEntry>, followed: seq<int>, queue: seq<BFSEntry>)
    requires QueueKnown(p, entries, followed, queue) && |queue| > 0
    ensures QueueKnown(p, entries, followed + [queue[0].index], queue[1..])
    ensures ToFollow(p, entries[queue[0].index])
  {
    assert Indices(queue) == [queue[0].index] + Indices(queue[1..]);
    Associate(followed, [queue[0].index], Indices(queue[1..]));
    assert Followable(p, entries)[|followed|] == queue[0].index;
    FollowableExact(p, entries, queue[0].index);
  }

  // ---- the lists that are processed ----

  /** A list as given, with the entry that depends on it. */
  datatype Listed = Listed(depender: int, items: seq<Item>)

  ghost function Raw(lists: seq<ItemList>): (r: seq<Listed>)
    ensures |r| == |lists|
    ensures forall k :: 0 <= k < |lists| ==> r[k] == Listed(lists[k].depender, lists[k].items)
  {
    seq(|lists|, k requires 0 <= k < |lists| => Listed(lists[k].depender, lists[k].items))
  }

  ghost function Tagged(depender: int, ls: seq<seq<Item>>): (r: seq<Listed>)
    ensures |r| == |ls| && forall k :: 0 <= k < |ls| ==> r[k] == Listed(depender, ls[k])
  {
    seq(|ls|, k requires 0 <= k < |ls| => Listed(depender, ls[k]))
  }

  /** The lists of the followed entries, in the order in which they were followed. */
  ghost function FollowedLists(p: Project, entries: seq<LinkEntry>, followed: seq<int>): seq<Listed> {
    if |followed| == 0 then []
    else
      var n := |followed| - 1;
      var i := followed[n];
      FollowedLists(p, entries, followed[..n])
      + (if 0 <= i < |entries| then Tagged(i, DependLists(p, entries[i])) else [])
  }

  lemma {:induction false} FollowedListsSame(p: Project, entries: seq<LinkEntry>, more: seq<LinkEntry>,
                                             followed: seq<int>)
    requires entries <= more && forall k :: 0 <= k < |followed| ==> 0 <= followed[k] < |entries|
    ensures FollowedLists(p, entries, followed) == FollowedLists(p, more, followed)
  {
    hide DependLists;
    if |followed| > 0 {
      FollowedListsSame(p, entries, more, followed[..|followed| - 1]);
    }
  }

  lemma {:induction false} FollowedListsHave(p: Project, entries: seq<LinkEntry>, followed: seq<int>, i: int, k: int)
    requires i in followed && 0 <= i < |entries| && 0 <= k < |DependLists(p, entries[i])|
    ensures Listed(i, DependLists(p, entries[i])[k]) in FollowedLists(p, entries, followed)
  {
    hide DependLists;
    var n := |followed| - 1;
    if followed[n] == i {
      assert Tagged(i, DependLists(p, entries[i]))[k] == Listed(i, DependLists(p, entries[i])[k]);
    } else {
      FollowedListsHave(p, entries, followed[..n], i, k);
    }
  }

  /** The search has gone through the direct lists and those of the followed entries, and no others. */
  ghost predicate ListsFollow(p: Project, s: Items, followed: seq<int>) {
    Raw(s.lists) == Tagged(-1, DirectLists(p)) + FollowedLists(p, s.entries, followed)
  }

  lemma FollowedOne(p: Project, s: Items, t: Items, followed: seq<int>, i: int)
    requires ListsFollow(p, s, followed) && s.entries <= t.entries && 0 <= i < |s.entries|
    requires forall j :: j in followed ==> 0 <= j < |s.entries|
    requires Raw(t.lists) == Raw(s.lists) + Tagged(i, DependLists(p, s.entries[i]))
    ensures ListsFollow(p, t, followed + [i])
  {
    hide DependLists, DirectLists;
    assert forall k :: 0 <= k < |followed| ==> followed[k] in followed;
    FollowedListsSame(p, s.entries, t.entries, followed);
    assert (followed + [i])[..|followed|] == followed;
  }

  // ---- lists only name items of the project ----

  lemma InterfaceIn(p: Project, t: nat)
    requires t in p.interfaces
    ensures InterfaceItems(p.interfaces[t]) <= AllItems(p)
    ensures forall x :: x in p.interfaces[t].objects ==> IsObjectItem(p, x)
  {
    hide InterfaceItems;
  }

  lemma DependIn(p: Project, s: string)
    requires s in p.libDepends
    ensures Elements(p.libDepends[s]) <= AllItems(p)
  {
  }

  // ---- what the edges of an entry are ----

  /** v is the entry of an item in a list that u depends on. */
  ghost predicate Listing(lists: seq<ItemList>, u: int, v: int) {
    exists l :: 0 <= l < |lists| && lists[l].depender == u && v in lists[l].libs
  }

  ghost predicate HasDest(edges: EdgeList, v: int) {
    exists k :: 0 <= k < |edges| && edges[k].dest == v
  }

  lemma HasDestAppend(a: EdgeList, b: EdgeList, v: int)
    ensures HasDest(a + b, v) <==> HasDest(a, v) || HasDest(b, v)
  {
    var c := a + b;
    if HasDest(a, v) {
      var k :| 0 <= k < |a| && a[k].dest == v;
      assert c[k].dest == v;
    }
    if HasDest(b, v) {
      var k :| 0 <= k < |b| && b[k].dest == v;
      assert c[|a| + k].dest == v;
    }
  }

  lemma WeakDest(libs: seq<int>, v: int)
    ensures HasDest(WeakEdges(libs), v) <==> v in libs
  {
    if v in libs {
      var k :| 0 <= k < |libs| && libs[k] == v;
      assert WeakEdges(libs)[k].dest == v;
    }
  }

  /** The listed edges of an entry lead to exactly the items listed for it. */
  lemma {:induction false} EdgesExact(lists: seq<ItemList>, u: int, v: int)
    ensures HasDest(EdgesOf(lists, u), v) <==> Listing(lists, u, v)
  {
    if |lists| > 0 {
      var n := |lists| - 1;
      EdgesExact(lists[..n], u, v);
      HasDestAppend(EdgesOf(lists[..n], u), if lists[n].depender == u then WeakEdges(lists[n].libs) else [], v);
      WeakDest(lists[n].libs, v);
      hide HasDest;
      if Listing(lists[..n], u, v) {
        var l :| 0 <= l < n && lists[..n][l].depender == u && v in lists[..n][l].libs;
        assert lists[l].depender == u && v in lists[l].libs;
      }
    }
  }
}
