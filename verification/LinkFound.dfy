/** What a complete discovery has found: the constraints between the entries, and the order of their indices. */
module LinkFound {
  import opened Collections
  import opened Graphs
  import opened LinkInference
  import opened LinkItems
  import opened LinkSearch
  import opened LinkShared
  import opened LinkRequests

  /** v is inferred to be needed by u, an item of unknown dependencies. */
  ghost predicate InferredLink(p: Project, s: Items, u: int, v: int) {
    && 0 <= u < |s.entries| && ToInfer(p, s.entries[u])
    && (exists l :: 0 <= l < |s.lists| && u in s.lists[l].libs)
    && Inferred(s.entries, Libs(s.lists), u, v)
  }

  // ---- what has been discovered ----

  /** v must follow u on the link line: a list of u names it, or it is a shared dependency of u, or it is inferred. */
  ghost predicate Constraint(p: Project, s: Items, handled: seq<SharedDepEntry>, u: int, v: int) {
    0 <= u < |s.entries| && (Listing(s.lists, u, v) || SharedLink(s, handled, u, v) || InferredLink(p, s, u, v))
  }

  /** The constraint graph has exactly the edges it should have. */
  ghost predicate GraphExact(p: Project, s: Items, handled: seq<SharedDepEntry>) {
    && |s.graph| == |s.entries| && WellFormed(s.graph)
    && forall u, v :: HasEdge(s.graph, u, v) <==> Constraint(p, s, handled, u, v)
  }

  /** The result of a complete discovery: all there is to be found, with the indices in the order of the lists. */
  ghost predicate Discovered(p: Project, s: Items, followed: seq<int>, handled: seq<SharedDepEntry>,
                             steps: seq<SharedStep>)
  {
    Explored(p, s, followed, handled, steps) && ListOrderKept(p, s)
  }

  ghost predicate Explored(p: Project, s: Items, followed: seq<int>, handled: seq<SharedDepEntry>,
                           steps: seq<SharedStep>)
  {
    && Indexed(p, s) && ListsKnown(p, s) && GraphExact(p, s, handled) && s.original == OriginalOf(s.lists)
    // Every entry with known dependencies has been followed once, and exactly the lists this calls for were processed.
    && followed == Followable(p, s.entries) && ListsFollow(p, s, followed)
    // The shared dependencies asked for by complete steps have all been handled.
    && StepsComplete(p, s, followed, handled, steps) && StepsSound(p, s, followed, handled, steps)
    && StepsDistinct(steps)
    && handled == SharedQueued(p, s.entries, steps) && forall h :: h in handled ==> h.item in s.index
  }

  // ---- what it means for the items ----

  /** A library in a list of a followed entry has an entry of its own, which must come later. */
  lemma ListedLibrary(p: Project, s: Items, followed: seq<int>, handled: seq<SharedDepEntry>, steps: seq<SharedStep>,
                      u: int, k: int, x: Item)
    requires Explored(p, s, followed, handled, steps) && 0 <= u < |s.entries| && ToFollow(p, s.entries[u])
    requires 0 <= k < |DependLists(p, s.entries[u])| && x in DependLists(p, s.entries[u])[k] && !Skipped(p, x)
    ensures x in s.index && HasEdge(s.graph, u, s.index[x])
  {
    var list := DependLists(p, s.entries[u])[k];
    FollowableExact(p, s.entries, u);
    FollowedListsHave(p, s.entries, followed, u, k);
    assert Listed(u, list) in Raw(s.lists) by {
      hide FollowedLists, DirectLists;
    }
    hide DependLists, Skipped, FollowedLists, DirectLists, ToFollow, Indexed, StepsComplete, StepsSound;
    RawListed(p, s, Listed(u, list), x);
    assert Constraint(p, s, handled, u, s.index[x]);
  }

  /** A processed list has the entries of all its items that are not skipped. */
  lemma RawListed(p: Project, s: Items, r: Listed, x: Item)
    requires ListsKnown(p, s) && r in Raw(s.lists) && x in r.items && !Skipped(p, x)
    ensures x in s.index
    ensures exists l :: 0 <= l < |s.lists| && s.lists[l].depender == r.depender && s.index[x] in s.lists[l].libs
  {
    hide Skipped;
    var l :| 0 <= l < |s.lists| && Raw(s.lists)[l] == r;
    ChosenExact(p, r.items, x);
    assert ListKnown(p, s.index, s.lists[l]);
    var c := Chosen(p, s.lists[l].items);
    var j :| 0 <= j < |c| && c[j] == x;
    assert s.lists[l].libs[j] == s.index[x];
  }

  /** A library that the target links directly is on its original link line. */
  lemma DirectLibrary(p: Project, s: Items, followed: seq<int>, handled: seq<SharedDepEntry>, steps: seq<SharedStep>,
                      k: int, x: Item)
    requires Explored(p, s, followed, handled, steps)
    requires 0 <= k < |DirectLists(p)| && x in DirectLists(p)[k] && !Skipped(p, x)
    ensures x in s.index && s.index[x] in s.original
  {
    var r := Listed(-1, DirectLists(p)[k]);
    assert Raw(s.lists)[k] == r;
    hide DirectLists, Skipped;
    RawListed(p, s, r, x);
    var l :| 0 <= l < |s.lists| && s.lists[l].depender == -1 && s.index[x] in s.lists[l].libs;
    OriginalHas(s.lists, l, s.index[x]);
  }

  lemma {:induction false} OriginalHas(lists: seq<ItemList>, l: int, i: int)
    requires 0 <= l < |lists| && lists[l].depender < 0 && i in lists[l].libs
    ensures i in OriginalOf(lists)
  {
    if l < |lists| - 1 {
      OriginalHas(lists[..|lists| - 1], l, i);
    }
  }

  // ---- the order of the indices ----

  /** Object k of the list is named there for the first time, after object j, and it has an object's entry. */
  ghost predicate ObjectPair(s: Items, objs: seq<Item>, j: int, k: int) {
    && 0 <= j < k < |objs| && objs[k] !in objs[..k]
    && objs[k] in s.index && 0 <= s.index[objs[k]] < |s.entries| && s.entries[s.index[objs[k]]].isObject
  }

  ghost predicate IndexedBefore(s: Items, x: Item, y: Item) {
    x in s.index && y in s.index && s.index[x] < s.index[y]
  }

  /** Only the interface of target t names y as an object. */
  ghost predicate ObjectOfOnly(p: Project, t: nat, y: Item) {
    y !in p.implementation.objects && forall q :: q in p.interfaces && q != t ==> y !in p.interfaces[q].objects
  }

  /** The entry came from a list, and the interface of its target t is known. */
  ghost predicate HasInterface(p: Project, e: LinkEntry, t: nat) {
    !e.isObject && !e.isSharedDep && e.target == Some(t) && t in p.interfaces
  }

  ghost predicate InterfacePair(p: Project, s: Items, u: int, t: nat, j: int, k: int) {
    && 0 <= u < |s.entries| && HasInterface(p, s.entries[u], t)
    && ObjectPair(s, p.interfaces[t].objects, j, k) && ObjectOfOnly(p, t, p.interfaces[t].objects[k])
  }

  /** Both items are listed by u, and the second, not listed by it before, is needed by u alone. */
  ghost predicate LibraryPair(p: Project, s: Items, u: int, j: int, k: int) {
    && 0 <= u < |s.entries| && !s.entries[u].isObject && !s.entries[u].isSharedDep
    && var list := ListedBy(p, s.entries[u]);
       && 0 <= j < k < |list| && list[k] !in list[..k] && Linkable(p, list[j]) && Linkable(p, list[k])
       && var y := list[k];
          && y in s.index && s.index[y] !in s.original
          && 0 <= s.index[y] < |s.entries| && !s.entries[s.index[y]].isObject
          && forall v :: HasEdge(s.graph, v, s.index[y]) ==> v == u
  }

  /** The indices follow the order of the objects of the target, of the objects of each interface, and of the
      libraries that one entry lists; no object is left out. */
  ghost predicate ListOrderKept(p: Project, s: Items) {
    && (forall j, k :: ObjectPair(s, p.implementation.objects, j, k) ==>
          IndexedBefore(s, p.implementation.objects[j], p.implementation.objects[k]))
    && (forall u, t, j, k :: InterfacePair(p, s, u, t, j, k) ==>
          IndexedBefore(s, p.interfaces[t].objects[j], p.interfaces[t].objects[k]))
    && (forall u, j, k :: LibraryPair(p, s, u, j, k) ==>
          IndexedBefore(s, ListedBy(p, s.entries[u])[j], ListedBy(p, s.entries[u])[k]))
    && ObjectsKnown(p, s)
  }

  /** The objects of the target, and of the interfaces that are followed, have been found. */
  ghost predicate ObjectsKnown(p: Project, s: Items) {
    && (forall x :: x in p.implementation.objects ==> x in s.index)
    && forall u, t, x :: 0 <= u < |s.entries| && HasInterface(p, s.entries[u], t) && x in p.interfaces[t].objects ==>
         x in s.index
  }

  /** The record of the requests explains the order of the indices. */
  lemma {:induction false} ListOrder(p: Project, s: Items, followed: seq<int>, handled: seq<SharedDepEntry>,
                                     steps: seq<SharedStep>, log: Requests)
    requires Explored(p, s, followed, handled, steps) && Logged(s.index, s.entries, log)
    requires log.asked == TheRequests(p, s.entries, followed, handled)
    ensures ListOrderKept(p, s)
  {
    hide Explored, Logged, TheRequests, IndexedBefore, ObjectOfOnly, ListedBy, ObjectsKnown;
    forall j, k | ObjectPair(s, p.implementation.objects, j, k)
      ensures IndexedBefore(s, p.implementation.objects[j], p.implementation.objects[k])
    {
      DirectObjectOrder(p, s, followed, handled, log, j, k);
    }
    forall u, t, j, k | InterfacePair(p, s, u, t, j, k)
      ensures IndexedBefore(s, p.interfaces[t].objects[j], p.interfaces[t].objects[k])
    {
      InterfaceObjectOrder(p, s, followed, handled, log, u, t, j, k);
    }
    forall u, j, k | LibraryPair(p, s, u, j, k)
      ensures IndexedBefore(s, ListedBy(p, s.entries[u])[j], ListedBy(p, s.entries[u])[k])
    {
      LibraryOrder(p, s, followed, handled, steps, log, u, j, k);
    }
    AllObjects(p, s, followed, handled, steps, log);
  }

  lemma {:induction false} AllObjects(p: Project, s: Items, followed: seq<int>, handled: seq<SharedDepEntry>,
                                      steps: seq<SharedStep>, log: Requests)
    requires Explored(p, s, followed, handled, steps) && Logged(s.index, s.entries, log)
    requires log.asked == TheRequests(p, s.entries, followed, handled)
    ensures ObjectsKnown(p, s)
  {
    var i := p.implementation;
    var first, more := DirectRequests(p), FollowedRequests(p, s.entries, followed);
    hide Logged, TheRequests, Asks, BlockRequests;
    forall x | x in i.objects ensures x in s.index {
      BlockAsks(p, i.libraries, i.objects, i.languages, i.languageRuntimeLibraries, x);
      AskedFound(p, s, followed, handled, log, x);
    }
    forall u, t, x | 0 <= u < |s.entries| && HasInterface(p, s.entries[u], t) && x in p.interfaces[t].objects
      ensures x in s.index
    {
      FollowableExact(p, s.entries, u);
      hide Explored;
      var f := p.interfaces[t];
      BlockAsks(p, f.libraries, f.objects, f.languages, f.languageRuntimeLibraries, x);
      FollowedAsk(p, s.entries, followed, u, x);
      AskedFound(p, s, followed, handled, log, x);
    }
  }

  lemma {:induction false} AskedFound(p: Project, s: Items, followed: seq<int>, handled: seq<SharedDepEntry>,
                                      log: Requests, x: Item)
    requires Logged(s.index, s.entries, log) && log.asked == TheRequests(p, s.entries, followed, handled)
    requires Asks(DirectRequests(p), x) || Asks(FollowedRequests(p, s.entries, followed), x)
    ensures x in s.index
  {
    hide DirectRequests, FollowedRequests, DependencyRequests, Asks;
    AsksAppend(DirectRequests(p), FollowedRequests(p, s.entries, followed), x);
    AsksAppend(DirectRequests(p) + FollowedRequests(p, s.entries, followed), DependencyRequests(handled), x);
    AskedIndexed(s.index, s.entries, log, x);
  }

  lemma {:induction false} AskedIndexed(index: map<Item, int>, entries: seq<LinkEntry>, log: Requests, x: Item)
    requires Logged(index, entries, log) && Asks(log.asked, x)
    ensures x in index
  {
  }

  lemma {:induction false} DirectObjectOrder(p: Project, s: Items, followed: seq<int>, handled: seq<SharedDepEntry>,
                                             log: Requests, j: int, k: int)
    requires ObjectPair(s, p.implementation.objects, j, k) && Logged(s.index, s.entries, log)
    requires log.asked == TheRequests(p, s.entries, followed, handled)
    ensures IndexedBefore(s, p.implementation.objects[j], p.implementation.objects[k])
  {
    var i := p.implementation;
    hide Logged, TheRequests, Leads, Asks, BlockRequests;
    BlockObjects(p, i.libraries, i.objects, i.languages, i.languageRuntimeLibraries, j, k);
    AllLeadObjects(p, s.entries, followed, handled, i.objects[j], i.objects[k]);
    LeadsIndex(s.index, s.entries, log, i.objects[j], i.objects[k]);
  }

  lemma {:induction false} InterfaceObjectOrder(p: Project, s: Items, followed: seq<int>, handled: seq<SharedDepEntry>,
                                                log: Requests, u: int, t: nat, j: int, k: int)
    requires InterfacePair(p, s, u, t, j, k) && Logged(s.index, s.entries, log)
    requires log.asked == TheRequests(p, s.entries, followed, handled)
    ensures IndexedBefore(s, p.interfaces[t].objects[j], p.interfaces[t].objects[k])
  {
    var i := p.implementation;
    var objs := p.interfaces[t].objects;
    hide Logged, TheRequests, Leads, Asks, BlockRequests, EntryRequests;
    BlockNoObject(p, i.libraries, i.objects, i.languages, i.languageRuntimeLibraries, objs[j], objs[k]);
    forall f | f in followed && 0 <= f < |s.entries|
      ensures Leads(EntryRequests(p, s.entries[f]), true, objs[j], objs[k])
    {
      EntryObjects(p, s.entries[f], t, j, k);
    }
    FollowedLead(p, s.entries, followed, true, objs[j], objs[k]);
    AllLeadObjects(p, s.entries, followed, handled, objs[j], objs[k]);
    LeadsIndex(s.index, s.entries, log, objs[j], objs[k]);
  }

  lemma {:induction false} LibraryOrder(p: Project, s: Items, followed: seq<int>, handled: seq<SharedDepEntry>,
                                        steps: seq<SharedStep>, log: Requests, u: int, j: int, k: int)
    requires Explored(p, s, followed, handled, steps) && LibraryPair(p, s, u, j, k)
    requires Logged(s.index, s.entries, log) && log.asked == TheRequests(p, s.entries, followed, handled)
    ensures IndexedBefore(s, ListedBy(p, s.entries[u])[j], ListedBy(p, s.entries[u])[k])
  {
    var e := s.entries[u];
    var x, y := ListedBy(p, e)[j], ListedBy(p, e)[k];
    FollowableExact(p, s.entries, u);
    assert u in followed;
    LinkableExact(p, x);
    LinkableExact(p, y);
    hide Explored, Logged, TheRequests, Leads, Asks, EntryRequests, ListedBy, Skipped, Linkable, DirectRequests;
    DirectNotNamed(p, s, followed, handled, steps, x, y);
    EntryLeads(p, e, j, k);
    FollowedLeads(p, s, followed, handled, steps, u, x, y);
    FollowedAsk(p, s.entries, followed, u, y);
    AllLeadLibraries(p, s.entries, followed, handled, x, y);
    LeadsIndex(s.index, s.entries, log, x, y);
  }

  /** What u asks for in this order, and alone, all followed entries together ask for in this order. */
  lemma {:induction false} FollowedLeads(p: Project, s: Items, followed: seq<int>, handled: seq<SharedDepEntry>,
                                         steps: seq<SharedStep>, u: int, x: Item, y: Item)
    requires Explored(p, s, followed, handled, steps) && !Skipped(p, y) && y in s.index
    requires 0 <= u < |s.entries| && Leads(EntryRequests(p, s.entries[u]), false, x, y)
    requires forall v :: HasEdge(s.graph, v, s.index[y]) ==> v == u
    ensures Leads(FollowedRequests(p, s.entries, followed), false, x, y)
  {
    hide Explored, Leads, EntryRequests, Skipped, HasEdge;
    forall f | f in followed && 0 <= f < |s.entries| ensures Leads(EntryRequests(p, s.entries[f]), false, x, y) {
      if f != u {
        OthersNotNamed(p, s, followed, handled, steps, u, f, x, y);
      }
    }
    FollowedLead(p, s.entries, followed, false, x, y);
  }

  lemma {:induction false} DirectNotNamed(p: Project, s: Items, followed: seq<int>, handled: seq<SharedDepEntry>,
                                          steps: seq<SharedStep>, x: Item, y: Item)
    requires Explored(p, s, followed, handled, steps) && !Skipped(p, y) && y in s.index && s.index[y] !in s.original
    ensures Leads(DirectRequests(p), false, x, y)
  {
    var lists, i := DirectLists(p), p.implementation;
    hide Explored, Leads, BlockRequests, RuntimeLists, Skipped;
    if y in i.libraries {
      DirectLibrary(p, s, followed, handled, steps, 0, y);
    } else if y in RuntimeOf(i.languages, i.languageRuntimeLibraries) {
      var n := RuntimeListed(i.languages, i.languageRuntimeLibraries, y);
      DirectLibrary(p, s, followed, handled, steps, n + 1, y);
    }
    BlockUnnamed(p, i.libraries, i.objects, i.languages, i.languageRuntimeLibraries, x, y);
  }

  lemma {:induction false} OthersNotNamed(p: Project, s: Items, followed: seq<int>, handled: seq<SharedDepEntry>,
                                          steps: seq<SharedStep>, u: int, f: int, x: Item, y: Item)
    requires Explored(p, s, followed, handled, steps) && !Skipped(p, y) && y in s.index && f != u
    requires 0 <= f < |s.entries| && f in followed && forall v :: HasEdge(s.graph, v, s.index[y]) ==> v == u
    ensures Leads(EntryRequests(p, s.entries[f]), false, x, y)
  {
    assert ToFollow(p, s.entries[f]) by {
      FollowableExact(p, s.entries, f);
    }
    hide Explored, Leads, EntryRequests, ListedBy, DependLists, Skipped, ToFollow, HasEdge;
    if y in ListedBy(p, s.entries[f]) {
      var n := ListedIn(p, s.entries[f], y);
      ListedLibrary(p, s, followed, handled, steps, f, n, y);
    }
    EntryUnnamed(p, s.entries[f], x, y);
  }
}
