/** The requests for items, in the order in which the discovery meets them, and what they mean for the entries. */
module LinkRequests {
  import opened Collections
  import opened LinkInference
  import opened LinkItems
  import opened LinkSearch
  import opened LinkShared

  /** An item is asked for, as an object file or as anything else. */
  datatype Request = Request(item: Item, isObject: bool)

  /** All requests so far, and for each entry the place of the first one for its item. */
  datatype Requests = Requests(asked: seq<Request>, foundAt: seq<int>)

  /** An entry is allocated at the first request for its item, and made for it. */
  ghost predicate Logged(index: map<Item, int>, entries: seq<LinkEntry>, log: Requests) {
    Located(entries, log) && Named(index, log)
  }

  ghost predicate Located(entries: seq<LinkEntry>, log: Requests) {
    && |log.foundAt| == |entries|
    && (forall i :: 0 <= i < |entries| ==>
          0 <= log.foundAt[i] < |log.asked| && log.asked[log.foundAt[i]].isObject == entries[i].isObject)
    && (forall i, j :: 0 <= i < j < |entries| ==> log.foundAt[i] < log.foundAt[j])
  }

  ghost predicate Named(index: map<Item, int>, log: Requests) {
    && (forall x :: x in index ==> NamedAt(index[x], log, x))
    && (forall q :: 0 <= q < |log.asked| ==> log.asked[q].item in index && FoundBy(index[log.asked[q].item], log, q))
  }

  ghost predicate NamedAt(i: int, log: Requests, x: Item) {
    0 <= i < |log.foundAt| && 0 <= log.foundAt[i] < |log.asked| && log.asked[log.foundAt[i]].item == x
  }

  ghost predicate FoundBy(i: int, log: Requests, q: int) {
    0 <= i < |log.foundAt| && log.foundAt[i] <= q
  }

  lemma LogStarts()
    ensures Logged(map[], [], Requests([], []))
  {
  }

  function LogAgain(log: Requests, x: Item, isObject: bool): Requests {
    log.(asked := log.asked + [Request(x, isObject)])
  }

  function LogNew(log: Requests, x: Item, isObject: bool): Requests {
    Requests(log.asked + [Request(x, isObject)], log.foundAt + [|log.asked|])
  }

  lemma {:induction false} LoggedAgain(index: map<Item, int>, entries: seq<LinkEntry>, log: Requests, x: Item,
                                       isObject: bool)
    requires Logged(index, entries, log) && x in index
    ensures Logged(index, entries, LogAgain(log, x, isObject))
  {
  }

  lemma {:induction false} LoggedNew(index: map<Item, int>, entries: seq<LinkEntry>, log: Requests, x: Item,
                                     e: LinkEntry)
    requires Logged(index, entries, log) && x !in index
    ensures Logged(index[x := |entries|], entries + [e], LogNew(log, x, e.isObject))
  {
    var more := LogNew(log, x, e.isObject);
    assert more.asked[|log.asked|] == Request(x, e.isObject) && more.foundAt[|entries|] == |log.asked|;
    NamedNew(index, log, x, e.isObject);
    hide Named;
    assert Located(entries + [e], more);
  }

  lemma {:induction false} NamedNew(index: map<Item, int>, log: Requests, x: Item, isObject: bool)
    requires Named(index, log) && x !in index
    ensures Named(index[x := |log.foundAt|], LogNew(log, x, isObject))
  {
    var more, t := LogNew(log, x, isObject), index[x := |log.foundAt|];
    forall y | y in t ensures NamedAt(t[y], more, y) {
      if y != x {
        assert NamedAt(index[y], log, y);
      }
    }
    forall q | 0 <= q < |more.asked| ensures more.asked[q].item in t && FoundBy(t[more.asked[q].item], more, q) {
      if q < |log.asked| {
        assert log.asked[q].item in index && FoundBy(index[log.asked[q].item], log, q);
      }
    }
  }

  // ---- which requests there are ----

  ghost function ListRequests(p: Project, xs: seq<Item>): seq<Request> {
    if |xs| == 0 then []
    else
      var n := |xs| - 1;
      ListRequests(p, xs[..n]) + (if Skipped(p, xs[n]) then [] else [Request(xs[n], false)])
  }

  ghost function ObjectRequests(xs: seq<Item>): (r: seq<Request>)
    ensures |r| == |xs| && forall k :: 0 <= k < |xs| ==> r[k] == Request(xs[k], true)
  {
    seq(|xs|, k requires 0 <= k < |xs| => Request(xs[k], true))
  }

  ghost function AllRequests(p: Project, ls: seq<seq<Item>>): seq<Request> {
    if |ls| == 0 then []
    else
      var n := |ls| - 1;
      AllRequests(p, ls[..n]) + ListRequests(p, ls[n])
  }

  /** The libraries first, then the objects, then the runtime libraries of the languages. */
  ghost function BlockRequests(p: Project, libraries: seq<Item>, objects: seq<Item>, languages: seq<string>,
                               runtime: map<string, seq<Item>>): seq<Request>
  {
    ListRequests(p, libraries) + ObjectRequests(objects) + AllRequests(p, RuntimeLists(languages, runtime))
  }

  ghost function DirectRequests(p: Project): seq<Request> {
    var i := p.implementation;
    BlockRequests(p, i.libraries, i.objects, i.languages, i.languageRuntimeLibraries)
  }

  ghost function InterfaceRequests(p: Project, i: LinkInterface): seq<Request> {
    BlockRequests(p, i.libraries, i.objects, i.languages, i.languageRuntimeLibraries)
  }

  ghost function EntryRequests(p: Project, e: LinkEntry): seq<Request> {
    if e.target.Some? then
      if e.target.value in p.interfaces then InterfaceRequests(p, p.interfaces[e.target.value]) else []
    else if e.item in p.libDepends then ListRequests(p, p.libDepends[e.item])
    else []
  }

  ghost function FollowedRequests(p: Project, entries: seq<LinkEntry>, followed: seq<int>): seq<Request> {
    if |followed| == 0 then []
    else
      var n := |followed| - 1;
      var i := followed[n];
      FollowedRequests(p, entries, followed[..n]) + (if 0 <= i < |entries| then EntryRequests(p, entries[i]) else [])
  }

  ghost function DependencyRequests(handled: seq<SharedDepEntry>): (r: seq<Request>)
    ensures |r| == |handled| && forall k :: 0 <= k < |handled| ==> r[k] == Request(handled[k].item, false)
  {
    seq(|handled|, k requires 0 <= k < |handled| => Request(handled[k].item, false))
  }

  /** All requests: the target's own, those of the followed entries in their order, and the shared dependencies. */
  ghost function TheRequests(p: Project, entries: seq<LinkEntry>, followed: seq<int>, handled: seq<SharedDepEntry>)
    : seq<Request>
  {
    DirectRequests(p) + FollowedRequests(p, entries, followed) + DependencyRequests(handled)
  }

  lemma {:induction false} FollowedRequestsSame(p: Project, entries: seq<LinkEntry>, more: seq<LinkEntry>,
                                                followed: seq<int>)
    requires entries <= more && forall k :: 0 <= k < |followed| ==> 0 <= followed[k] < |entries|
    ensures FollowedRequests(p, entries, followed) == FollowedRequests(p, more, followed)
  {
    hide EntryRequests;
    if |followed| > 0 {
      FollowedRequestsSame(p, entries, more, followed[..|followed| - 1]);
    }
  }

  lemma {:induction false} RequestsBegin(p: Project, entries: seq<LinkEntry>)
    ensures TheRequests(p, entries, [], []) == DirectRequests(p)
  {
    hide DirectRequests;
    assert FollowedRequests(p, entries, []) == [] && DependencyRequests([]) == [];
  }

  lemma ListRequestsNone(p: Project, asked: seq<Request>)
    ensures asked + ListRequests(p, []) == asked
  {
  }

  lemma {:induction false} ListRequestsMore(p: Project, xs: seq<Item>, k: int, asked: seq<Request>)
    requires 0 <= k < |xs|
    ensures asked + ListRequests(p, xs[..k + 1]) ==
            asked + ListRequests(p, xs[..k]) + if Skipped(p, xs[k]) then [] else [Request(xs[k], false)]
  {
    assert xs[..k + 1][..k] == xs[..k];
  }

  lemma {:induction false} RuntimeListsNone(p: Project, depender: int, runtime: map<string, seq<Item>>,
                                            lists: seq<Listed>, asked: seq<Request>)
    ensures lists + Tagged(depender, RuntimeLists([], runtime)) == lists
    ensures asked + AllRequests(p, RuntimeLists([], runtime)) == asked
  {
    assert Tagged(depender, []) == [];
  }

  /** One more language: its list, if it has one. */
  lemma {:induction false} RuntimeListsMore(p: Project, depender: int, languages: seq<string>,
                                            runtime: map<string, seq<Item>>, k: int, lists: seq<Listed>,
                                            asked: seq<Request>)
    requires 0 <= k < |languages|
    ensures var x := languages[k]; var ls, more := RuntimeLists(languages[..k], runtime),
                                                   RuntimeLists(languages[..k + 1], runtime);
      if x in runtime then
        && lists + Tagged(depender, more) == lists + Tagged(depender, ls) + [Listed(depender, runtime[x])]
        && asked + AllRequests(p, more) == asked + AllRequests(p, ls) + ListRequests(p, runtime[x])
      else more == ls
  {
    hide ListRequests;
    assert languages[..k + 1][..k] == languages[..k];
    var ls := RuntimeLists(languages[..k], runtime);
    if languages[k] in runtime {
      assert (ls + [runtime[languages[k]]])[..|ls|] == ls;
    } else {
      assert ls + [] == ls;
    }
  }

  lemma {:induction false} BlockAdded(p: Project, i: LinkInterface, before: seq<Request>)
    ensures var runtime := RuntimeLists(i.languages, i.languageRuntimeLibraries);
      before + ListRequests(p, i.libraries) + ObjectRequests(i.objects) + AllRequests(p, runtime) ==
      before + InterfaceRequests(p, i)
  {
    hide ListRequests, ObjectRequests, AllRequests;
  }

  lemma {:induction false} RequestsFollow(p: Project, entries: seq<LinkEntry>, more: seq<LinkEntry>, followed: seq<int>,
                                          i: int)
    requires entries <= more && 0 <= i < |entries| && forall j :: j in followed ==> 0 <= j < |entries|
    ensures TheRequests(p, more, followed + [i], []) ==
            TheRequests(p, entries, followed, []) + EntryRequests(p, entries[i])
  {
    hide EntryRequests, DirectRequests;
    assert forall k :: 0 <= k < |followed| ==> followed[k] in followed;
    FollowedRequestsSame(p, entries, more, followed);
    assert (followed + [i])[..|followed|] == followed;
    assert DependencyRequests([]) == [];
  }

  lemma {:induction false} RequestsHandle(p: Project, entries: seq<LinkEntry>, more: seq<LinkEntry>, followed: seq<int>,
                                          handled: seq<SharedDepEntry>, h: SharedDepEntry)
    requires entries <= more && forall j :: j in followed ==> 0 <= j < |entries|
    ensures TheRequests(p, more, followed, handled + [h]) ==
            TheRequests(p, entries, followed, handled) + [Request(h.item, false)]
  {
    hide DirectRequests;
    assert forall k :: 0 <= k < |followed| ==> followed[k] in followed;
    FollowedRequestsSame(p, entries, more, followed);
    hide FollowedRequests;
    assert DependencyRequests(handled + [h]) == DependencyRequests(handled) + [Request(h.item, false)];
  }

  // ---- one item before another ----

  /** Nothing up to place q asks for y. */
  ghost predicate Unasked(asked: seq<Request>, y: Item, q: int) {
    forall r :: 0 <= r < q && r < |asked| ==> asked[r].item != y
  }

  ghost predicate AskedBefore(asked: seq<Request>, x: Item, q: int) {
    exists r :: 0 <= r < q && r < |asked| && asked[r].item == x
  }

  /** If the first request for y is of the given kind, then one for x comes before it. */
  ghost predicate Leads(asked: seq<Request>, isObject: bool, x: Item, y: Item) {
    forall q :: 0 <= q < |asked| && asked[q] == Request(y, isObject) && Unasked(asked, y, q) ==>
      AskedBefore(asked, x, q)
  }

  ghost predicate Asks(asked: seq<Request>, y: Item) {
    exists q :: 0 <= q < |asked| && asked[q].item == y
  }

  lemma {:induction false} LeadsAppend(a: seq<Request>, b: seq<Request>, isObject: bool, x: Item, y: Item)
    requires Leads(a, isObject, x, y) && (Asks(a, y) || Leads(b, isObject, x, y))
    ensures Leads(a + b, isObject, x, y)
  {
    var c := a + b;
    forall q | 0 <= q < |c| && c[q] == Request(y, isObject) && Unasked(c, y, q) ensures AskedBefore(c, x, q) {
      if q < |a| {
        assert Unasked(a, y, q) by {
          assert forall r :: 0 <= r < q ==> a[r] == c[r];
        }
        var r :| 0 <= r < q && r < |a| && a[r].item == x;
        assert c[r].item == x;
      } else {
        LeadsLater(a, b, isObject, x, y, q);
      }
    }
  }

  lemma {:induction false} LeadsLater(a: seq<Request>, b: seq<Request>, isObject: bool, x: Item, y: Item, q: int)
    requires |a| <= q < |a + b| && (a + b)[q] == Request(y, isObject) && Unasked(a + b, y, q)
    requires Asks(a, y) || Leads(b, isObject, x, y)
    ensures AskedBefore(a + b, x, q)
  {
    var c, k := a + b, q - |a|;
    assert forall r :: 0 <= r < |a| ==> c[r] == a[r];
    assert !Asks(a, y);
    assert b[k] == Request(y, isObject);
    assert Unasked(b, y, k) by {
      assert forall r :: 0 <= r < k ==> b[r] == c[|a| + r];
    }
    var r :| 0 <= r < k && r < |b| && b[r].item == x;
    assert c[|a| + r].item == x;
  }

  lemma {:induction false} AsksAppend(a: seq<Request>, b: seq<Request>, y: Item)
    ensures Asks(a + b, y) <==> Asks(a, y) || Asks(b, y)
  {
    var c := a + b;
    if Asks(a, y) {
      var q :| 0 <= q < |a| && a[q].item == y;
      assert c[q].item == y;
    }
    if Asks(b, y) {
      var q :| 0 <= q < |b| && b[q].item == y;
      assert c[|a| + q].item == y;
    }
  }

  lemma {:induction false} FirstRequest(index: map<Item, int>, entries: seq<LinkEntry>, log: Requests, y: Item)
    requires Logged(index, entries, log) && y in index && 0 <= index[y] < |entries|
    ensures var q := log.foundAt[index[y]];
      0 <= q < |log.asked| && log.asked[q] == Request(y, entries[index[y]].isObject) && Unasked(log.asked, y, q)
  {
    assert NamedAt(index[y], log, y);
    forall r | 0 <= r < log.foundAt[index[y]] ensures log.asked[r].item != y {
      assert log.asked[r].item in index && FoundBy(index[log.asked[r].item], log, r);
    }
  }

  /** What leads in the requests has the lower index. */
  lemma {:induction false} LeadsIndex(index: map<Item, int>, entries: seq<LinkEntry>, log: Requests, x: Item, y: Item)
    requires Logged(index, entries, log) && y in index && 0 <= index[y] < |entries|
    requires Leads(log.asked, entries[index[y]].isObject, x, y)
    ensures x in index && index[x] < index[y]
  {
    var q := log.foundAt[index[y]];
    FirstRequest(index, entries, log, y);
    assert AskedBefore(log.asked, x, q);
    var r :| 0 <= r < q && r < |log.asked| && log.asked[r].item == x;
    assert log.foundAt[index[x]] <= r;
    assert FoundBy(index[x], log, r);
    assert forall i :: index[y] <= i < |entries| ==> q <= log.foundAt[i];
  }

  // ---- lists and objects ----

  lemma {:induction false} ListAsks(p: Project, xs: seq<Item>, y: Item)
    ensures Asks(ListRequests(p, xs), y) <==> y in xs && !Skipped(p, y)
  {
    if |xs| > 0 {
      var n := |xs| - 1;
      ListAsks(p, xs[..n], y);
      var last := if Skipped(p, xs[n]) then [] else [Request(xs[n], false)];
      AsksAppend(ListRequests(p, xs[..n]), last, y);
      assert xs == xs[..n] + [xs[n]];
      assert Asks(last, y) <==> y == xs[n] && !Skipped(p, y) by {
        if !Skipped(p, xs[n]) {
          assert last[0].item == xs[n];
        }
      }
    }
  }

  lemma {:induction false} ListPlain(p: Project, xs: seq<Item>)
    ensures forall q :: 0 <= q < |ListRequests(p, xs)| ==> !ListRequests(p, xs)[q].isObject
  {
    hide Skipped;
    if |xs| > 0 {
      ListPlain(p, xs[..|xs| - 1]);
    }
  }

  lemma {:induction false} AllPlain(p: Project, ls: seq<seq<Item>>)
    ensures forall q :: 0 <= q < |AllRequests(p, ls)| ==> !AllRequests(p, ls)[q].isObject
  {
    if |ls| > 0 {
      AllPlain(p, ls[..|ls| - 1]);
      ListPlain(p, ls[|ls| - 1]);
      hide ListRequests;
    }
  }

  /** Nothing that is asked for otherwise is asked for as this kind. */
  lemma {:induction false} OtherKind(asked: seq<Request>, isObject: bool, x: Item, y: Item)
    requires forall q :: 0 <= q < |asked| && asked[q].item == y ==> asked[q].isObject != isObject
    ensures Leads(asked, isObject, x, y)
  {
  }

  lemma {:induction false} NotAsked(asked: seq<Request>, isObject: bool, x: Item, y: Item)
    requires !Asks(asked, y)
    ensures Leads(asked, isObject, x, y)
  {
  }

  /** Objects are asked for in the order of their first mention. */
  lemma {:induction false} ObjectsLead(objs: seq<Item>, j: int, k: int)
    requires 0 <= j < k < |objs| && objs[k] !in objs[..k]
    ensures Leads(ObjectRequests(objs), true, objs[j], objs[k]) && Asks(ObjectRequests(objs), objs[k])
  {
    var r := ObjectRequests(objs);
    assert r[k].item == objs[k] && r[j].item == objs[j];
    forall q | 0 <= q < k ensures objs[q] != objs[k] {
      assert objs[..k][q] == objs[q];
    }
    forall q | 0 <= q < |r| && r[q] == Request(objs[k], true) ensures AskedBefore(r, objs[j], q) {
      assert q >= k;
    }
  }

  /** The items of a list are asked for in the order of their first mention. */
  lemma {:induction false} ListLeads(p: Project, xs: seq<Item>, j: int, k: int)
    requires 0 <= j < k < |xs| && xs[k] !in xs[..k] && !Skipped(p, xs[j]) && !Skipped(p, xs[k])
    ensures Leads(ListRequests(p, xs), false, xs[j], xs[k])
    decreases |xs|
  {
    var n := |xs| - 1;
    var last := if Skipped(p, xs[n]) then [] else [Request(xs[n], false)];
    if k < n {
      assert xs[..n][..k] == xs[..k];
      ListLeads(p, xs[..n], j, k);
      ListAsks(p, xs[..n], xs[k]);
      assert xs[..n][k] == xs[k];
      hide Skipped, Leads, Asks;
      LeadsAppend(ListRequests(p, xs[..n]), last, false, xs[j], xs[k]);
    } else {
      LastLeads(p, xs, j);
    }
  }

  lemma {:induction false} LastLeads(p: Project, xs: seq<Item>, j: int)
    requires 0 <= j < |xs| - 1 && xs[|xs| - 1] !in xs[..|xs| - 1] && !Skipped(p, xs[j])
    requires !Skipped(p, xs[|xs| - 1])
    ensures Leads(ListRequests(p, xs), false, xs[j], xs[|xs| - 1])
  {
    var n := |xs| - 1;
    var before := ListRequests(p, xs[..n]);
    ListAsks(p, xs[..n], xs[j]);
    ListAsks(p, xs[..n], xs[n]);
    assert xs[..n][j] == xs[j];
    assert ListRequests(p, xs) == before + [Request(xs[n], false)];
    hide Skipped, ListRequests;
    AskedThen(before, xs[j], xs[n]);
  }

  lemma {:induction false} AskedThen(before: seq<Request>, x: Item, y: Item)
    requires Asks(before, x) && !Asks(before, y)
    ensures Leads(before + [Request(y, false)], false, x, y)
  {
    var r :| 0 <= r < |before| && before[r].item == x;
    var all := before + [Request(y, false)];
    assert all[r].item == x;
    assert forall q :: 0 <= q < |before| ==> all[q] == before[q];
  }

  lemma {:induction false} ListAppend(p: Project, a: seq<Item>, b: seq<Item>)
    ensures ListRequests(p, a + b) == ListRequests(p, a) + ListRequests(p, b)
  {
    hide Skipped;
    if |b| == 0 {
      assert a + b == a;
    } else {
      var n := |b| - 1;
      assert (a + b)[..|a| + n] == a + b[..n];
      ListAppend(p, a, b[..n]);
      Associate(ListRequests(p, a), ListRequests(p, b[..n]), if Skipped(p, b[n]) then [] else [Request(b[n], false)]);
    }
  }

  lemma {:induction false} RuntimeRequests(p: Project, languages: seq<string>, runtime: map<string, seq<Item>>)
    ensures AllRequests(p, RuntimeLists(languages, runtime)) == ListRequests(p, RuntimeOf(languages, runtime))
  {
    if |languages| > 0 {
      hide ListRequests;
      var before, l := languages[..|languages| - 1], languages[|languages| - 1];
      var ls := RuntimeLists(before, runtime);
      assert languages == before + [l];
      RuntimeRequests(p, before, runtime);
      RuntimeAppend(before, l, runtime);
      if l in runtime {
        assert (ls + [runtime[l]])[..|ls|] == ls;
        ListAppend(p, RuntimeOf(before, runtime), runtime[l]);
      } else {
        assert ls + [] == ls && RuntimeOf(before, runtime) + [] == RuntimeOf(before, runtime);
      }
    }
  }

  // ---- blocks ----

  lemma {:induction false} ListNoObject(p: Project, xs: seq<Item>, x: Item, y: Item)
    ensures Leads(ListRequests(p, xs), true, x, y)
  {
    ListPlain(p, xs);
    hide ListRequests;
    OtherKind(ListRequests(p, xs), true, x, y);
  }

  lemma {:induction false} ObjectsOnly(objs: seq<Item>, x: Item, y: Item)
    ensures Leads(ObjectRequests(objs), false, x, y)
    ensures y !in objs ==> Leads(ObjectRequests(objs), true, x, y)
  {
  }

  /** The objects of a block that asks for them first. */
  lemma {:induction false} BlockObjects(p: Project, libraries: seq<Item>, objs: seq<Item>, languages: seq<string>,
                                        runtime: map<string, seq<Item>>, j: int, k: int)
    requires 0 <= j < k < |objs| && objs[k] !in objs[..k]
    ensures Leads(BlockRequests(p, libraries, objs, languages, runtime), true, objs[j], objs[k])
    ensures Asks(BlockRequests(p, libraries, objs, languages, runtime), objs[k])
  {
    var x, y := objs[j], objs[k];
    var ls, os := ListRequests(p, libraries), ObjectRequests(objs);
    var rs := AllRequests(p, RuntimeLists(languages, runtime));
    ListNoObject(p, libraries, x, y);
    ObjectsLead(objs, j, k);
    hide Leads, Asks, ListRequests, ObjectRequests, AllRequests;
    LeadsAppend(ls, os, true, x, y);
    AsksAppend(ls, os, y);
    LeadsAppend(ls + os, rs, true, x, y);
    AsksAppend(ls + os, rs, y);
  }

  /** A block that does not ask for y as an object. */
  lemma {:induction false} BlockNoObject(p: Project, libraries: seq<Item>, objs: seq<Item>, languages: seq<string>,
                                         runtime: map<string, seq<Item>>, x: Item, y: Item)
    requires y !in objs
    ensures Leads(BlockRequests(p, libraries, objs, languages, runtime), true, x, y)
  {
    var ls, os := ListRequests(p, libraries), ObjectRequests(objs);
    var rs := AllRequests(p, RuntimeLists(languages, runtime));
    ListNoObject(p, libraries, x, y);
    ObjectsOnly(objs, x, y);
    AllPlain(p, RuntimeLists(languages, runtime));
    hide ListRequests, ObjectRequests, AllRequests;
    OtherKind(rs, true, x, y);
    hide Leads, Asks;
    LeadsAppend(ls, os, true, x, y);
    LeadsAppend(ls + os, rs, true, x, y);
  }

  /** The requests of a block for libraries are those of one list, with the objects somewhere between them. */
  lemma {:induction false} BlockParts(p: Project, libraries: seq<Item>, objs: seq<Item>, languages: seq<string>,
                                      runtime: map<string, seq<Item>>) returns (a: seq<Request>, b: seq<Request>)
    ensures a + b == ListRequests(p, libraries + RuntimeOf(languages, runtime))
    ensures a + ObjectRequests(objs) + b == BlockRequests(p, libraries, objs, languages, runtime)
  {
    a, b := ListRequests(p, libraries), ListRequests(p, RuntimeOf(languages, runtime));
    ListAppend(p, libraries, RuntimeOf(languages, runtime));
    RuntimeRequests(p, languages, runtime);
  }

  /** Requests for objects, put between two others, change nothing for libraries. */
  lemma {:induction false} LeadsBetween(a: seq<Request>, objs: seq<Item>, b: seq<Request>, x: Item, y: Item)
    requires Leads(a + b, false, x, y)
    ensures Leads(a + ObjectRequests(objs) + b, false, x, y)
  {
    var n, ab, all := |objs|, a + b, a + ObjectRequests(objs) + b;
    assert forall r :: 0 <= r < |ab| ==> ab[r] == all[if r < |a| then r else r + n];
    forall q | 0 <= q < |all| && all[q] == Request(y, false) && Unasked(all, y, q) ensures AskedBefore(all, x, q) {
      assert !(|a| <= q < |a| + n);
      var at := if q < |a| then q else q - n;
      assert ab[at] == all[q];
      assert Unasked(ab, y, at);
      var r :| 0 <= r < at && r < |ab| && ab[r].item == x;
      assert all[if r < |a| then r else r + n].item == x;
    }
  }

  /** A block whose libraries do not include y. */
  lemma {:induction false} BlockUnnamed(p: Project, libraries: seq<Item>, objs: seq<Item>, languages: seq<string>,
                                        runtime: map<string, seq<Item>>, x: Item, y: Item)
    requires y !in libraries + RuntimeOf(languages, runtime)
    ensures Leads(BlockRequests(p, libraries, objs, languages, runtime), false, x, y)
  {
    var xs := libraries + RuntimeOf(languages, runtime);
    var a, b := BlockParts(p, libraries, objs, languages, runtime);
    ListAsks(p, xs, y);
    NotAsked(ListRequests(p, xs), false, x, y);
    hide *;
    LeadsBetween(a, objs, b, x, y);
  }

  /** If each block of a followed entry leads, they all do together. */
  lemma {:induction false} FollowedLead(p: Project, entries: seq<LinkEntry>, followed: seq<int>, isObject: bool,
                                        x: Item, y: Item)
    requires forall i :: i in followed && 0 <= i < |entries| ==> Leads(EntryRequests(p, entries[i]), isObject, x, y)
    ensures Leads(FollowedRequests(p, entries, followed), isObject, x, y)
  {
    if |followed| > 0 {
      var n := |followed| - 1;
      FollowedLead(p, entries, followed[..n], isObject, x, y);
      hide EntryRequests;
      var last := if 0 <= followed[n] < |entries| then EntryRequests(p, entries[followed[n]]) else [];
      assert Leads(last, isObject, x, y);
      hide Leads;
      LeadsAppend(FollowedRequests(p, entries, followed[..n]), last, isObject, x, y);
    }
  }

  lemma {:induction false} FollowedAsk(p: Project, entries: seq<LinkEntry>, followed: seq<int>, i: int, y: Item)
    requires i in followed && 0 <= i < |entries| && Asks(EntryRequests(p, entries[i]), y)
    ensures Asks(FollowedRequests(p, entries, followed), y)
  {
    var n := |followed| - 1;
    hide EntryRequests, Asks;
    var last := if 0 <= followed[n] < |entries| then EntryRequests(p, entries[followed[n]]) else [];
    AsksAppend(FollowedRequests(p, entries, followed[..n]), last, y);
    if followed[n] != i {
      FollowedAsk(p, entries, followed[..n], i, y);
    }
  }

  // ---- what a followed entry asks for ----

  lemma {:induction false} BlockAsks(p: Project, libraries: seq<Item>, objs: seq<Item>, languages: seq<string>,
                                     runtime: map<string, seq<Item>>, y: Item)
    ensures y in libraries + RuntimeOf(languages, runtime) && !Skipped(p, y) ==>
            Asks(BlockRequests(p, libraries, objs, languages, runtime), y)
    ensures y in objs ==> Asks(BlockRequests(p, libraries, objs, languages, runtime), y)
  {
    var a, b := BlockParts(p, libraries, objs, languages, runtime);
    var os := ObjectRequests(objs);
    ListAsks(p, libraries + RuntimeOf(languages, runtime), y);
    if y in objs {
      var k :| 0 <= k < |objs| && objs[k] == y;
      assert os[k].item == y;
    }
    AsksAppend(a, b, y);
    AsksAppend(a, os, y);
    AsksAppend(a + os, b, y);
  }

  /** Item k of what an entry lists is asked for after item j, unless it is named before. */
  lemma {:induction false} EntryLeads(p: Project, e: LinkEntry, j: int, k: int)
    requires 0 <= j < k < |ListedBy(p, e)| && ListedBy(p, e)[k] !in ListedBy(p, e)[..k]
    requires !Skipped(p, ListedBy(p, e)[j]) && !Skipped(p, ListedBy(p, e)[k])
    ensures Leads(EntryRequests(p, e), false, ListedBy(p, e)[j], ListedBy(p, e)[k])
    ensures Asks(EntryRequests(p, e), ListedBy(p, e)[k])
  {
    var xs := ListedBy(p, e);
    var x, y := xs[j], xs[k];
    ListLeads(p, xs, j, k);
    ListAsks(p, xs, y);
    hide Leads, Asks, BlockRequests, ListRequests, Skipped;
    if e.target.Some? {
      var i := p.interfaces[e.target.value];
      var a, b := BlockParts(p, i.libraries, i.objects, i.languages, i.languageRuntimeLibraries);
      LeadsBetween(a, i.objects, b, x, y);
      BlockAsks(p, i.libraries, i.objects, i.languages, i.languageRuntimeLibraries, y);
    }
  }

  lemma {:induction false} EntryUnnamed(p: Project, e: LinkEntry, x: Item, y: Item)
    requires y !in ListedBy(p, e)
    ensures Leads(EntryRequests(p, e), false, x, y)
  {
    hide BlockRequests, ListRequests, Skipped;
    if e.target.Some? && e.target.value in p.interfaces {
      var i := p.interfaces[e.target.value];
      BlockUnnamed(p, i.libraries, i.objects, i.languages, i.languageRuntimeLibraries, x, y);
    } else if e.target.None? && e.item in p.libDepends {
      ListAsks(p, p.libDepends[e.item], y);
      NotAsked(ListRequests(p, p.libDepends[e.item]), false, x, y);
    }
  }

  /** Objects of the interface of target t, which no other interface names. */
  lemma {:induction false} EntryObjects(p: Project, e: LinkEntry, t: nat, j: int, k: int)
    requires t in p.interfaces && 0 <= j < k < |p.interfaces[t].objects|
    requires p.interfaces[t].objects[k] !in p.interfaces[t].objects[..k]
    requires forall q :: q in p.interfaces && q != t ==> p.interfaces[t].objects[k] !in p.interfaces[q].objects
    ensures Leads(EntryRequests(p, e), true, p.interfaces[t].objects[j], p.interfaces[t].objects[k])
  {
    hide BlockRequests, ListRequests;
    var x, y := p.interfaces[t].objects[j], p.interfaces[t].objects[k];
    if e.target.Some? && e.target.value in p.interfaces {
      var i := p.interfaces[e.target.value];
      if e.target.value == t {
        BlockObjects(p, i.libraries, i.objects, i.languages, i.languageRuntimeLibraries, j, k);
      } else {
        BlockNoObject(p, i.libraries, i.objects, i.languages, i.languageRuntimeLibraries, x, y);
      }
    } else if e.target.None? && e.item in p.libDepends {
      ListNoObject(p, p.libDepends[e.item], x, y);
    }
  }

  // ---- all requests ----

  lemma {:induction false} AllLeadObjects(p: Project, entries: seq<LinkEntry>, followed: seq<int>,
                                          handled: seq<SharedDepEntry>, x: Item, y: Item)
    requires Leads(DirectRequests(p), true, x, y)
    requires Asks(DirectRequests(p), y) || Leads(FollowedRequests(p, entries, followed), true, x, y)
    ensures Leads(TheRequests(p, entries, followed, handled), true, x, y)
  {
    OtherKind(DependencyRequests(handled), true, x, y);
    hide DirectRequests, FollowedRequests, DependencyRequests, Leads, Asks;
    LeadsAppend(DirectRequests(p), FollowedRequests(p, entries, followed), true, x, y);
    LeadsAppend(DirectRequests(p) + FollowedRequests(p, entries, followed), DependencyRequests(handled), true, x, y);
  }

  lemma {:induction false} AllLeadLibraries(p: Project, entries: seq<LinkEntry>, followed: seq<int>,
                                            handled: seq<SharedDepEntry>, x: Item, y: Item)
    requires Leads(DirectRequests(p), false, x, y) && Leads(FollowedRequests(p, entries, followed), false, x, y)
    requires Asks(FollowedRequests(p, entries, followed), y)
    ensures Leads(TheRequests(p, entries, followed, handled), false, x, y)
  {
    hide DirectRequests, FollowedRequests, DependencyRequests, Leads, Asks;
    LeadsAppend(DirectRequests(p), FollowedRequests(p, entries, followed), false, x, y);
    AsksAppend(DirectRequests(p), FollowedRequests(p, entries, followed), y);
    LeadsAppend(DirectRequests(p) + FollowedRequests(p, entries, followed), DependencyRequests(handled), false, x, y);
  }
}
