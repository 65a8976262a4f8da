/** The items of a link line and what is known about them while they are being discovered. */
module LinkItems {
  import opened Collections
  import opened Graphs
  import opened LinkInference

  // ---- the project, as far as linking is concerned ----

  /** A link item names a target or, as text, a library or flag. */
  datatype Item = TargetItem(target: nat, cross: bool) | TextItem(text: string, cross: bool)

  datatype TargetType = StaticLibrary | SharedLibrary | InterfaceLibrary | OtherTarget

  /** What the linking of a target itself needs. */
  datatype LinkImplementation = LinkImplementation(
    libraries: seq<Item>,
    objects: seq<Item>,
    languages: seq<string>,
    languageRuntimeLibraries: map<string, seq<Item>>)

  /** What a target asks of those that link it. */
  datatype LinkInterface = LinkInterface(
    libraries: seq<Item>,
    objects: seq<Item>,
    languages: seq<string>,
    languageRuntimeLibraries: map<string, seq<Item>>,
    sharedDeps: seq<Item>,
    multiplicity: nat)

  /** `libDepends` holds, by item text, the dependencies an old-style variable lists for this configuration. */
  datatype Project = Project(
    name: string,
    implementation: LinkImplementation,
    targetNames: nat -> string,
    targetTypes: nat -> TargetType,
    interfaces: map<nat, LinkInterface>,
    libDepends: map<string, seq<Item>>)

  function AsStr(p: Project, x: Item): string {
    match x
    case TargetItem(t, _) => p.targetNames(t)
    case TextItem(s, _) => s
  }

  function TargetOf(x: Item): Option<nat> {
    if x.TargetItem? then Some(x.target) else None
  }

  /** An option of the linker other than a library or a framework. */
  predicate LooksLikeFlag(s: string) {
    |s| > 0 && s[0] == '-' && !(|s| > 1 && s[1] == 'l') && !("-framework" <= s)
  }

  function NewEntry(p: Project, x: Item): LinkEntry {
    LinkEntry(AsStr(p, x), TargetOf(x), false, TargetOf(x).None? && LooksLikeFlag(AsStr(p, x)), false)
  }

  function ObjectEntry(p: Project, x: Item): LinkEntry {
    LinkEntry(AsStr(p, x), None, false, false, true)
  }

  function SharedDepEntryOf(p: Project, x: Item): LinkEntry {
    LinkEntry(AsStr(p, x), TargetOf(x), true, false, false)
  }

  /** Items that resolve to the target being linked, or to nothing, are skipped. */
  predicate Skipped(p: Project, x: Item) {
    AsStr(p, x) == p.name || AsStr(p, x) == ""
  }

  function Chosen(p: Project, xs: seq<Item>): seq<Item> {
    if |xs| == 0 then []
    else
      var n := |xs| - 1;
      Chosen(p, xs[..n]) + (if Skipped(p, xs[n]) then [] else [xs[n]])
  }

  lemma {:induction false} ChosenExact(p: Project, xs: seq<Item>, x: Item)
    ensures x in Chosen(p, xs) <==> x in xs && !Skipped(p, x)
  {
    if |xs| > 0 {
      ChosenExact(p, xs[..|xs| - 1], x);
      assert xs == xs[..|xs| - 1] + [xs[|xs| - 1]];
    }
  }

  // ---- whose dependencies are followed, and which lists that means ----

  /** The entry came from a list and has dependencies that are known. */
  predicate ToFollow(p: Project, e: LinkEntry) {
    !e.isObject && !e.isSharedDep && (e.target.Some? || e.item in p.libDepends)
  }

  /** The entry came from a list and its dependencies have to be inferred. */
  predicate ToInfer(p: Project, e: LinkEntry) {
    !e.isObject && !e.isSharedDep && e.target.None? && e.item !in p.libDepends && !e.isFlag
  }

  function RuntimeLists(languages: seq<string>, runtime: map<string, seq<Item>>): seq<seq<Item>> {
    if |languages| == 0 then []
    else
      var n := |languages| - 1;
      RuntimeLists(languages[..n], runtime) + (if languages[n] in runtime then [runtime[languages[n]]] else [])
  }

  function InterfaceLists(i: LinkInterface): seq<seq<Item>> {
    [i.libraries] + RuntimeLists(i.languages, i.languageRuntimeLibraries)
  }

  function DirectLists(p: Project): seq<seq<Item>> {
    [p.implementation.libraries] + RuntimeLists(p.implementation.languages, p.implementation.languageRuntimeLibraries)
  }

  /** The lists of libraries that an entry depends on. */
  function DependLists(p: Project, e: LinkEntry): seq<seq<Item>> {
    if e.target.Some? then
      if e.target.value in p.interfaces then InterfaceLists(p.interfaces[e.target.value]) else []
    else if e.item in p.libDepends then [p.libDepends[e.item]]
    else []
  }

  // ---- the same in the terms of the project ----

  /** Neither the target that is being linked nor the empty item. */
  ghost predicate Linkable(p: Project, x: Item) {
    var text := if x.TargetItem? then p.targetNames(x.target) else x.text;
    text != p.name && text != ""
  }

  lemma LinkableExact(p: Project, x: Item)
    ensures Linkable(p, x) <==> !Skipped(p, x)
  {
  }

  /** What the languages need at run time, one language after the other. */
  ghost function RuntimeOf(languages: seq<string>, runtime: map<string, seq<Item>>): seq<Item> {
    if |languages| == 0 then []
    else
      (if languages[0] in runtime then runtime[languages[0]] else []) + RuntimeOf(languages[1..], runtime)
  }

  /** The libraries that the interface of the entry's target gives, and then what its languages need; without a target
      what the old-style variable for its text says. */
  ghost function ListedBy(p: Project, e: LinkEntry): seq<Item> {
    if e.target.Some? then
      if e.target.value in p.interfaces then
        var i := p.interfaces[e.target.value];
        i.libraries + RuntimeOf(i.languages, i.languageRuntimeLibraries)
      else []
    else if e.item in p.libDepends then p.libDepends[e.item]
    else []
  }

  lemma {:induction false} RuntimeAppend(languages: seq<string>, l: string, runtime: map<string, seq<Item>>)
    ensures RuntimeOf(languages + [l], runtime) ==
            RuntimeOf(languages, runtime) + (if l in runtime then runtime[l] else [])
  {
    if |languages| == 0 {
      assert (languages + [l])[1..] == [];
    } else {
      var more, t := languages + [l], languages[1..];
      assert more[0] == languages[0] && more[1..] == t + [l];
      RuntimeAppend(t, l, runtime);
      var first := if languages[0] in runtime then runtime[languages[0]] else [];
      Associate(first, RuntimeOf(t, runtime), if l in runtime then runtime[l] else []);
    }
  }

  /** What is needed at run time is in one of the lists. */
  lemma {:induction false} RuntimeListed(languages: seq<string>, runtime: map<string, seq<Item>>, x: Item)
    returns (n: int)
    requires x in RuntimeOf(languages, runtime)
    ensures 0 <= n < |RuntimeLists(languages, runtime)| && x in RuntimeLists(languages, runtime)[n]
  {
    var before, l := languages[..|languages| - 1], languages[|languages| - 1];
    assert languages == before + [l];
    RuntimeAppend(before, l, runtime);
    if x in RuntimeOf(before, runtime) {
      n := RuntimeListed(before, runtime, x);
    } else {
      n := |RuntimeLists(before, runtime)|;
    }
  }

  lemma {:induction false} ListedIn(p: Project, e: LinkEntry, x: Item) returns (n: int)
    requires x in ListedBy(p, e)
    ensures 0 <= n < |DependLists(p, e)| && x in DependLists(p, e)[n]
  {
    n := 0;
    if e.target.Some? {
      var i := p.interfaces[e.target.value];
      if x !in i.libraries {
        n := RuntimeListed(i.languages, i.languageRuntimeLibraries, x);
        n := n + 1;
      }
    }
  }

  // ---- all items there are ----

  ghost function Elements(xs: seq<Item>): set<Item> {
    set x | x in xs
  }

  ghost function RuntimeItems(runtime: map<string, seq<Item>>): set<Item> {
    set l, x | l in runtime && x in runtime[l] :: x
  }

  ghost function InterfaceItems(i: LinkInterface): set<Item> {
    Elements(i.libraries) + Elements(i.objects) + RuntimeItems(i.languageRuntimeLibraries) + Elements(i.sharedDeps)
  }

  ghost function AllItems(p: Project): set<Item> {
    Elements(p.implementation.libraries) + Elements(p.implementation.objects)
    + RuntimeItems(p.implementation.languageRuntimeLibraries)
    + (set t, x | t in p.interfaces && x in InterfaceItems(p.interfaces[t]) :: x)
    + (set s, x | s in p.libDepends && x in p.libDepends[s] :: x)
  }

  ghost predicate IsObjectItem(p: Project, x: Item) {
    x in p.implementation.objects || exists t :: t in p.interfaces && x in p.interfaces[t].objects
  }

  ghost predicate IsSharedDepItem(p: Project, x: Item) {
    exists t :: t in p.interfaces && (x in p.interfaces[t].libraries || x in p.interfaces[t].sharedDeps)
  }

  // ---- the state of the discovery ----

  /** A list that has been processed: who depends on it (-1 for the target being linked), its items as given,
      and the entries of those not skipped. */
  datatype ItemList = ItemList(depender: int, items: seq<Item>, libs: seq<int>)

  function Libs(lists: seq<ItemList>): (r: seq<seq<int>>)
    ensures |r| == |lists|
    ensures forall i :: 0 <= i < |lists| ==> r[i] == lists[i].libs
  {
    seq(|lists|, i requires 0 <= i < |lists| => lists[i].libs)
  }

  /** The entries, their index, and everything recorded about them. `names` inverts the index; `lists` are the
      lists processed so far, `stored` those whose follow sets are stored; `strong` are the strong edges. */
  datatype Items = Items(
    entries: seq<LinkEntry>,
    index: map<Item, int>,
    infer: seq<DependSetList>,
    graph: Graph,
    original: seq<int>,
    names: seq<Item>,
    lists: seq<ItemList>,
    stored: seq<ItemList>,
    strong: seq<Strong>)

  /** An edge that no list asks for. */
  datatype Strong = Strong(depender: int, dest: int)

  /** The entry of an item: from a list, or as an object file or a shared dependency if the project names it so. */
  ghost predicate EntryFor(p: Project, e: LinkEntry, x: Item) {
    || e == NewEntry(p, x)
    || (e == ObjectEntry(p, x) && IsObjectItem(p, x))
    || (e == SharedDepEntryOf(p, x) && IsSharedDepItem(p, x))
  }

  /** The index numbers the items one to one, and there is one entry for each. */
  ghost predicate Indexed(p: Project, s: Items) {
    && |s.entries| == |s.names| == |s.infer| == |s.graph|
    && (forall x :: x in s.index ==> 0 <= s.index[x] < |s.names| && s.names[s.index[x]] == x)
    && (forall i :: 0 <= i < |s.names| ==> s.names[i] in s.index && s.index[s.names[i]] == i)
    && (forall i :: 0 <= i < |s.names| ==> EntryFor(p, s.entries[i], s.names[i]))
  }

  ghost predicate ListKnown(p: Project, index: map<Item, int>, l: ItemList) {
    var c := Chosen(p, l.items);
    |l.libs| == |c| && forall k :: 0 <= k < |c| ==> c[k] in index && l.libs[k] == index[c[k]]
  }

  ghost predicate ListsKnown(p: Project, s: Items) {
    forall l :: 0 <= l < |s.lists| ==> -1 <= s.lists[l].depender < |s.entries| && ListKnown(p, s.index, s.lists[l])
  }

  function WeakEdges(libs: seq<int>): EdgeList {
    seq(|libs|, k requires 0 <= k < |libs| => Edge(libs[k], false, false))
  }

  /** The edges that the processed lists put on an entry. */
  ghost function EdgesOf(lists: seq<ItemList>, u: int): EdgeList {
    if |lists| == 0 then []
    else
      var n := |lists| - 1;
      EdgesOf(lists[..n], u) + (if lists[n].depender == u then WeakEdges(lists[n].libs) else [])
  }

  /** The strong edges of an entry. */
  ghost function StrongOf(strong: seq<Strong>, u: int): EdgeList {
    if |strong| == 0 then []
    else
      var n := |strong| - 1;
      StrongOf(strong[..n], u) + (if strong[n].depender == u then [Edge(strong[n].dest, true, false)] else [])
  }

  /** The entries linked directly. */
  ghost function OriginalOf(lists: seq<ItemList>): seq<int> {
    if |lists| == 0 then []
    else
      var n := |lists| - 1;
      OriginalOf(lists[..n]) + (if lists[n].depender < 0 then lists[n].libs else [])
  }

  ghost predicate InferKnown(p: Project, s: Items) {
    |s.infer| == |s.entries| && s.stored <= s.lists &&
    forall a :: 0 <= a < |s.infer| ==>
      && (s.infer[a].initialized <==> ToInfer(p, s.entries[a]))
      && s.infer[a].sets == if s.infer[a].initialized then SetsOf(s.entries, Libs(s.stored), a) else []
  }

  ghost predicate GraphKnown(s: Items) {
    && |s.graph| == |s.entries|
    && (forall u :: 0 <= u < |s.graph| ==> s.graph[u] == EdgesOf(s.lists, u) + StrongOf(s.strong, u))
    && forall k :: 0 <= k < |s.strong| ==> 0 <= s.strong[k].depender < |s.graph| && 0 <= s.strong[k].dest < |s.graph|
  }

  ghost predicate Valid(p: Project, s: Items) {
    && Indexed(p, s) && ListsKnown(p, s) && GraphKnown(s) && InferKnown(p, s)
    && s.original == OriginalOf(s.lists) && s.index.Keys <= AllItems(p)
  }

  /** Entries are only ever added. */
  ghost predicate Grows(s: Items, t: Items) {
    && s.entries <= t.entries && s.names <= t.names
    && forall x :: x in s.index ==> x in t.index && t.index[x] == s.index[x]
  }

  // ---- adding an entry ----

  /** The state after an entry has been allocated for x. */
  function Allocated(s: Items, x: Item, e: LinkEntry, inferred: bool): Items {
    s.(entries := s.entries + [e], index := s.index[x := |s.entries|], infer := s.infer + [DependSetList(inferred, [])],
       graph := s.graph + [[]], names := s.names + [x])
  }

  lemma LibsBounded(p: Project, s: Items, l: ItemList)
    requires Indexed(p, s) && ListKnown(p, s.index, l)
    ensures forall k :: 0 <= k < |l.libs| ==> 0 <= l.libs[k] < |s.entries|
  {
  }

  lemma ListsBounded(p: Project, s: Items)
    requires Indexed(p, s) && ListsKnown(p, s)
    ensures Bounded(Libs(s.lists), |s.entries|)
  {
    forall l | 0 <= l < |s.lists|
      ensures forall k :: 0 <= k < |s.lists[l].libs| ==> 0 <= s.lists[l].libs[k] < |s.entries|
    {
      LibsBounded(p, s, s.lists[l]);
    }
  }

  lemma {:induction false} NoEdges(lists: seq<ItemList>, u: int)
    requires forall l :: 0 <= l < |lists| ==> lists[l].depender != u
    ensures EdgesOf(lists, u) == []
  {
    if |lists| > 0 {
      NoEdges(lists[..|lists| - 1], u);
    }
  }

  lemma {:induction false} NoStrong(strong: seq<Strong>, u: int)
    requires forall k :: 0 <= k < |strong| ==> strong[k].depender != u
    ensures StrongOf(strong, u) == []
  {
    if |strong| > 0 {
      NoStrong(strong[..|strong| - 1], u);
    }
  }

  lemma AllocatedIndexed(p: Project, s: Items, x: Item, e: LinkEntry, inferred: bool)
    requires Indexed(p, s) && ListsKnown(p, s) && x !in s.index && EntryFor(p, e, x)
    ensures Indexed(p, Allocated(s, x, e, inferred)) && ListsKnown(p, Allocated(s, x, e, inferred))
    ensures Grows(s, Allocated(s, x, e, inferred))
  {
    var t := Allocated(s, x, e, inferred);
    hide Chosen, EntryFor;
    forall l | 0 <= l < |t.lists| ensures ListKnown(p, t.index, t.lists[l]) {
      assert ListKnown(p, s.index, s.lists[l]);
    }
  }

  lemma AllocatedInfer(p: Project, s: Items, x: Item, e: LinkEntry)
    requires Indexed(p, s) && ListsKnown(p, s) && InferKnown(p, s)
    ensures InferKnown(p, Allocated(s, x, e, ToInfer(p, e)))
  {
    var t := Allocated(s, x, e, ToInfer(p, e));
    ListsBounded(p, s);
    var libs := Libs(s.stored);
    assert Bounded(libs, |s.entries|) by {
      assert forall l :: 0 <= l < |s.stored| ==> s.stored[l] == s.lists[l];
      assert forall l :: 0 <= l < |s.stored| ==> libs[l] == Libs(s.lists)[l];
    }
    hide ListsKnown, Indexed, ToInfer;
    forall a | 0 <= a < |t.infer|
      ensures t.infer[a].sets == if t.infer[a].initialized then SetsOf(t.entries, libs, a) else []
    {
      if a < |s.infer| {
        SetsSame(s.entries, t.entries, libs, a);
      } else {
        SetsNone(t.entries, libs, a);
      }
    }
  }

  lemma AllocatedGraph(p: Project, s: Items, x: Item, e: LinkEntry, inferred: bool)
    requires ListsKnown(p, s) && GraphKnown(s)
    ensures GraphKnown(Allocated(s, x, e, inferred))
  {
    NoEdges(s.lists, |s.entries|);
    NoStrong(s.strong, |s.entries|);
  }

  lemma AllocatedValid(p: Project, s: Items, x: Item, e: LinkEntry)
    requires Valid(p, s) && x !in s.index && x in AllItems(p) && EntryFor(p, e, x)
    ensures Valid(p, Allocated(s, x, e, ToInfer(p, e))) && Grows(s, Allocated(s, x, e, ToInfer(p, e)))
  {
    hide Indexed, ListsKnown, GraphKnown, InferKnown, EntryFor, AllItems, Grows, ToInfer;
    AllocatedIndexed(p, s, x, e, ToInfer(p, e));
    AllocatedInfer(p, s, x, e);
    AllocatedGraph(p, s, x, e, ToInfer(p, e));
  }

  // ---- processing a list ----

  /** A new list has been opened. */
  function Opened(s: Items, depender: int): Items {
    s.(lists := s.lists + [ItemList(depender, [], [])])
  }

  /** One more item of the open list has been skipped. */
  function SeenSkipped(s: Items, x: Item): Items
    requires |s.lists| > 0
  {
    var n := |s.lists| - 1;
    s.(lists := s.lists[n := s.lists[n].(items := s.lists[n].items + [x])])
  }

  /** One more item of the open list has been seen; its entry is i. */
  function SeenItem(s: Items, x: Item, i: int): Items
    requires |s.lists| > 0 && s.lists[|s.lists| - 1].depender < |s.graph|
  {
    var n := |s.lists| - 1;
    var l := s.lists[n];
    var lists := s.lists[n := l.(items := l.items + [x], libs := l.libs + [i])];
    if l.depender < 0 then s.(lists := lists, original := s.original + [i])
    else s.(lists := lists, graph := s.graph[l.depender := s.graph[l.depender] + [Edge(i, false, false)]])
  }

  lemma OpenedValid(p: Project, s: Items, depender: int)
    requires Valid(p, s) && -1 <= depender < |s.entries| && s.stored == s.lists && s.strong == []
    ensures Valid(p, Opened(s, depender)) && Open(Opened(s, depender)) && Grows(s, Opened(s, depender))
  {
    var t := Opened(s, depender);
    hide EntryFor, AllItems, ToInfer;
    assert t.lists[..|s.lists|] == s.lists;
    assert WeakEdges([]) == [];
    assert forall u :: EdgesOf(t.lists, u) == EdgesOf(s.lists, u);
    forall l | 0 <= l < |t.lists| ensures -1 <= t.lists[l].depender < |t.entries| && ListKnown(p, t.index, t.lists[l]) {
      if l < |s.lists| {
        assert ListKnown(p, s.index, s.lists[l]);
      }
    }
  }

  /** A list is open: its follow sets are not stored yet, and there are no strong edges. */
  ghost predicate Open(s: Items) {
    |s.lists| == |s.stored| + 1 && s.lists[|s.lists| - 1].depender < |s.graph| && s.strong == []
  }

  lemma SkippedLists(p: Project, s: Items, x: Item)
    requires ListsKnown(p, s) && Open(s) && Skipped(p, x)
    ensures ListsKnown(p, SeenSkipped(s, x))
  {
    var t := SeenSkipped(s, x);
    var n := |s.lists| - 1;
    hide Skipped;
    assert t.lists[n].items[..|s.lists[n].items|] == s.lists[n].items;
    assert ListKnown(p, s.index, s.lists[n]);
    forall l | 0 <= l < n ensures ListKnown(p, s.index, t.lists[l]) {
      assert t.lists[l] == s.lists[l];
    }
  }

  lemma SkippedGraph(p: Project, s: Items, x: Item)
    requires GraphKnown(s) && s.original == OriginalOf(s.lists) && Open(s)
    ensures GraphKnown(SeenSkipped(s, x)) && s.original == OriginalOf(SeenSkipped(s, x).lists)
  {
    var t := SeenSkipped(s, x);
    assert t.lists[..|s.lists| - 1] == s.lists[..|s.lists| - 1];
    forall u ensures EdgesOf(t.lists, u) == EdgesOf(s.lists, u) {
    }
  }

  lemma SkippedValid(p: Project, s: Items, x: Item)
    requires Valid(p, s) && Open(s) && Skipped(p, x)
    ensures Valid(p, SeenSkipped(s, x)) && Open(SeenSkipped(s, x)) && Grows(s, SeenSkipped(s, x))
  {
    hide ListsKnown, GraphKnown, OriginalOf, AllItems, Indexed, InferKnown, Grows;
    SkippedLists(p, s, x);
    SkippedGraph(p, s, x);
    SkippedRest(p, s, x);
  }

  lemma SkippedRest(p: Project, s: Items, x: Item)
    requires Indexed(p, s) && InferKnown(p, s) && Open(s)
    ensures Indexed(p, SeenSkipped(s, x)) && InferKnown(p, SeenSkipped(s, x)) && Open(SeenSkipped(s, x))
    ensures Grows(s, SeenSkipped(s, x))
  {
    hide ToInfer, SetsOf, EntryFor;
  }

  lemma ListMore(p: Project, index: map<Item, int>, l: ItemList, x: Item)
    requires ListKnown(p, index, l) && !Skipped(p, x) && x in index
    ensures ListKnown(p, index, l.(items := l.items + [x], libs := l.libs + [index[x]]))
  {
    hide Skipped;
    assert (l.items + [x])[..|l.items|] == l.items;
  }

  lemma SeenLists(p: Project, s: Items, x: Item)
    requires ListsKnown(p, s) && Open(s) && !Skipped(p, x) && x in s.index
    ensures ListsKnown(p, SeenItem(s, x, s.index[x]))
  {
    var t := SeenItem(s, x, s.index[x]);
    var n := |s.lists| - 1;
    ListMore(p, s.index, s.lists[n], x);
    hide ListKnown, Skipped;
    forall l | 0 <= l < n ensures t.lists[l] == s.lists[l] {
    }
  }

  lemma SeenEdges(s: Items, x: Item, i: int, u: int)
    requires Open(s)
    ensures EdgesOf(SeenItem(s, x, i).lists, u) ==
            EdgesOf(s.lists, u) + (if s.lists[|s.lists| - 1].depender == u then [Edge(i, false, false)] else [])
  {
    var t := SeenItem(s, x, i);
    var n := |s.lists| - 1;
    assert t.lists[..n] == s.lists[..n];
    assert WeakEdges(s.lists[n].libs + [i]) == WeakEdges(s.lists[n].libs) + [Edge(i, false, false)];
  }

  lemma SeenGraph(s: Items, x: Item, i: int)
    requires GraphKnown(s) && Open(s)
    ensures GraphKnown(SeenItem(s, x, i))
  {
    var t := SeenItem(s, x, i);
    forall u | 0 <= u < |t.graph| ensures t.graph[u] == EdgesOf(t.lists, u) + StrongOf(t.strong, u) {
      SeenEdges(s, x, i, u);
      assert s.graph[u] == EdgesOf(s.lists, u) + StrongOf(s.strong, u);
    }
  }

  lemma SeenOriginal(s: Items, x: Item, i: int)
    requires s.original == OriginalOf(s.lists) && Open(s)
    ensures SeenItem(s, x, i).original == OriginalOf(SeenItem(s, x, i).lists)
  {
    var t := SeenItem(s, x, i);
    assert t.lists[..|s.lists| - 1] == s.lists[..|s.lists| - 1];
  }

  lemma SeenRest(p: Project, s: Items, x: Item, i: int)
    requires Indexed(p, s) && InferKnown(p, s) && Open(s)
    ensures Indexed(p, SeenItem(s, x, i)) && InferKnown(p, SeenItem(s, x, i)) && Open(SeenItem(s, x, i))
    ensures Grows(s, SeenItem(s, x, i))
  {
    hide ToInfer, SetsOf, EntryFor;
  }

  lemma SeenValid(p: Project, s: Items, x: Item)
    requires Valid(p, s) && Open(s) && !Skipped(p, x) && x in s.index
    ensures Valid(p, SeenItem(s, x, s.index[x])) && Open(SeenItem(s, x, s.index[x]))
    ensures Grows(s, SeenItem(s, x, s.index[x]))
  {
    hide ListsKnown, GraphKnown, OriginalOf, AllItems, Indexed, InferKnown, Grows;
    SeenLists(p, s, x);
    SeenGraph(s, x, s.index[x]);
    SeenOriginal(s, x, s.index[x]);
    SeenRest(p, s, x, s.index[x]);
  }

  // ---- the follow sets of one list ----

  /** What the sets collected for the items of a list have to be. */
  ghost predicate FollowSets(s: Items, libs: seq<int>, sets: map<int, set<int>>) {
    forall a ::
      && (a in sets <==> a in libs && 0 <= a < |s.infer| && s.infer[a].initialized)
      && (a in sets ==> sets[a] == Followers(s.entries, libs, a))
  }

  /** The sets after one more item: it follows all items seen before it. */
  function MoreSets(s: Items, sets: map<int, set<int>>, i: int): map<int, set<int>> {
    var followed := map a | a in sets :: if Unknown(s.entries, i) && i != a then sets[a] + {i} else sets[a];
    if 0 <= i < |s.infer| && s.infer[i].initialized && i !in followed then followed[i := {}] else followed
  }

  lemma MoreFollowSets(s: Items, libs: seq<int>, sets: map<int, set<int>>, i: int)
    requires FollowSets(s, libs, sets)
    ensures FollowSets(s, libs + [i], MoreSets(s, sets, i))
  {
    hide Unknown;
    var more := libs + [i];
    assert more[..|libs|] == libs;
    forall a ensures Followers(s.entries, more, a) ==
                     if a in libs && Unknown(s.entries, i) && i != a then Followers(s.entries, libs, a) + {i}
                     else Followers(s.entries, libs, a)
    {
    }
    if i !in libs {
      FollowersNone(s.entries, libs, i);
    }
  }

  lemma FollowSetsGrow(p: Project, s: Items, t: Items, libs: seq<int>, sets: map<int, set<int>>)
    requires FollowSets(s, libs, sets) && s.entries <= t.entries && s.infer <= t.infer && |s.infer| == |s.entries|
    requires forall k :: 0 <= k < |libs| ==> 0 <= libs[k] < |s.entries|
    ensures FollowSets(t, libs, sets)
  {
    forall a ensures Followers(s.entries, libs, a) == Followers(t.entries, libs, a) {
      FollowersSame(s.entries, t.entries, libs, a);
    }
  }

  // ---- strong edges ----

  /** A strong edge has been added. */
  function Linked(s: Items, u: int, v: int): Items
    requires 0 <= u < |s.graph|
  {
    s.(graph := s.graph[u := s.graph[u] + [Edge(v, true, false)]], strong := s.strong + [Strong(u, v)])
  }

  lemma LinkedGraph(s: Items, u: int, v: int)
    requires GraphKnown(s) && 0 <= u < |s.graph| && 0 <= v < |s.graph|
    ensures GraphKnown(Linked(s, u, v))
  {
    var t := Linked(s, u, v);
    assert t.strong[..|s.strong|] == s.strong;
    forall w | 0 <= w < |t.graph| ensures t.graph[w] == EdgesOf(t.lists, w) + StrongOf(t.strong, w) {
      assert StrongOf(t.strong, w) == StrongOf(s.strong, w) + (if u == w then [Edge(v, true, false)] else []);
      assert s.graph[w] == EdgesOf(s.lists, w) + StrongOf(s.strong, w);
    }
  }

  lemma LinkedValid(p: Project, s: Items, u: int, v: int)
    requires Valid(p, s) && 0 <= u < |s.graph| && 0 <= v < |s.graph|
    ensures Valid(p, Linked(s, u, v)) && Grows(s, Linked(s, u, v))
  {
    hide GraphKnown, OriginalOf, AllItems, Indexed, InferKnown, ListsKnown, Grows;
    LinkedGraph(s, u, v);
    LinkedRest(p, s, u, v);
  }

  lemma LinkedRest(p: Project, s: Items, u: int, v: int)
    requires Indexed(p, s) && InferKnown(p, s) && ListsKnown(p, s) && 0 <= u < |s.graph|
    ensures Indexed(p, Linked(s, u, v)) && InferKnown(p, Linked(s, u, v)) && ListsKnown(p, Linked(s, u, v))
    ensures Grows(s, Linked(s, u, v))
  {
    hide ToInfer, SetsOf, EntryFor, ListKnown;
  }

  // ---- storing the follow sets ----

  /** The state once the sets of the last list are stored. */
  function Stored(s: Items, sets: map<int, set<int>>): Items {
    s.(infer := seq(|s.infer|, a requires 0 <= a < |s.infer| =>
                 if a in sets then s.infer[a].(sets := s.infer[a].sets + [sets[a]]) else s.infer[a]),
       stored := s.lists)
  }

  lemma StoredInfer(p: Project, s: Items, sets: map<int, set<int>>)
    requires InferKnown(p, s) && |s.lists| == |s.stored| + 1
    requires FollowSets(s, s.lists[|s.lists| - 1].libs, sets)
    ensures InferKnown(p, Stored(s, sets))
  {
    hide ToInfer;
    var t := Stored(s, sets);
    var libs := Libs(s.lists);
    assert libs[..|s.stored|] == Libs(s.stored);
    forall a ensures SetsOf(s.entries, libs, a) == SetsOf(s.entries, Libs(s.stored), a)
                       + (if a in libs[|s.stored|] then [Followers(s.entries, libs[|s.stored|], a)] else [])
    {
    }
    forall a | 0 <= a < |t.infer|
      ensures t.infer[a].initialized == s.infer[a].initialized
      ensures t.infer[a].sets == if t.infer[a].initialized then SetsOf(s.entries, libs, a) else []
    {
    }
  }

  lemma StoredValid(p: Project, s: Items, sets: map<int, set<int>>)
    requires Valid(p, s) && |s.lists| == |s.stored| + 1
    requires FollowSets(s, s.lists[|s.lists| - 1].libs, sets)
    ensures Valid(p, Stored(s, sets))
  {
    StoredInfer(p, s, sets);
    hide InferKnown, FollowSets, OriginalOf, EdgesOf, AllItems, EntryFor;
  }
}
