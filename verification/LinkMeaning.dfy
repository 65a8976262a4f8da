/** The constraints between the entries, in terms of what the project says. */
module LinkMeaning {
  import opened Collections
  import opened Graphs
  import opened LinkInference
  import opened LinkItems
  import opened LinkSearch
  import opened LinkShared
  import opened LinkFound

  /** The libraries given, and those that the languages need at run time. */
  ghost predicate Named(libraries: seq<Item>, languages: seq<string>, runtime: map<string, seq<Item>>, x: Item) {
    x in libraries || exists l :: l in languages && l in runtime && x in runtime[l]
  }

  ghost predicate NamedDirectly(p: Project, x: Item) {
    var i := p.implementation;
    Named(i.libraries, i.languages, i.languageRuntimeLibraries, x)
  }

  /** The entry's target says so in its interface; without a target, the old-style variable for its text does. */
  ghost predicate NamedBy(p: Project, e: LinkEntry, x: Item) {
    && !e.isObject && !e.isSharedDep
    && if e.target.Some? then
         && e.target.value in p.interfaces
         && var i := p.interfaces[e.target.value]; Named(i.libraries, i.languages, i.languageRuntimeLibraries, x)
       else e.item in p.libDepends && x in p.libDepends[e.item]
  }

  ghost predicate EntryOf(s: Items, x: Item, v: int) {
    x in s.index && s.index[x] == v
  }

  /** The entry came from a list, and its target, which is more than an interface, has shared dependencies. */
  ghost predicate HasOwnDeps(p: Project, s: Items, u: int) {
    && 0 <= u < |s.entries| && !s.entries[u].isObject && !s.entries[u].isSharedDep
    && s.entries[u].target.Some? && s.entries[u].target.value in p.interfaces
    && !p.targetTypes(s.entries[u].target.value).InterfaceLibrary?
  }

  /** x is a shared dependency of u: one it names, or, where u is itself a dependency only, any of its libraries. */
  ghost predicate DependsShared(p: Project, s: Items, handled: seq<SharedDepEntry>, u: int, x: Item) {
    && 0 <= u < |s.entries| && s.entries[u].target.Some? && s.entries[u].target.value in p.interfaces
    && var i := p.interfaces[s.entries[u].target.value];
       if HasOwnDeps(p, s, u) then x in i.sharedDeps
       else (x in i.sharedDeps || x in i.libraries) && exists w :: SharedLink(s, handled, w, u)
  }

  /** The direct entries, and the edges of the graph, are what the project asks for, and no more. */
  ghost predicate AsAskedFor(p: Project, s: Items, handled: seq<SharedDepEntry>) {
    && (forall x :: NamedDirectly(p, x) && Linkable(p, x) ==> x in s.index && s.index[x] in s.original)
    && (forall v :: v in s.original ==> exists x :: NamedDirectly(p, x) && Linkable(p, x) && EntryOf(s, x, v))
    && (forall u, v :: HasEdge(s.graph, u, v) <==>
          || ListEdge(p, s, u, v) || SharedLink(s, handled, u, v) || InferredEdge(p, s, u, v))
    && (forall u, x :: 0 <= u < |s.entries| && NamedBy(p, s.entries[u], x) && Linkable(p, x) ==> x in s.index)
    && (forall u, v :: SharedLink(s, handled, u, v) <==> SharedEdge(p, s, handled, u, v))
    && (forall u, x :: DependsShared(p, s, handled, u, x) ==> x in s.index)
  }

  ghost predicate ListEdge(p: Project, s: Items, u: int, v: int) {
    0 <= u < |s.entries| && exists x :: NamedBy(p, s.entries[u], x) && Linkable(p, x) && EntryOf(s, x, v)
  }

  /** Nothing is known about what u needs; v, no target and no flag, stands after it in every list that has u. */
  ghost predicate InferredEdge(p: Project, s: Items, u: int, v: int) {
    && 0 <= u < |s.entries| && 0 <= v < |s.entries| && u != v
    && s.entries[u].target.None? && s.entries[u].item !in p.libDepends
    && !s.entries[u].isFlag && !s.entries[u].isObject && !s.entries[u].isSharedDep
    && s.entries[v].target.None? && !s.entries[v].isFlag
    && (exists l :: 0 <= l < |s.lists| && u in s.lists[l].libs)
    && forall l :: 0 <= l < |s.lists| && u in s.lists[l].libs ==> StandsAfter(s.lists[l].libs, u, v)
  }

  ghost predicate StandsAfter(libs: seq<int>, u: int, v: int) {
    exists i, k :: 0 <= i < k < |libs| && libs[i] == u && libs[k] == v
  }

  lemma {:induction false} InferredExact(p: Project, s: Items, u: int, v: int)
    ensures InferredLink(p, s, u, v) <==> InferredEdge(p, s, u, v)
  {
    var lists := Libs(s.lists);
    forall l | 0 <= l < |s.lists| ensures Follows(lists[l], u, v) <==> StandsAfter(s.lists[l].libs, u, v) {
    }
    hide Follows, StandsAfter;
  }

  ghost predicate SharedEdge(p: Project, s: Items, handled: seq<SharedDepEntry>, u: int, v: int) {
    exists x :: DependsShared(p, s, handled, u, x) && EntryOf(s, x, v)
  }

  // ---- lists ----

  lemma {:induction false} RuntimeExact(languages: seq<string>, runtime: map<string, seq<Item>>, x: Item)
    ensures (exists n :: 0 <= n < |RuntimeLists(languages, runtime)| && x in RuntimeLists(languages, runtime)[n]) <==>
            exists l :: l in languages && l in runtime && x in runtime[l]
  {
    if |languages| > 0 {
      var n := |languages| - 1;
      var before := RuntimeLists(languages[..n], runtime);
      RuntimeExact(languages[..n], runtime, x);
      assert languages == languages[..n] + [languages[n]];
      if m :| 0 <= m < |before| && x in before[m] {
        assert RuntimeLists(languages, runtime)[m] == before[m];
      }
      if languages[n] in runtime && x in runtime[languages[n]] {
        assert RuntimeLists(languages, runtime)[|before|] == runtime[languages[n]];
      }
      if m :| 0 <= m < |RuntimeLists(languages, runtime)| && x in RuntimeLists(languages, runtime)[m] {
        assert m < |before| ==> x in before[m];
      }
    }
  }

  /** Some list has it. */
  ghost predicate InSome(ls: seq<seq<Item>>, x: Item) {
    exists n :: 0 <= n < |ls| && x in ls[n]
  }

  lemma {:induction false} NamedExact(libraries: seq<Item>, languages: seq<string>, runtime: map<string, seq<Item>>,
                                      x: Item)
    ensures InSome([libraries] + RuntimeLists(languages, runtime), x) <==> Named(libraries, languages, runtime, x)
  {
    var more := RuntimeLists(languages, runtime);
    var ls := [libraries] + more;
    RuntimeExact(languages, runtime, x);
    assert ls[0] == libraries;
    assert forall n :: 0 <= n < |more| ==> ls[n + 1] == more[n];
    hide RuntimeLists;
    if n :| 0 <= n < |more| && x in more[n] {
      assert x in ls[n + 1];
    }
    if InSome(ls, x) {
      var n :| 0 <= n < |ls| && x in ls[n];
      assert n > 0 ==> x in more[n - 1];
    }
  }

  lemma {:induction false} NamedByExact(p: Project, e: LinkEntry, x: Item)
    ensures NamedBy(p, e, x) <==> ToFollow(p, e) && InSome(DependLists(p, e), x)
  {
    hide Named, InSome, RuntimeLists;
    if e.target.Some? {
      if e.target.value in p.interfaces {
        var i := p.interfaces[e.target.value];
        NamedExact(i.libraries, i.languages, i.languageRuntimeLibraries, x);
      } else {
        NoneIn(x);
      }
    } else if e.item in p.libDepends {
      OneList(p.libDepends[e.item], x);
    }
  }

  lemma NoneIn(x: Item)
    ensures !InSome([], x)
  {
  }

  lemma OneList(l: seq<Item>, x: Item)
    ensures InSome([l], x) <==> x in l
  {
    assert [l][0] == l;
  }

  /** Where a list of a followed entry comes from. */
  lemma {:induction false} FollowedFrom(p: Project, entries: seq<LinkEntry>, followed: seq<int>, r: Listed)
    requires r in FollowedLists(p, entries, followed)
    ensures r.depender in followed && 0 <= r.depender < |entries| && r.items in DependLists(p, entries[r.depender])
  {
    hide DependLists;
    var n := |followed| - 1;
    var i := followed[n];
    if r in FollowedLists(p, entries, followed[..n]) {
      FollowedFrom(p, entries, followed[..n], r);
    } else {
      var ls := DependLists(p, entries[i]);
      var k :| 0 <= k < |ls| && Tagged(i, ls)[k] == r;
      assert ls[k] == r.items;
    }
  }

  /** An entry on a processed list is that of an item of the list. */
  lemma {:induction false} LibItem(p: Project, s: Items, l: int, v: int) returns (x: Item)
    requires ListsKnown(p, s) && 0 <= l < |s.lists| && v in s.lists[l].libs
    ensures x in s.lists[l].items && Linkable(p, x) && EntryOf(s, x, v)
  {
    assert ListKnown(p, s.index, s.lists[l]);
    var c := Chosen(p, s.lists[l].items);
    var j :| 0 <= j < |c| && s.lists[l].libs[j] == v;
    x := c[j];
    ChosenExact(p, s.lists[l].items, x);
    LinkableExact(p, x);
  }

  lemma {:induction false} RawAt(p: Project, s: Items, followed: seq<int>, l: int)
    requires ListsFollow(p, s, followed) && 0 <= l < |s.lists|
    ensures var r := Listed(s.lists[l].depender, s.lists[l].items);
      r in Tagged(-1, DirectLists(p)) || r in FollowedLists(p, s.entries, followed)
  {
    assert Raw(s.lists)[l] == Listed(s.lists[l].depender, s.lists[l].items);
  }

  lemma {:induction false} ListingFound(p: Project, s: Items, followed: seq<int>, handled: seq<SharedDepEntry>,
                                        steps: seq<SharedStep>, u: int, v: int)
    requires Explored(p, s, followed, handled, steps) && Listing(s.lists, u, v) && u >= 0
    ensures ListEdge(p, s, u, v)
  {
    var l :| 0 <= l < |s.lists| && s.lists[l].depender == u && v in s.lists[l].libs;
    var x := LibItem(p, s, l, v);
    RawAt(p, s, followed, l);
    var r := Listed(u, s.lists[l].items);
    assert r !in Tagged(-1, DirectLists(p));
    FollowedFrom(p, s.entries, followed, r);
    FollowableExact(p, s.entries, u);
    var ls := DependLists(p, s.entries[u]);
    var n :| 0 <= n < |ls| && ls[n] == r.items;
    hide *;
    ListItem(p, s, u, n, v, x);
  }

  lemma {:induction false} ListItem(p: Project, s: Items, u: int, n: int, v: int, x: Item)
    requires 0 <= u < |s.entries| && ToFollow(p, s.entries[u]) && 0 <= n < |DependLists(p, s.entries[u])|
    requires x in DependLists(p, s.entries[u])[n] && Linkable(p, x) && EntryOf(s, x, v)
    ensures ListEdge(p, s, u, v)
  {
    assert InSome(DependLists(p, s.entries[u]), x);
    hide DependLists, ToFollow, NamedBy, Linkable, EntryOf, InSome;
    NamedByExact(p, s.entries[u], x);
  }

  lemma {:induction false} NamedFound(p: Project, s: Items, followed: seq<int>, handled: seq<SharedDepEntry>,
                                      steps: seq<SharedStep>, u: int, x: Item)
    requires Explored(p, s, followed, handled, steps) && 0 <= u < |s.entries|
    requires NamedBy(p, s.entries[u], x) && Linkable(p, x)
    ensures x in s.index && HasEdge(s.graph, u, s.index[x])
  {
    NamedByExact(p, s.entries[u], x);
    LinkableExact(p, x);
    hide Explored, DependLists, ToFollow, NamedBy, Linkable, Skipped;
    var n :| 0 <= n < |DependLists(p, s.entries[u])| && x in DependLists(p, s.entries[u])[n];
    ListedLibrary(p, s, followed, handled, steps, u, n, x);
  }

  lemma {:induction false} DirectFound(p: Project, s: Items, followed: seq<int>, handled: seq<SharedDepEntry>,
                                       steps: seq<SharedStep>, x: Item)
    requires Explored(p, s, followed, handled, steps) && NamedDirectly(p, x) && Linkable(p, x)
    ensures x in s.index && s.index[x] in s.original
  {
    var i := p.implementation;
    NamedExact(i.libraries, i.languages, i.languageRuntimeLibraries, x);
    LinkableExact(p, x);
    hide Explored, Linkable, Skipped, Named, RuntimeLists;
    var n :| 0 <= n < |DirectLists(p)| && x in DirectLists(p)[n];
    DirectLibrary(p, s, followed, handled, steps, n, x);
  }

  lemma {:induction false} OriginalList(lists: seq<ItemList>, i: int) returns (l: int)
    requires i in OriginalOf(lists)
    ensures 0 <= l < |lists| && lists[l].depender < 0 && i in lists[l].libs
  {
    var n := |lists| - 1;
    if i in OriginalOf(lists[..n]) {
      l := OriginalList(lists[..n], i);
    } else {
      l := n;
    }
  }

  lemma {:induction false} OriginalNamed(p: Project, s: Items, followed: seq<int>, handled: seq<SharedDepEntry>,
                                         steps: seq<SharedStep>, v: int)
    requires Explored(p, s, followed, handled, steps) && v in s.original
    ensures exists x :: NamedDirectly(p, x) && Linkable(p, x) && EntryOf(s, x, v)
  {
    var l := OriginalList(s.lists, v);
    var x := LibItem(p, s, l, v);
    RawAt(p, s, followed, l);
    var i := p.implementation;
    var r := Listed(s.lists[l].depender, s.lists[l].items);
    if r in FollowedLists(p, s.entries, followed) {
      FollowedFrom(p, s.entries, followed, r);
    }
    var k :| 0 <= k < |DirectLists(p)| && Tagged(-1, DirectLists(p))[k] == r;
    assert InSome(DirectLists(p), x);
    hide Explored, Linkable, RuntimeLists, InSome;
    NamedExact(i.libraries, i.languages, i.languageRuntimeLibraries, x);
    assert NamedDirectly(p, x);
  }

  // ---- shared dependencies ----

  /** Where a queued dependency comes from. */
  lemma {:induction false} QueuedFrom(p: Project, entries: seq<LinkEntry>, steps: seq<SharedStep>, h: SharedDepEntry)
    returns (st: SharedStep)
    requires h in SharedQueued(p, entries, steps)
    ensures st in steps && 0 <= st.index < |entries| && h in StepDeps(p, entries[st.index], st)
  {
    hide StepDeps;
    var n := |steps| - 1;
    if h in SharedQueued(p, entries, steps[..n]) {
      st := QueuedFrom(p, entries, steps[..n], h);
      assert st in steps;
    } else {
      st := steps[n];
    }
  }

  /** What one step asks for. */
  lemma {:induction false} StepAsks(p: Project, e: LinkEntry, st: SharedStep, h: SharedDepEntry)
    ensures h in StepDeps(p, e, st) <==>
      && e.target.Some? && e.target.value in p.interfaces && h.dependerIndex == st.index
      && var i := p.interfaces[e.target.value]; h.item in i.sharedDeps || (st.followInterface && h.item in i.libraries)
  {
    if e.target.Some? && e.target.value in p.interfaces {
      var i := p.interfaces[e.target.value];
      var xs := if st.followInterface then i.libraries + i.sharedDeps else i.sharedDeps;
      assert h.item in xs <==> h.item in i.sharedDeps || (st.followInterface && h.item in i.libraries);
      DepsHave(st.index, xs, h);
    }
  }

  lemma DepsHave(index: int, xs: seq<Item>, h: SharedDepEntry)
    ensures h in Deps(index, xs) <==> h.dependerIndex == index && h.item in xs
  {
    if h.dependerIndex == index && h.item in xs {
      var k :| 0 <= k < |xs| && xs[k] == h.item;
      assert Deps(index, xs)[k] == h;
    }
  }

  /** A step of an entry with dependencies of its own is one without the interface, any other is one with it. */
  lemma {:induction false} StepKind(p: Project, s: Items, followed: seq<int>, handled: seq<SharedDepEntry>,
                                    steps: seq<SharedStep>, st: SharedStep)
    requires Explored(p, s, followed, handled, steps) && st in steps && 0 <= st.index < |s.entries|
    ensures st.followInterface <==> !HasOwnDeps(p, s, st.index)
    ensures st.followInterface ==> exists w :: SharedLink(s, handled, w, st.index)
  {
    FollowableExact(p, s.entries, st.index);
    OwnDepsExact(p, s, st.index);
    if st.followInterface {
      var h :| h in handled && h.item in s.index && s.index[h.item] == st.index;
      assert SharedLink(s, handled, h.dependerIndex, st.index);
      if HasOwnDeps(p, s, st.index) {
        TwoSteps(steps, st, SharedStep(st.index, false));
      }
    }
  }

  lemma TwoSteps(steps: seq<SharedStep>, a: SharedStep, b: SharedStep)
    requires StepsDistinct(steps) && a in steps && b in steps && a.index == b.index
    ensures a == b
  {
  }

  lemma OwnDepsExact(p: Project, s: Items, u: int)
    requires 0 <= u < |s.entries|
    ensures HasOwnDeps(p, s, u) <==> ToFollow(p, s.entries[u]) && HasSharedDeps(p, s.entries[u])
  {
  }

  lemma {:induction false} SharedFound(p: Project, s: Items, followed: seq<int>, handled: seq<SharedDepEntry>,
                                       steps: seq<SharedStep>, u: int, v: int)
    requires Explored(p, s, followed, handled, steps) && SharedLink(s, handled, u, v)
    ensures SharedEdge(p, s, handled, u, v)
  {
    var h :| h in handled && h.dependerIndex == u && h.item in s.index && s.index[h.item] == v;
    var st := QueuedFrom(p, s.entries, steps, h);
    StepAsks(p, s.entries[st.index], st, h);
    StepKind(p, s, followed, handled, steps, st);
    hide Explored, StepDeps, SharedLink, HasOwnDeps;
    assert DependsShared(p, s, handled, u, h.item);
    assert EntryOf(s, h.item, v);
  }

  lemma {:induction false} SomeStep(p: Project, s: Items, followed: seq<int>, handled: seq<SharedDepEntry>,
                                    steps: seq<SharedStep>, u: int, x: Item) returns (st: SharedStep)
    requires Explored(p, s, followed, handled, steps) && DependsShared(p, s, handled, u, x)
    ensures st in steps && st.index == u
  {
    FollowableExact(p, s.entries, u);
    OwnDepsExact(p, s, u);
    if HasOwnDeps(p, s, u) {
      st := SharedStep(u, false);
    } else {
      var w :| SharedLink(s, handled, w, u);
      var h :| h in handled && h.dependerIndex == w && h.item in s.index && s.index[h.item] == u;
      assert Interfaced(p, s, h.item);
      var k :| 0 <= k < |steps| && steps[k].index == u;
      st := steps[k];
    }
  }

  lemma {:induction false} DependsFound(p: Project, s: Items, followed: seq<int>, handled: seq<SharedDepEntry>,
                                        steps: seq<SharedStep>, u: int, x: Item)
    requires Explored(p, s, followed, handled, steps) && DependsShared(p, s, handled, u, x)
    ensures x in s.index && SharedLink(s, handled, u, s.index[x])
  {
    var st := SomeStep(p, s, followed, handled, steps, u, x);
    StepKind(p, s, followed, handled, steps, st);
    var h := SharedDepEntry(x, u);
    StepAsks(p, s.entries[u], st, h);
    var k :| 0 <= k < |steps| && steps[k] == st;
    SharedHas(p, s.entries, steps, k, h);
    assert h in handled;
  }

  // ---- all of it ----

  lemma {:induction false} EdgesAsked(p: Project, s: Items, followed: seq<int>, handled: seq<SharedDepEntry>,
                                      steps: seq<SharedStep>, u: int, v: int)
    requires Explored(p, s, followed, handled, steps)
    ensures HasEdge(s.graph, u, v) <==>
      ListEdge(p, s, u, v) || SharedLink(s, handled, u, v) || InferredEdge(p, s, u, v)
  {
    assert HasEdge(s.graph, u, v) <==> Constraint(p, s, handled, u, v);
    InferredExact(p, s, u, v);
    assert SharedLink(s, handled, u, v) ==> 0 <= u < |s.entries| by {
      if SharedLink(s, handled, u, v) {
        SharedFound(p, s, followed, handled, steps, u, v);
      }
    }
    hide Explored, SharedLink, NamedBy, Linkable, HasEdge, Listing, InferredLink, InferredEdge;
    if Listing(s.lists, u, v) && u >= 0 {
      ListingFound(p, s, followed, handled, steps, u, v);
    }
    if ListEdge(p, s, u, v) {
      var x :| NamedBy(p, s.entries[u], x) && Linkable(p, x) && EntryOf(s, x, v);
      NamedFound(p, s, followed, handled, steps, u, x);
    }
  }

  /** What a complete discovery means for the project. */
  lemma {:induction false} AskedFor(p: Project, s: Items, followed: seq<int>, handled: seq<SharedDepEntry>,
                                    steps: seq<SharedStep>)
    requires Explored(p, s, followed, handled, steps)
    ensures AsAskedFor(p, s, handled)
  {
    hide *;
    forall x | NamedDirectly(p, x) && Linkable(p, x) ensures x in s.index && s.index[x] in s.original {
      DirectFound(p, s, followed, handled, steps, x);
    }
    forall v | v in s.original ensures exists x :: NamedDirectly(p, x) && Linkable(p, x) && EntryOf(s, x, v) {
      OriginalNamed(p, s, followed, handled, steps, v);
    }
    forall u, v ensures HasEdge(s.graph, u, v) <==>
                        ListEdge(p, s, u, v) || SharedLink(s, handled, u, v) || InferredEdge(p, s, u, v)
    {
      EdgesAsked(p, s, followed, handled, steps, u, v);
    }
    forall u, x | 0 <= u < |s.entries| && NamedBy(p, s.entries[u], x) && Linkable(p, x) ensures x in s.index {
      NamedFound(p, s, followed, handled, steps, u, x);
    }
    forall u, x | DependsShared(p, s, handled, u, x) ensures x in s.index {
      DependsFound(p, s, followed, handled, steps, u, x);
    }
    SharedAsked(p, s, followed, handled, steps);
    Together(p, s, handled);
  }

  lemma {:induction false} SharedAsked(p: Project, s: Items, followed: seq<int>, handled: seq<SharedDepEntry>,
                                       steps: seq<SharedStep>)
    requires Explored(p, s, followed, handled, steps)
    ensures forall u, v :: SharedLink(s, handled, u, v) <==> SharedEdge(p, s, handled, u, v)
  {
    hide Explored, SharedLink, DependsShared;
    forall u, v ensures SharedLink(s, handled, u, v) <==> SharedEdge(p, s, handled, u, v) {
      if SharedLink(s, handled, u, v) {
        SharedFound(p, s, followed, handled, steps, u, v);
      }
      if SharedEdge(p, s, handled, u, v) {
        var x :| DependsShared(p, s, handled, u, x) && EntryOf(s, x, v);
        DependsFound(p, s, followed, handled, steps, u, x);
      }
    }
  }

  lemma Together(p: Project, s: Items, handled: seq<SharedDepEntry>)
    requires forall x :: NamedDirectly(p, x) && Linkable(p, x) ==> x in s.index && s.index[x] in s.original
    requires forall v :: v in s.original ==> exists x :: NamedDirectly(p, x) && Linkable(p, x) && EntryOf(s, x, v)
    requires forall u, v :: HasEdge(s.graph, u, v) <==>
      ListEdge(p, s, u, v) || SharedLink(s, handled, u, v) || InferredEdge(p, s, u, v)
    requires forall u, x :: 0 <= u < |s.entries| && NamedBy(p, s.entries[u], x) && Linkable(p, x) ==> x in s.index
    requires forall u, v :: SharedLink(s, handled, u, v) <==> SharedEdge(p, s, handled, u, v)
    requires forall u, x :: DependsShared(p, s, handled, u, x) ==> x in s.index
    ensures AsAskedFor(p, s, handled)
  {
    hide NamedDirectly, Linkable, EntryOf, HasEdge, ListEdge, SharedLink, InferredEdge, NamedBy, SharedEdge,
      DependsShared;
  }

  // ---- what an entry says about its item ----

  /** Each item that has been found has an entry, with what the project says about it. */
  ghost predicate EntriesAsGiven(p: Project, s: Items) {
    forall x :: x in s.index ==> 0 <= s.index[x] < |s.entries| && AsGiven(p, s.entries[s.index[x]], x)
  }

  ghost predicate FlagText(text: string) {
    "-" <= text && !("-l" <= text) && !("-framework" <= text)
  }

  /** The text is kept, and so is the target, unless the item is an object file. An option of the linker came from a
      list, has no target and begins with a dash, but not that of -l or -framework. */
  ghost predicate AsGiven(p: Project, e: LinkEntry, x: Item) {
    var text := if x.TargetItem? then p.targetNames(x.target) else x.text;
    && e.item == text
    && (match e.target
        case None => e.isObject || x.TextItem?
        case Some(t) => !e.isObject && x.TargetItem? && x.target == t)
    && !(e.isObject && e.isSharedDep)
    && (e.isObject ==> x in p.implementation.objects || exists t :: t in p.interfaces && x in p.interfaces[t].objects)
    && (e.isSharedDep ==>
          exists t :: t in p.interfaces && (x in p.interfaces[t].libraries || x in p.interfaces[t].sharedDeps))
    && (e.isFlag <==> x.TextItem? && !e.isObject && !e.isSharedDep && FlagText(text))
  }

  lemma {:induction false} EntriesKept(p: Project, s: Items)
    requires Indexed(p, s)
    ensures EntriesAsGiven(p, s)
  {
    forall x | x in s.index ensures 0 <= s.index[x] < |s.entries| && AsGiven(p, s.entries[s.index[x]], x) {
      assert s.names[s.index[x]] == x;
      GivenKept(p, s.entries[s.index[x]], x);
    }
  }

  lemma GivenKept(p: Project, e: LinkEntry, x: Item)
    requires EntryFor(p, e, x)
    ensures AsGiven(p, e, x)
  {
    var text, library := AsStr(p, x), "-l";
    assert "-" <= text <==> |text| > 0 && text[0] == '-';
    assert library <= text <==> |text| > 1 && text[0] == '-' && text[1] == library[1];
  }

  // ---- flags ----

  /** An item counts as an option of the linker if it begins with a dash, unless that is the dash of -l or of
      -framework. */
  lemma {:induction false} FlagExact(tail: string, c: char)
    ensures c != '-' ==> !LooksLikeFlag([c] + tail)
    ensures c != 'l' && c != 'f' ==> LooksLikeFlag(['-', c] + tail)
    ensures !LooksLikeFlag("-l" + tail) && !LooksLikeFlag("-framework" + tail)
    ensures tail != "" && tail[0] != 'r' ==> LooksLikeFlag("-f" + tail)
    ensures LooksLikeFlag("-") && LooksLikeFlag("-f") && !LooksLikeFlag("")
  {
    var framework := "-framework";
    var plain, dash, f := [c] + tail, ['-', c] + tail, "-f" + tail;
    assert plain[0] == c && dash[0] == '-' && dash[1] == c && f[0] == '-' && f[1] == 'f';
    assert framework[0] == '-' && framework[1] == 'f' && framework[2] == 'r';
    assert ("-framework" + tail)[..|framework|] == framework;
    assert framework <= dash ==> dash[1] == framework[1];
    assert framework <= f ==> f[2] == framework[2];
    assert tail != "" ==> f[2] == tail[0];
  }
}
