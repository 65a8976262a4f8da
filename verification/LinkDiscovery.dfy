/** cmComputeLinkDepends, the discovery half: from link interfaces to the constraint graph. */
module LinkDiscovery {
  import opened Collections
  import opened Graphs
  import opened LinkInference
  import opened LinkItems
  import opened LinkSearch
  import opened LinkShared
  import opened LinkFound
  import opened LinkRequests
  import opened EdgeLists

  class ComputeLinkItems {
    const project: Project
    // The entries and the index of each item.
    var entryList: seq<LinkEntry>
    var linkEntryIndex: map<Item, int>
    // The breadth-first search.
    var bfsQueue: seq<BFSEntry>
    // The second search, over dependencies between shared libraries.
    var sharedDepQueue: seq<SharedDepEntry>
    var sharedDepFollowed: set<int>
    // For each entry, the sets of entries that have followed it in some list.
    var inferredDependSets: seq<DependSetList>
    // What must come after what.
    var entryConstraintGraph: Graph
    // The two parts of the link line that are known beforehand.
    var originalEntries: seq<int>
    var objectEntries: seq<int>

    // Ghost records of what has been done so far.
    ghost var names: seq<Item>
    ghost var lists: seq<ItemList>
    ghost var stored: seq<ItemList>
    ghost var strong: seq<Strong>
    ghost var followed: seq<int>
    ghost var handled: seq<SharedDepEntry>
    ghost var steps: seq<SharedStep>
    ghost var log: Requests

    constructor (p: Project)
      ensures project == p && Valid(p, Now()) && Searching() && Sharing()
      ensures lists == [] && stored == [] && strong == [] && followed == [] && handled == [] && steps == []
      ensures log.asked == []
    {
      project := p;
      entryList, linkEntryIndex, inferredDependSets, entryConstraintGraph := [], map[], [], [];
      bfsQueue, sharedDepQueue, sharedDepFollowed, originalEntries, objectEntries := [], [], {}, [], [];
      names, lists, stored, strong, followed, handled, steps := [], [], [], [], [], [], [];
      log := Requests([], []);
      new;
      hide Valid, SharedKnown, QueueKnown, Logged, ObjectsOf;
      StartValid(project, Now());
      StartQueue(project);
      LogStarts();
      StartShared(project);
    }

    ghost function Now(): Items
      reads this
    {
      Items(entryList, linkEntryIndex, inferredDependSets, entryConstraintGraph, originalEntries, names, lists, stored,
        strong)
    }

    ghost predicate Searching()
      reads this
    {
      && QueueKnown(project, entryList, followed, bfsQueue) && objectEntries == ObjectsOf(entryList)
      && Logged(linkEntryIndex, entryList, log)
    }

    ghost predicate Sharing()
      reads this
    {
      SharedKnown(project, entryList, steps, handled, sharedDepQueue, sharedDepFollowed)
    }

    /** A spot for the item's entry, in all the vectors that have one for each. */
    method AllocateLinkEntry(item: Item, entry: LinkEntry, inferred: bool) returns (index: int)
      modifies `entryList, `linkEntryIndex, `inferredDependSets, `entryConstraintGraph, `names, `log
      ensures Now() == Allocated(old(Now()), item, entry, inferred) && index == |old(entryList)|
      ensures log == LogNew(old(log), item, entry.isObject)
    {
      index := |entryList|;
      linkEntryIndex := linkEntryIndex[item := index];
      entryList := entryList + [entry];
      inferredDependSets := inferredDependSets + [DependSetList(inferred, [])];
      entryConstraintGraph := entryConstraintGraph + [[]];
      names := names + [item];
      log := LogNew(log, item, entry.isObject);
    }

    method AddLinkEntry(item: Item) returns (index: int)
      requires Valid(project, Now()) && Searching() && item in AllItems(project)
      modifies `entryList, `linkEntryIndex, `inferredDependSets, `entryConstraintGraph, `names, `log, `bfsQueue
      ensures Valid(project, Now()) && Searching() && Grows(old(Now()), Now())
      ensures Now() == if item in old(linkEntryIndex) then old(Now())
                       else Allocated(old(Now()), item, NewEntry(project, item),
                         ToInfer(project, NewEntry(project, item)))
      ensures item in linkEntryIndex && index == linkEntryIndex[item]
      ensures old(inferredDependSets) <= inferredDependSets && |old(entryConstraintGraph)| <= |entryConstraintGraph|
      ensures log.asked == old(log).asked + [Request(item, false)]
    {
      hide Valid, Grows, QueueKnown, ToInfer, ToFollow, Followable, AllItems, Logged, ObjectsOf, NewEntry, QueuedEntry;
      if item in linkEntryIndex {
        GrowsSame(Now());
        LoggedAgain(linkEntryIndex, entryList, log, item, false);
        log := LogAgain(log, item, false);
        return linkEntryIndex[item];
      }
      var entry := NewEntry(project, item);
      var known := entry.target.Some? || entry.item in project.libDepends;
      AllocatedValid(project, Now(), item, entry);
      NewEntryKind(project, item);
      LoggedNew(linkEntryIndex, entryList, log, item, entry);
      index := AllocateLinkEntry(item, entry, !known && !entry.isFlag);
      QueuePushed(project, old(entryList), entry, followed, bfsQueue);
      ObjectsMore(old(entryList), entry);
      assert bfsQueue + [] == bfsQueue && objectEntries + [] == objectEntries;
      // Only entries with something to follow are queued.
      if known {
        bfsQueue := bfsQueue + [QueuedEntry(project, entry, index)];
      }
    }

    method AddLinkObject(item: Item)
      requires Valid(project, Now()) && Searching() && item in AllItems(project) && IsObjectItem(project, item)
      modifies `entryList, `linkEntryIndex, `inferredDependSets, `entryConstraintGraph, `names, `log, `objectEntries
      ensures Valid(project, Now()) && Searching() && Grows(old(Now()), Now())
      ensures Now() == if item in old(linkEntryIndex) then old(Now())
                       else Allocated(old(Now()), item, ObjectEntry(project, item), false)
      ensures item in linkEntryIndex && log.asked == old(log).asked + [Request(item, true)]
    {
      hide Valid, Grows, QueueKnown, Followable, AllItems, Logged;
      if item in linkEntryIndex {
        GrowsSame(Now());
        LoggedAgain(linkEntryIndex, entryList, log, item, true);
        log := LogAgain(log, item, true);
        return;
      }
      var entry := ObjectEntry(project, item);
      AllocatedValid(project, Now(), item, entry);
      LoggedNew(linkEntryIndex, entryList, log, item, entry);
      var index := AllocateLinkEntry(item, entry, false);
      QueuePushed(project, old(entryList), entry, followed, bfsQueue);
      ObjectsMore(old(entryList), entry);
      assert bfsQueue + [] == bfsQueue;
      objectEntries := objectEntries + [index];
    }

    method AddLinkObjects(objs: seq<Item>)
      requires Valid(project, Now()) && Searching() && Elements(objs) <= AllItems(project)
      requires forall x :: x in objs ==> IsObjectItem(project, x)
      modifies `entryList, `linkEntryIndex, `inferredDependSets, `entryConstraintGraph, `names, `log, `objectEntries
      ensures Valid(project, Now()) && Searching() && Grows(old(Now()), Now())
      ensures forall x :: x in objs ==> x in linkEntryIndex
      ensures log.asked == old(log).asked + ObjectRequests(objs)
    {
      hide Valid, QueueKnown, AllItems, ObjectsOf, Logged, ObjectEntry, Allocated, IsObjectItem;
      for k := 0 to |objs|
        invariant Valid(project, Now()) && Searching() && Grows(old(Now()), Now())
        invariant forall j :: 0 <= j < k ==> objs[j] in linkEntryIndex
        invariant log.asked == old(log).asked + ObjectRequests(objs)[..k]
      {
        assert objs[k] in Elements(objs);
        AddLinkObject(objs[k]);
      }
    }

    method AddLinkEntries(dependerIndex: int, libs: seq<Item>)
      requires Valid(project, Now()) && Searching() && Elements(libs) <= AllItems(project)
      requires -1 <= dependerIndex < |entryList| && stored == lists && strong == []
      modifies `entryList, `linkEntryIndex, `inferredDependSets, `entryConstraintGraph, `names, `log, `bfsQueue
      modifies `originalEntries, `lists, `stored
      ensures Valid(project, Now()) && Searching() && Grows(old(Now()), Now()) && stored == lists
      ensures Raw(lists) == old(Raw(lists)) + [Listed(dependerIndex, libs)]
      ensures log.asked == old(log).asked + ListRequests(project, libs)
    {
      hide Valid, QueueKnown, AllItems, ObjectsOf, FollowSets, Unknown, Logged, ListRequests, Raw, Grows;
      ListRequestsNone(project, log.asked);
      // For each entry of this list, the entries seen after it.
      var dependSets: map<int, set<int>> := map[];
      OpenedValid(project, Now(), dependerIndex);
      lists := lists + [ItemList(dependerIndex, [], [])];
      NoFollowSets(Now());

      for k := 0 to |libs|
        invariant Valid(project, Now()) && Searching() && Open(Now()) && Grows(old(Now()), Now())
        invariant |lists| == |old(lists)| + 1 && lists[..|old(lists)|] == old(lists) && stored == old(lists)
        invariant lists[|old(lists)|].depender == dependerIndex && lists[|old(lists)|].items == libs[..k]
        invariant FollowSets(Now(), lists[|old(lists)|].libs, dependSets)
        invariant log.asked == old(log).asked + ListRequests(project, libs[..k])
      {
        ghost var s := Now();
        var item := libs[k];
        assert item in Elements(libs);
        ListRequestsMore(project, libs, k, old(log).asked);
        assert libs[..k + 1] == libs[..k] + [item];
        // Neither the target itself nor the empty item gets an entry.
        if AsStr(project, item) == project.name || AsStr(project, item) == "" {
          SkippedNow(project, Now(), item, dependSets);
          lists := lists[|old(lists)| := lists[|old(lists)|].(items := libs[..k + 1])];
          assert Now() == SeenSkipped(s, item);
          GrowsOn(old(Now()), s, Now());
          continue;
        }
        dependSets := AddListed(dependerIndex, item, dependSets);
        GrowsOn(old(Now()), s, Now());
      }
      assert libs[..|libs|] == libs;

      ghost var t := Now();
      StoreSets(dependSets);
      GrowsOn(old(Now()), t, Now());
      RawMore(old(lists), lists, Listed(dependerIndex, libs));
    }

    method StoreSets(dependSets: map<int, set<int>>)
      requires Valid(project, Now()) && Open(Now()) && FollowSets(Now(), lists[|lists| - 1].libs, dependSets)
      modifies `inferredDependSets, `stored
      ensures Valid(project, Now()) && Grows(old(Now()), Now()) && stored == lists
    {
      StoredValid(project, Now(), dependSets);
      inferredDependSets := seq(|inferredDependSets|, a requires 0 <= a < |inferredDependSets| reads this =>
        if a in dependSets
        then inferredDependSets[a].(sets := inferredDependSets[a].sets + [dependSets[a]])
        else inferredDependSets[a]);
      stored := lists;
      hide Valid, FollowSets, Open;
      assert Now() == Stored(old(Now()), dependSets);
    }

    /** One item of the list that is being processed: its entry, its edge, and what it means for the items before it. */
    method AddListed(dependerIndex: int, item: Item, sets: map<int, set<int>>) returns (dependSets: map<int, set<int>>)
      requires Valid(project, Now()) && Searching() && Open(Now()) && item in AllItems(project) &&
        !Skipped(project, item)
      requires lists[|lists| - 1].depender == dependerIndex && -1 <= dependerIndex
      requires FollowSets(Now(), lists[|lists| - 1].libs, sets)
      modifies `entryList, `linkEntryIndex, `inferredDependSets, `entryConstraintGraph, `names, `log, `bfsQueue
      modifies `originalEntries, `lists
      ensures Valid(project, Now()) && Searching() && Open(Now()) && Grows(old(Now()), Now())
      ensures |lists| == |old(lists)| && lists[..|lists| - 1] == old(lists)[..|lists| - 1]
      ensures lists[|lists| - 1].depender == dependerIndex &&
        lists[|lists| - 1].items == old(lists)[|lists| - 1].items + [item]
      ensures FollowSets(Now(), lists[|lists| - 1].libs, dependSets)
      ensures log.asked == old(log).asked + [Request(item, false)]
    {
      hide Valid, QueueKnown, AllItems, ObjectsOf, FollowSets, Skipped, Unknown, Logged, NewEntry, ToInfer, Allocated;
      hide Grows;
      var dependeeIndex := AddLinkEntry(item);
      ghost var before := Now();
      SetsKept(project, old(Now()), before, sets);
      SeenNow(project, before, item, sets);
      GrowsOn(old(Now()), before, SeenItem(before, item, dependeeIndex));

      if dependerIndex >= 0 {
        entryConstraintGraph := entryConstraintGraph[
          dependerIndex := entryConstraintGraph[dependerIndex] + [Edge(dependeeIndex, false, false)]];
      } else {
        // Without a depender the entry belongs to the original line.
        originalEntries := originalEntries + [dependeeIndex];
      }
      lists := SeenItem(before, item, dependeeIndex).lists;
      assert Now() == SeenItem(before, item, dependeeIndex);

      // Every earlier entry of the list is now followed by this one, too.
      dependSets := map a | a in sets ::
        if Unknown(entryList, dependeeIndex) && dependeeIndex != a then sets[a] + {dependeeIndex} else sets[a];
      // The entry itself begins with nothing after it.
      if inferredDependSets[dependeeIndex].initialized && dependeeIndex !in dependSets {
        dependSets := dependSets[dependeeIndex := {}];
      }
      assert dependSets == MoreSets(Now(), sets, dependeeIndex);
    }

    method AddRuntimeEntries(dependerIndex: int, languages: seq<string>, runtime: map<string, seq<Item>>)
      requires Valid(project, Now()) && Searching() && RuntimeItems(runtime) <= AllItems(project)
      requires -1 <= dependerIndex < |entryList| && stored == lists && strong == []
      modifies `entryList, `linkEntryIndex, `inferredDependSets, `entryConstraintGraph, `names, `log, `bfsQueue
      modifies `originalEntries, `lists, `stored
      ensures Valid(project, Now()) && Searching() && Grows(old(Now()), Now()) && stored == lists
      ensures Raw(lists) == old(Raw(lists)) + Tagged(dependerIndex, RuntimeLists(languages, runtime))
      ensures log.asked == old(log).asked + AllRequests(project, RuntimeLists(languages, runtime))
    {
      hide Valid, QueueKnown, AllItems, ObjectsOf, Logged, ListRequests, AllRequests, RuntimeLists, Raw, Tagged;
      RuntimeListsNone(project, dependerIndex, runtime, Raw(lists), log.asked);
      for k := 0 to |languages|
        invariant Valid(project, Now()) && Searching() && Grows(old(Now()), Now()) && stored == lists
        invariant Raw(lists) == old(Raw(lists)) + Tagged(dependerIndex, RuntimeLists(languages[..k], runtime))
        invariant log.asked == old(log).asked + AllRequests(project, RuntimeLists(languages[..k], runtime))
      {
        RuntimeListsMore(project, dependerIndex, languages, runtime, k, old(Raw(lists)), old(log).asked);
        if languages[k] in runtime {
          assert Elements(runtime[languages[k]]) <= RuntimeItems(runtime);
          AddLinkEntries(dependerIndex, runtime[languages[k]]);
        }
      }
      assert languages[..|languages|] == languages;
    }

    method AddDirectLinkEntries()
      requires Valid(project, Now()) && Searching() && lists == [] && stored == [] && strong == [] && log.asked == []
      modifies `entryList, `linkEntryIndex, `inferredDependSets, `entryConstraintGraph, `names, `log, `bfsQueue
      modifies `originalEntries, `lists, `stored, `objectEntries
      ensures log.asked == DirectRequests(project)
      ensures Valid(project, Now()) && Searching() && stored == lists && Grows(old(Now()), Now())
      ensures Raw(lists) == Tagged(-1, DirectLists(project))
      ensures forall x :: x in project.implementation.objects ==> x in linkEntryIndex
    {
      hide Valid, QueueKnown, ObjectsOf, Elements, RuntimeItems, RuntimeLists, Logged, ListRequests, AllRequests;
      var impl := project.implementation;
      assert Raw(lists) == [];
      hide Raw, Tagged;
      AddLinkEntries(-1, impl.libraries);
      AddLinkObjects(impl.objects);
      AddRuntimeEntries(-1, impl.languages, impl.languageRuntimeLibraries);
      var runtime := RuntimeLists(impl.languages, impl.languageRuntimeLibraries);
      TaggedCons(-1, impl.libraries, runtime);
      Associate([], [Listed(-1, impl.libraries)], Tagged(-1, runtime));
    }

    /** The lists and objects of the interface of the target at the given entry. */
    method AddInterfaceEntries(dependerIndex: int, iface: LinkInterface)
      requires Valid(project, Now()) && Searching() && InterfaceItems(iface) <= AllItems(project)
      requires 0 <= dependerIndex < |entryList| && stored == lists && strong == []
      requires forall x :: x in iface.objects ==> IsObjectItem(project, x)
      modifies `entryList, `linkEntryIndex, `inferredDependSets, `entryConstraintGraph, `names, `log, `bfsQueue
      modifies `originalEntries, `lists, `stored, `objectEntries
      ensures Valid(project, Now()) && Searching() && stored == lists && Grows(old(Now()), Now())
      ensures Raw(lists) == old(Raw(lists)) + Tagged(dependerIndex, InterfaceLists(iface))
      ensures forall x :: x in iface.objects ==> x in linkEntryIndex
      ensures log.asked == old(log).asked + InterfaceRequests(project, iface)
    {
      hide Valid, QueueKnown, ObjectsOf, AllItems, Elements, RuntimeItems, Raw, Tagged, RuntimeLists, IsObjectItem;
      hide Logged, ListRequests, AllRequests, ObjectRequests, BlockRequests;
      BlockAdded(project, iface, log.asked);
      AddLinkEntries(dependerIndex, iface.libraries);
      AddLinkObjects(iface.objects);
      AddRuntimeEntries(dependerIndex, iface.languages, iface.languageRuntimeLibraries);
      var runtime := RuntimeLists(iface.languages, iface.languageRuntimeLibraries);
      TaggedCons(dependerIndex, iface.libraries, runtime);
      Associate(old(Raw(lists)), [Listed(dependerIndex, iface.libraries)], Tagged(dependerIndex, runtime));
    }

    method FollowSharedDeps(dependerIndex: int, iface: LinkInterface, followInterface: bool)
      requires Sharing() && 0 <= dependerIndex < |entryList|
      requires InterfaceOf(project, entryList[dependerIndex]) == Some(iface)
      modifies `sharedDepFollowed, `sharedDepQueue, `steps
      ensures Sharing() && old(sharedDepQueue) <= sharedDepQueue &&
        sharedDepFollowed == old(sharedDepFollowed) + {dependerIndex}
      ensures old(dependerIndex in sharedDepFollowed) ==> steps == old(steps) && sharedDepQueue == old(sharedDepQueue)
      ensures old(dependerIndex !in sharedDepFollowed) ==>
        steps == old(steps) + [SharedStep(dependerIndex, followInterface)]
    {
      hide SharedKnown;
      if dependerIndex in sharedDepFollowed {
        AlreadyFollowed(sharedDepFollowed, dependerIndex);
        return;
      }
      ghost var st := SharedStep(dependerIndex, followInterface);
      SharedPushed(project, entryList, steps, handled, sharedDepQueue, sharedDepFollowed, st);
      sharedDepFollowed := sharedDepFollowed + {dependerIndex};
      QueueStep(dependerIndex, iface, followInterface, st);
      steps := steps + [st];
    }

    method QueueStep(dependerIndex: int, iface: LinkInterface, followInterface: bool, ghost st: SharedStep)
      requires 0 <= dependerIndex < |entryList| && st == SharedStep(dependerIndex, followInterface)
      requires InterfaceOf(project, entryList[dependerIndex]) == Some(iface)
      modifies `sharedDepQueue
      ensures sharedDepQueue == old(sharedDepQueue) + StepDeps(project, entryList[dependerIndex], st)
    {
      StepDepsParts(project, entryList[dependerIndex], st, iface);
      ghost var libraries := if followInterface then Deps(dependerIndex, iface.libraries) else [];
      if followInterface {
        QueueSharedDependencies(dependerIndex, iface.libraries);
      }
      assert sharedDepQueue == old(sharedDepQueue) + libraries;
      QueueSharedDependencies(dependerIndex, iface.sharedDeps);
      Associate(old(sharedDepQueue), libraries, Deps(dependerIndex, iface.sharedDeps));
    }

    method QueueSharedDependencies(dependerIndex: int, deps: seq<Item>)
      modifies `sharedDepQueue
      ensures sharedDepQueue == old(sharedDepQueue) + Deps(dependerIndex, deps)
    {
      for k := 0 to |deps|
        invariant sharedDepQueue == old(sharedDepQueue) + Deps(dependerIndex, deps[..k])
      {
        sharedDepQueue := sharedDepQueue + [SharedDepEntry(deps[k], dependerIndex)];
      }
      assert deps[..|deps|] == deps;
    }

    /** The search has gone as far as the entries fs. */
    ghost predicate Searched(fs: seq<int>)
      reads this
    {
      && ListsFollow(project, Now(), fs) && stored == lists && strong == [] && handled == []
      && StepsComplete(project, Now(), fs, [], steps) && StepsSound(project, Now(), fs, [], steps)
      && (forall i :: i in fs ==> 0 <= i < |entryList|) && log.asked == TheRequests(project, entryList, fs, [])
    }

    method FollowLinkEntry(qe: BFSEntry, ghost before: seq<int>)
      requires Valid(project, Now()) && Searching() && Sharing() && Searched(before) && qe.index !in before
      requires 0 <= qe.index < |entryList| && qe == QueuedEntry(project, entryList[qe.index], qe.index)
      requires ToFollow(project, entryList[qe.index])
      modifies `entryList, `linkEntryIndex, `inferredDependSets, `entryConstraintGraph, `names, `log, `bfsQueue
      modifies `originalEntries, `lists, `stored, `objectEntries, `sharedDepFollowed, `sharedDepQueue, `steps
      ensures Valid(project, Now()) && Searching() && Sharing() && Searched(before + [qe.index])
      ensures Grows(old(Now()), Now())
    {
      hide Valid, QueueKnown, ObjectsOf, ListsFollow, StepsComplete, StepsSound, SharedKnown, ToFollow, Logged;
      hide TheRequests, EntryRequests;
      NotStepped(project, Now(), before, qe.index, steps);
      NotFollowed(project, entryList, steps, handled, sharedDepQueue, sharedDepFollowed, qe.index);
      FollowDependencies(qe);
      FollowedOne(project, old(Now()), Now(), before, qe.index);
      StepsFollow(project, old(Now()), Now(), before, qe.index, old(steps));
      RequestsFollow(project, old(entryList), entryList, before, qe.index);
    }

    method FollowDependencies(qe: BFSEntry)
      requires Valid(project, Now()) && Searching() && Sharing() && stored == lists && strong == []
      requires 0 <= qe.index < |entryList| && qe == QueuedEntry(project, entryList[qe.index], qe.index)
      requires ToFollow(project, entryList[qe.index]) && qe.index !in sharedDepFollowed
      modifies `entryList, `linkEntryIndex, `inferredDependSets, `entryConstraintGraph, `names, `log, `bfsQueue
      modifies `originalEntries, `lists, `stored, `objectEntries, `sharedDepFollowed, `sharedDepQueue, `steps
      ensures Valid(project, Now()) && Searching() && Sharing() && Grows(old(Now()), Now()) && stored == lists
      ensures Raw(lists) == old(Raw(lists)) + Tagged(qe.index, DependLists(project, old(entryList)[qe.index]))
      ensures steps ==
        old(steps) + if HasSharedDeps(project, old(entryList)[qe.index]) then [SharedStep(qe.index, false)] else []
      ensures log.asked == old(log).asked + EntryRequests(project, old(entryList)[qe.index])
    {
      hide Valid, QueueKnown, ObjectsOf, AllItems, SharedKnown, InterfaceItems, Logged, ListRequests, InterfaceRequests;
      var dependerIndex := qe.index;
      var entry := entryList[dependerIndex];

      if entry.target.Some? {
        if entry.target.value in project.interfaces {
          // The target says itself what linking to it takes.
          var iface := project.interfaces[entry.target.value];
          InterfaceIn(project, entry.target.value);
          AddInterfaceEntries(dependerIndex, iface);
          SharedGrows(project, old(entryList), entryList, steps, handled, sharedDepQueue, sharedDepFollowed);
          if !project.targetTypes(entry.target.value).InterfaceLibrary? {
            FollowSharedDeps(dependerIndex, iface, false);
          }
        }
      } else {
        // Without a target, or without an interface, only the plain list is known.
        DependIn(project, entry.item);
        AddLinkEntries(dependerIndex, qe.libDepends.value);
        SharedGrows(project, old(entryList), entryList, steps, handled, sharedDepQueue, sharedDepFollowed);
        assert Tagged(dependerIndex, [qe.libDepends.value]) == [Listed(dependerIndex, qe.libDepends.value)];
      }
      assert old(Raw(lists)) + [] == old(Raw(lists)) && old(steps) + [] == old(steps);
      assert old(log).asked + [] == old(log).asked;
    }

    /** Follows entries until none is queued. */
    method Search()
      requires Valid(project, Now()) && Searching() && Sharing() && Searched([]) && followed == []
      modifies `entryList, `linkEntryIndex, `inferredDependSets, `entryConstraintGraph, `names, `log, `bfsQueue
      modifies `originalEntries, `lists, `stored, `objectEntries, `sharedDepFollowed, `sharedDepQueue, `steps, `followed
      ensures Valid(project, Now()) && Searching() && Sharing() && Searched(followed) && bfsQueue == []
      ensures Grows(old(Now()), Now())
    {
      hide Valid, AllItems, ObjectsOf, SharedKnown, Searched, QueueKnown, Logged;
      while |bfsQueue| > 0
        invariant Valid(project, Now()) && Searching() && Sharing() && Searched(followed)
        invariant Grows(old(Now()), Now())
        decreases AllItems(project) - linkEntryIndex.Keys, |bfsQueue|
      {
        SearchOne();
      }
    }

    method SearchOne()
      requires Valid(project, Now()) && Searching() && Sharing() && Searched(followed) && |bfsQueue| > 0
      modifies `entryList, `linkEntryIndex, `inferredDependSets, `entryConstraintGraph, `names, `log, `bfsQueue
      modifies `originalEntries, `lists, `stored, `objectEntries, `sharedDepFollowed, `sharedDepQueue, `steps, `followed
      ensures Valid(project, Now()) && Searching() && Sharing() && Searched(followed) && Grows(old(Now()), Now())
      ensures old(linkEntryIndex).Keys <= linkEntryIndex.Keys <= AllItems(project)
      ensures linkEntryIndex.Keys == old(linkEntryIndex).Keys ==> |bfsQueue| < |old(bfsQueue)|
    {
      hide Valid, AllItems, ObjectsOf, SharedKnown, QueueKnown, Followable, ToFollow;
      hide ListsFollow, StepsComplete, StepsSound, Logged, TheRequests;
      ghost var s, queue, done := Now(), bfsQueue, followed;
      var qe := bfsQueue[0];
      NextNotFollowed(project, entryList, followed, bfsQueue);
      QueuePopped(project, entryList, followed, bfsQueue);
      bfsQueue := bfsQueue[1..];
      followed := followed + [qe.index];
      FollowLinkEntry(qe, done);
      SearchDecreases(project, s, Now(), done, queue, followed, bfsQueue);
    }

    /** The shared dependencies hs have been handled. */
    ghost predicate SharedDone(hs: seq<SharedDepEntry>)
      reads this
    {
      && ListsFollow(project, Now(), followed) && stored == lists && SharedLinked(linkEntryIndex, hs, strong)
      && StepsComplete(project, Now(), followed, hs, steps) && StepsSound(project, Now(), followed, hs, steps)
      && (forall i :: i in followed ==> 0 <= i < |entryList|)
      && log.asked == TheRequests(project, entryList, followed, hs)
    }

    method HandleSharedDependency(dep: SharedDepEntry)
      requires Valid(project, Now()) && Searching() && Sharing() && SharedDone(handled)
      requires dep.item in AllItems(project) && IsSharedDepItem(project, dep.item) &&
        0 <= dep.dependerIndex < |entryList|
      modifies `entryList, `linkEntryIndex, `inferredDependSets, `entryConstraintGraph, `names, `log, `strong
      modifies `sharedDepFollowed, `sharedDepQueue, `steps
      ensures Valid(project, Now()) && Searching() && Sharing() && SharedDone(handled + [dep])
      ensures Grows(old(Now()), Now()) && old(sharedDepQueue) <= sharedDepQueue
      ensures old(sharedDepFollowed) <= sharedDepFollowed
      ensures sharedDepFollowed == old(sharedDepFollowed) ==> sharedDepQueue == old(sharedDepQueue)
    {
      hide Valid, QueueKnown, ObjectsOf, AllItems, ListsFollow, StepsComplete, StepsSound, SharedKnown, SharedLinked;
      hide Logged, TheRequests, IsSharedDepItem, StepDeps;
      var index := LinkSharedDependency(dep);
      var entry := entryList[index];
      if entry.target.Some? && entry.target.value in project.interfaces {
        // What the item's target depends on is queued as well, private dependencies included.
        FollowSharedDeps(index, project.interfaces[entry.target.value], true);
      }
      SharedNext(project, old(Now()), Now(), followed, handled, dep, old(steps), steps, sharedDepQueue,
        sharedDepFollowed);
      RequestsHandle(project, old(entryList), entryList, followed, handled, dep);
    }

    method LinkSharedDependency(dep: SharedDepEntry) returns (index: int)
      requires Valid(project, Now()) && Searching() && Sharing()
      requires dep.item in AllItems(project) && IsSharedDepItem(project, dep.item) &&
        0 <= dep.dependerIndex < |entryList|
      modifies `entryList, `linkEntryIndex, `inferredDependSets, `entryConstraintGraph, `names, `log, `strong
      ensures Valid(project, Now()) && Searching() && Sharing() && Grows(old(Now()), Now())
      ensures dep.item in linkEntryIndex && index == linkEntryIndex[dep.item] && 0 <= index < |entryList|
      ensures strong == old(strong) + [Strong(dep.dependerIndex, index)]
      ensures log.asked == old(log).asked + [Request(dep.item, false)]
    {
      hide Valid, QueueKnown, ObjectsOf, AllItems, SharedKnown, Logged, IsSharedDepItem, SharedDepEntryOf, EntryFor;
      if dep.item !in linkEntryIndex {
        AddSharedEntry(dep.item);
      } else {
        LoggedAgain(linkEntryIndex, entryList, log, dep.item, false);
        log := LogAgain(log, dep.item, false);
      }
      index := linkEntryIndex[dep.item];
      ghost var s := Now();
      EntryAt(project, s, dep.item);

      // A strong edge: it also holds within a cycle.
      LinkedValid(project, s, dep.dependerIndex, index);
      entryConstraintGraph := entryConstraintGraph[
        dep.dependerIndex := entryConstraintGraph[dep.dependerIndex] + [Edge(index, true, false)]];
      strong := strong + [Strong(dep.dependerIndex, index)];
      assert Now() == Linked(s, dep.dependerIndex, index);
    }

    /** An item added only because it is a dependent shared library. */
    method AddSharedEntry(item: Item)
      requires Valid(project, Now()) && Searching() && Sharing() && item in AllItems(project) && item !in linkEntryIndex
      requires IsSharedDepItem(project, item)
      modifies `entryList, `linkEntryIndex, `inferredDependSets, `entryConstraintGraph, `names, `log
      ensures Valid(project, Now()) && Searching() && Sharing() && Grows(old(Now()), Now())
      ensures Now() == Allocated(old(Now()), item, SharedDepEntryOf(project, item), false)
      ensures log.asked == old(log).asked + [Request(item, false)]
    {
      SharedKind(project, item);
      hide Valid, Grows, QueueKnown, AllItems, SharedKnown, ToInfer, ToFollow, ObjectsOf, QueuedEntry, Logged;
      var entry := SharedDepEntryOf(project, item);
      LoggedNew(linkEntryIndex, entryList, log, item, entry);
      AllocatedValid(project, Now(), item, entry);
      var index := AllocateLinkEntry(item, entry, false);
      QueuePushed(project, old(entryList), entry, followed, bfsQueue);
      ObjectsMore(old(entryList), entry);
      SharedGrows(project, old(entryList), entryList, steps, handled, sharedDepQueue, sharedDepFollowed);
      assert bfsQueue + [] == bfsQueue && objectEntries + [] == objectEntries;
    }

    /** Handles shared dependencies until none is queued. */
    method SearchShared()
      requires Valid(project, Now()) && Searching() && Sharing() && SharedDone(handled)
      modifies `entryList, `linkEntryIndex, `inferredDependSets, `entryConstraintGraph, `names, `log, `strong
      modifies `sharedDepFollowed, `sharedDepQueue, `steps, `handled
      ensures Valid(project, Now()) && Searching() && Sharing() && SharedDone(handled) && sharedDepQueue == []
      ensures Grows(old(Now()), Now())
    {
      hide Valid, AllItems, ObjectsOf, SharedKnown, QueueKnown, SharedDone, Logged;
      while |sharedDepQueue| > 0
        invariant Valid(project, Now()) && Searching() && Sharing() && SharedDone(handled)
        invariant Grows(old(Now()), Now())
        decreases AllItems(project) - linkEntryIndex.Keys, Numbers(|entryList|) - sharedDepFollowed, |sharedDepQueue|
      {
        SearchSharedOne();
      }
    }

    method SearchSharedOne()
      requires Valid(project, Now()) && Searching() && Sharing() && SharedDone(handled) && |sharedDepQueue| > 0
      modifies `entryList, `linkEntryIndex, `inferredDependSets, `entryConstraintGraph, `names, `log, `strong
      modifies `sharedDepFollowed, `sharedDepQueue, `steps, `handled
      ensures Valid(project, Now()) && Searching() && Sharing() && SharedDone(handled) && Grows(old(Now()), Now())
      ensures old(linkEntryIndex).Keys <= linkEntryIndex.Keys <= AllItems(project)
      ensures old(sharedDepFollowed) <= sharedDepFollowed <= Numbers(|entryList|)
      ensures linkEntryIndex.Keys == old(linkEntryIndex).Keys ==> |entryList| == |old(entryList)|
      ensures sharedDepFollowed == old(sharedDepFollowed) ==> |sharedDepQueue| < |old(sharedDepQueue)|
    {
      hide Valid, AllItems, ObjectsOf, SharedKnown, QueueKnown, ListsFollow, StepsComplete, StepsSound, SharedLinked;
      hide Logged, TheRequests;
      NextShared(project, entryList, steps, handled, sharedDepQueue, sharedDepFollowed);
      HandleSharedDependency(sharedDepQueue[0]);
      SharedPopped(project, entryList, steps, handled, sharedDepQueue, sharedDepFollowed);
      SharedDecreases(project, old(Now()), Now(), steps, handled, sharedDepQueue, sharedDepFollowed);
      handled := handled + [sharedDepQueue[0]];
      sharedDepQueue := sharedDepQueue[1..];
    }

    /** The possible dependencies of an item, intersected over the lists it occurs in, become strong edges. */
    method InferOne(dependerIndex: int)
      requires Valid(project, Now()) && stored == lists && 0 <= dependerIndex < |entryList|
      modifies `entryConstraintGraph, `strong
      ensures Valid(project, Now()) && old(strong) <= strong
      ensures forall c :: Strong(dependerIndex, c) in strong <==>
                Strong(dependerIndex, c) in old(strong) || InferredLink(project, Now(), dependerIndex, c)
      ensures forall d, c :: d != dependerIndex ==> (Strong(d, c) in strong <==> Strong(d, c) in old(strong))
    {
      hide Valid;
      // With no set, or no need for one, nothing can be inferred.
      InferredAt(project, Now(), dependerIndex);
      var sets := inferredDependSets[dependerIndex];
      if !sets.initialized || |sets.sets| == 0 {
        return;
      }
      // Only what followed the entry in every list is taken for a dependency.
      var common := sets.sets[0];
      for k := 1 to |sets.sets|
        invariant common == Common(sets.sets[..k])
      {
        assert sets.sets[..k + 1][..k] == sets.sets[..k];
        common := common * sets.sets[k];
      }
      assert sets.sets[..|sets.sets|] == sets.sets;
      AddInferred(dependerIndex, common);
      hide Common, InferredLink;
    }

    /** Add the inferred dependencies to the graph, in ascending order. */
    method AddInferred(dependerIndex: int, common: set<int>)
      requires Valid(project, Now()) && 0 <= dependerIndex < |entryList|
      requires forall c :: c in common ==> 0 <= c < |entryList|
      modifies `entryConstraintGraph, `strong
      ensures Valid(project, Now()) && old(strong) <= strong
      ensures forall d, c :: Strong(d, c) in strong <==>
        Strong(d, c) in old(strong) || (d == dependerIndex && c in common)
    {
      hide Valid;
      var rest := common;
      while rest != {}
        invariant rest <= common && Valid(project, Now()) && old(strong) <= strong
        invariant forall d, c ::
          Strong(d, c) in strong <==> Strong(d, c) in old(strong) || (d == dependerIndex && c in common && c !in rest)
        decreases rest
      {
        ghost var x := SomeElement(rest);
        SomeLeast(rest, x);
        var c :| c in rest && forall d :: d in rest ==> c <= d;
        ghost var s := Now();
        SameSize(project, s);
        LinkedValid(project, s, dependerIndex, c);
        entryConstraintGraph := entryConstraintGraph[
          dependerIndex := entryConstraintGraph[dependerIndex] + [Edge(c, true, false)]];
        strong := strong + [Strong(dependerIndex, c)];
        assert Now() == Linked(s, dependerIndex, c);
        rest := rest - {c};
      }
    }

    method InferDependencies()
      requires Valid(project, Now()) && stored == lists
      modifies `entryConstraintGraph, `strong
      ensures Valid(project, Now()) && old(strong) <= strong
      ensures forall d, c :: Strong(d, c) in strong <==>
        Strong(d, c) in old(strong) || InferredLink(project, Now(), d, c)
    {
      hide Valid, ToInfer, Inferred;
      for k := 0 to |entryList|
        invariant Valid(project, Now()) && old(strong) <= strong
        invariant forall d, c {:trigger Strong(d, c)} ::
          Strong(d, c) in strong <==> Strong(d, c) in old(strong) || (d < k && InferredLink(project, Now(), d, c))
      {
        ghost var s := Now();
        InferOne(k);
        forall d, c ensures InferredLink(project, Now(), d, c) == InferredLink(project, s, d, c) {
        }
        hide InferredLink;
      }
    }

    /** Sort the outgoing edges of each node and make them unique. */
    method CleanConstraintGraph()
      modifies `entryConstraintGraph
      ensures |entryConstraintGraph| == |old(entryConstraintGraph)|
      ensures forall u :: 0 <= u < |entryConstraintGraph| ==>
                CleanedFrom(old(entryConstraintGraph)[u], entryConstraintGraph[u])
    {
      for u := 0 to |entryConstraintGraph|
        invariant |entryConstraintGraph| == |old(entryConstraintGraph)|
        invariant forall w :: 0 <= w < u ==> CleanedFrom(old(entryConstraintGraph)[w], entryConstraintGraph[w])
        invariant forall w :: u <= w < |entryConstraintGraph| ==>
          entryConstraintGraph[w] == old(entryConstraintGraph)[w]
      {
        Cleaned(entryConstraintGraph[u]);
        hide OnePerDest, HasDest;
        entryConstraintGraph := entryConstraintGraph[u := UniqueEdges(SortEdges(entryConstraintGraph[u]))];
      }
    }

    /** Everything has been searched, and nothing is left in the queues. */
    ghost predicate AllSearched()
      reads this
    {
      && Valid(project, Now()) && Sharing() && SharedDone(handled) && sharedDepQueue == []
      && followed == Followable(project, entryList) && objectEntries == ObjectsOf(entryList)
      && Logged(linkEntryIndex, entryList, log)
      && forall x :: x in project.implementation.objects ==> x in linkEntryIndex
    }

    method SearchAll()
      requires Valid(project, Now()) && Searching() && Sharing() && lists == [] && stored == [] && strong == []
      requires followed == [] && handled == [] && steps == [] && log.asked == []
      modifies this
      ensures AllSearched()
    {
      hide Valid, ObjectsOf, SharedKnown, Followable, ListsFollow, QueueKnown, StepsComplete, StepsSound, Logged;
      AddDirectLinkEntries();
      SharedGrows(project, old(entryList), entryList, steps, handled, sharedDepQueue, sharedDepFollowed);
      StartSearched(project, Now());
      RequestsBegin(project, entryList);
      Search();
      SearchShared();
      QueueDone(project, entryList, followed);
    }

    /** The discovery: all items that can be found from the target, and the constraints on their order. */
    method Discover()
      requires Valid(project, Now()) && Searching() && Sharing() && lists == [] && stored == [] && strong == []
      requires followed == [] && handled == [] && steps == [] && log.asked == []
      modifies this
      ensures Discovered(project, Now(), followed, handled, steps)
      ensures forall u :: 0 <= u < |entryConstraintGraph| ==> OnePerDest(entryConstraintGraph[u])
      ensures objectEntries == ObjectsOf(entryList)
      ensures forall x :: x in project.implementation.objects ==> x in linkEntryIndex
    {
      SearchAll();
      hide AllSearched, Explored, ObjectsOf, Logged, TheRequests;
      InferAll();
      CleanAll();
      hide ListOrderKept;
      ListOrder(project, Now(), followed, handled, steps, log);
    }

    ghost predicate Constrained()
      reads this
    {
      && Explored(project, Now(), followed, handled, steps) && objectEntries == ObjectsOf(entryList)
      && Logged(linkEntryIndex, entryList, log) && log.asked == TheRequests(project, entryList, followed, handled)
      && forall x :: x in project.implementation.objects ==> x in linkEntryIndex
    }

    method InferAll()
      requires AllSearched()
      modifies `entryConstraintGraph, `strong
      ensures Constrained()
    {
      hide Valid, ObjectsOf, SharedKnown, Followable, ListsFollow, ListsKnown, Indexed, GraphExact, Logged, TheRequests;
      hide StepsComplete, StepsSound, SharedLinked, StepsDistinct;
      ghost var s := Now();
      AllFound(project, s, followed, handled, steps, sharedDepFollowed);
      HandledKnown(s, handled, s.strong);
      ValidParts(project, s);
      InferDependencies();
      ValidParts(project, Now());
      EdgesFound(project, Now(), handled, s.strong);
      GraphChanged(project, s, Now(), followed, handled, steps);
    }

    method CleanAll()
      requires Constrained()
      modifies `entryConstraintGraph
      ensures Constrained()
      ensures forall u :: 0 <= u < |entryConstraintGraph| ==> OnePerDest(entryConstraintGraph[u])
    {
      hide ObjectsOf, GraphExact, Indexed, ListsKnown, ListsFollow, StepsComplete, StepsSound, Logged, TheRequests;
      ghost var s := Now();
      CleanConstraintGraph();
      EdgesCleaned(project, s, Now(), followed, handled, steps);
      hide CleanedFrom;
      GraphChanged(project, s, Now(), followed, handled, steps);
    }
  }

  lemma GrowsSame(s: Items)
    ensures Grows(s, s)
  {
  }

  lemma GrowsOn(s: Items, t: Items, u: Items)
    requires Grows(s, t) && Grows(t, u)
    ensures Grows(s, u)
  {
  }

  lemma NewEntryKind(p: Project, x: Item)
    ensures var e := NewEntry(p, x);
            && (ToFollow(p, e) <==> e.target.Some? || e.item in p.libDepends) && !e.isObject && EntryFor(p, e, x)
            && (ToInfer(p, e) <==> !ToFollow(p, e) && !e.isFlag)
  {
  }

  lemma TaggedCons(depender: int, l: seq<Item>, ls: seq<seq<Item>>)
    ensures Tagged(depender, [l] + ls) == [Listed(depender, l)] + Tagged(depender, ls)
  {
  }

  lemma SharedKind(p: Project, x: Item)
    ensures !ToFollow(p, SharedDepEntryOf(p, x)) && !ToInfer(p, SharedDepEntryOf(p, x))
  {
  }

  lemma NoFollowSets(s: Items)
    requires |s.lists| > 0 && s.lists[|s.lists| - 1].libs == []
    ensures FollowSets(s, s.lists[|s.lists| - 1].libs, map[])
  {
  }

  lemma SkippedNow(p: Project, s: Items, x: Item, sets: map<int, set<int>>)
    requires Valid(p, s) && Open(s) && Skipped(p, x) && FollowSets(s, s.lists[|s.lists| - 1].libs, sets)
    ensures Valid(p, SeenSkipped(s, x)) && Open(SeenSkipped(s, x)) && Grows(s, SeenSkipped(s, x))
    ensures FollowSets(SeenSkipped(s, x), s.lists[|s.lists| - 1].libs, sets)
  {
    SkippedValid(p, s, x);
  }

  lemma SetsKept(p: Project, s: Items, t: Items, sets: map<int, set<int>>)
    requires Valid(p, s) && Open(s) && Grows(s, t) && s.infer <= t.infer && s.lists == t.lists
    requires FollowSets(s, s.lists[|s.lists| - 1].libs, sets)
    ensures FollowSets(t, t.lists[|t.lists| - 1].libs, sets)
  {
    LibsBounded(p, s, s.lists[|s.lists| - 1]);
    FollowSetsGrow(p, s, t, s.lists[|s.lists| - 1].libs, sets);
  }

  lemma SeenNow(p: Project, s: Items, x: Item, sets: map<int, set<int>>)
    requires Valid(p, s) && Open(s) && !Skipped(p, x) && x in s.index
    requires FollowSets(s, s.lists[|s.lists| - 1].libs, sets)
    ensures 0 <= s.index[x] < |s.infer|
    ensures var t := SeenItem(s, x, s.index[x]);
            && Valid(p, t) && Open(t) && Grows(s, t)
            && t.lists[|t.lists| - 1].libs == s.lists[|s.lists| - 1].libs + [s.index[x]]
            && FollowSets(t, t.lists[|t.lists| - 1].libs, MoreSets(t, sets, s.index[x]))
  {
    assert Indexed(p, s);
    hide Valid, Grows, FollowSets;
    SeenValid(p, s, x);
    SeenSets(s, x, sets, s.index[x]);
  }

  lemma SeenSets(s: Items, x: Item, sets: map<int, set<int>>, i: int)
    requires Open(s) && FollowSets(s, s.lists[|s.lists| - 1].libs, sets)
    ensures var t := SeenItem(s, x, i);
            && t.lists[|t.lists| - 1].libs == s.lists[|s.lists| - 1].libs + [i]
            && FollowSets(t, t.lists[|t.lists| - 1].libs, MoreSets(t, sets, i))
  {
    MoreFollowSets(s, s.lists[|s.lists| - 1].libs, sets, i);
    hide Followers, Unknown;
  }

  lemma StartValid(p: Project, s: Items)
    requires s == Items([], map[], [], [], [], [], [], [], [])
    ensures Valid(p, s)
  {
    hide AllItems;
  }

  lemma StartQueue(p: Project)
    ensures QueueKnown(p, [], [], []) && ObjectsOf([]) == []
  {
  }

  lemma StartShared(p: Project)
    ensures SharedKnown(p, [], [], [], [], {})
  {
    assert forall i :: !Stepped([], i);
  }

  lemma RawMore(a: seq<ItemList>, b: seq<ItemList>, l: Listed)
    requires |b| == |a| + 1 && b[..|a|] == a && l == Listed(b[|a|].depender, b[|a|].items)
    ensures Raw(b) == Raw(a) + [l]
  {
    assert forall k :: 0 <= k < |a| ==> b[k] == b[..|a|][k];
  }

  lemma NotFollowed(p: Project, entries: seq<LinkEntry>, steps: seq<SharedStep>, handled: seq<SharedDepEntry>,
                    queue: seq<SharedDepEntry>, followed: set<int>, i: int)
    requires SharedKnown(p, entries, steps, handled, queue, followed) && !Stepped(steps, i)
    ensures i !in followed
  {
  }

  /** The next entry of the queue has not been followed before. */
  lemma NextNotFollowed(p: Project, entries: seq<LinkEntry>, followed: seq<int>, queue: seq<BFSEntry>)
    requires QueueKnown(p, entries, followed, queue) && |queue| > 0
    ensures 0 <= queue[0].index < |entries| && queue[0] == QueuedEntry(p, entries[queue[0].index], queue[0].index)
    ensures queue[0].index !in followed && forall i :: i in followed ==> 0 <= i < |entries|
  {
    FollowableAscending(p, entries);
    var all := Followable(p, entries);
    assert all[|followed|] == queue[0].index;
    assert forall k :: 0 <= k < |followed| ==> all[k] == followed[k];
  }

  lemma NameIndexed(p: Project, s: Items, k: int)
    requires Indexed(p, s) && 0 <= k < |s.names|
    ensures s.names[k] in s.index.Keys && s.index[s.names[k]] == k
  {
  }

  /** If no item has been added, no entry has. */
  lemma KeysSame(p: Project, s: Items, t: Items)
    requires Indexed(p, s) && Indexed(p, t) && Grows(s, t) && s.index.Keys == t.index.Keys
    ensures s.entries == t.entries
  {
    hide EntryFor;
    if |s.entries| < |t.entries| {
      NameIndexed(p, t, |s.names|);
      assert false;
    }
  }

  /** Following an entry adds items or shortens the queue. */
  lemma SearchDecreases(p: Project, s: Items, t: Items, before: seq<int>, queue: seq<BFSEntry>,
                        followed: seq<int>, queue': seq<BFSEntry>)
    requires Valid(p, s) && Valid(p, t) && Grows(s, t) && |followed| == |before| + 1
    requires QueueKnown(p, s.entries, before, queue) && QueueKnown(p, t.entries, followed, queue')
    ensures s.index.Keys <= t.index.Keys <= AllItems(p)
    ensures s.index.Keys == t.index.Keys ==> |queue'| < |queue|
  {
    if s.index.Keys == t.index.Keys {
      KeysSame(p, s, t);
      assert |before + Indices(queue)| == |followed + Indices(queue')|;
    }
  }

  lemma AlreadyFollowed(followed: set<int>, i: int)
    requires i in followed
    ensures followed + {i} == followed
  {
  }

  lemma StepDepsParts(p: Project, e: LinkEntry, st: SharedStep, iface: LinkInterface)
    requires InterfaceOf(p, e) == Some(iface)
    ensures StepDeps(p, e, st) ==
            (if st.followInterface then Deps(st.index, iface.libraries) else []) + Deps(st.index, iface.sharedDeps)
  {
  }

  lemma EntryAt(p: Project, s: Items, x: Item)
    requires Valid(p, s) && x in s.index
    ensures 0 <= s.index[x] < |s.entries| && |s.graph| == |s.entries|
  {
  }

  /** What handling a dependency leaves: it is linked, and its own dependencies are followed. */
  lemma SharedNext(p: Project, s: Items, t: Items, followed: seq<int>, handled: seq<SharedDepEntry>, h: SharedDepEntry,
                   steps: seq<SharedStep>, more: seq<SharedStep>, queue: seq<SharedDepEntry>, stepped: set<int>)
    requires Valid(p, s) && Grows(s, t) && s.lists == t.lists && h.item in t.index
    requires ListsFollow(p, s, followed) && forall i :: i in followed ==> 0 <= i < |s.entries|
    requires SharedLinked(s.index, handled, s.strong) &&
      t.strong == s.strong + [Strong(h.dependerIndex, t.index[h.item])]
    requires StepsComplete(p, s, followed, handled, steps) && StepsSound(p, s, followed, handled, steps)
    requires more == steps || more == steps + [SharedStep(t.index[h.item], true)]
    requires Interfaced(p, t, h.item) ==> t.index[h.item] in stepped
    requires SharedKnown(p, t.entries, more, handled, queue, stepped)
    ensures ListsFollow(p, t, followed) && SharedLinked(t.index, handled + [h], t.strong)
    ensures StepsComplete(p, t, followed, handled + [h], more) && StepsSound(p, t, followed, handled + [h], more)
  {
    hide InterfaceOf, EntryFor, AllItems, SharedQueued, Valid;
    assert Indexed(p, s) by {
      ValidParts(p, s);
    }
    ListsStillFollow(p, s, t, followed);
    SharedLinkedMore(s, t, handled, h);
    hide ListsFollow, SharedLinked;
    StepsHandle(p, s, t, followed, handled, h, steps, more);
  }

  lemma ListsStillFollow(p: Project, s: Items, t: Items, followed: seq<int>)
    requires ListsFollow(p, s, followed) && s.entries <= t.entries && s.lists == t.lists
    requires forall i :: i in followed ==> 0 <= i < |s.entries|
    ensures ListsFollow(p, t, followed)
  {
    assert forall k :: 0 <= k < |followed| ==> followed[k] in followed;
    FollowedListsSame(p, s.entries, t.entries, followed);
  }

  lemma SharedLinkedMore(s: Items, t: Items, handled: seq<SharedDepEntry>, h: SharedDepEntry)
    requires SharedLinked(s.index, handled, s.strong) && Grows(s, t) && h.item in t.index
    requires t.strong == s.strong + [Strong(h.dependerIndex, t.index[h.item])]
    ensures SharedLinked(t.index, handled + [h], t.strong)
    ensures forall g :: g in handled ==> g.item in s.index
  {
  }

  ghost function Numbers(n: nat): (r: set<int>)
    ensures forall i :: i in r <==> 0 <= i < n
  {
    if n == 0 then {} else Numbers(n - 1) + {n - 1}
  }

  lemma NextShared(p: Project, entries: seq<LinkEntry>, steps: seq<SharedStep>, handled: seq<SharedDepEntry>,
                   queue: seq<SharedDepEntry>, followed: set<int>)
    requires SharedKnown(p, entries, steps, handled, queue, followed) && |queue| > 0
    ensures queue[0].item in AllItems(p) && IsSharedDepItem(p, queue[0].item) && 0 <= queue[0].dependerIndex < |entries|
  {
    assert queue[0] in handled + queue;
    SharedFrom(p, entries, steps, queue[0]);
  }

  /** Handling a dependency adds items, or follows an entry, or shortens the queue. */
  lemma SharedDecreases(p: Project, s: Items, t: Items, steps: seq<SharedStep>, handled: seq<SharedDepEntry>,
                        queue: seq<SharedDepEntry>, followed: set<int>)
    requires Valid(p, s) && Valid(p, t) && Grows(s, t)
    requires SharedKnown(p, t.entries, steps, handled, queue, followed)
    ensures s.index.Keys <= t.index.Keys <= AllItems(p) && followed <= Numbers(|t.entries|)
    ensures s.index.Keys == t.index.Keys ==> s.entries == t.entries
  {
    if s.index.Keys == t.index.Keys {
      KeysSame(p, s, t);
    }
  }

  lemma SameSize(p: Project, s: Items)
    requires Valid(p, s)
    ensures |s.graph| == |s.entries| == |s.infer|
  {
  }

  /** The stored sets of an item decide what is inferred for it. */
  lemma InferredAt(p: Project, s: Items, u: int)
    requires Valid(p, s) && s.stored == s.lists && 0 <= u < |s.entries|
    ensures |s.infer| == |s.entries|
    ensures !s.infer[u].initialized || |s.infer[u].sets| == 0 ==> forall v :: !InferredLink(p, s, u, v)
    ensures s.infer[u].initialized && |s.infer[u].sets| > 0 ==>
              forall v :: v in Common(s.infer[u].sets) <==> InferredLink(p, s, u, v)
    ensures s.infer[u].initialized && |s.infer[u].sets| > 0 ==>
              forall v :: v in Common(s.infer[u].sets) ==> 0 <= v < |s.entries|
  {
    hide Indexed, ListsKnown, GraphKnown, ToInfer, AllItems;
    var lists := Libs(s.lists);
    assert s.infer[u].initialized ==> s.infer[u].sets == SetsOf(s.entries, lists, u);
    if !s.infer[u].initialized {
      return;
    }
    forall l | 0 <= l < |lists| && u in lists[l] ensures |s.infer[u].sets| > 0 {
      SetsSome(s.entries, lists, u, l);
    }
    if |s.infer[u].sets| > 0 {
      if forall l :: 0 <= l < |lists| ==> u !in lists[l] {
        SetsNone(s.entries, lists, u);
        assert false;
      }
      forall v ensures v in Common(s.infer[u].sets) <==> Inferred(s.entries, lists, u, v) {
        CommonExact(s.entries, lists, u, v);
      }
    }
  }

  ghost predicate CleanedFrom(before: EdgeList, after: EdgeList) {
    && OnePerDest(after) && (forall v :: HasDest(after, v) <==> HasDest(before, v))
    && (forall e :: e in after ==> e in before)
  }

  // ---- completing the discovery ----

  lemma StartSearched(p: Project, s: Items)
    requires Raw(s.lists) == Tagged(-1, DirectLists(p))
    ensures ListsFollow(p, s, []) && StepsComplete(p, s, [], [], []) && StepsSound(p, s, [], [], [])
    ensures SharedLinked(s.index, [], [])
  {
    assert Tagged(-1, DirectLists(p)) + [] == Tagged(-1, DirectLists(p));
  }

  lemma QueueDone(p: Project, entries: seq<LinkEntry>, followed: seq<int>)
    requires QueueKnown(p, entries, followed, [])
    ensures followed == Followable(p, entries)
  {
    assert followed + [] == followed;
  }

  lemma HasEdgeDest(g: Graph, u: int, v: int)
    ensures HasEdge(g, u, v) <==> 0 <= u < |g| && HasDest(g[u], v)
  {
  }

  lemma EdgesFound(p: Project, s: Items, handled: seq<SharedDepEntry>, shared: seq<Strong>)
    requires Valid(p, s) && SharedLinked(s.index, handled, shared)
    requires forall d, c :: Strong(d, c) in s.strong <==> Strong(d, c) in shared || InferredLink(p, s, d, c)
    ensures GraphExact(p, s, handled)
  {
    forall u, v ensures HasEdge(s.graph, u, v) <==> Constraint(p, s, handled, u, v) {
      HasEdgeDest(s.graph, u, v);
      if 0 <= u < |s.graph| {
        EdgeFound(p, s, u, v);
        SharedLinkExact(s, handled, shared, u, v);
        assert Strong(u, v) in s.strong <==> Strong(u, v) in shared || InferredLink(p, s, u, v);
      }
      hide HasEdge, HasDest, InferredLink, Listing, SharedLink;
    }
    EdgesInRange(p, s);
  }

  lemma EdgeFound(p: Project, s: Items, u: int, v: int)
    requires Valid(p, s) && 0 <= u < |s.graph|
    ensures |s.graph| == |s.entries|
    ensures HasDest(s.graph[u], v) <==> Listing(s.lists, u, v) || Strong(u, v) in s.strong
  {
    hide HasDest, Listing, EdgesOf, StrongOf;
    HasDestAppend(EdgesOf(s.lists, u), StrongOf(s.strong, u), v);
    EdgesExact(s.lists, u, v);
    StrongExact(s.strong, u, v);
  }

  lemma EdgesInRange(p: Project, s: Items)
    requires Valid(p, s)
    ensures WellFormed(s.graph)
  {
    forall u, k | 0 <= u < |s.graph| && 0 <= k < |s.graph[u]| ensures 0 <= s.graph[u][k].dest < |s.graph| {
      var v := s.graph[u][k].dest;
      assert HasDest(s.graph[u], v);
      EdgeFound(p, s, u, v);
      if Listing(s.lists, u, v) {
        var l :| 0 <= l < |s.lists| && s.lists[l].depender == u && v in s.lists[l].libs;
        assert ListKnown(p, s.index, s.lists[l]);
        LibsBounded(p, s, s.lists[l]);
      }
    }
  }

  lemma ValidParts(p: Project, s: Items)
    requires Valid(p, s)
    ensures Indexed(p, s) && ListsKnown(p, s) && s.original == OriginalOf(s.lists) && |s.graph| == |s.entries|
  {
  }

  lemma HandledKnown(s: Items, handled: seq<SharedDepEntry>, strong: seq<Strong>)
    requires SharedLinked(s.index, handled, strong)
    ensures forall h :: h in handled ==> h.item in s.index
  {
  }

  lemma AllFound(p: Project, s: Items, followed: seq<int>, handled: seq<SharedDepEntry>, steps: seq<SharedStep>,
                 stepped: set<int>)
    requires SharedKnown(p, s.entries, steps, handled, [], stepped)
    ensures handled == SharedQueued(p, s.entries, steps) && StepsDistinct(steps)
  {
    assert handled + [] == handled;
  }

  /** Apart from the graph and its strong edges, nothing about the items depends on them. */
  lemma GraphChanged(p: Project, s: Items, t: Items, followed: seq<int>, handled: seq<SharedDepEntry>,
                     steps: seq<SharedStep>)
    requires t == s.(graph := t.graph, strong := t.strong) && |t.graph| == |s.graph|
    ensures Indexed(p, s) ==> Indexed(p, t)
    ensures ListsKnown(p, s) ==> ListsKnown(p, t)
    ensures ListsFollow(p, s, followed) ==> ListsFollow(p, t, followed)
    ensures StepsComplete(p, s, followed, handled, steps) ==> StepsComplete(p, t, followed, handled, steps)
    ensures StepsSound(p, s, followed, handled, steps) ==> StepsSound(p, t, followed, handled, steps)
  {
    hide EntryFor, ListKnown, InterfaceOf, HasSharedDeps, FollowedLists, DirectLists;
    if StepsComplete(p, s, followed, handled, steps) {
      forall h | h in handled && Interfaced(p, t, h.item) ensures Stepped(steps, t.index[h.item]) {
        assert Interfaced(p, s, h.item);
      }
    }
  }

  /** Cleaning the graph does not change which edges there are. */
  lemma EdgesCleaned(p: Project, s: Items, t: Items, followed: seq<int>, handled: seq<SharedDepEntry>,
                     steps: seq<SharedStep>)
    requires Indexed(p, s) && GraphExact(p, s, handled) && t == s.(graph := t.graph) && |t.graph| == |s.graph|
    requires forall u :: 0 <= u < |t.graph| ==> CleanedFrom(s.graph[u], t.graph[u])
    ensures GraphExact(p, t, handled)
  {
    forall u, v ensures HasEdge(t.graph, u, v) <==> HasEdge(s.graph, u, v) {
      HasEdgeDest(t.graph, u, v);
      HasEdgeDest(s.graph, u, v);
    }
    forall u, v ensures Constraint(p, t, handled, u, v) <==> Constraint(p, s, handled, u, v) {
    }
    forall u, k | 0 <= u < |t.graph| && 0 <= k < |t.graph[u]| ensures 0 <= t.graph[u][k].dest < |t.graph| {
      assert t.graph[u][k] in t.graph[u];
      assert t.graph[u][k] in s.graph[u];
    }
  }


}
