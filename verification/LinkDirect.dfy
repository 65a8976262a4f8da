/** What is linked directly: in which order, and where it stands on the line. */
module LinkDirect {
  import opened Collections
  import opened Graphs
  import opened LinkInference
  import opened LinkItems
  import opened LinkSearch
  import opened LinkFound
  import opened LinkMeaning
  import opened LinkLine

  // ---- the original entries ----

  /** The libraries given, and then what the languages need. */
  ghost function Given(p: Project): seq<Item> {
    var i := p.implementation;
    i.libraries + RuntimeOf(i.languages, i.languageRuntimeLibraries)
  }

  ghost function LinkableOf(p: Project, xs: seq<Item>): seq<Item> {
    if |xs| == 0 then [] else (if Linkable(p, xs[0]) then [xs[0]] else []) + LinkableOf(p, xs[1..])
  }

  /** The index numbers the items xs as in ids. */
  ghost predicate Numbered(s: Items, xs: seq<Item>, ids: seq<int>) {
    |xs| == |ids| && forall k :: 0 <= k < |xs| ==> EntryOf(s, xs[k], ids[k])
  }

  /** The original entries are those of the items given, in their order, and as often as they are given. */
  ghost predicate OriginalAsGiven(p: Project, s: Items) {
    Numbered(s, LinkableOf(p, Given(p)), s.original)
  }

  lemma {:induction false} LinkableAppend(p: Project, a: seq<Item>, b: seq<Item>)
    ensures LinkableOf(p, a + b) == LinkableOf(p, a) + LinkableOf(p, b)
  {
    hide Linkable;
    if |a| == 0 {
      assert a + b == b;
    } else {
      var ab, t := a + b, a[1..];
      assert ab[0] == a[0] && ab[1..] == t + b;
      LinkableAppend(p, t, b);
      var first := if Linkable(p, a[0]) then [a[0]] else [];
      Associate(first, LinkableOf(p, t), LinkableOf(p, b));
    }
  }

  lemma {:induction false} ChosenLinkable(p: Project, xs: seq<Item>)
    ensures Chosen(p, xs) == LinkableOf(p, xs)
  {
    if |xs| > 0 {
      var n := |xs| - 1;
      ChosenLinkable(p, xs[..n]);
      LinkableExact(p, xs[n]);
      assert xs == xs[..n] + [xs[n]];
      LinkableAppend(p, xs[..n], [xs[n]]);
      assert LinkableOf(p, [xs[n]]) == if Linkable(p, xs[n]) then [xs[n]] else [] by {
        assert [xs[n]][1..] == [];
      }
    }
  }

  /** What is chosen from several lists. */
  ghost function ChosenAll(p: Project, ls: seq<seq<Item>>): seq<Item> {
    if |ls| == 0 then [] else ChosenAll(p, ls[..|ls| - 1]) + Chosen(p, ls[|ls| - 1])
  }

  lemma {:induction false} ChosenAllAppend(p: Project, ls: seq<seq<Item>>, xs: seq<Item>)
    ensures ChosenAll(p, ls + [xs]) == ChosenAll(p, ls) + LinkableOf(p, xs)
  {
    assert (ls + [xs])[..|ls|] == ls;
    ChosenLinkable(p, xs);
  }

  lemma {:induction false} RuntimeChosen(p: Project, xs: seq<Item>, languages: seq<string>,
                                         runtime: map<string, seq<Item>>)
    ensures ChosenAll(p, [xs] + RuntimeLists(languages, runtime)) == LinkableOf(p, xs + RuntimeOf(languages, runtime))
  {
    hide Chosen, LinkableOf;
    if |languages| == 0 {
      assert [xs] + [] == [] + [xs] && xs + [] == xs;
      ChosenAllAppend(p, [], xs);
    } else {
      var n := |languages| - 1;
      var before, l := languages[..n], languages[n];
      RuntimeChosen(p, xs, before, runtime);
      assert languages == before + [l];
      RuntimeAppend(before, l, runtime);
      if l in runtime {
        Associate([xs], RuntimeLists(before, runtime), [runtime[l]]);
        ChosenAllAppend(p, [xs] + RuntimeLists(before, runtime), runtime[l]);
        Associate(xs, RuntimeOf(before, runtime), runtime[l]);
        LinkableAppend(p, xs + RuntimeOf(before, runtime), runtime[l]);
      } else {
        assert RuntimeLists(languages, runtime) == RuntimeLists(before, runtime);
        assert RuntimeOf(languages, runtime) == RuntimeOf(before, runtime);
      }
    }
  }

  lemma GivenChosen(p: Project)
    ensures ChosenAll(p, DirectLists(p)) == LinkableOf(p, Given(p))
  {
    RuntimeChosen(p, p.implementation.libraries, p.implementation.languages, p.implementation.languageRuntimeLibraries);
  }

  lemma NumberedMore(p: Project, s: Items, xs: seq<Item>, ids: seq<int>, list: ItemList)
    requires Numbered(s, xs, ids) && ListKnown(p, s.index, list)
    ensures Numbered(s, xs + Chosen(p, list.items), ids + list.libs)
  {
  }

  lemma OriginalNext(lists: seq<ItemList>, n: nat)
    requires 0 < n <= |lists|
    ensures OriginalOf(lists[..n]) ==
            OriginalOf(lists[..n - 1]) + if lists[n - 1].depender < 0 then lists[n - 1].libs else []
  {
    assert lists[..n][..n - 1] == lists[..n - 1];
  }

  lemma ChosenNext(p: Project, ls: seq<seq<Item>>, n: nat)
    requires 0 < n <= |ls|
    ensures ChosenAll(p, ls[..n]) == ChosenAll(p, ls[..n - 1]) + Chosen(p, ls[n - 1])
  {
    assert ls[..n][..n - 1] == ls[..n - 1];
  }

  /** The direct lists come first, and only they have original entries. */
  lemma {:induction false} OriginalLists(p: Project, s: Items, followed: seq<int>, n: nat)
    requires ListsKnown(p, s) && ListsFollow(p, s, followed) && n <= |s.lists|
    ensures var ls := DirectLists(p); var d := if n <= |ls| then n else |ls|;
      Numbered(s, ChosenAll(p, ls[..d]), OriginalOf(s.lists[..n]))
  {
    if n > 0 {
      var list, ls := s.lists[n - 1], DirectLists(p);
      assert ListKnown(p, s.index, list);
      ListTag(p, s, followed, n - 1);
      OriginalLists(p, s, followed, n - 1);
      hide *;
      OriginalNext(s.lists, n);
      if n <= |ls| {
        ChosenNext(p, ls, n);
        NumberedMore(p, s, ChosenAll(p, ls[..n - 1]), OriginalOf(s.lists[..n - 1]), list);
      }
    } else {
      assert DirectLists(p)[..0] == [] && s.lists[..0] == [];
    }
  }

  lemma {:induction false} ListTag(p: Project, s: Items, followed: seq<int>, k: nat)
    requires ListsFollow(p, s, followed) && k < |s.lists|
    ensures if k < |DirectLists(p)| then s.lists[k].depender < 0 && s.lists[k].items == DirectLists(p)[k]
            else s.lists[k].depender >= 0
  {
    var r := Raw(s.lists)[k];
    hide DirectLists;
    if k >= |DirectLists(p)| {
      assert r == FollowedLists(p, s.entries, followed)[k - |DirectLists(p)|];
      FollowedFrom(p, s.entries, followed, r);
    }
  }

  lemma {:induction false} OriginalGiven(p: Project, s: Items, followed: seq<int>)
    requires ListsKnown(p, s) && ListsFollow(p, s, followed) && s.original == OriginalOf(s.lists)
    ensures OriginalAsGiven(p, s)
  {
    var n := |s.lists|;
    OriginalLists(p, s, followed, n);
    assert |Raw(s.lists)| == n;
    hide DirectLists, OriginalOf, ChosenAll;
    assert s.lists[..n] == s.lists && DirectLists(p)[..|DirectLists(p)|] == DirectLists(p);
    GivenChosen(p);
  }

  // ---- the front of the line ----

  /** The line begins with the original entries at these places: all but the shared ones that occur again later. */
  ghost predicate FrontOf(original: seq<int>, line: seq<int>, shared: seq<bool>, places: seq<int>) {
    && |places| <= |line| && PlacedIn(original, line, places)
    && forall q :: 0 <= q < |original| ==>
         (q in places <==> !(Shared(shared, original[q]) && ComesAgain(original, line, places, q)))
  }

  ghost predicate PlacedIn(original: seq<int>, line: seq<int>, places: seq<int>) {
    && |places| <= |line|
    && (forall k :: 0 <= k < |places| ==> 0 <= places[k] < |original| && line[k] == original[places[k]])
    && forall j, k :: 0 <= j < k < |places| ==> places[j] < places[k]
  }

  /** The entry is linked directly once more, or it occurs behind the front of the line. */
  ghost predicate ComesAgain(original: seq<int>, line: seq<int>, places: seq<int>, q: int)
    requires 0 <= q < |original| && |places| <= |line|
  {
    original[q] in original[q + 1..] || original[q] in line[|places|..]
  }

  /** The same places one further on. */
  ghost function Moved(places: seq<int>): (r: seq<int>)
    ensures |r| == |places| && forall k :: 0 <= k < |r| ==> r[k] == places[k] + 1
  {
    seq(|places|, k requires 0 <= k < |places| => places[k] + 1)
  }

  lemma MovedHas(places: seq<int>, q: int)
    ensures q in Moved(places) <==> q - 1 in places
  {
    if q - 1 in places {
      var k :| 0 <= k < |places| && places[k] == q - 1;
      assert Moved(places)[k] == q;
    }
  }

  lemma MovedPlaced(a: seq<int>, line: seq<int>, places: seq<int>)
    requires |a| > 0 && PlacedIn(a[1..], line, places)
    ensures PlacedIn(a, line, Moved(places)) && PlacedIn(a, [a[0]] + line, [0] + Moved(places))
  {
  }

  /** Where the elements that remain of a came from. */
  lemma {:induction false} FilteredFrom(a: seq<int>, b: seq<int>, shared: seq<bool>) returns (places: seq<int>)
    ensures |places| == |Filtered(a, b, shared)| && PlacedIn(a, Filtered(a, b, shared), places)
    ensures forall q :: 0 <= q < |a| ==> (q in places <==> !(Shared(shared, a[q]) && a[q] in a[q + 1..] + b))
  {
    places := [];
    if |a| > 0 {
      var rest := FilteredFrom(a[1..], b, shared);
      MovedPlaced(a, Filtered(a[1..], b, shared), rest);
      places := if Shared(shared, a[0]) && a[0] in a[1..] + b then Moved(rest) else [0] + Moved(rest);
      hide PlacedIn, Filtered, Shared, Moved;
      forall q | 0 <= q < |a| ensures q in places <==> !(Shared(shared, a[q]) && a[q] in a[q + 1..] + b) {
        MovedHas(rest, q);
        FirstPlace(rest, q);
        if q > 0 {
          assert a[q] == a[1..][q - 1] && a[q + 1..] == a[1..][q..];
        }
      }
    }
  }

  lemma FirstPlace(rest: seq<int>, q: int)
    ensures q in [0] + Moved(rest) <==> q == 0 || q in Moved(rest)
  {
  }

  /** The filter leaves of an original line and what follows it what the front of the finished line says. */
  lemma {:induction false} FrontFound(original: seq<int>, line: seq<int>, shared: seq<bool>) returns (places: seq<int>)
    requires original <= line
    ensures FrontOf(original, KeepLast(line, shared), shared, places)
  {
    var tail := line[|original|..];
    assert line == original + tail && tail + [] == tail;
    places := FilteredFrom(original, tail, shared);
    KeepLastFiltered(line, shared);
    FilteredSplit(original, tail, [], shared);
    KeepLastFiltered(tail, shared);
    hide Filtered;
    forall x ensures x in KeepLast(tail, shared) <==> x in tail {
      KeepLastSame(tail, shared, x);
    }
    hide KeepLast;
    assert KeepLast(line, shared)[|places|..] == KeepLast(tail, shared);
  }
}
