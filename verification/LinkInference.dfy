/** Dependencies inferred from the lists in which a library of unknown dependencies occurs. */
module LinkInference {
  import opened Collections

  /** What is known of one item of the link line. */
  datatype LinkEntry = LinkEntry(item: string, target: Option<nat>, isSharedDep: bool, isFlag: bool, isObject: bool)

  /** The sets of items that followed one item in the lists containing it; unused until initialized. */
  datatype DependSetList = DependSetList(initialized: bool, sets: seq<set<int>>)

  /** Neither a target nor a flag: only such items are ever inferred to be depended on. */
  predicate Unknown(entries: seq<LinkEntry>, x: int) {
    0 <= x < |entries| && entries[x].target.None? && !entries[x].isFlag
  }

  /** b occurs somewhere after an occurrence of a. */
  ghost predicate Follows(libs: seq<int>, a: int, b: int) {
    exists i, k :: 0 <= i < k < |libs| && libs[i] == a && libs[k] == b
  }

  /** What processing a list, one item after another, collects for a. */
  function Followers(entries: seq<LinkEntry>, libs: seq<int>, a: int): set<int> {
    if |libs| == 0 then {}
    else
      var n := |libs| - 1;
      if a in libs[..n] && Unknown(entries, libs[n]) && libs[n] != a then Followers(entries, libs[..n], a) + {libs[n]}
      else Followers(entries, libs[..n], a)
  }

  /** The collected set is the set of unknown items after the first occurrence of a. */
  lemma {:induction false} FollowersExact(entries: seq<LinkEntry>, libs: seq<int>, a: int, b: int)
    ensures b in Followers(entries, libs, a) <==> b != a && Unknown(entries, b) && Follows(libs, a, b)
  {
    if |libs| > 0 {
      var n := |libs| - 1;
      var init := libs[..n];
      FollowersExact(entries, init, a, b);
      if Follows(init, a, b) {
        var i, k :| 0 <= i < k < |init| && init[i] == a && init[k] == b;
        assert libs[i] == a && libs[k] == b;
      }
      if libs[n] == b && a in init {
        var i :| 0 <= i < n && init[i] == a;
        assert libs[i] == a && libs[n] == b;
      }
      if Follows(libs, a, b) && libs[n] != b {
        var i, k :| 0 <= i < k < |libs| && libs[i] == a && libs[k] == b;
        assert init[i] == a && init[k] == b;
      }
    }
  }

  lemma {:induction false} FollowersSame(entries: seq<LinkEntry>, more: seq<LinkEntry>, libs: seq<int>, a: int)
    requires entries <= more && forall k :: 0 <= k < |libs| ==> 0 <= libs[k] < |entries|
    ensures Followers(entries, libs, a) == Followers(more, libs, a)
  {
    if |libs| > 0 {
      FollowersSame(entries, more, libs[..|libs| - 1], a);
    }
  }

  lemma {:induction false} FollowersNone(entries: seq<LinkEntry>, libs: seq<int>, a: int)
    requires a !in libs
    ensures Followers(entries, libs, a) == {}
  {
    if |libs| > 0 {
      FollowersNone(entries, libs[..|libs| - 1], a);
    }
  }

  /** The sets for a of all the lists containing a, in the order of the lists. */
  ghost function SetsOf(entries: seq<LinkEntry>, lists: seq<seq<int>>, a: int): seq<set<int>> {
    if |lists| == 0 then []
    else
      var n := |lists| - 1;
      SetsOf(entries, lists[..n], a) + (if a in lists[n] then [Followers(entries, lists[n], a)] else [])
  }

  ghost predicate Bounded(lists: seq<seq<int>>, n: int) {
    forall l, k :: 0 <= l < |lists| && 0 <= k < |lists[l]| ==> 0 <= lists[l][k] < n
  }

  lemma {:induction false} SetsSame(entries: seq<LinkEntry>, more: seq<LinkEntry>, lists: seq<seq<int>>, a: int)
    requires entries <= more && Bounded(lists, |entries|)
    ensures SetsOf(entries, lists, a) == SetsOf(more, lists, a)
  {
    if |lists| > 0 {
      var n := |lists| - 1;
      SetsSame(entries, more, lists[..n], a);
      FollowersSame(entries, more, lists[n], a);
    }
  }

  lemma {:induction false} SetsNone(entries: seq<LinkEntry>, lists: seq<seq<int>>, a: int)
    requires forall l :: 0 <= l < |lists| ==> a !in lists[l]
    ensures SetsOf(entries, lists, a) == []
  {
    if |lists| > 0 {
      SetsNone(entries, lists[..|lists| - 1], a);
    }
  }

  lemma {:induction false} InAllSets(entries: seq<LinkEntry>, lists: seq<seq<int>>, a: int, b: int)
    ensures (forall k :: 0 <= k < |SetsOf(entries, lists, a)| ==> b in SetsOf(entries, lists, a)[k]) <==>
            (forall l :: 0 <= l < |lists| && a in lists[l] ==> b in Followers(entries, lists[l], a))
  {
    if |lists| > 0 {
      var n := |lists| - 1;
      InAllSets(entries, lists[..n], a, b);
      var early := SetsOf(entries, lists[..n], a);
      var all := SetsOf(entries, lists, a);
      assert forall k :: 0 <= k < |early| ==> all[k] == early[k];
      assert a in lists[n] ==> all[|early|] == Followers(entries, lists[n], a);
      assert forall l :: 0 <= l < n ==> lists[l] == lists[..n][l];
    }
  }

  /** The intersection of a nonempty list of sets. */
  function Common(sets: seq<set<int>>): (c: set<int>)
    requires |sets| > 0
    ensures forall b :: b in c <==> forall k :: 0 <= k < |sets| ==> b in sets[k]
  {
    if |sets| == 1 then sets[0]
    else
      var init := sets[..|sets| - 1];
      var last := sets[|sets| - 1];
      assert forall k :: 0 <= k < |init| ==> init[k] == sets[k];
      Common(init) * last
  }

  /** b is inferred for a: in every list that contains a, the unknown item b comes after a. */
  ghost predicate Inferred(entries: seq<LinkEntry>, lists: seq<seq<int>>, a: int, b: int) {
    && b != a && Unknown(entries, b)
    && forall l :: 0 <= l < |lists| && a in lists[l] ==> Follows(lists[l], a, b)
  }

  lemma CommonExact(entries: seq<LinkEntry>, lists: seq<seq<int>>, a: int, b: int)
    requires |SetsOf(entries, lists, a)| > 0
    ensures b in Common(SetsOf(entries, lists, a)) <==> Inferred(entries, lists, a, b)
  {
    InAllSets(entries, lists, a, b);
    forall l | 0 <= l < |lists|
      ensures b in Followers(entries, lists[l], a) <==> b != a && Unknown(entries, b) && Follows(lists[l], a, b)
    {
      FollowersExact(entries, lists[l], a, b);
    }
    if forall l :: 0 <= l < |lists| ==> a !in lists[l] {
      SetsNone(entries, lists, a);
      assert false;
    }
  }

  lemma {:induction false} SetsSome(entries: seq<LinkEntry>, lists: seq<seq<int>>, a: int, l: int)
    requires 0 <= l < |lists| && a in lists[l]
    ensures |SetsOf(entries, lists, a)| > 0
  {
    if l < |lists| - 1 {
      SetsSome(entries, lists[..|lists| - 1], a, l);
    }
  }
}
