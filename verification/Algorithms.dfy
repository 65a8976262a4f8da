/** In-place sequence algorithms: removal of indices by rotation, and removal of duplicates. */
module Algorithms {
  import opened Collections

  // ---- what removing indices should give ----

  ghost predicate Increasing(rem: seq<int>) {
    forall j, k :: 0 <= j < k < |rem| ==> rem[j] < rem[k]
  }

  ghost predicate InRange(rem: seq<int>, n: int) {
    forall k :: 0 <= k < |rem| ==> 0 <= rem[k] < n
  }

  /** The elements among the first n whose index is not removed, in their order. */
  ghost function Kept<T>(s: seq<T>, rem: seq<int>, n: nat): seq<T>
    requires n <= |s|
  {
    if n == 0 then [] else Kept(s, rem, n - 1) + (if n - 1 in rem then [] else [s[n - 1]])
  }

  /** The elements at the first c removed indices, in their order. */
  ghost function Removed<T>(s: seq<T>, rem: seq<int>, c: nat): (r: seq<T>)
    requires InRange(rem, |s|) && c <= |rem|
    ensures |r| == c && forall k :: 0 <= k < c ==> r[k] == s[rem[k]]
  {
    seq(c, k requires 0 <= k < c => s[rem[k]])
  }

  /** How many removed indices lie below i. */
  function Below(rem: seq<int>, i: int): nat {
    if |rem| == 0 then 0 else Below(rem[..|rem| - 1], i) + (if rem[|rem| - 1] < i then 1 else 0)
  }

  lemma {:induction false} BelowNext(rem: seq<int>, i: int)
    requires Increasing(rem)
    ensures Below(rem, i + 1) == Below(rem, i) + if i in rem then 1 else 0
  {
    if |rem| > 0 {
      var n := |rem| - 1;
      BelowNext(rem[..n], i);
      assert rem == rem[..n] + [rem[n]];
    }
  }

  lemma {:induction false} BelowNone(rem: seq<int>, i: int)
    requires forall k :: 0 <= k < |rem| ==> i <= rem[k]
    ensures Below(rem, i) == 0
  {
    if |rem| > 0 {
      BelowNone(rem[..|rem| - 1], i);
    }
  }

  lemma {:induction false} KeptLength<T>(s: seq<T>, rem: seq<int>, n: nat)
    requires Increasing(rem) && InRange(rem, |s|) && n <= |s|
    ensures |Kept(s, rem, n)| == n - Below(rem, n)
  {
    if n == 0 {
      BelowNone(rem, 0);
    } else {
      KeptLength(s, rem, n - 1);
      BelowNext(rem, n - 1);
    }
  }

  /** Stability: an element that stays moves forward by the number of elements removed before it. */
  lemma {:induction false} KeptAt<T>(s: seq<T>, rem: seq<int>, n: nat, i: nat)
    requires Increasing(rem) && InRange(rem, |s|) && i < n <= |s| && i !in rem
    ensures 0 <= i - Below(rem, i) < |Kept(s, rem, n)| && Kept(s, rem, n)[i - Below(rem, i)] == s[i]
    decreases n
  {
    KeptLength(s, rem, n - 1);
    if i < n - 1 {
      KeptAt(s, rem, n - 1, i);
    }
  }

  /** Exactly the first c removed indices are below n. */
  ghost predicate Splits(rem: seq<int>, n: int, c: nat) {
    c <= |rem| && forall k :: 0 <= k < |rem| ==> (rem[k] < n <==> k < c)
  }

  lemma SplitsAt(rem: seq<int>, n: int, c: nat)
    requires Increasing(rem) && c < |rem| && rem[c] == n && Splits(rem, n + 1, c + 1)
    ensures n in rem && Splits(rem, n, c)
  {
  }

  /** Nothing is lost: kept and removed elements together are all elements, counted for each value. */
  lemma {:induction false} AllKeptOrRemoved<T>(s: seq<T>, rem: seq<int>, n: nat, c: nat, x: T)
    requires Increasing(rem) && InRange(rem, |s|) && n <= |s| && Splits(rem, n, c)
    ensures c <= |rem| && multiset(Kept(s, rem, n))[x] + multiset(Removed(s, rem, c))[x] == multiset(s[..n])[x]
    decreases n, 1
  {
    if n == 0 {
      NothingSplit(s, rem, c, x);
    } else if 0 < c <= |rem| && rem[c - 1] == n - 1 {
      OneRemoved(s, rem, n, c, x);
    } else {
      OneKept(s, rem, n, c, x);
    }
  }

  lemma {:induction false} NothingSplit<T>(s: seq<T>, rem: seq<int>, c: nat, x: T)
    requires InRange(rem, |s|) && Splits(rem, 0, c)
    ensures c <= |rem| && multiset(Kept(s, rem, 0))[x] + multiset(Removed(s, rem, c))[x] == multiset(s[..0])[x]
  {
    assert |rem| > 0 ==> rem[0] >= 0;
    assert c == 0;
  }

  lemma {:induction false} OneRemoved<T>(s: seq<T>, rem: seq<int>, n: nat, c: nat, x: T)
    requires Increasing(rem) && InRange(rem, |s|) && 0 < n <= |s| && Splits(rem, n, c)
    requires 0 < c <= |rem| && rem[c - 1] == n - 1
    ensures multiset(Kept(s, rem, n))[x] + multiset(Removed(s, rem, c))[x] == multiset(s[..n])[x]
    decreases n, 0
  {
    hide *;
    SplitsAt(rem, n - 1, c - 1);
    AllKeptOrRemoved(s, rem, n - 1, c - 1, x);
    PrefixMore(s, n, x);
    RemovedMore(s, rem, c - 1, x);
    KeptSame(s, rem, n);
  }

  lemma {:induction false} OneKept<T>(s: seq<T>, rem: seq<int>, n: nat, c: nat, x: T)
    requires Increasing(rem) && InRange(rem, |s|) && 0 < n <= |s| && Splits(rem, n, c)
    requires 0 < c <= |rem| ==> rem[c - 1] != n - 1
    ensures c <= |rem| && multiset(Kept(s, rem, n))[x] + multiset(Removed(s, rem, c))[x] == multiset(s[..n])[x]
    decreases n, 0
  {
    assert c <= |rem|;
    hide *;
    NotRemoved(rem, n - 1, c);
    AllKeptOrRemoved(s, rem, n - 1, c, x);
    PrefixMore(s, n, x);
    KeptMore(s, rem, n, x);
  }

  lemma KeptSame<T>(s: seq<T>, rem: seq<int>, n: nat)
    requires 0 < n <= |s| && n - 1 in rem
    ensures Kept(s, rem, n) == Kept(s, rem, n - 1)
  {
  }

  lemma KeptMore<T>(s: seq<T>, rem: seq<int>, n: nat, x: T)
    requires 0 < n <= |s| && n - 1 !in rem
    ensures multiset(Kept(s, rem, n))[x] == multiset(Kept(s, rem, n - 1))[x] + multiset([s[n - 1]])[x]
  {
    CountAppend(Kept(s, rem, n - 1), [s[n - 1]], x);
  }

  lemma PrefixMore<T>(s: seq<T>, n: nat, x: T)
    requires 0 < n <= |s|
    ensures multiset(s[..n])[x] == multiset(s[..n - 1])[x] + multiset([s[n - 1]])[x]
  {
    assert s[..n] == s[..n - 1] + [s[n - 1]];
    CountAppend(s[..n - 1], [s[n - 1]], x);
  }

  lemma RemovedMore<T>(s: seq<T>, rem: seq<int>, c: nat, x: T)
    requires InRange(rem, |s|) && c < |rem|
    ensures multiset(Removed(s, rem, c + 1))[x] == multiset(Removed(s, rem, c))[x] + multiset([s[rem[c]]])[x]
  {
    assert Removed(s, rem, c + 1) == Removed(s, rem, c) + [s[rem[c]]];
    CountAppend(Removed(s, rem, c), [s[rem[c]]], x);
  }

  lemma NotRemoved(rem: seq<int>, n: int, c: nat)
    requires Increasing(rem) && c <= |rem| && (c > 0 ==> rem[c - 1] != n)
    requires Splits(rem, n + 1, c)
    ensures n !in rem && Splits(rem, n, c)
  {
    forall k | 0 <= k < |rem| ensures rem[k] != n {
      if k < c {
        assert rem[k] <= rem[c - 1];
      }
    }
  }

  // ---- rotation ----

  ghost function Rotated<T>(s: seq<T>, first: nat, middle: nat, last: nat): seq<T>
    requires first <= middle <= last <= |s|
  {
    s[..first] + s[middle..last] + s[first..middle] + s[last..]
  }

  /** Exchanges two adjacent stretches of the array; returns where the second begins afterwards. */
  method Rotate<T>(a: array<T>, first: nat, middle: nat, last: nat) returns (r: nat)
    requires first <= middle <= last <= a.Length
    modifies a
    ensures r == first + (last - middle)
    ensures a[..] == Rotated(old(a[..]), first, middle, last)
  {
    ghost var s := a[..];
    var rotated := a[middle..last] + a[first..middle];
    for k := 0 to last - first
      invariant a[..] == Overwritten(s, first, rotated, k)
    {
      OverwriteOne(s, first, rotated, k);
      hide Overwritten;
      ghost var before := a[..];
      a[first + k] := rotated[k];
      assert a[..] == before[first + k := rotated[k]];
    }
    assert rotated[..last - first] == rotated;
    r := first + (last - middle);
  }

  ghost function Overwritten<T>(s: seq<T>, first: nat, t: seq<T>, k: nat): seq<T>
    requires k <= |t| && first + |t| <= |s|
  {
    s[..first] + t[..k] + s[first + k..]
  }

  lemma OverwriteOne<T>(s: seq<T>, first: nat, t: seq<T>, k: nat)
    requires k < |t| && first + |t| <= |s|
    ensures |Overwritten(s, first, t, k)| == |s|
    ensures Overwritten(s, first, t, k)[first + k := t[k]] == Overwritten(s, first, t, k + 1)
  {
  }

  /** Moves the first n elements of a stretch to its end. */
  method RemoveN<T>(a: array<T>, i1: nat, i2: nat, n: nat) returns (r: nat)
    requires i1 + n <= i2 <= a.Length
    modifies a
    ensures r == i2 - n
    ensures a[..] == Rotated(old(a[..]), i1, i1 + n, i2)
  {
    r := Rotate(a, i1, i1 + n, i2);
  }

  // ---- removal of indices ----

  /** The array after c removed indices have been taken up: kept elements, removed ones, and the rest. */
  ghost predicate Gathered<T>(s: seq<T>, now: seq<T>, rem: seq<int>, c: nat, pivot: nat, writer: int) {
    && InRange(rem, |s|) && 0 < c <= |rem| && pivot == rem[c - 1] && writer == pivot - (c - 1) >= 0
    && |now| == |s| && now[..writer] == Kept(s, rem, pivot)
    && now[writer..pivot] == Removed(s, rem, c - 1) && now[pivot..] == s[pivot..]
  }

  lemma {:induction false} KeptRun<T>(s: seq<T>, rem: seq<int>, m: nat, n: nat)
    requires m <= n <= |s| && forall i :: m <= i < n ==> i !in rem
    ensures Kept(s, rem, n) == Kept(s, rem, m) + s[m..n]
    decreases n
  {
    if m < n {
      KeptRun(s, rem, m, n - 1);
      assert s[m..n] == s[m..n - 1] + [s[n - 1]];
    } else {
      assert s[m..n] == [];
    }
  }

  /** Between two neighbouring removed indices everything is kept. */
  lemma KeptBetween<T>(s: seq<T>, rem: seq<int>, c: nat, n: nat)
    requires Increasing(rem) && InRange(rem, |s|) && 0 < c <= |rem| && n <= |s|
    requires rem[c - 1] < n && (c < |rem| ==> n <= rem[c])
    ensures Kept(s, rem, n) == Kept(s, rem, rem[c - 1]) + s[rem[c - 1] + 1..n]
  {
    var m := rem[c - 1];
    forall k | 0 <= k < |rem| ensures rem[k] <= m || n <= rem[k] {
      if k >= c {
        assert rem[c] <= rem[k];
      }
    }
    KeptRun(s, rem, m + 1, n);
    assert m in rem;
    assert Kept(s, rem, m + 1) == Kept(s, rem, m);
  }

  /** Rotating the gathered removed elements up to position n keeps the shape. */
  lemma GatherMore<T>(s: seq<T>, now: seq<T>, after: seq<T>, rem: seq<int>, c: nat, pivot: nat, writer: int, n: nat)
    requires Increasing(rem) && Gathered(s, now, rem, c, pivot, writer) && pivot < n <= |s| &&
      (c < |rem| ==> n <= rem[c])
    requires 0 <= writer && writer + c <= n
    requires after == Rotated(now, writer, writer + c, n)
    ensures |after| == |s| && after[..n - c] == Kept(s, rem, n) && after[n - c..n] == Removed(s, rem, c) &&
      after[n..] == s[n..]
  {
    GatheredParts(s, now, rem, c, pivot, writer, n);
    KeptBetween(s, rem, c, n);
    RemovedOne(s, now, rem, c, pivot, writer);
    var k, r, t := Kept(s, rem, n), Removed(s, rem, c), s[n..];
    assert after == k + r + t;
    assert |k| == n - c && |r| == c;
    ThreeParts(k, r, t, n - c, n);
  }

  lemma GatheredParts<T>(s: seq<T>, now: seq<T>, rem: seq<int>, c: nat, pivot: nat, writer: int, n: nat)
    requires Gathered(s, now, rem, c, pivot, writer) && pivot < n <= |s|
    ensures InRange(rem, |s|) && 0 < c <= |rem| && pivot == rem[c - 1] && writer + c == pivot + 1 && |now| == |s|
    ensures 0 <= writer && now[..writer] == Kept(s, rem, pivot)
    ensures now[pivot + 1..n] == s[pivot + 1..n] && now[n..] == s[n..]
  {
    hide Kept, Removed;
    RestSame(s, now, pivot, pivot + 1, n);
    RestSame(s, now, pivot, n, |s|);
    assert now[n..] == now[n..|s|] && s[n..] == s[n..|s|];
  }

  lemma RestSame<T>(s: seq<T>, now: seq<T>, pivot: nat, i: nat, j: nat)
    requires |s| == |now| && pivot <= i <= j <= |s| && now[pivot..] == s[pivot..]
    ensures now[i..j] == s[i..j]
  {
    forall k | i <= k < j ensures now[k] == s[k] {
      assert now[pivot..][k - pivot] == s[pivot..][k - pivot];
    }
  }

  lemma RemovedOne<T>(s: seq<T>, now: seq<T>, rem: seq<int>, c: nat, pivot: nat, writer: int)
    requires Gathered(s, now, rem, c, pivot, writer) && pivot < |s|
    ensures now[writer..pivot + 1] == Removed(s, rem, c)
  {
    assert now[pivot] == s[pivot] by {
      assert now[pivot..][0] == s[pivot..][0];
    }
    assert now[writer..pivot + 1] == now[writer..pivot] + [s[pivot]];
    assert Removed(s, rem, c - 1) + [s[pivot]] == Removed(s, rem, c);
  }

  lemma ThreeParts<T>(a: seq<T>, b: seq<T>, c: seq<T>, m: nat, n: nat)
    requires m == |a| && n == m + |b|
    ensures var all := a + b + c; all[..m] == a && all[m..n] == b && all[n..] == c
  {
  }

  /** The same for the next removed index, which the stretch then ends with. */
  lemma GatherNext<T>(s: seq<T>, now: seq<T>, after: seq<T>, rem: seq<int>, c: nat, pivot: nat, writer: int)
    requires Increasing(rem) && Gathered(s, now, rem, c, pivot, writer) && c < |rem|
    requires 0 <= writer && writer + c <= rem[c] <= |now| && after == Rotated(now, writer, writer + c, rem[c])
    ensures Gathered(s, after, rem, c + 1, rem[c], rem[c] - c)
  {
    GatheredPlaces(s, now, rem, c, pivot, writer);
    hide Kept, Removed, Rotated;
    GatherMore(s, now, after, rem, c, pivot, writer, rem[c]);
  }

  /** Moves the elements at the given indices behind the others, both in their original order. */
  method RemoveIndices<T>(a: array<T>, rem: seq<int>) returns (r: nat)
    requires Increasing(rem) && InRange(rem, a.Length)
    modifies a
    ensures r == a.Length - |rem|
    ensures a[..] == Kept(old(a[..]), rem, a.Length) + Removed(old(a[..]), rem, |rem|)
    ensures |Kept(old(a[..]), rem, a.Length)| == r && multiset(a[..]) == multiset(old(a[..]))
  {
    if |rem| == 0 {
      NothingRemoved(a[..], rem);
      return a.Length;
    }
    r := RemoveSome(a, rem);
    RemovedPermutes(old(a[..]), rem, a[..]);
  }

  method RemoveSome<T>(a: array<T>, rem: seq<int>) returns (r: nat)
    requires Increasing(rem) && InRange(rem, a.Length) && |rem| > 0
    modifies a
    ensures r == a.Length - |rem|
    ensures a[..] == Kept(old(a[..]), rem, a.Length) + Removed(old(a[..]), rem, |rem|)
    ensures |Kept(old(a[..]), rem, a.Length)| == r
  {
    hide Kept, Removed, Rotated, Gathered, Increasing, InRange;
    ghost var s := a[..];
    FirstGathered(s, rem);
    var writer: nat := rem[0];
    var pivot: nat := writer;
    var prevRem := rem[0];
    var count: nat := 1;
    while writer != a.Length && count < |rem|
      invariant 1 <= count <= |rem| && Gathered(s, a[..], rem, count, pivot, writer) && prevRem == pivot
      invariant writer < a.Length
      decreases |rem| - count
    {
      GatheredPlaces(s, a[..], rem, count, pivot, writer);
      ghost var at := pivot;
      pivot := pivot + (rem[count] - prevRem);
      prevRem := rem[count];
      writer := RemoveRun(a, s, rem, writer, at, pivot, count);
      count := count + 1;
    }
    ghost var now := a[..];
    GatheredPlaces(s, now, rem, count, pivot, writer);
    r := RemoveN(a, writer, a.Length, count);
    GatherLast(s, now, a[..], rem, pivot, writer);
  }

  /** One more removed index reached: the removed elements gathered so far move up to it. */
  method RemoveRun<T>(a: array<T>, ghost s: seq<T>, ghost rem: seq<int>, writer: nat, ghost at: nat, pivot: nat,
                      count: nat)
    returns (writer': nat)
    requires Increasing(rem) && Gathered(s, a[..], rem, count, at, writer) && count < |rem| && pivot == rem[count]
    requires writer + count <= pivot < a.Length
    modifies a
    ensures Gathered(s, a[..], rem, count + 1, pivot, writer') && writer' < a.Length
  {
    hide Kept, Removed, Rotated, Gathered, Increasing, InRange;
    ghost var now := a[..];
    writer' := RemoveN(a, writer, pivot, count);
    GatherNext(s, now, a[..], rem, count, at, writer);
  }

  lemma NothingRemoved<T>(s: seq<T>, rem: seq<int>)
    requires rem == []
    ensures s == Kept(s, rem, |s|) + Removed(s, rem, 0)
    ensures |Kept(s, rem, |s|)| == |s|
  {
    KeptRun(s, rem, 0, |s|);
    assert s[0..|s|] == s;
  }

  /** At the end the gathered elements are rotated behind everything else. */
  lemma GatherLast<T>(s: seq<T>, now: seq<T>, after: seq<T>, rem: seq<int>, pivot: nat, writer: int)
    requires Increasing(rem) && Gathered(s, now, rem, |rem|, pivot, writer)
    requires 0 <= writer && writer + |rem| <= |now| && after == Rotated(now, writer, writer + |rem|, |now|)
    ensures InRange(rem, |s|) && |Kept(s, rem, |s|)| == |s| - |rem| == |now| - |rem|
    ensures after == Kept(s, rem, |s|) + Removed(s, rem, |rem|)
  {
    GatheredPlaces(s, now, rem, |rem|, pivot, writer);
    GatherMore(s, now, after, rem, |rem|, pivot, writer, |s|);
    InTwo(after, |s| - |rem|);
  }

  lemma InTwo<T>(s: seq<T>, m: nat)
    requires m <= |s|
    ensures s == s[..m] + s[m..|s|]
  {
  }

  lemma FirstGathered<T>(s: seq<T>, rem: seq<int>)
    requires Increasing(rem) && InRange(rem, |s|) && |rem| > 0
    ensures 0 <= rem[0] < |s| && Gathered(s, s, rem, 1, rem[0], rem[0])
  {
    KeptRun(s, rem, 0, rem[0]);
    assert s[0..rem[0]] == s[..rem[0]];
  }

  /** The removed elements gathered so far end where the next removed one stands. */
  lemma {:induction false} GatheredPlaces<T>(s: seq<T>, now: seq<T>, rem: seq<int>, c: nat, pivot: nat, writer: int)
    requires Increasing(rem) && Gathered(s, now, rem, c, pivot, writer)
    ensures writer + c == pivot + 1 && 0 <= writer && pivot == rem[c - 1] < |s| == |now| &&
      (c < |rem| ==> pivot < rem[c] < |s|)
    ensures InRange(rem, |s|)
  {
  }

  /** The array has been partitioned stably, and is a permutation of what it was. */
  lemma RemovedPermutes<T>(s: seq<T>, rem: seq<int>, after: seq<T>)
    requires Increasing(rem) && InRange(rem, |s|)
    requires after == Kept(s, rem, |s|) + Removed(s, rem, |rem|)
    ensures multiset(after) == multiset(s)
  {
    forall x ensures multiset(after)[x] == multiset(s)[x] {
      RemovedCounts(s, rem, after, x);
    }
  }

  lemma RemovedCounts<T>(s: seq<T>, rem: seq<int>, after: seq<T>, x: T)
    requires Increasing(rem) && InRange(rem, |s|)
    requires after == Kept(s, rem, |s|) + Removed(s, rem, |rem|)
    ensures multiset(after)[x] == multiset(s)[x]
  {
    assert Splits(rem, |s|, |rem|);
    hide *;
    AllKeptOrRemoved(s, rem, |s|, |rem|, x);
    CountAppend(Kept(s, rem, |s|), Removed(s, rem, |rem|), x);
    assert s[..|s|] == s;
  }

  // ---- removal of duplicates ----

  /** Each value where it occurs first. */
  ghost function FirstOccurrences<T>(s: seq<T>): seq<T> {
    if |s| == 0 then []
    else
      var n := |s| - 1;
      FirstOccurrences(s[..n]) + (if s[n] in s[..n] then [] else [s[n]])
  }

  lemma {:induction false} FirstOccurrencesExact<T>(s: seq<T>)
    ensures |FirstOccurrences(s)| <= |s|
    ensures forall x :: x in FirstOccurrences(s) <==> x in s
    ensures forall j, k :: 0 <= j < k < |FirstOccurrences(s)| ==> FirstOccurrences(s)[j] != FirstOccurrences(s)[k]
  {
    if |s| > 0 {
      var n := |s| - 1;
      FirstOccurrencesExact(s[..n]);
      assert s == s[..n] + [s[n]];
      var r := FirstOccurrences(s[..n]);
      assert forall j :: 0 <= j < |r| ==> r[j] in r;
    }
  }

  method RemoveDuplicates<T(==)>(a: array<T>) returns (result: nat)
    modifies a
    ensures result <= a.Length && a[..result] == FirstOccurrences(old(a[..]))
  {
    var uniq: set<T> := {};
    result := 0;
    var first := 0;
    while first < a.Length
      invariant 0 <= result <= first <= a.Length
      invariant a[..result] == FirstOccurrences(old(a[..first])) && a[first..] == old(a[first..])
      invariant forall x :: x in uniq <==> x in old(a[..first])
    {
      assert old(a[..first + 1]) == old(a[..first]) + [a[first]] by {
        assert a[first..][0] == old(a[first..])[0];
      }
      assert old(a[..first + 1])[..first] == old(a[..first]);
      ghost var before := a[..];
      if a[first] !in uniq {
        uniq := uniq + {a[first]};
        a[result] := a[first];
        result := result + 1;
        assert a[..result] == before[..result - 1] + [before[first]];
      }
      first := first + 1;
      assert a[first..] == before[first..] == before[first - 1..][1..];
    }
    assert old(a[..a.Length]) == old(a[..]);
  }
}
