/** The conditions of presets: what inheritance should make of them, and what repeated visits do make of them. */
module PresetConditions {
  import opened Collections
  import opened PresetFields

  type Conditions = map<string, Condition>

  function ConditionsOf(presets: Presets): Conditions {
    map k | k in presets :: presets[k].condition
  }

  lemma {:induction false} ConditionUpdated(presets: Presets, k: string, q: Preset)
    requires k in presets
    ensures k in ConditionsOf(presets)
    ensures ConditionsOf(presets[k := q]) == ConditionsOf(presets)[k := q.condition]
    ensures ConditionsOf(presets).Keys == presets.Keys
  {
  }

  /** The condition that is left to evaluate, if any. */
  function Plain(c: Condition): Option<string> {
    if c.Given? then Some(c.expression) else None
  }

  // ---- what a preset's condition should be ----

  /** A preset's own condition counts, also when it is null; otherwise the first that its parents have. */
  ghost function Intended(presets: Presets, k: string, avoid: set<string>): Option<string>
    requires Grounded(presets, k, avoid)
    decreases presets.Keys - avoid, 1
  {
    if presets[k].condition.Unset? then IntendedFrom(presets, k, avoid, |presets[k].inherits|)
    else Plain(presets[k].condition)
  }

  ghost function IntendedFrom(presets: Presets, k: string, avoid: set<string>, n: nat): Option<string>
    requires Grounded(presets, k, avoid) && n <= |presets[k].inherits|
    decreases presets.Keys - avoid, 0, n
  {
    if n == 0 then None
    else Or(IntendedFrom(presets, k, avoid, n - 1), Intended(presets, presets[k].inherits[n - 1], avoid + {k}))
  }

  /** The intended condition does not depend on what is avoided. */
  lemma {:induction false} IntendedSame(presets: Presets, k: string, avoid: set<string>, avoid': set<string>)
    requires Grounded(presets, k, avoid) && avoid' <= avoid
    ensures Grounded(presets, k, avoid') && Intended(presets, k, avoid) == Intended(presets, k, avoid')
    decreases presets.Keys - avoid, 1
  {
    GroundedLess(presets, k, avoid, avoid');
    IntendedFromSame(presets, k, avoid, avoid', |presets[k].inherits|);
  }

  lemma {:induction false} IntendedFromSame(presets: Presets, k: string, avoid: set<string>, avoid': set<string>,
                                            n: nat)
    requires Grounded(presets, k, avoid) && Grounded(presets, k, avoid') && avoid' <= avoid
    requires n <= |presets[k].inherits|
    ensures IntendedFrom(presets, k, avoid, n) == IntendedFrom(presets, k, avoid', n)
    decreases presets.Keys - avoid, 0, n
  {
    if n > 0 {
      IntendedFromSame(presets, k, avoid, avoid', n - 1);
      IntendedSame(presets, presets[k].inherits[n - 1], avoid + {k}, avoid' + {k});
    }
  }

  // ---- what a visit does to the conditions ----

  /** Visiting k visits and merges its parents one after another, and then drops a null condition. */
  ghost function Visit(presets: Presets, c: Conditions, k: string, avoid: set<string>): (c': Conditions)
    requires Grounded(presets, k, avoid) && c.Keys == presets.Keys
    ensures c'.Keys == c.Keys
    decreases presets.Keys - avoid, 1
  {
    var merged := MergeParents(presets, c, k, avoid, |presets[k].inherits|);
    merged[k := DropNull(merged[k])]
  }

  ghost function MergeParents(presets: Presets, c: Conditions, k: string, avoid: set<string>, n: nat): (c': Conditions)
    requires c.Keys == presets.Keys && k in presets && k !in avoid && n <= |presets[k].inherits|
    requires forall i :: 0 <= i < n ==> Grounded(presets, presets[k].inherits[i], avoid + {k})
    ensures c'.Keys == c.Keys
    decreases presets.Keys - avoid, 0, n
  {
    if n == 0 then c
    else
      var p := presets[k].inherits[n - 1];
      var visited := Visit(presets, MergeParents(presets, c, k, avoid, n - 1), p, avoid + {k});
      visited[k := InheritCondition(visited[k], visited[p])]
  }

  ghost predicate AllGroundedIn(presets: Presets, order: seq<string>) {
    forall i :: 0 <= i < |order| ==> Grounded(presets, order[i], {})
  }

  /** The conditions after the first n presets of the order have been visited. */
  ghost function VisitAll(presets: Presets, order: seq<string>, n: nat): (c: Conditions)
    requires n <= |order| && forall i :: 0 <= i < n ==> Grounded(presets, order[i], {})
    ensures c.Keys == presets.Keys
  {
    if n == 0 then ConditionsOf(presets) else Visit(presets, VisitAll(presets, order, n - 1), order[n - 1], {})
  }

  lemma {:induction false} GroundedHere(presets: Presets, k: string, avoid: set<string>)
    requires Grounded(presets, k, avoid)
    ensures k in presets && k !in avoid
    ensures forall i :: 0 <= i < |presets[k].inherits| ==> Grounded(presets, presets[k].inherits[i], avoid + {k})
  {
  }

  lemma {:induction false} VisitIs(presets: Presets, c: Conditions, k: string, avoid: set<string>)
    requires k in presets && k !in avoid && c.Keys == presets.Keys
    requires forall i :: 0 <= i < |presets[k].inherits| ==> Grounded(presets, presets[k].inherits[i], avoid + {k})
    ensures Grounded(presets, k, avoid)
    ensures var merged := MergeParents(presets, c, k, avoid, |presets[k].inherits|);
      Visit(presets, c, k, avoid) == merged[k := DropNull(merged[k])]
  {
  }

  lemma {:induction false} MergeMore(presets: Presets, c: Conditions, k: string, avoid: set<string>, n: nat)
    requires c.Keys == presets.Keys && k in presets && k !in avoid && n < |presets[k].inherits|
    requires forall i :: 0 <= i < n ==> Grounded(presets, presets[k].inherits[i], avoid + {k})
    requires Grounded(presets, presets[k].inherits[n], avoid + {k})
    ensures forall i :: 0 <= i < n + 1 ==> Grounded(presets, presets[k].inherits[i], avoid + {k})
    ensures presets[k].inherits[n] in presets
    ensures var p, visited := presets[k].inherits[n],
          Visit(presets, MergeParents(presets, c, k, avoid, n), presets[k].inherits[n], avoid + {k});
      MergeParents(presets, c, k, avoid, n + 1) == visited[k := InheritCondition(visited[k], visited[p])]
  {
  }

  /** The last parent is visited on the longer path, and then merged. */
  lemma {:induction false} MergeUnfolds(presets: Presets, c: Conditions, k: string, avoid: set<string>, n: nat)
    requires Grounded(presets, k, avoid) && c.Keys == presets.Keys && 0 < n <= |presets[k].inherits|
    ensures k in presets && k !in avoid && presets.Keys - (avoid + {k}) < presets.Keys - avoid
    ensures var p, before := presets[k].inherits[n - 1], MergeParents(presets, c, k, avoid, n - 1);
      Grounded(presets, p, avoid + {k}) && p in presets && before.Keys == presets.Keys &&
      var visited := Visit(presets, before, p, avoid + {k});
      MergeParents(presets, c, k, avoid, n) == visited[k := InheritCondition(visited[k], visited[p])]
  {
    assert k in presets.Keys - avoid && k !in presets.Keys - (avoid + {k});
  }

  /** A visit changes only presets outside the path, and of those k and parents of some preset. */
  lemma {:induction false} VisitFrame(presets: Presets, c: Conditions, k: string, avoid: set<string>, j: string)
    requires Grounded(presets, k, avoid) && c.Keys == presets.Keys && j in presets
    requires j in avoid || (j != k && !HasChild(presets, j))
    ensures Visit(presets, c, k, avoid)[j] == c[j]
    decreases presets.Keys - avoid, 1
  {
    MergeFrame(presets, c, k, avoid, |presets[k].inherits|, j);
  }

  lemma {:induction false} MergeFrame(presets: Presets, c: Conditions, k: string, avoid: set<string>, n: nat, j: string)
    requires Grounded(presets, k, avoid) && c.Keys == presets.Keys && n <= |presets[k].inherits| && j in presets
    requires j in avoid || (j != k && !HasChild(presets, j))
    ensures MergeParents(presets, c, k, avoid, n)[j] == c[j]
    decreases presets.Keys - avoid, 0, n, 1
  {
    if n > 0 {
      MergeFrameNext(presets, c, k, avoid, n, j);
    }
  }

  lemma {:induction false} MergeFrameNext(presets: Presets, c: Conditions, k: string, avoid: set<string>, n: nat,
                                          j: string)
    requires Grounded(presets, k, avoid) && c.Keys == presets.Keys && 0 < n <= |presets[k].inherits| && j in presets
    requires j in avoid || (j != k && !HasChild(presets, j))
    ensures MergeParents(presets, c, k, avoid, n)[j] == c[j]
    decreases presets.Keys - avoid, 0, n, 0
  {
    hide *;
    GroundedHere(presets, k, avoid);
    MergeUnfolds(presets, c, k, avoid, n);
    var p, before := presets[k].inherits[n - 1], MergeParents(presets, c, k, avoid, n - 1);
    var visited := Visit(presets, before, p, avoid + {k});
    MergeFrame(presets, c, k, avoid, n - 1, j);
    ChildOf(presets, k, n - 1);
    VisitFrame(presets, before, p, avoid + {k}, j);
    assert visited[j] == before[j];
  }

  lemma {:induction false} ChildOf(presets: Presets, k: string, i: nat)
    requires k in presets && i < |presets[k].inherits|
    ensures HasChild(presets, presets[k].inherits[i])
  {
    assert IsChild(presets, k, presets[k].inherits[i]);
  }

  ghost predicate IsChild(presets: Presets, k: string, p: string) {
    k in presets && p in presets[k].inherits
  }

  ghost predicate HasChild(presets: Presets, p: string) {
    exists k :: IsChild(presets, k, p)
  }

  // ---- the course of a preset's condition ----

  ghost predicate Untouched(presets: Presets, c: Conditions, j: string) {
    j in c && j in presets && c[j] == presets[j].condition
  }

  /** Once visited, no null is left, and a condition that should be there is there. */
  ghost predicate Seen(presets: Presets, c: Conditions, j: string) {
    && j in c && Grounded(presets, j, {}) && !c[j].Null?
    && (presets[j].condition.Given? ==> c[j] == presets[j].condition)
    && (Intended(presets, j, {}).Some? ==> c[j].Given?)
  }

  /** Once visited again, a null condition has not kept away the condition of a parent. */
  ghost predicate SeenAgain(presets: Presets, c: Conditions, j: string) {
    && Seen(presets, c, j)
    && (presets[j].condition.Null? && ParentConditioned(presets, j, |presets[j].inherits|) ==> c[j].Given?)
  }

  /** One of the first n parents should have a condition. */
  ghost predicate ParentConditioned(presets: Presets, j: string, n: nat)
    requires j in presets && n <= |presets[j].inherits|
  {
    exists i :: 0 <= i < n && Conditioned(presets, presets[j].inherits[i])
  }

  ghost predicate Conditioned(presets: Presets, p: string) {
    Grounded(presets, p, {}) && Intended(presets, p, {}).Some?
  }

  ghost predicate Sane(presets: Presets, c: Conditions) {
    c.Keys == presets.Keys && forall j :: j in presets ==> Untouched(presets, c, j) || Seen(presets, c, j)
  }

  lemma {:induction false} SaneKeys(presets: Presets, c: Conditions)
    requires Sane(presets, c)
    ensures c.Keys == presets.Keys
  {
  }

  /** Nothing that has been reached is lost. */
  ghost predicate Keeps(presets: Presets, c: Conditions, c': Conditions) {
    && Sane(presets, c')
    && (forall j :: Seen(presets, c, j) ==> Seen(presets, c', j))
    && (forall j :: SeenAgain(presets, c, j) ==> SeenAgain(presets, c', j))
  }

  /** p has been visited, and if it had been visited before, then again. */
  ghost predicate Reached(presets: Presets, c: Conditions, c': Conditions, p: string) {
    Seen(presets, c', p) && (Seen(presets, c, p) ==> SeenAgain(presets, c', p))
  }

  /** What merging n parents makes of the child's own condition. */
  ghost predicate MergedCondition(presets: Presets, before: Condition, now: Condition, k: string, n: nat)
    requires k in presets && n <= |presets[k].inherits|
  {
    && (!before.Unset? ==> now == before) && (before.Unset? ==> !now.Null?)
    && (before.Unset? && ParentConditioned(presets, k, n) ==> now.Given?)
  }

  lemma {:induction false} IntendedParent(presets: Presets, k: string, avoid: set<string>, i: nat)
    requires Grounded(presets, k, avoid) && i < |presets[k].inherits|
    ensures var p := presets[k].inherits[i];
      Grounded(presets, p, {}) && Intended(presets, p, avoid + {k}) == Intended(presets, p, {})
  {
    IntendedSame(presets, presets[k].inherits[i], avoid + {k}, {});
  }

  /** The parents provide a condition iff one of them should have one. */
  lemma {:induction false} IntendedFromParents(presets: Presets, k: string, n: nat)
    requires Grounded(presets, k, {}) && n <= |presets[k].inherits|
    ensures IntendedFrom(presets, k, {}, n).Some? <==> ParentConditioned(presets, k, n)
  {
    if n > 0 {
      IntendedFromParents(presets, k, n - 1);
      IntendedParent(presets, k, {}, n - 1);
      assert Conditioned(presets, presets[k].inherits[n - 1]) <==>
             Intended(presets, presets[k].inherits[n - 1], {} + {k}).Some?;
      if ParentConditioned(presets, k, n) {
        var i :| 0 <= i < n && Conditioned(presets, presets[k].inherits[i]);
        assert i == n - 1 || ParentConditioned(presets, k, n - 1);
      }
    }
  }

  lemma {:induction false} SameAt(presets: Presets, c: Conditions, next: Conditions, j: string)
    requires j in c && j in next && c[j] == next[j]
    ensures Untouched(presets, next, j) <==> Untouched(presets, c, j)
    ensures Seen(presets, next, j) <==> Seen(presets, c, j)
    ensures SeenAgain(presets, next, j) <==> SeenAgain(presets, c, j)
  {
    hide Grounded, Intended, ParentConditioned;
  }

  /** A change of k's condition that loses nothing at k loses nothing. */
  lemma {:induction false} KeepsAt(presets: Presets, c: Conditions, k: string, now: Condition)
    requires Sane(presets, c) && k in c
    requires Untouched(presets, c[k := now], k) || Seen(presets, c[k := now], k)
    requires Seen(presets, c, k) ==> Seen(presets, c[k := now], k)
    requires SeenAgain(presets, c, k) ==> SeenAgain(presets, c[k := now], k)
    ensures Keeps(presets, c, c[k := now])
  {
    hide Untouched, SeenAgain;
    var next := c[k := now];
    assert next.Keys == c.Keys;
    forall j | j in c && j != k
      ensures Untouched(presets, next, j) <==> Untouched(presets, c, j)
      ensures Seen(presets, next, j) <==> Seen(presets, c, j)
      ensures SeenAgain(presets, next, j) <==> SeenAgain(presets, c, j)
    {
      SameAt(presets, c, next, j);
    }
    forall j | SeenAgain(presets, c, j) ensures j in c {
      SeenBefore(presets, c, j);
    }
  }

  lemma {:induction false} SeenBefore(presets: Presets, c: Conditions, j: string)
    requires SeenAgain(presets, c, j)
    ensures j in c && Seen(presets, c, j)
  {
  }

  /** Merging a visited parent into k. */
  lemma {:induction false} InheritStep(presets: Presets, c: Conditions, k: string, p: string)
    requires Sane(presets, c) && Seen(presets, c, p) && Grounded(presets, k, {})
    ensures Keeps(presets, c, c[k := InheritCondition(c[k], c[p])])
  {
    assert k in c;
    hide Grounded, Intended, ParentConditioned, Keeps;
    var now := InheritCondition(c[k], c[p]);
    assert Untouched(presets, c, k) || Seen(presets, c, k);
    KeepsAt(presets, c, k, now);
  }

  /** Dropping the null ends the visit. */
  lemma {:induction false} NullDropped(presets: Presets, c: Conditions, merged: Conditions, k: string)
    requires Grounded(presets, k, {}) && Sane(presets, c) && Keeps(presets, c, merged)
    requires MergedCondition(presets, c[k], merged[k], k, |presets[k].inherits|)
    ensures Keeps(presets, merged, merged[k := DropNull(merged[k])])
    ensures Reached(presets, c, merged[k := DropNull(merged[k])], k)
  {
    IntendedFromParents(presets, k, |presets[k].inherits|);
    var now := DropNull(merged[k]);
    assert Untouched(presets, c, k) || Seen(presets, c, k);
    assert Untouched(presets, merged, k) || Seen(presets, merged, k);
    assert Intended(presets, k, {}) == (if presets[k].condition.Unset? then IntendedFrom(presets, k, {},
      |presets[k].inherits|) else Plain(presets[k].condition));
    hide Grounded, Intended, IntendedFrom, ParentConditioned, Keeps;
    assert Seen(presets, merged[k := now], k);
    KeepsAt(presets, merged, k, now);
  }

  lemma {:induction false} KeepsTrans(presets: Presets, a: Conditions, b: Conditions, c: Conditions)
    requires Keeps(presets, a, b) && Keeps(presets, b, c)
    ensures Keeps(presets, a, c)
  {
    hide Seen, SeenAgain, Sane;
  }

  lemma {:induction false} StaysReached(presets: Presets, c: Conditions, now: Conditions, next: Conditions, p: string)
    requires Reached(presets, c, now, p) && Keeps(presets, now, next)
    ensures Reached(presets, c, next, p)
  {
    hide Seen, SeenAgain, Sane;
  }

  lemma {:induction false} ReachedLater(presets: Presets, c: Conditions, now: Conditions, next: Conditions, p: string)
    requires Keeps(presets, c, now) && Reached(presets, now, next, p)
    ensures Reached(presets, c, next, p)
  {
    hide Seen, SeenAgain, Sane;
  }

  lemma {:induction false} MergedStep(presets: Presets, c: Conditions, k: string, n: nat, before: Condition)
    requires k in presets && 0 < n <= |presets[k].inherits| && k in c && Seen(presets, c, presets[k].inherits[n - 1])
    requires MergedCondition(presets, before, c[k], k, n - 1)
    ensures MergedCondition(presets, before, InheritCondition(c[k], c[presets[k].inherits[n - 1]]), k, n)
  {
    hide Grounded, Intended;
    if before.Unset? && ParentConditioned(presets, k, n) {
      var i :| 0 <= i < n && Conditioned(presets, presets[k].inherits[i]);
      assert i == n - 1 || ParentConditioned(presets, k, n - 1);
    }
  }

  lemma {:induction false} MergeReaches(presets: Presets, c: Conditions, k: string, avoid: set<string>, n: nat)
    requires Grounded(presets, k, avoid) && Grounded(presets, k, {}) && Sane(presets, c) && n <= |presets[k].inherits|
    ensures Keeps(presets, c, MergeParents(presets, c, k, avoid, n))
    ensures MergedCondition(presets, c[k], MergeParents(presets, c, k, avoid, n)[k], k, n)
    ensures forall i :: 0 <= i < n ==>
      Reached(presets, c, MergeParents(presets, c, k, avoid, n), presets[k].inherits[i])
    decreases presets.Keys - avoid, 0, n, 1
  {
    if n == 0 {
      assert !ParentConditioned(presets, k, 0);
    } else {
      MergeReachesNext(presets, c, k, avoid, n);
    }
  }

  lemma {:induction false} MergeReachesNext(presets: Presets, c: Conditions, k: string, avoid: set<string>, n: nat)
    requires Grounded(presets, k, avoid) && Grounded(presets, k, {}) && Sane(presets, c)
    requires 0 < n <= |presets[k].inherits|
    ensures Keeps(presets, c, MergeParents(presets, c, k, avoid, n))
    ensures MergedCondition(presets, c[k], MergeParents(presets, c, k, avoid, n)[k], k, n)
    ensures forall i :: 0 <= i < n ==>
      Reached(presets, c, MergeParents(presets, c, k, avoid, n), presets[k].inherits[i])
    decreases presets.Keys - avoid, 0, n, 0
  {
    hide *;
    GroundedHere(presets, k, avoid);
    SaneKeys(presets, c);
    MergeUnfolds(presets, c, k, avoid, n);
    var p, before := presets[k].inherits[n - 1], MergeParents(presets, c, k, avoid, n - 1);
    var visited := Visit(presets, before, p, avoid + {k});
    MergeReaches(presets, c, k, avoid, n - 1);
    SaneNow(presets, c, before);
    VisitReaches(presets, before, p, avoid + {k});
    VisitFrame(presets, before, p, avoid + {k}, k);
    MergeOne(presets, c, before, visited, k, n);
  }

  lemma {:induction false} SaneNow(presets: Presets, c: Conditions, now: Conditions)
    requires Keeps(presets, c, now)
    ensures Sane(presets, now)
  {
  }

  /** One more parent has been visited and merged. */
  lemma {:induction false} MergeOne(presets: Presets, c: Conditions, before: Conditions, visited: Conditions,
                                    k: string, n: nat)
    requires Grounded(presets, k, {}) && 0 < n <= |presets[k].inherits| && k in c && k in before && k in visited
    requires Keeps(presets, c, before) && Keeps(presets, before, visited) && visited[k] == before[k]
    requires MergedCondition(presets, c[k], before[k], k, n - 1)
    requires forall i :: 0 <= i < n - 1 ==> Reached(presets, c, before, presets[k].inherits[i])
    requires presets[k].inherits[n - 1] in visited
    requires Reached(presets, before, visited, presets[k].inherits[n - 1])
    ensures var next := visited[k := InheritCondition(visited[k], visited[presets[k].inherits[n - 1]])];
      Keeps(presets, c, next) && MergedCondition(presets, c[k], next[k], k, n)
      && forall i :: 0 <= i < n ==> Reached(presets, c, next, presets[k].inherits[i])
  {
    var ps := presets[k].inherits;
    var p := ps[n - 1];
    var next := visited[k := InheritCondition(visited[k], visited[p])];
    SaneNow(presets, before, visited);
    assert Seen(presets, visited, p);
    hide *;
    InheritStep(presets, visited, k, p);
    MergedStep(presets, visited, k, n, c[k]);
    KeepsTrans(presets, c, before, visited);
    KeepsTrans(presets, c, visited, next);
    KeepsTrans(presets, before, visited, next);
    ReachedLater(presets, c, before, visited, p);
    StaysReached(presets, c, visited, next, p);
    forall i | 0 <= i < n - 1 ensures Reached(presets, c, next, ps[i]) {
      StaysReached(presets, c, before, next, ps[i]);
    }
  }

  lemma {:induction false} VisitReaches(presets: Presets, c: Conditions, k: string, avoid: set<string>)
    requires Grounded(presets, k, avoid) && Sane(presets, c)
    ensures Keeps(presets, c, Visit(presets, c, k, avoid))
    ensures Reached(presets, c, Visit(presets, c, k, avoid), k)
    ensures forall p :: p in presets[k].inherits ==> Reached(presets, c, Visit(presets, c, k, avoid), p)
    decreases presets.Keys - avoid, 1
  {
    var n := |presets[k].inherits|;
    var merged := MergeParents(presets, c, k, avoid, n);
    GroundedLess(presets, k, avoid, {});
    MergeReaches(presets, c, k, avoid, n);
    NullDropped(presets, c, merged, k);
    hide *;
    forall p | p in presets[k].inherits ensures Reached(presets, c, Visit(presets, c, k, avoid), p) {
      var i :| 0 <= i < n && presets[k].inherits[i] == p;
      StaysReached(presets, c, merged, merged[k := DropNull(merged[k])], p);
    }
  }

  // ---- presets whose null condition is not overridden ----

  /** A null condition does not last: another preset inherits from this one, and a parent should have a condition. */
  ghost predicate Overridden(presets: Presets, k: string) {
    && k in presets && presets[k].condition.Null? && HasChild(presets, k)
    && ParentConditioned(presets, k, |presets[k].inherits|)
  }

  ghost predicate NoneOverridden(presets: Presets) {
    forall k :: k in presets ==> !Overridden(presets, k)
  }

  /** The condition is the intended one. */
  ghost predicate Exact(presets: Presets, c: Conditions, j: string) {
    j in c && Grounded(presets, j, {}) && !c[j].Null? && Plain(c[j]) == Intended(presets, j, {})
  }

  ghost predicate Right(presets: Presets, c: Conditions) {
    c.Keys == presets.Keys && forall j :: j in presets ==> Untouched(presets, c, j) || Exact(presets, c, j)
  }

  /** What was right stays right. */
  ghost predicate StaysRight(presets: Presets, c: Conditions, c': Conditions) {
    Right(presets, c') && forall j :: Exact(presets, c, j) ==> Exact(presets, c', j)
  }

  /** The condition of k after n parents have been merged: its own, or the first that these should have. */
  ghost predicate MergedRight(presets: Presets, before: Condition, now: Condition, k: string, n: nat)
    requires Grounded(presets, k, {}) && n <= |presets[k].inherits|
  {
    if before.Unset? then !now.Null? && Plain(now) == IntendedFrom(presets, k, {}, n) else now == before
  }

  /** The first visit, or one that cannot override a null condition. */
  ghost predicate Harmless(presets: Presets, c: Conditions, k: string) {
    k in presets && (Untouched(presets, c, k) || HasChild(presets, k) || !presets[k].condition.Null?)
  }

  lemma {:induction false} VisitRight(presets: Presets, c: Conditions, k: string, avoid: set<string>)
    requires Grounded(presets, k, avoid) && Right(presets, c) && NoneOverridden(presets) && Harmless(presets, c, k)
    ensures StaysRight(presets, c, Visit(presets, c, k, avoid))
    ensures Exact(presets, Visit(presets, c, k, avoid), k)
    decreases presets.Keys - avoid, 1
  {
    var n := |presets[k].inherits|;
    var merged := MergeParents(presets, c, k, avoid, n);
    GroundedLess(presets, k, avoid, {});
    MergeRight(presets, c, k, avoid, n);
    NullDroppedRight(presets, c, merged, k);
    hide *;
    StaysTrans(presets, c, merged, merged[k := DropNull(merged[k])]);
  }

  lemma {:induction false} MergeRight(presets: Presets, c: Conditions, k: string, avoid: set<string>, n: nat)
    requires Grounded(presets, k, avoid) && Grounded(presets, k, {}) && Right(presets, c) && NoneOverridden(presets)
    requires Harmless(presets, c, k) && n <= |presets[k].inherits|
    ensures StaysRight(presets, c, MergeParents(presets, c, k, avoid, n))
    ensures MergedRight(presets, c[k], MergeParents(presets, c, k, avoid, n)[k], k, n)
    decreases presets.Keys - avoid, 0, n, 1
  {
    if n > 0 {
      MergeRightNext(presets, c, k, avoid, n);
    }
  }

  lemma {:induction false} MergeRightNext(presets: Presets, c: Conditions, k: string, avoid: set<string>, n: nat)
    requires Grounded(presets, k, avoid) && Grounded(presets, k, {}) && Right(presets, c) && NoneOverridden(presets)
    requires Harmless(presets, c, k) && 0 < n <= |presets[k].inherits|
    ensures StaysRight(presets, c, MergeParents(presets, c, k, avoid, n))
    ensures MergedRight(presets, c[k], MergeParents(presets, c, k, avoid, n)[k], k, n)
    decreases presets.Keys - avoid, 0, n, 0
  {
    hide *;
    GroundedHere(presets, k, avoid);
    RightKeys(presets, c);
    MergeUnfolds(presets, c, k, avoid, n);
    var p, before := presets[k].inherits[n - 1], MergeParents(presets, c, k, avoid, n - 1);
    var visited := Visit(presets, before, p, avoid + {k});
    MergeRight(presets, c, k, avoid, n - 1);
    RightNow(presets, c, before);
    ParentHarmless(presets, before, k, n - 1);
    VisitRight(presets, before, p, avoid + {k});
    VisitFrame(presets, before, p, avoid + {k}, k);
    MergeOneRight(presets, c, before, visited, k, n);
  }

  lemma {:induction false} RightKeys(presets: Presets, c: Conditions)
    requires Right(presets, c)
    ensures c.Keys == presets.Keys
  {
  }

  lemma {:induction false} RightNow(presets: Presets, c: Conditions, now: Conditions)
    requires StaysRight(presets, c, now)
    ensures Right(presets, now)
  {
  }

  lemma {:induction false} ParentHarmless(presets: Presets, c: Conditions, k: string, i: nat)
    requires k in presets && i < |presets[k].inherits| && presets[k].inherits[i] in presets
    ensures Harmless(presets, c, presets[k].inherits[i])
  {
    ChildOf(presets, k, i);
  }

  lemma {:induction false} StaysTrans(presets: Presets, a: Conditions, b: Conditions, c: Conditions)
    requires StaysRight(presets, a, b) && StaysRight(presets, b, c)
    ensures StaysRight(presets, a, c)
  {
    hide Exact, Right;
  }

  lemma {:induction false} ExactAt(presets: Presets, c: Conditions, next: Conditions, j: string)
    requires j in c && j in next && c[j] == next[j]
    ensures Untouched(presets, next, j) <==> Untouched(presets, c, j)
    ensures Exact(presets, next, j) <==> Exact(presets, c, j)
  {
    hide Grounded, Intended;
  }

  lemma {:induction false} StaysAt(presets: Presets, c: Conditions, k: string, now: Condition)
    requires Right(presets, c) && k in c
    requires Untouched(presets, c[k := now], k) || Exact(presets, c[k := now], k)
    requires Exact(presets, c, k) ==> Exact(presets, c[k := now], k)
    ensures StaysRight(presets, c, c[k := now])
  {
    hide Untouched;
    var next := c[k := now];
    assert next.Keys == c.Keys;
    forall j | j in c && j != k
      ensures Untouched(presets, next, j) <==> Untouched(presets, c, j)
      ensures Exact(presets, next, j) <==> Exact(presets, c, j)
    {
      ExactAt(presets, c, next, j);
    }
    forall j | Exact(presets, c, j) ensures j in c {
    }
  }

  lemma {:induction false} MergeOneRight(presets: Presets, c: Conditions, before: Conditions, visited: Conditions,
                                         k: string, n: nat)
    requires Grounded(presets, k, {}) && 0 < n <= |presets[k].inherits| && k in c && k in before && k in visited
    requires StaysRight(presets, c, before) && StaysRight(presets, before, visited) && visited[k] == before[k]
    requires MergedRight(presets, c[k], before[k], k, n - 1)
    requires presets[k].inherits[n - 1] in visited && Exact(presets, visited, presets[k].inherits[n - 1])
    requires Right(presets, c) && NoneOverridden(presets) && Harmless(presets, c, k)
    ensures var next := visited[k := InheritCondition(visited[k], visited[presets[k].inherits[n - 1]])];
      StaysRight(presets, c, next) && MergedRight(presets, c[k], next[k], k, n)
  {
    var p := presets[k].inherits[n - 1];
    var now := InheritCondition(visited[k], visited[p]);
    var next := visited[k := now];
    IntendedParent(presets, k, {}, n - 1);
    RightNow(presets, before, visited);
    MergedRightStep(presets, c[k], visited[k], visited[p], k, n);
    MergedMeans(presets, c, visited, now, k, n);
    hide *;
    StaysAt(presets, visited, k, now);
    StaysTrans(presets, c, before, visited);
    StaysTrans(presets, c, visited, next);
  }

  lemma {:induction false} MergedRightStep(presets: Presets, before: Condition, merged: Condition, parent: Condition,
                                           k: string, n: nat)
    requires Grounded(presets, k, {}) && 0 < n <= |presets[k].inherits|
    requires MergedRight(presets, before, merged, k, n - 1) && !parent.Null?
    requires Plain(parent) == Intended(presets, presets[k].inherits[n - 1], {} + {k})
    ensures MergedRight(presets, before, InheritCondition(merged, parent), k, n)
  {
  }

  /** The first parents that provide a condition decide. */
  lemma {:induction false} FirstDecides(presets: Presets, k: string, n: nat, m: nat)
    requires Grounded(presets, k, {}) && n <= m <= |presets[k].inherits|
    ensures IntendedFrom(presets, k, {}, n).Some? ==>
      IntendedFrom(presets, k, {}, m) == IntendedFrom(presets, k, {}, n)
    decreases m
  {
    if n < m {
      FirstDecides(presets, k, n, m - 1);
    }
  }

  /** A null condition that has been dropped already is not overridden: the parents provide nothing. */
  lemma {:induction false} NothingProvided(presets: Presets, c: Conditions, k: string, n: nat)
    requires Grounded(presets, k, {}) && n <= |presets[k].inherits| && k in c && c[k].Unset?
    requires NoneOverridden(presets) && Harmless(presets, c, k) && presets[k].condition.Null?
    ensures IntendedFrom(presets, k, {}, n).None?
  {
    assert !Overridden(presets, k);
    IntendedFromParents(presets, k, |presets[k].inherits|);
    FirstDecides(presets, k, n, |presets[k].inherits|);
  }

  lemma {:induction false} IntendedIs(presets: Presets, k: string)
    requires Grounded(presets, k, {})
    ensures Intended(presets, k, {}) ==
      if presets[k].condition.Unset? then IntendedFrom(presets, k, {}, |presets[k].inherits|)
      else Plain(presets[k].condition)
  {
  }

  /** With a partly merged condition k is still untouched or has what it should have. */
  lemma {:induction false} MergedMeans(presets: Presets, c: Conditions, visited: Conditions, now: Condition,
                                       k: string, n: nat)
    requires Grounded(presets, k, {}) && n <= |presets[k].inherits| && k in c && k in visited
    requires Right(presets, c) && NoneOverridden(presets) && Harmless(presets, c, k)
    requires MergedRight(presets, c[k], now, k, n)
    ensures Untouched(presets, visited[k := now], k) || Exact(presets, visited[k := now], k)
    ensures Exact(presets, c, k) ==> Exact(presets, visited[k := now], k)
  {
    IntendedIs(presets, k);
    FirstDecides(presets, k, n, |presets[k].inherits|);
    assert Untouched(presets, c, k) || Exact(presets, c, k);
    if c[k].Unset? && presets[k].condition.Null? {
      NothingProvided(presets, c, k, n);
    }
    hide Grounded, Intended, IntendedFrom, Harmless, Right, NoneOverridden;
  }

  lemma {:induction false} NullDroppedRight(presets: Presets, c: Conditions, merged: Conditions, k: string)
    requires Grounded(presets, k, {}) && k in c && k in merged && StaysRight(presets, c, merged)
    requires Right(presets, c) && NoneOverridden(presets) && Harmless(presets, c, k)
    requires MergedRight(presets, c[k], merged[k], k, |presets[k].inherits|)
    ensures StaysRight(presets, merged, merged[k := DropNull(merged[k])])
    ensures Exact(presets, merged[k := DropNull(merged[k])], k)
  {
    var now := DropNull(merged[k]);
    RightNow(presets, c, merged);
    DroppedExact(presets, c, merged, k);
    hide *;
    StaysAt(presets, merged, k, now);
  }

  lemma {:induction false} DroppedExact(presets: Presets, c: Conditions, merged: Conditions, k: string)
    requires Grounded(presets, k, {}) && k in c && k in merged
    requires Right(presets, c) && NoneOverridden(presets) && Harmless(presets, c, k)
    requires MergedRight(presets, c[k], merged[k], k, |presets[k].inherits|)
    ensures Exact(presets, merged[k := DropNull(merged[k])], k)
  {
    IntendedIs(presets, k);
    assert Untouched(presets, c, k) || Exact(presets, c, k);
    if c[k].Unset? && presets[k].condition.Null? {
      NothingProvided(presets, c, k, |presets[k].inherits|);
    }
    hide Grounded, Intended, IntendedFrom, Harmless, Right, NoneOverridden;
  }

  // ---- all presets ----

  ghost predicate Distinct(order: seq<string>) {
    forall i, j :: 0 <= i < j < |order| ==> order[i] != order[j]
  }

  /** The first n presets and their parents have been visited, and whoever has a child among them twice. */
  ghost predicate Course(presets: Presets, order: seq<string>, n: nat, c: Conditions)
    requires n <= |order|
  {
    && Sane(presets, c)
    && (forall i :: 0 <= i < n ==> Seen(presets, c, order[i]))
    && (forall i, p :: 0 <= i < n && IsChild(presets, order[i], p) ==> Seen(presets, c, p))
    && (forall i, j :: 0 <= i < n && 0 <= j < n && IsChild(presets, order[j], order[i]) ==>
          SeenAgain(presets, c, order[i]))
  }

  lemma {:induction false} AllVisited(presets: Presets, order: seq<string>, n: nat)
    requires AllGroundedIn(presets, order) && n <= |order|
    ensures Course(presets, order, n, VisitAll(presets, order, n))
  {
    if n == 0 {
      forall j | j in presets ensures Untouched(presets, ConditionsOf(presets), j) {
      }
    } else {
      AllVisited(presets, order, n - 1);
      var c := VisitAll(presets, order, n - 1);
      VisitReaches(presets, c, order[n - 1], {});
      NotOwnChild(presets, order[n - 1]);
      hide VisitAll;
      CourseNext(presets, order, n, c, Visit(presets, c, order[n - 1], {}));
    }
  }

  lemma {:induction false} NotOwnChild(presets: Presets, k: string)
    requires Grounded(presets, k, {})
    ensures !IsChild(presets, k, k)
  {
    forall i | 0 <= i < |presets[k].inherits| ensures presets[k].inherits[i] != k {
      assert Grounded(presets, presets[k].inherits[i], {} + {k});
    }
  }

  lemma {:induction false} CourseNext(presets: Presets, order: seq<string>, n: nat, c: Conditions, next: Conditions)
    requires 0 < n <= |order| && Course(presets, order, n - 1, c) && order[n - 1] in presets
    requires Keeps(presets, c, next) && Reached(presets, c, next, order[n - 1])
    requires forall p :: p in presets[order[n - 1]].inherits ==> Reached(presets, c, next, p)
    requires !IsChild(presets, order[n - 1], order[n - 1])
    ensures Course(presets, order, n, next)
  {
    hide Seen, SeenAgain, Sane;
    forall i, p | 0 <= i < n && IsChild(presets, order[i], p) ensures Seen(presets, next, p) {
      assert i < n - 1 ==> Seen(presets, c, p);
      assert i == n - 1 ==> Reached(presets, c, next, p);
    }
    forall i | 0 <= i < n ensures Seen(presets, next, order[i]) {
      assert i < n - 1 ==> Seen(presets, c, order[i]);
    }
    forall i, j | 0 <= i < n && 0 <= j < n && IsChild(presets, order[j], order[i])
      ensures SeenAgain(presets, next, order[i])
    {
      if i < n - 1 && j < n - 1 {
        assert SeenAgain(presets, c, order[i]);
      } else if i < n - 1 {
        assert Seen(presets, c, order[i]) && Reached(presets, c, next, order[i]);
      } else {
        assert j < n - 1 && Seen(presets, c, order[i]);
      }
    }
  }

  /** A null condition that is overridden is lost: a condition of some ancestor is evaluated in its place. */
  lemma {:induction false} OverriddenLost(presets: Presets, order: seq<string>, k: string)
    requires AllGroundedIn(presets, order) && Overridden(presets, k)
    requires forall j :: j in order <==> j in presets
    ensures VisitAll(presets, order, |order|)[k].Given? && Intended(presets, k, {}).None?
  {
    AllVisited(presets, order, |order|);
    var child :| IsChild(presets, child, k);
    var i :| 0 <= i < |order| && order[i] == k;
    var j :| 0 <= j < |order| && order[j] == child;
    hide VisitAll, AllGroundedIn;
    assert SeenAgain(presets, VisitAll(presets, order, |order|), order[i]);
  }

  lemma {:induction false} AllRight(presets: Presets, order: seq<string>, n: nat)
    requires AllGroundedIn(presets, order) && n <= |order| && Distinct(order) && NoneOverridden(presets)
    ensures Right(presets, VisitAll(presets, order, n))
    ensures forall i :: 0 <= i < n ==> Exact(presets, VisitAll(presets, order, n), order[i])
    ensures forall i :: n <= i < |order| && !HasChild(presets, order[i]) ==>
      Untouched(presets, VisitAll(presets, order, n), order[i])
  {
    if n == 0 {
      forall j | j in presets ensures Untouched(presets, ConditionsOf(presets), j) {
      }
      assert forall i :: 0 <= i < |order| ==> Grounded(presets, order[i], {}) && order[i] in presets;
    } else {
      AllRight(presets, order, n - 1);
      var c, k := VisitAll(presets, order, n - 1), order[n - 1];
      assert Grounded(presets, k, {}) && k in presets;
      RightHarmless(presets, c, k);
      VisitRight(presets, c, k, {});
      hide VisitAll, Right, Exact, Untouched, HasChild, Grounded, NoneOverridden, Visit;
      RightNext(presets, order, n, c, k);
    }
  }

  lemma {:induction false} RightNext(presets: Presets, order: seq<string>, n: nat, c: Conditions, k: string)
    requires 0 < n <= |order| && order[n - 1] == k && Distinct(order) && AllGroundedIn(presets, order)
    requires Grounded(presets, k, {}) && c.Keys == presets.Keys && StaysRight(presets, c, Visit(presets, c, k, {}))
    requires Exact(presets, Visit(presets, c, k, {}), k)
    requires forall i :: 0 <= i < n - 1 ==> Exact(presets, c, order[i])
    requires forall i :: n - 1 <= i < |order| && !HasChild(presets, order[i]) ==> Untouched(presets, c, order[i])
    ensures Right(presets, Visit(presets, c, k, {}))
    ensures forall i :: 0 <= i < n ==> Exact(presets, Visit(presets, c, k, {}), order[i])
    ensures forall i :: n <= i < |order| && !HasChild(presets, order[i]) ==>
      Untouched(presets, Visit(presets, c, k, {}), order[i])
  {
    hide Right, Exact, HasChild, NoneOverridden, Visit;
    forall i | n <= i < |order| && !HasChild(presets, order[i])
      ensures Untouched(presets, Visit(presets, c, k, {}), order[i])
    {
      assert Grounded(presets, order[i], {});
      VisitFrame(presets, c, k, {}, order[i]);
    }
  }

  lemma {:induction false} RightHarmless(presets: Presets, c: Conditions, k: string)
    requires k in presets && (!HasChild(presets, k) ==> Untouched(presets, c, k))
    ensures Harmless(presets, c, k)
  {
  }

  /** All presets end up with the intended conditions iff no null condition is overridden. */
  lemma {:induction false} ConditionsExact(presets: Presets, order: seq<string>)
    requires AllGroundedIn(presets, order) && Distinct(order) && forall j :: j in order <==> j in presets
    ensures (forall k :: k in presets ==> Exact(presets, VisitAll(presets, order, |order|), k)) <==>
            NoneOverridden(presets)
  {
    hide VisitAll, AllGroundedIn, Distinct;
    if NoneOverridden(presets) {
      AllRight(presets, order, |order|);
      forall k | k in presets ensures Exact(presets, VisitAll(presets, order, |order|), k) {
        var i :| 0 <= i < |order| && order[i] == k;
      }
    } else {
      var k :| k in presets && Overridden(presets, k);
      OverriddenLost(presets, order, k);
    }
  }
}
