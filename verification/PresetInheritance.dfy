/** Preset inheritance as the source computes it: merging in place, with cycle marks passed by value. */
module PresetInheritance {
  import opened Collections
  import opened PresetFields
  import C = PresetConditions

  datatype ReadFileResult = ReadOk | InvalidPreset | CyclicPresetInheritance | UserPresetInheritance

  datatype CycleStatus = Unvisited | InProgress | Verified

  /** The format versions of the project's and of the user's presets file. */
  datatype Versions = Versions(project: int, user: int)

  function GetVersion(versions: Versions, p: Preset): int {
    if p.user then versions.user else versions.project
  }

  // ---- what is wrong with a set of presets ----

  ghost predicate IsParent(presets: Presets, k: string, p: string) {
    k in presets && p in presets[k].inherits
  }

  /** Each name is followed by one that it inherits from. */
  ghost predicate Trail(presets: Presets, t: seq<string>) {
    forall i :: 0 <= i < |t| - 1 ==> IsParent(presets, t[i], t[i + 1])
  }

  ghost predicate HasCycle(presets: Presets) {
    exists t :: Trail(presets, t) && |t| > 1 && t[0] == t[|t| - 1]
  }

  ghost predicate HasUserParent(presets: Presets) {
    exists k, p :: IsParent(presets, k, p) && UserParent(presets, k, p)
  }

  ghost predicate UserParent(presets: Presets, k: string, p: string) {
    k in presets && p in presets && !presets[k].user && presets[p].user
  }

  /** One preset has something wrong with it by itself. */
  ghost predicate MissingParent(presets: Presets, k: string) {
    exists p :: IsParent(presets, k, p) && p !in presets
  }

  ghost predicate EmptyVariable(presets: Presets, k: string) {
    k in presets && "" in presets[k].environment
  }

  /** After inheritance, q is what preset k has become. */
  ghost predicate Complete(orig: Presets, k: string, q: Preset) {
    && Grounded(orig, k, {}) && SameIdentity(orig[k], q)
    && forall f :: Get(q, f) == Inherited(orig, k, {}, f)
  }

  ghost predicate BadAfterInherit(orig: Presets, versions: Versions, k: string) {
    exists q :: Complete(orig, k, q) && !VisitPresetAfterInherit(q, GetVersion(versions, q))
  }

  ghost predicate HasInvalid(orig: Presets, versions: Versions) {
    exists k :: k in orig && (MissingParent(orig, k) || EmptyVariable(orig, k) || BadAfterInherit(orig, versions, k))
  }

  /** What preset k inherits does not go together, or something is missing that is required of it. */
  ghost predicate Contradictory(orig: Presets, versions: Versions, k: string) {
    && k in orig && Grounded(orig, k, {}) && !orig[k].hidden
    && (|| ((if orig[k].user then versions.user else versions.project) < 3
            && (Inherited(orig, k, {}, Generator).None? || Inherited(orig, k, {}, BinaryDir).None?))
        || (Inherited(orig, k, {}, WarnDev) == Some(Flag(false))
            && Inherited(orig, k, {}, ErrorDev) == Some(Flag(true)))
        || (Inherited(orig, k, {}, WarnDeprecated) == Some(Flag(false))
            && Inherited(orig, k, {}, ErrorDeprecated) == Some(Flag(true)))
        || Inherited(orig, k, {}, CacheEntry("")).Some?)
  }

  /** A finished preset is refused exactly for that. */
  lemma {:induction false} ContradictoryExact(orig: Presets, versions: Versions, k: string, q: Preset)
    requires k in orig && Complete(orig, k, q)
    ensures VisitPresetAfterInherit(q, GetVersion(versions, q)) <==> !Contradictory(orig, versions, k)
  {
    assert Get(q, Generator) == Inherited(orig, k, {}, Generator);
    assert Get(q, BinaryDir) == Inherited(orig, k, {}, BinaryDir);
    assert Get(q, WarnDev) == Inherited(orig, k, {}, WarnDev);
    assert Get(q, ErrorDev) == Inherited(orig, k, {}, ErrorDev);
    assert Get(q, WarnDeprecated) == Inherited(orig, k, {}, WarnDeprecated);
    assert Get(q, ErrorDeprecated) == Inherited(orig, k, {}, ErrorDeprecated);
    assert Get(q, CacheEntry("")) == Inherited(orig, k, {}, CacheEntry(""));
    hide Inherited;
  }

  /** What is wrong with a preset by itself, in terms of what was written and what is inherited. */
  ghost predicate WrongByItself(orig: Presets, versions: Versions, k: string) {
    MissingParent(orig, k) || EmptyVariable(orig, k) || Contradictory(orig, versions, k)
  }

  lemma {:induction false} SomethingWrong(orig: Presets, versions: Versions)
    requires HasInvalid(orig, versions)
    ensures exists k :: k in orig && WrongByItself(orig, versions, k)
  {
    var k :| k in orig && (MissingParent(orig, k) || EmptyVariable(orig, k) || BadAfterInherit(orig, versions, k));
    hide VisitPresetAfterInherit, MissingParent, EmptyVariable, Complete, Contradictory;
    if BadAfterInherit(orig, versions, k) {
      var q :| Complete(orig, k, q) && !VisitPresetAfterInherit(q, GetVersion(versions, q));
      ContradictoryExact(orig, versions, k, q);
    }
    assert WrongByItself(orig, versions, k);
  }

  lemma {:induction false} NothingWrong(orig: Presets, cur: Presets, versions: Versions)
    requires Faultless(orig, versions) && cur.Keys == orig.Keys && forall k :: k in orig ==> Complete(orig, k, cur[k])
    requires forall k :: k in cur ==> VisitPresetAfterInherit(cur[k], GetVersion(versions, cur[k]))
    ensures forall k :: !WrongByItself(orig, versions, k)
  {
    hide VisitPresetAfterInherit, Complete, Contradictory, HasCycle, HasUserParent, BadAfterInherit, Grounded;
    forall k ensures !WrongByItself(orig, versions, k) {
      if k in orig {
        ContradictoryExact(orig, versions, k, cur[k]);
      } else {
        NotThere(orig, versions, k);
      }
    }
  }

  lemma NotThere(orig: Presets, versions: Versions, k: string)
    requires k !in orig
    ensures !WrongByItself(orig, versions, k)
  {
  }

  /** The result names a fault the presets really have. */
  ghost predicate Justified(orig: Presets, versions: Versions, r: ReadFileResult) {
    match r
    case ReadOk => true
    case CyclicPresetInheritance => HasCycle(orig)
    case UserPresetInheritance => HasUserParent(orig)
    case InvalidPreset => HasInvalid(orig, versions)
  }

  // ---- the invariant of the merging ----

  /** k has its final value, and no empty name in its environment. */
  ghost predicate Finished(orig: Presets, cur: Presets, k: string) {
    k in orig && k in cur && Complete(orig, k, cur[k]) && "" !in cur[k].environment
  }

  /** Outside the path, every preset is either untouched or finished. */
  ghost predicate Merging(orig: Presets, cur: Presets, path: set<string>) {
    && cur.Keys == orig.Keys
    && (forall k :: k in cur ==> SameIdentity(orig[k], cur[k]) && orig[k].name == k)
    && (forall k {:trigger Finished(orig, cur, k)} :: k in cur && k !in path ==>
      cur[k] == orig[k] || Finished(orig, cur, k))
  }

  /** k and all its ancestors exist, come back to none of `avoid`, and have no fault. */
  ghost predicate Sound(orig: Presets, versions: Versions, k: string, avoid: set<string>)
    decreases orig.Keys - avoid
  {
    && k in orig && k !in avoid && !EmptyVariable(orig, k) && !BadAfterInherit(orig, versions, k)
    && forall i :: 0 <= i < |orig[k].inherits| ==>
         !UserParent(orig, k, orig[k].inherits[i]) && Sound(orig, versions, orig[k].inherits[i], avoid + {k})
  }

  lemma {:induction false} SoundGrounded(orig: Presets, versions: Versions, k: string, avoid: set<string>)
    requires Sound(orig, versions, k, avoid)
    ensures Grounded(orig, k, {})
    decreases orig.Keys - avoid
  {
    SoundGroundedAvoiding(orig, versions, k, avoid);
    GroundedLess(orig, k, avoid, {});
  }

  lemma {:induction false} SoundGroundedAvoiding(orig: Presets, versions: Versions, k: string, avoid: set<string>)
    requires Sound(orig, versions, k, avoid)
    ensures Grounded(orig, k, avoid)
    decreases orig.Keys - avoid
  {
    forall i | 0 <= i < |orig[k].inherits| ensures Grounded(orig, orig[k].inherits[i], avoid + {k}) {
      SoundGroundedAvoiding(orig, versions, orig[k].inherits[i], avoid + {k});
    }
  }

  // ---- the fields of a preset while its parents are merged into it ----

  ghost predicate AllGrounded(orig: Presets, ps: seq<string>) {
    forall i :: 0 <= i < |ps| ==> Grounded(orig, ps[i], {})
  }

  /** The first value that one of the listed presets has for the field. */
  ghost function FirstOf(orig: Presets, ps: seq<string>, f: Field): Option<Value>
    requires AllGrounded(orig, ps)
  {
    if |ps| == 0 then None
    else Or(FirstOf(orig, ps[..|ps| - 1], f), Inherited(orig, ps[|ps| - 1], {}, f))
  }

  lemma {:induction false} FirstOfParents(orig: Presets, k: string, n: nat, f: Field)
    requires Grounded(orig, k, {}) && n <= |orig[k].inherits|
    ensures AllGrounded(orig, orig[k].inherits[..n])
    ensures FromParents(orig, k, {}, n, f) == FirstOf(orig, orig[k].inherits[..n], f)
  {
    forall i | 0 <= i < |orig[k].inherits| ensures Grounded(orig, orig[k].inherits[i], {}) {
      GroundedLess(orig, orig[k].inherits[i], {} + {k}, {});
    }
    if n > 0 {
      FirstOfParents(orig, k, n - 1, f);
      assert orig[k].inherits[..n][..n - 1] == orig[k].inherits[..n - 1];
      InheritedSame(orig, orig[k].inherits[n - 1], {} + {k}, {}, f);
    }
  }

  /** What preset k has become after the listed parents have been merged into it. */
  ghost predicate MergedUpTo(orig: Presets, start: Preset, q: Preset, ps: seq<string>) {
    && AllGrounded(orig, ps) && SameIdentity(start, q) && "" !in q.environment
    && forall f :: Get(q, f) == Or(Get(start, f), FirstOf(orig, ps, f))
  }

  lemma MergeParent(orig: Presets, start: Preset, q: Preset, ps: seq<string>, p: string, parent: Preset)
    requires MergedUpTo(orig, start, q, ps)
    requires p in orig && Complete(orig, p, parent) && "" !in parent.environment
    ensures MergedUpTo(orig, start, Merge(q, parent), ps + [p])
  {
    var q' := Merge(q, parent);
    assert (ps + [p])[..|ps|] == ps;
    forall f ensures Get(q', f) == Or(Get(start, f), FirstOf(orig, ps + [p], f)) {
      MergeFills(q, parent, f);
    }
  }

  /** Merging all parents completes a preset, whether it was untouched or complete before. */
  lemma MergedAll(orig: Presets, k: string, start: Preset, q: Preset)
    requires Grounded(orig, k, {}) && MergedUpTo(orig, start, q, orig[k].inherits)
    requires start == orig[k] || Complete(orig, k, start)
    ensures Complete(orig, k, q)
  {
    forall f ensures Get(q, f) == Inherited(orig, k, {}, f) {
      FirstOfParents(orig, k, |orig[k].inherits|, f);
      assert orig[k].inherits[..|orig[k].inherits|] == orig[k].inherits;
    }
  }

  // ---- faults found while visiting ----

  lemma TrailCycle(orig: Presets, t: seq<string>, k: string)
    requires Trail(orig, t + [k]) && k in t
    ensures HasCycle(orig)
  {
    var i :| 0 <= i < |t| && t[i] == k;
    var c := (t + [k])[i..];
    forall j | 0 <= j < |c| - 1 ensures IsParent(orig, c[j], c[j + 1]) {
      assert IsParent(orig, (t + [k])[i + j], (t + [k])[i + j + 1]);
    }
    assert Trail(orig, c);
  }

  lemma TrailMore(orig: Presets, t: seq<string>, k: string, p: string)
    requires Trail(orig, t + [k]) && IsParent(orig, k, p)
    ensures Trail(orig, t + [k] + [p])
  {
    var u := t + [k] + [p];
    forall i | 0 <= i < |u| - 1 ensures IsParent(orig, u[i], u[i + 1]) {
      if i < |t| {
        assert IsParent(orig, (t + [k])[i], (t + [k])[i + 1]);
      }
    }
  }

  /** A preset inherits from itself through others only if it is not grounded. */
  lemma {:induction false} CycleNotGrounded(orig: Presets, t: seq<string>, i: nat, avoid: set<string>)
    requires Trail(orig, t) && |t| > 1 && t[0] == t[|t| - 1] && i < |t|
    ensures !Grounded(orig, t[i], avoid)
    decreases orig.Keys - avoid
  {
    if Grounded(orig, t[i], avoid) {
      var j := if i == |t| - 1 then 0 else i;
      assert IsParent(orig, t[j], t[j + 1]);
      var n :| 0 <= n < |orig[t[i]].inherits| && orig[t[i]].inherits[n] == t[j + 1];
      CycleNotGrounded(orig, t, j + 1, avoid + {t[i]});
    }
  }

  ghost predicate AllSound(orig: Presets, versions: Versions) {
    forall k :: k in orig ==> Sound(orig, versions, k, {})
  }

  lemma SoundParent(orig: Presets, versions: Versions, k: string, p: string)
    requires AllSound(orig, versions) && IsParent(orig, k, p)
    ensures p in orig && !UserParent(orig, k, p)
  {
    var i :| 0 <= i < |orig[k].inherits| && orig[k].inherits[i] == p;
    assert Sound(orig, versions, orig[k].inherits[i], {} + {k});
  }

  /** Presets all of which are sound have none of the faults that can be reported. */
  lemma SoundFaultless(orig: Presets, versions: Versions)
    requires AllSound(orig, versions)
    ensures !HasCycle(orig) && !HasUserParent(orig) && !HasInvalid(orig, versions)
  {
    if HasCycle(orig) {
      var t :| Trail(orig, t) && |t| > 1 && t[0] == t[|t| - 1];
      assert IsParent(orig, t[0], t[1]);
      SoundGrounded(orig, versions, t[0], {});
      CycleNotGrounded(orig, t, 0, {});
      assert false;
    }
    forall k, p | IsParent(orig, k, p) ensures !UserParent(orig, k, p) {
      SoundParent(orig, versions, k, p);
    }
    forall k | k in orig ensures !MissingParent(orig, k) {
      if MissingParent(orig, k) {
        var p :| IsParent(orig, k, p) && p !in orig;
        SoundParent(orig, versions, k, p);
        assert false;
      }
    }
  }

  // ---- the equations that the finished presets satisfy ----

  ghost predicate AllPresent(presets: Presets, ps: seq<string>) {
    forall i :: 0 <= i < |ps| ==> ps[i] in presets
  }

  /** The first value that one of the listed presets has now. */
  ghost function FirstSet(presets: Presets, ps: seq<string>, f: Field): Option<Value>
    requires AllPresent(presets, ps)
  {
    if |ps| == 0 then None else Or(Get(presets[ps[0]], f), FirstSet(presets, ps[1..], f))
  }

  /** Every field of a preset is its own original value or else the first its parents end up with. */
  ghost predicate InheritanceSolved(orig: Presets, fin: Presets) {
    && fin.Keys == orig.Keys
    && (forall k :: k in orig ==> SameIdentity(orig[k], fin[k]) && AllPresent(fin, orig[k].inherits))
    && forall k, f :: k in orig ==>
         Get(fin[k], f) == Or(Get(orig[k], f), FirstSet(fin, orig[k].inherits, f))
  }

  lemma {:induction false} FirstSetAppend(presets: Presets, ps: seq<string>, p: string, f: Field)
    requires AllPresent(presets, ps)
    requires p in presets
    ensures FirstSet(presets, ps + [p], f) == Or(FirstSet(presets, ps, f), Get(presets[p], f))
  {
    if |ps| > 0 {
      assert (ps + [p])[1..] == ps[1..] + [p];
      FirstSetAppend(presets, ps[1..], p, f);
    } else {
      assert ps + [p] == [p];
    }
  }

  lemma {:induction false} FirstSetComplete(orig: Presets, fin: Presets, ps: seq<string>, f: Field)
    requires fin.Keys == orig.Keys
    requires forall k :: k in orig ==> Complete(orig, k, fin[k])
    requires AllPresent(fin, ps)
    ensures AllGrounded(orig, ps) && FirstOf(orig, ps, f) == FirstSet(fin, ps, f)
  {
    if |ps| > 0 {
      var n := |ps| - 1;
      FirstSetComplete(orig, fin, ps[..n], f);
      assert ps == ps[..n] + [ps[n]];
      FirstSetAppend(fin, ps[..n], ps[n], f);
    }
  }

  lemma CompleteSolves(orig: Presets, versions: Versions, fin: Presets)
    requires AllSound(orig, versions)
    requires fin.Keys == orig.Keys
    requires forall k :: k in orig ==> Complete(orig, k, fin[k])
    ensures InheritanceSolved(orig, fin)
  {
    forall k | k in orig ensures AllPresent(fin, orig[k].inherits) {
      forall i | 0 <= i < |orig[k].inherits| ensures orig[k].inherits[i] in fin {
        assert IsParent(orig, k, orig[k].inherits[i]);
        SoundParent(orig, versions, k, orig[k].inherits[i]);
      }
    }
    hide AllPresent;
    hide Sound;
    forall k, f | k in orig
      ensures Get(fin[k], f) == Or(Get(orig[k], f), FirstSet(fin, orig[k].inherits, f))
    {
      FirstSetComplete(orig, fin, orig[k].inherits, f);
      FirstOfParents(orig, k, |orig[k].inherits|, f);
      assert orig[k].inherits[..|orig[k].inherits|] == orig[k].inherits;
    }
  }

  // ---- one visit ----

  ghost function Collect(t: seq<string>): set<string> {
    set x | x in t
  }

  lemma CollectMore(t: seq<string>, k: string)
    ensures Collect(t + [k]) == Collect(t) + {k} && (k in Collect(t) <==> k in t)
  {
  }

  /** The marks that a visit of k is given: the trail is in progress, and nothing but k may be verified. */
  ghost predicate Marked(orig: Presets, cycleStatus: map<string, CycleStatus>, trail: seq<string>, k: string) {
    && cycleStatus.Keys == orig.Keys
    && forall j :: j in orig ==>
         (cycleStatus[j].InProgress? <==> j in trail) && (cycleStatus[j].Verified? ==> j == k)
  }

  /** Between two states: presets on the path have not changed, finished ones (except some) are still finished. */
  ghost predicate Steps(orig: Presets, pre: Presets, cur: Presets, path: set<string>, except: set<string>) {
    && pre.Keys == cur.Keys == orig.Keys
    && (forall j :: j in path && j in orig ==> cur[j] == pre[j])
    && (forall j {:trigger Finished(orig, cur, j)} :: j !in except && Finished(orig, pre, j) ==> Finished(orig, cur, j))
  }

  /** What a visit of k leaves behind. */
  ghost predicate Visited(orig: Presets, pre: Presets, cur: Presets, versions: Versions, path: set<string>,
                          k: string, r: ReadFileResult) {
    if r.ReadOk? then
      && Steps(orig, pre, cur, path, {}) && Merging(orig, cur, path)
      && Finished(orig, cur, k) && Sound(orig, versions, k, path)
    else Justified(orig, versions, r)
  }

  /** Where the merging of the first n parents of k has come to. */
  ghost predicate ParentsMerged(orig: Presets, pre: Presets, cur: Presets, versions: Versions, path: set<string>,
                                k: string, n: nat) {
    && k in orig && k in pre && n <= |orig[k].inherits|
    && Steps(orig, pre, cur, path, {k}) && Merging(orig, cur, path + {k})
    && MergedUpTo(orig, pre[k], cur[k], orig[k].inherits[..n])
    && forall j :: 0 <= j < n ==>
         !UserParent(orig, k, orig[k].inherits[j]) && Sound(orig, versions, orig[k].inherits[j], path + {k})
  }

  lemma EmptyFound(orig: Presets, cur: Presets, versions: Versions, path: set<string>, k: string)
    requires k in orig && k !in path && Merging(orig, cur, path) && "" in cur[k].environment
    ensures EmptyVariable(orig, k) && Justified(orig, versions, InvalidPreset)
  {
    assert !Finished(orig, cur, k);
  }

  lemma NoEmptyFound(orig: Presets, cur: Presets, path: set<string>, k: string)
    requires k in orig && k !in path && Merging(orig, cur, path) && "" !in cur[k].environment
    ensures !EmptyVariable(orig, k)
  {
    if cur[k] != orig[k] {
      assert Finished(orig, cur, k);
      SoundEnvironment(orig, k, cur[k]);
    }
  }

  /** A preset's own variables are still there when it is complete. */
  lemma SoundEnvironment(orig: Presets, k: string, q: Preset)
    requires Complete(orig, k, q) && "" !in q.environment
    ensures !EmptyVariable(orig, k)
  {
    var f := EnvironmentEntry("");
    assert Get(q, f) == Inherited(orig, k, {}, f);
  }

  lemma ParentsBegin(orig: Presets, cur: Presets, versions: Versions, path: set<string>, k: string)
    requires k in orig && k !in path && Merging(orig, cur, path) && "" !in cur[k].environment
    ensures ParentsMerged(orig, cur, cur, versions, path, k, 0)
    ensures cur[k].inherits == orig[k].inherits && cur.Keys == orig.Keys
  {
    hide Sound; hide Complete;
    assert orig[k].inherits[..0] == [];
  }

  /** What the loop over the parents may rely on. */
  lemma ParentsKeep(orig: Presets, pre: Presets, cur: Presets, versions: Versions, path: set<string>, k: string, n: nat)
    requires ParentsMerged(orig, pre, cur, versions, path, k, n)
    ensures cur.Keys == orig.Keys && Merging(orig, cur, path + {k}) && cur[k].user == orig[k].user
    ensures forall p :: p in orig ==> cur[p].user == orig[p].user
  {
    hide Sound; hide Finished;
  }

  lemma StepsTwice(orig: Presets, pre: Presets, before: Presets, cur: Presets, path: set<string>, k: string)
    requires Steps(orig, pre, before, path, {k}) && Steps(orig, before, cur, path + {k}, {})
    ensures Steps(orig, pre, cur, path, {k})
  {
    hide Finished;
    forall j | j !in {k} && Finished(orig, pre, j) ensures Finished(orig, cur, j) {
      assert Finished(orig, before, j);
    }
  }

  /** Changing a preset on the path disturbs nothing outside the path. */
  lemma OtherFinished(orig: Presets, cur: Presets, k: string, q: Preset, j: string)
    requires j != k
    ensures Finished(orig, cur[k := q], j) <==> Finished(orig, cur, j)
  {
    hide Complete;
  }

  lemma PathSteps(orig: Presets, pre: Presets, cur: Presets, path: set<string>, k: string, q: Preset)
    requires k in orig && k !in path && Steps(orig, pre, cur, path, {k})
    ensures Steps(orig, pre, cur[k := q], path, {k})
  {
    hide Finished;
    assert cur[k := q].Keys == cur.Keys;
    forall j | j !in {k} && Finished(orig, pre, j) ensures Finished(orig, cur[k := q], j) {
      assert Finished(orig, cur, j);
      OtherFinished(orig, cur, k, q, j);
    }
  }

  lemma PathChanged(orig: Presets, pre: Presets, cur: Presets, path: set<string>, k: string, q: Preset)
    requires k in orig && k !in path && SameIdentity(orig[k], q)
    requires Steps(orig, pre, cur, path, {k}) && Merging(orig, cur, path + {k})
    ensures Steps(orig, pre, cur[k := q], path, {k}) && Merging(orig, cur[k := q], path + {k})
  {
    hide SameIdentity, Finished;
    var now := cur[k := q];
    PathSteps(orig, pre, cur, path, k, q);
    forall j | j in now && j !in path + {k} ensures now[j] == orig[j] || Finished(orig, now, j) {
      assert cur[j] == orig[j] || Finished(orig, cur, j);
      OtherFinished(orig, cur, k, q, j);
    }
  }

  /** One more parent has been visited and can be merged. */
  lemma ParentVisited(orig: Presets, pre: Presets, before: Presets, cur: Presets, versions: Versions,
                      path: set<string>, k: string, n: nat)
    requires k !in path && ParentsMerged(orig, pre, before, versions, path, k, n) && n < |orig[k].inherits|
    requires !UserParent(orig, k, orig[k].inherits[n])
    requires Visited(orig, before, cur, versions, path + {k}, orig[k].inherits[n], ReadOk)
    ensures k in cur && orig[k].inherits[n] in cur
    ensures ParentsMerged(orig, pre, cur[k := Merge(cur[k], cur[orig[k].inherits[n]])], versions, path, k, n + 1)
  {
    var p := orig[k].inherits[n];
    StepsTwice(orig, pre, before, cur, path, k);
    ParentMerged(orig, pre, before, cur, versions, path, k, n);
    hide MergedUpTo; hide Merging; hide SameIdentity; hide UserParent; hide Sound; hide Finished;
    PathChanged(orig, pre, cur, path, k, Merge(cur[k], cur[p]));
  }

  lemma ParentMerged(orig: Presets, pre: Presets, before: Presets, cur: Presets, versions: Versions, path: set<string>,
                     k: string, n: nat)
    requires k !in path && ParentsMerged(orig, pre, before, versions, path, k, n) && n < |orig[k].inherits|
    requires Visited(orig, before, cur, versions, path + {k}, orig[k].inherits[n], ReadOk)
    ensures k in cur && orig[k].inherits[n] in cur
    ensures MergedUpTo(orig, pre[k], Merge(cur[k], cur[orig[k].inherits[n]]), orig[k].inherits[..n + 1])
    ensures SameIdentity(orig[k], Merge(cur[k], cur[orig[k].inherits[n]]))
  {
    hide Complete; hide MergedUpTo; hide Sound;
    var p := orig[k].inherits[n];
    assert cur[k] == before[k];
    MergeParent(orig, pre[k], cur[k], orig[k].inherits[..n], p, cur[p]);
    assert orig[k].inherits[..n] + [p] == orig[k].inherits[..n + 1];
  }

  /** All parents have been merged: the preset is complete, whatever it was before. */
  lemma AllParentsMerged(orig: Presets, pre: Presets, cur: Presets, versions: Versions, path: set<string>, k: string)
    requires k in orig && k !in path && Merging(orig, pre, path) && !EmptyVariable(orig, k)
    requires ParentsMerged(orig, pre, cur, versions, path, k, |orig[k].inherits|)
    ensures Finished(orig, cur, k) && Merging(orig, cur, path) && Steps(orig, pre, cur, path, {})
  {
    var ps := orig[k].inherits;
    assert ps[..|ps|] == ps;
    forall i | 0 <= i < |ps| ensures Grounded(orig, ps[i], {} + {k}) {
      SoundGroundedAvoiding(orig, versions, ps[i], path + {k});
      GroundedLess(orig, ps[i], path + {k}, {} + {k});
    }
    assert pre[k] == orig[k] || Finished(orig, pre, k);
    hide Sound;
    MergedAll(orig, k, pre[k], cur[k]);
    hide Complete;
    forall j | Finished(orig, pre, j) ensures Finished(orig, cur, j) {
    }
  }

  lemma BadFound(orig: Presets, cur: Presets, versions: Versions, k: string)
    requires Finished(orig, cur, k) && !VisitPresetAfterInherit(cur[k], GetVersion(versions, cur[k]))
    ensures Justified(orig, versions, InvalidPreset)
  {
    hide Complete;
    assert BadAfterInherit(orig, versions, k);
  }

  lemma NotBad(orig: Presets, cur: Presets, versions: Versions, k: string)
    requires Finished(orig, cur, k) && VisitPresetAfterInherit(cur[k], GetVersion(versions, cur[k]))
    ensures !BadAfterInherit(orig, versions, k)
  {
    forall q | Complete(orig, k, q) ensures q == cur[k].(condition := q.condition) {
      CompleteUnique(orig, k, q, cur[k]);
    }
  }

  lemma CompleteUnique(orig: Presets, k: string, p: Preset, q: Preset)
    requires Complete(orig, k, p) && Complete(orig, k, q)
    ensures p == q.(condition := p.condition)
  {
    forall f ensures Get(p, f) == Get(q, f) {
      assert Get(p, f) == Inherited(orig, k, {}, f);
    }
    FieldsDetermine(p, q);
  }

  lemma VisitEnds(orig: Presets, pre: Presets, cur: Presets, versions: Versions, path: set<string>, k: string)
    requires k in orig && k !in path && Merging(orig, pre, path) && !EmptyVariable(orig, k)
    requires ParentsMerged(orig, pre, cur, versions, path, k, |orig[k].inherits|)
    requires VisitPresetAfterInherit(cur[k], GetVersion(versions, cur[k]))
    ensures Visited(orig, pre, cur, versions, path, k, ReadOk)
  {
    AllParentsMerged(orig, pre, cur, versions, path, k);
    NotBad(orig, cur, versions, k);
    hide Finished; hide Merging; hide Steps; hide MergedUpTo; hide BadAfterInherit;
  }

  // ---- what the visits make of the conditions ----

  /** A visit of k has changed the conditions as visits do. */
  ghost predicate ConditionsVisited(orig: Presets, pre: Presets, cur: Presets, path: set<string>, k: string) {
    && Grounded(orig, k, path) && pre.Keys == orig.Keys
    && C.ConditionsOf(cur) == C.Visit(orig, C.ConditionsOf(pre), k, path)
  }

  /** The first n parents of k have been visited and merged. */
  ghost predicate ConditionsMerged(orig: Presets, pre: Presets, cur: Presets, path: set<string>, k: string, n: nat) {
    && k in orig && k !in path && n <= |orig[k].inherits| && pre.Keys == orig.Keys
    && (forall i :: 0 <= i < n ==> Grounded(orig, orig[k].inherits[i], path + {k}))
    && C.ConditionsOf(cur) == C.MergeParents(orig, C.ConditionsOf(pre), k, path, n)
  }

  lemma {:induction false} ConditionsBegin(orig: Presets, cur: Presets, path: set<string>, k: string)
    requires k in orig && k !in path && cur.Keys == orig.Keys
    ensures ConditionsMerged(orig, cur, cur, path, k, 0)
  {
  }

  lemma {:induction false} ConditionsNext(orig: Presets, pre: Presets, before: Presets, cur: Presets,
                                          path: set<string>, k: string, n: nat)
    requires ConditionsMerged(orig, pre, before, path, k, n) && n < |orig[k].inherits|
    requires ConditionsVisited(orig, before, cur, path + {k}, orig[k].inherits[n])
    requires k in cur && orig[k].inherits[n] in cur
    ensures ConditionsMerged(orig, pre, cur[k := Merge(cur[k], cur[orig[k].inherits[n]])], path, k, n + 1)
  {
    var p := orig[k].inherits[n];
    var c := C.ConditionsOf(cur);
    var q := Merge(cur[k], cur[p]);
    C.ConditionUpdated(cur, k, q);
    assert q.condition == InheritCondition(c[k], c[p]);
    hide Grounded, C.Visit, C.MergeParents, C.ConditionsOf, Merge;
    C.ConditionUpdated(pre, k, q);
    C.MergeMore(orig, C.ConditionsOf(pre), k, path, n);
  }

  lemma {:induction false} ConditionsEnd(orig: Presets, pre: Presets, cur: Presets, path: set<string>, k: string)
    requires k in cur && k in orig && ConditionsMerged(orig, pre, cur, path, k, |orig[k].inherits|)
    ensures ConditionsVisited(orig, pre, cur[k := cur[k].(condition := DropNull(cur[k].condition))], path, k)
  {
    C.ConditionUpdated(cur, k, cur[k].(condition := DropNull(cur[k].condition)));
    C.VisitIs(orig, C.ConditionsOf(pre), k, path);
    hide C.MergeParents, C.Visit;
  }

  /** Dropping a null condition changes no field. */
  lemma {:induction false} DropKeeps(orig: Presets, pre: Presets, cur: Presets, versions: Versions, path: set<string>,
                                     k: string, n: nat)
    requires ParentsMerged(orig, pre, cur, versions, path, k, n) && k !in path && k in cur
    ensures ParentsMerged(orig, pre, cur[k := cur[k].(condition := DropNull(cur[k].condition))], versions, path, k, n)
  {
    var q := cur[k].(condition := DropNull(cur[k].condition));
    DropMerged(orig, pre[k], cur[k], orig[k].inherits[..n]);
    hide MergedUpTo, Sound, Merging, Steps;
    PathChanged(orig, pre, cur, path, k, q);
  }

  lemma {:induction false} DropMerged(orig: Presets, start: Preset, q: Preset, ps: seq<string>)
    requires MergedUpTo(orig, start, q, ps)
    ensures MergedUpTo(orig, start, q.(condition := DropNull(q.condition)), ps)
  {
    hide FirstOf, Grounded;
    assert forall f :: Get(q.(condition := DropNull(q.condition)), f) == Get(q, f);
  }

  // ---- the whole result ----

  /** The first n presets of the order have been visited and found sound. */
  ghost predicate VisitedAll(orig: Presets, cur: Presets, versions: Versions, order: seq<string>, n: nat) {
    && n <= |order| && Merging(orig, cur, {})
    && forall j :: 0 <= j < n ==> Finished(orig, cur, order[j]) && Sound(orig, versions, order[j], {})
  }

  lemma VisitedNext(orig: Presets, pre: Presets, cur: Presets, versions: Versions, order: seq<string>, n: nat)
    requires VisitedAll(orig, pre, versions, order, n) && n < |order|
    requires Visited(orig, pre, cur, versions, {}, order[n], ReadOk)
    ensures VisitedAll(orig, cur, versions, order, n + 1)
  {
    hide Finished; hide Sound; hide Merging;
    forall j | 0 <= j < n ensures Finished(orig, cur, order[j]) {
      assert Finished(orig, pre, order[j]);
    }
  }

  lemma SoundNotBad(orig: Presets, versions: Versions, k: string)
    requires Sound(orig, versions, k, {})
    ensures !BadAfterInherit(orig, versions, k)
  {
  }

  lemma AllFinished(orig: Presets, cur: Presets, versions: Versions, order: seq<string>)
    requires VisitedAll(orig, cur, versions, order, |order|) && forall k :: k in order <==> k in orig
    ensures AllSound(orig, versions)
    ensures InheritanceSolved(orig, cur)
    ensures forall k :: k in orig ==> k in cur && Complete(orig, k, cur[k])
    ensures forall k :: k in cur ==> VisitPresetAfterInherit(cur[k], GetVersion(versions, cur[k]))
  {
    hide Complete; hide InheritanceSolved; hide VisitPresetAfterInherit; hide GetVersion; hide Sound;
    forall k | k in orig ensures Sound(orig, versions, k, {}) && Finished(orig, cur, k) {
      var j :| 0 <= j < |order| && order[j] == k;
    }
    CompleteSolves(orig, versions, cur);
    forall k | k in cur ensures VisitPresetAfterInherit(cur[k], GetVersion(versions, cur[k])) {
      SoundNotBad(orig, versions, k);
    }
  }

  lemma ParentOf(orig: Presets, k: string, i: int)
    requires k in orig && 0 <= i < |orig[k].inherits|
    ensures IsParent(orig, k, orig[k].inherits[i])
  {
  }

  lemma MissingFound(orig: Presets, versions: Versions, k: string, i: int)
    requires k in orig && 0 <= i < |orig[k].inherits| && orig[k].inherits[i] !in orig
    ensures Justified(orig, versions, InvalidPreset)
  {
    ParentOf(orig, k, i);
    assert MissingParent(orig, k);
  }

  lemma UserFound(orig: Presets, versions: Versions, k: string, i: int)
    requires k in orig && 0 <= i < |orig[k].inherits| && orig[k].inherits[i] in orig
    requires !orig[k].user && orig[orig[k].inherits[i]].user
    ensures Justified(orig, versions, UserPresetInheritance)
  {
    ParentOf(orig, k, i);
    assert UserParent(orig, k, orig[k].inherits[i]);
  }

  lemma NoUserFound(orig: Presets, k: string, i: int)
    requires k in orig && 0 <= i < |orig[k].inherits| && orig[k].inherits[i] in orig
    requires orig[k].user || !orig[orig[k].inherits[i]].user
    ensures !UserParent(orig, k, orig[k].inherits[i])
  {
  }

  /** The marks of the presets on the path are all that a parent is given. */
  lemma MarksPassed(orig: Presets, marks: map<string, CycleStatus>, trail: seq<string>, k: string, p: string)
    requires marks.Keys == orig.Keys
    requires forall j :: j in orig ==> marks[j] == (if j in trail + [k] then InProgress else Unvisited)
    ensures Marked(orig, marks, trail + [k], p) && (p in orig ==> !marks[p].Verified?)
  {
  }

  ghost predicate ConditionsUpTo(orig: Presets, cur: Presets, order: seq<string>, n: nat) {
    && n <= |order| && (forall i :: 0 <= i < n ==> Grounded(orig, order[i], {}))
    && C.ConditionsOf(cur) == C.VisitAll(orig, order, n)
  }

  /** The conditions are what visiting all presets in the given order makes of them. */
  ghost predicate ConditionsDone(orig: Presets, cur: Presets, order: seq<string>) {
    C.AllGroundedIn(orig, order) && C.ConditionsOf(cur) == C.VisitAll(orig, order, |order|)
  }

  /** Every preset has ended up with the condition it should have. */
  ghost predicate ConditionsRight(orig: Presets, cur: Presets) {
    forall k :: k in orig ==> C.Exact(orig, C.ConditionsOf(cur), k)
  }

  lemma {:induction false} ConditionsStart(orig: Presets, order: seq<string>)
    ensures ConditionsUpTo(orig, orig, order, 0)
  {
  }

  lemma {:induction false} ConditionsFurther(orig: Presets, pre: Presets, cur: Presets, order: seq<string>, n: nat)
    requires ConditionsUpTo(orig, pre, order, n) && n < |order| && ConditionsVisited(orig, pre, cur, {}, order[n])
    ensures ConditionsUpTo(orig, cur, order, n + 1)
  {
    hide C.Visit, Grounded;
  }

  lemma {:induction false} ConditionsSettled(orig: Presets, cur: Presets, order: seq<string>)
    requires ConditionsUpTo(orig, cur, order, |order|) && C.Distinct(order) && forall k :: k in order <==> k in orig
    ensures ConditionsDone(orig, cur, order) && (ConditionsRight(orig, cur) <==> C.NoneOverridden(orig))
  {
    hide C.VisitAll, C.Exact, C.NoneOverridden, C.Distinct;
    C.ConditionsExact(orig, order);
  }

  ghost predicate Faultless(orig: Presets, versions: Versions) {
    !HasCycle(orig) && !HasUserParent(orig) && !HasInvalid(orig, versions)
  }

  // ---- a null condition that is overridden ----

  function Hidden(name: string, parents: seq<string>, condition: Condition): Preset {
    Preset(name, parents, true, false, map[], condition, "", "", None, "", None, "", "", "", map[],
           None, None, None, None, None, None, None)
  }

  /** A preset with a condition, one that inherits from it but has null instead, and a child of that one. */
  function NullBetween(): Presets {
    map["a" := Hidden("a", [], Given("never")), "b" := Hidden("b", ["a"], Null), "c" := Hidden("c", ["b"], Unset)]
  }

  lemma {:induction false} HiddenSound(versions: Versions, k: string)
    requires k in NullBetween()
    ensures !EmptyVariable(NullBetween(), k) && !BadAfterInherit(NullBetween(), versions, k)
    ensures forall p :: !UserParent(NullBetween(), k, p)
  {
    var ps := NullBetween();
    assert forall j :: j in ps ==> ps[j].hidden && !ps[j].user && ps[j].environment == map[];
    forall q | Complete(ps, k, q) ensures VisitPresetAfterInherit(q, GetVersion(versions, q)) {
      assert SameIdentity(ps[k], q);
    }
  }

  lemma {:induction false} ChainSound(versions: Versions, avoid: set<string>)
    ensures "a" !in avoid ==> Sound(NullBetween(), versions, "a", avoid)
    ensures "a" !in avoid && "b" !in avoid ==> Sound(NullBetween(), versions, "b", avoid)
    ensures "a" !in avoid && "b" !in avoid && "c" !in avoid ==> Sound(NullBetween(), versions, "c", avoid)
  {
    var ps := NullBetween();
    HiddenSound(versions, "a");
    HiddenSound(versions, "b");
    HiddenSound(versions, "c");
    assert ps["a"].inherits == [] && ps["b"].inherits == ["a"] && ps["c"].inherits == ["b"];
    hide NullBetween, EmptyVariable, BadAfterInherit, UserParent;
    assert "a" !in avoid ==> Sound(ps, versions, "a", avoid);
    assert "a" !in avoid + {"b"} ==> Sound(ps, versions, "a", avoid + {"b"});
    assert "a" !in avoid + {"c"} + {"b"} ==> Sound(ps, versions, "a", avoid + {"c"} + {"b"});
    assert "a" !in avoid + {"c"} && "b" !in avoid + {"c"} ==> Sound(ps, versions, "b", avoid + {"c"});
  }

  lemma {:induction false} NullBetweenSound(versions: Versions, k: string)
    requires k in NullBetween()
    ensures Sound(NullBetween(), versions, k, {}) && Grounded(NullBetween(), k, {})
  {
    ChainSound(versions, {});
    assert k == "a" || k == "b" || k == "c";
    SoundGrounded(NullBetween(), versions, k, {});
  }

  lemma {:induction false} MiddleOverridden()
    requires Grounded(NullBetween(), "a", {})
    ensures C.Overridden(NullBetween(), "b")
  {
    var ps := NullBetween();
    hide Grounded;
    assert ps["c"].inherits[0] == "b" && ps["b"].inherits[0] == "a";
    assert C.IsChild(ps, "c", "b");
    assert C.Conditioned(ps, "a");
  }

  /** These presets have no fault, but the null condition of the middle one does not last: once it has been visited
      again for its child, the condition that it was to switch off is back. */
  lemma {:induction false} NullBetweenLost(versions: Versions)
    ensures Faultless(NullBetween(), versions) && C.AllGroundedIn(NullBetween(), ["a", "b", "c"])
    ensures C.Overridden(NullBetween(), "b")
    ensures C.VisitAll(NullBetween(), ["a", "b", "c"], 3)["b"].Given? && C.Intended(NullBetween(), "b", {}).None?
  {
    var order := ["a", "b", "c"];
    hide Sound, Faultless, Grounded, HasCycle, HasInvalid, HasUserParent;
    forall k | k in NullBetween() ensures Sound(NullBetween(), versions, k, {}) && Grounded(NullBetween(), k, {}) {
      NullBetweenSound(versions, k);
    }
    assert order[0] == "a" && order[1] == "b" && order[2] == "c";
    hide NullBetween;
    SoundFaultless(NullBetween(), versions);
    MakeFaultless(NullBetween(), versions);
    MiddleOverridden();
    C.OverriddenLost(NullBetween(), order, "b");
  }

  lemma MakeFaultless(orig: Presets, versions: Versions)
    requires !HasCycle(orig) && !HasUserParent(orig) && !HasInvalid(orig, versions)
    ensures Faultless(orig, versions)
  {
  }

  // ---- the resolver ----

  class PresetsFile {
    var presets: Presets
    const versions: Versions

    constructor (presets: Presets, versions: Versions)
      ensures this.presets == presets && this.versions == versions
    {
      this.presets := presets;
      this.versions := versions;
    }

    /** Visits presets[k] on behalf of the presets in the trail; their marks are passed by value, so that
        a preset found sound is visited again for every child that inherits from it. */
    method VisitPreset(k: string, cycleStatus: map<string, CycleStatus>, ghost orig: Presets, ghost trail: seq<string>)
      returns (r: ReadFileResult)
      requires k in orig && Merging(orig, presets, Collect(trail)) && Trail(orig, trail + [k])
      requires Marked(orig, cycleStatus, trail, k)
      requires cycleStatus[k].Verified? ==> Visited(orig, presets, presets, versions, Collect(trail), k, ReadOk)
      requires cycleStatus[k].Verified? ==> ConditionsVisited(orig, presets, presets, Collect(trail), k)
      modifies this`presets
      ensures Visited(orig, old(presets), presets, versions, Collect(trail), k, r)
      ensures r.ReadOk? ==> ConditionsVisited(orig, old(presets), presets, Collect(trail), k)
      decreases orig.Keys - Collect(trail), 1
    {
      match cycleStatus[presets[k].name] {
        case InProgress =>
          TrailCycle(orig, trail, k);
          return CyclicPresetInheritance;
        case Verified => return ReadOk;
        case Unvisited =>
      }
      var marks := cycleStatus[k := InProgress];
      if "" in presets[k].environment {
        EmptyFound(orig, presets, versions, Collect(trail), k);
        return InvalidPreset;
      }
      NoEmptyFound(orig, presets, Collect(trail), k);
      r := MergeParents(k, marks, orig, trail);
      if !r.ReadOk? {
        return;
      }
      ConditionsEnd(orig, old(presets), presets, Collect(trail), k);
      DropKeeps(orig, old(presets), presets, versions, Collect(trail), k, |orig[k].inherits|);
      presets := presets[k := presets[k].(condition := DropNull(presets[k].condition))];
      if !VisitPresetAfterInherit(presets[k], GetVersion(versions, presets[k])) {
        AllParentsMerged(orig, old(presets), presets, versions, Collect(trail), k);
        BadFound(orig, presets, versions, k);
        return InvalidPreset;
      }
      VisitEnds(orig, old(presets), presets, versions, Collect(trail), k);
      marks := marks[k := Verified];
    }

    /** Merges the parents of presets[k] into it, one after another, visiting each first. */
    method MergeParents(k: string, marks: map<string, CycleStatus>, ghost orig: Presets, ghost trail: seq<string>)
      returns (r: ReadFileResult)
      requires k in presets && k in orig && k !in trail && Merging(orig, presets, Collect(trail)) &&
        Trail(orig, trail + [k])
      requires "" !in presets[k].environment && !EmptyVariable(orig, k)
      requires marks.Keys == orig.Keys
      requires forall j :: j in orig ==> marks[j] == (if j in trail + [k] then InProgress else Unvisited)
      modifies this`presets
      ensures r.ReadOk? ==> ParentsMerged(orig, old(presets), presets, versions, Collect(trail), k, |orig[k].inherits|)
      ensures r.ReadOk? ==> ConditionsMerged(orig, old(presets), presets, Collect(trail), k, |orig[k].inherits|)
      ensures !r.ReadOk? ==> Justified(orig, versions, r)
      decreases orig.Keys - Collect(trail), 0
    {
      hide *;
      CollectMore(trail, k);
      ParentsBegin(orig, presets, versions, Collect(trail), k);
      ConditionsBegin(orig, presets, Collect(trail), k);
      var inherits := presets[k].inherits;
      var i := 0;
      while i < |inherits|
        invariant 0 <= i <= |inherits|
        invariant ParentsMerged(orig, old(presets), presets, versions, Collect(trail), k, i)
        invariant ConditionsMerged(orig, old(presets), presets, Collect(trail), k, i)
      {
        var p := inherits[i];
        ParentsKeep(orig, old(presets), presets, versions, Collect(trail), k, i);
        if p !in presets {
          MissingFound(orig, versions, k, i);
          return InvalidPreset;
        }
        if !presets[k].user && presets[p].user {
          UserFound(orig, versions, k, i);
          return UserPresetInheritance;
        }
        ParentOf(orig, k, i);
        TrailMore(orig, trail, k, p);
        MarksPassed(orig, marks, trail, k, p);
        ghost var before := presets;
        r := VisitPreset(p, marks, orig, trail + [k]);
        if !r.ReadOk? {
          return;
        }
        NoUserFound(orig, k, i);
        ParentVisited(orig, old(presets), before, presets, versions, Collect(trail), k, i);
        ConditionsNext(orig, old(presets), before, presets, Collect(trail), k, i);
        presets := presets[k := Merge(presets[k], presets[p])];
        i := i + 1;
      }
      return ReadOk;
    }

    /** Resolves the inheritance of all presets, taking them in the given order. */
    method ComputePresetInheritance(order: seq<string>) returns (r: ReadFileResult)
      requires forall k :: k in order <==> k in presets
      requires C.Distinct(order) && forall k :: k in presets ==> presets[k].name == k
      modifies this`presets
      ensures Justified(old(presets), versions, r)
      ensures r.ReadOk? <==> Faultless(old(presets), versions)
      ensures r.ReadOk? ==> InheritanceSolved(old(presets), presets)
      ensures r.ReadOk? ==> forall k :: k in old(presets) ==> Complete(old(presets), k, presets[k])
      ensures r.ReadOk? ==> forall k :: k in presets ==>
        VisitPresetAfterInherit(presets[k], GetVersion(versions, presets[k]))
      ensures r.ReadOk? ==> forall k :: !WrongByItself(old(presets), versions, k)
      ensures r.InvalidPreset? ==> exists k :: k in old(presets) && WrongByItself(old(presets), versions, k)
      ensures r.ReadOk? ==> ConditionsDone(old(presets), presets, order)
      ensures r.ReadOk? ==> (ConditionsRight(old(presets), presets) <==> C.NoneOverridden(old(presets)))
    {
      ghost var orig := presets;
      hide Complete; hide InheritanceSolved; hide VisitPresetAfterInherit; hide Sound; hide Finished; hide AllSound;
      hide Steps, HasCycle, HasUserParent, HasInvalid, C.Distinct, ConditionsRight, ConditionsDone, WrongByItself;
      ConditionsStart(orig, order);
      hide ConditionsUpTo, ConditionsVisited;
      var cycleStatus: map<string, CycleStatus> := map k | k in presets :: Unvisited;
      var i := 0;
      while i < |order|
        invariant 0 <= i <= |order|
        invariant VisitedAll(orig, presets, versions, order, i)
        invariant ConditionsUpTo(orig, presets, order, i)
      {
        var k := order[i];
        assert Collect([]) == {};
        ghost var before := presets;
        r := VisitPreset(k, cycleStatus, orig, []);
        if !r.ReadOk? {
          if r.InvalidPreset? {
            SomethingWrong(orig, versions);
          }
          return;
        }
        VisitedNext(orig, before, presets, versions, order, i);
        ConditionsFurther(orig, before, presets, order, i);
        i := i + 1;
      }
      AllFinished(orig, presets, versions, order);
      SoundFaultless(orig, versions);
      ConditionsSettled(orig, presets, order);
      NothingWrong(orig, presets, versions);
      return ReadOk;
    }
  }
}
