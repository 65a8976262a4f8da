/** Whole runs: the guarantees of a complete link line, before and after the final filter. */
module LinkLine {
  import Collections
  import opened Graphs
  import opened TarjanWalk
  import opened ComponentGraph
  import opened ComponentTheory
  import opened LinkSchedule
  import opened LinkOrder

  /** The schedule after the entries xs have been emitted, whatever they are. */
  ghost function Emit(l: Layout, xs: seq<int>): Schedule
    requires LayoutOk(l) && LineOk(l, xs)
  {
    if |xs| == 0 then Schedule(map[], [])
    else VisitEntry(l, Emit(l, xs[..|xs| - 1]), xs[|xs| - 1])
  }

  /** Every run, complete or not, keeps the pending map, the order and the count of passes in shape. */
  lemma {:induction false} EmitInvariant(l: Layout, xs: seq<int>)
    requires LayoutOk(l) && LineOk(l, xs)
    ensures Emit(l, xs).line == xs && PendingOk(l, Emit(l, xs).pending)
    ensures Settled(l, Emit(l, xs)) && Passes(l, Emit(l, xs))
  {
    hide LayoutOk, PendingOk, SettledAt, PassesAt, VisitEntry;
    if |xs| == 0 {
      EmitNothing(l);
    } else {
      var init := xs[..|xs| - 1];
      EmitInvariant(l, init);
      assert xs == init + [xs[|xs| - 1]];
      var s := Emit(l, init);
      VisitedShape(l, s, xs[|xs| - 1]);
      SettledKept(l, s, xs[|xs| - 1]);
      PassesKept(l, s, xs[|xs| - 1]);
    }
  }

  lemma EmitNothing(l: Layout)
    requires LayoutOk(l)
    ensures Emit(l, []) == Schedule(map[], [])
    ensures PendingOk(l, map[]) && Settled(l, Schedule(map[], [])) && Passes(l, Schedule(map[], []))
  {
  }

  lemma EmitOne(l: Layout, xs: seq<int>, x: int)
    requires LayoutOk(l) && LineOk(l, xs) && 0 <= x < |l.comp|
    ensures LineOk(l, xs + [x]) && Emit(l, xs + [x]) == VisitEntry(l, Emit(l, xs), x)
  {
    var t := xs + [x];
    assert t[..|t| - 1] == xs;
  }

  /** l is the layout of the constraint graph g. */
  ghost predicate LayoutFor(g: Graph, l: Layout) {
    LayoutOk(l) && Decomposition(g, l.comp, l.components) && IsComponentGraph(g, l.comp, l.components, l.cg)
  }

  /** v must follow u on the link line: u reaches v, and they are not in a cycle with each other. */
  ghost predicate MustFollow(g: Graph, u: int, v: int) {
    Node(g, u) && Node(g, v) && Reach(g, u, v) && !Reach(g, v, u)
  }

  /** After every occurrence of an entry, everything that must follow it occurs again. */
  ghost predicate SafeLine(g: Graph, line: seq<int>) {
    forall p, v :: 0 <= p < |line| && MustFollow(g, line[p], v) ==> Later(line, p, v)
  }

  /** Link-order safety of every completed run. */
  lemma CompletedLineSafe(g: Graph, l: Layout, xs: seq<int>)
    requires LayoutFor(g, l) && LineOk(l, xs) && Emit(l, xs).pending == map[]
    ensures SafeLine(g, xs)
  {
    EmitInvariant(l, xs);
    DrainedOrdered(l, Emit(l, xs));
    hide Emit, IsComponentGraph, Reach, SccsOk, ListsOk, DoneClosed;
    forall p, v | 0 <= p < |xs| && MustFollow(g, xs[p], v) ensures Later(xs, p, v) {
      ComponentReach(g, l.comp, l.components, l.cg, xs[p], v);
      SameComponent(g, l.comp, l.components, xs[p], v);
      assert OrderedAt(l, xs, p);
    }
  }

  /** The members of a cycle appear in full, as often as needed, on every completed run that touches it. */
  lemma CompletedLinePasses(g: Graph, l: Layout, xs: seq<int>, x: int)
    requires LayoutFor(g, l) && LineOk(l, xs) && Emit(l, xs).pending == map[] && x in xs
    ensures HasPasses(xs, Members(l, l.comp[x]), Need(l, l.comp[x]))
  {
    EmitInvariant(l, xs);
    DrainedPasses(l, Emit(l, xs), x);
  }

  // ---- keeping only the last occurrence of shared libraries ----

  function KeepLast(line: seq<int>, shared: seq<bool>): seq<int> {
    if |line| == 0 then []
    else if Shared(shared, line[0]) && line[0] in line[1..] then KeepLast(line[1..], shared)
    else [line[0]] + KeepLast(line[1..], shared)
  }

  predicate Shared(shared: seq<bool>, x: int) {
    0 <= x < |shared| && shared[x]
  }

  /** Nothing disappears from the line altogether, and nothing is added. */
  lemma {:induction false} KeepLastSame(line: seq<int>, shared: seq<bool>, x: int)
    ensures x in KeepLast(line, shared) <==> x in line
  {
    if |line| > 0 {
      KeepLastSame(line[1..], shared, x);
      assert line == [line[0]] + line[1..];
    }
  }

  /** A shared library is left exactly once, anything else as often as before. */
  lemma {:induction false} KeepLastCount(line: seq<int>, shared: seq<bool>, x: int)
    ensures multiset(KeepLast(line, shared))[x] ==
      if Shared(shared, x) && x in line then 1 else multiset(line)[x]
  {
    if |line| > 0 {
      KeepLastCount(line[1..], shared, x);
      assert line == [line[0]] + line[1..];
      Collections.CountAppend([line[0]], line[1..], x);
      Collections.CountAppend([line[0]], KeepLast(line[1..], shared), x);
      assert x in line[1..] <==> multiset(line[1..])[x] > 0;
    }
  }

  lemma SafeTail(g: Graph, line: seq<int>)
    requires SafeLine(g, line) && |line| > 0
    ensures SafeLine(g, line[1..])
  {
    hide MustFollow;
    var t := line[1..];
    forall p, v | 0 <= p < |t| && MustFollow(g, t[p], v) ensures Later(t, p, v) {
      assert line[p + 1] == t[p];
      assert Later(line, p + 1, v);
      var q :| 0 <= q < |line| && p + 1 < q && line[q] == v;
      assert t[q - 1] == v;
    }
  }

  /** The filtered line is as safe as the line itself. */
  lemma {:induction false} KeepLastSafe(g: Graph, line: seq<int>, shared: seq<bool>)
    requires SafeLine(g, line)
    ensures SafeLine(g, KeepLast(line, shared))
  {
    if |line| > 0 {
      SafeTail(g, line);
      KeepLastSafe(g, line[1..], shared);
      var rest := KeepLast(line[1..], shared);
      var kept := [line[0]] + rest;
      hide MustFollow, KeepLast;
      forall p, v | 0 <= p < |kept| && MustFollow(g, kept[p], v) ensures Later(kept, p, v) {
        if p == 0 {
          assert Later(line, 0, v);
          var q :| 0 <= q < |line| && 0 < q && line[q] == v;
          assert line[1..][q - 1] == v;
          KeepLastSame(line[1..], shared, v);
          var r :| 0 <= r < |rest| && rest[r] == v;
          assert kept[r + 1] == v;
        } else {
          assert kept[p] == rest[p - 1];
          assert Later(rest, p - 1, v);
          var q :| 0 <= q < |rest| && p - 1 < q && rest[q] == v;
          assert kept[q + 1] == v;
        }
      }
    }
  }

  // ---- passes survive the filter when no member is shared ----

  /** What the filter leaves of the stretch a when b follows it. */
  function Filtered(a: seq<int>, b: seq<int>, shared: seq<bool>): seq<int> {
    if |a| == 0 then []
    else if Shared(shared, a[0]) && a[0] in a[1..] + b then Filtered(a[1..], b, shared)
    else [a[0]] + Filtered(a[1..], b, shared)
  }

  lemma {:induction false} KeepLastFiltered(line: seq<int>, shared: seq<bool>)
    ensures KeepLast(line, shared) == Filtered(line, [], shared)
  {
    if |line| > 0 {
      KeepLastFiltered(line[1..], shared);
      assert line[1..] + [] == line[1..];
    }
  }

  lemma {:induction false} FilteredSplit(a: seq<int>, b: seq<int>, c: seq<int>, shared: seq<bool>)
    ensures Filtered(a + b, c, shared) == Filtered(a, b + c, shared) + Filtered(b, c, shared)
  {
    if |a| == 0 {
      assert a + b == b;
    } else {
      var t := a[1..];
      FilteredSplit(t, b, c, shared);
      var ab := a + b;
      assert ab[0] == a[0] && ab[1..] == t + b;
      assert (t + b) + c == t + (b + c);
      var front, back := Filtered(t, b + c, shared), Filtered(b, c, shared);
      assert [a[0]] + (front + back) == ([a[0]] + front) + back;
    }
  }

  lemma {:induction false} FilteredKeeps(a: seq<int>, b: seq<int>, shared: seq<bool>, x: int)
    requires x in a && !Shared(shared, x)
    ensures x in Filtered(a, b, shared)
  {
    if a[0] != x {
      assert a == [a[0]] + a[1..];
      FilteredKeeps(a[1..], b, shared, x);
    }
  }

  lemma NoPass(line: seq<int>, m: set<int>, k: int)
    requires k <= 0
    ensures HasPasses(line, m, k)
  {
  }

  lemma LastCut(line: seq<int>, m: set<int>, k: int) returns (cut: int)
    requires HasPasses(line, m, k) && k > 0
    ensures 0 <= cut <= |line| && Covers(line[cut..], m) && HasPasses(line[..cut], m, k - 1)
  {
    cut :| 0 <= cut <= |line| && Covers(line[cut..], m) && HasPasses(line[..cut], m, k - 1);
  }

  lemma {:induction false} FilteredPasses(a: seq<int>, b: seq<int>, shared: seq<bool>, m: set<int>, k: int)
    requires HasPasses(a, m, k) && forall x :: x in m ==> !Shared(shared, x)
    ensures HasPasses(Filtered(a, b, shared), m, k)
    decreases k
  {
    hide Filtered, HasPasses;
    if k <= 0 {
      NoPass(Filtered(a, b, shared), m, k);
    } else {
      var cut := LastCut(a, m, k);
      var p, c := a[..cut], a[cut..];
      assert a == p + c;
      FilteredPasses(p, c + b, shared, m, k - 1);
      LastPass(p, c, b, shared, m, k);
    }
  }

  lemma LastPass(p: seq<int>, c: seq<int>, b: seq<int>, shared: seq<bool>, m: set<int>, k: int)
    requires k > 0 && HasPasses(Filtered(p, c + b, shared), m, k - 1) && Covers(c, m)
    requires forall x :: x in m ==> !Shared(shared, x)
    ensures HasPasses(Filtered(p + c, b, shared), m, k)
  {
    FilteredSplit(p, c, b, shared);
    forall x | x in m ensures x in Filtered(c, b, shared) {
      FilteredKeeps(c, b, shared, x);
    }
    hide Filtered, HasPasses;
    OnePassMore(Filtered(p, c + b, shared), Filtered(c, b, shared), m, k);
  }

  lemma OnePassMore(front: seq<int>, back: seq<int>, m: set<int>, k: int)
    requires k > 0 && HasPasses(front, m, k - 1) && Covers(back, m)
    ensures HasPasses(front + back, m, k)
  {
    assert (front + back)[|front|..] == back && (front + back)[..|front|] == front;
  }

  /** The finished line still makes all the passes over a cycle of unshared libraries. */
  lemma KeepLastPasses(line: seq<int>, shared: seq<bool>, m: set<int>, k: int)
    requires HasPasses(line, m, k) && forall x :: x in m ==> !Shared(shared, x)
    ensures HasPasses(KeepLast(line, shared), m, k)
  {
    KeepLastFiltered(line, shared);
    FilteredPasses(line, [], shared, m, k);
  }
}
