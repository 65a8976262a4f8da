/** Which components can be linearized: none with a strong cycle, but not all without one either. */
module StrongCycles {
  import opened Graphs
  import opened TarjanWalk
  import opened ComponentGraph
  import opened ComponentTheory
  import opened StrongWalks

  lemma {:induction false} JoinWalks(g: Graph, comp: seq<int>, c: int, r: int, v: Steps, w: Steps)
    requires IsStrongWalk(g, comp, c, r, v) && IsStrongWalk(g, comp, c, EndOf(g, r, v), w)
    ensures IsStrongWalk(g, comp, c, r, v + w) && EndOf(g, r, v + w) == EndOf(g, EndOf(g, r, v), w)
    decreases |w|
  {
    if |w| == 0 {
      assert v + w == v;
    } else {
      var init := w[..|w| - 1];
      JoinWalks(g, comp, c, r, v, init);
      assert (v + w)[..|v + w| - 1] == v + init;
    }
  }

  /** Every node on a strong walk strongly reaches its end. */
  lemma {:induction false} NodeReachesEnd(g: Graph, comp: seq<int>, c: int, r: int, w: Steps, k: int)
    requires IsStrongWalk(g, comp, c, r, w) && 0 <= k < |w|
    ensures StrongReach(g, comp, c, w[k].0, EndOf(g, r, w))
    decreases |w|
  {
    var init := w[..|w| - 1];
    var last := w[|w| - 1];
    if k == |w| - 1 {
      assert IsStrongWalk(g, comp, c, last.0, []) && EndOf(g, last.0, []) == last.0;
      ExtendWalk(g, comp, c, last.0, [], last.0, last.1);
      assert EndOf(g, last.0, [] + [(last.0, last.1)]) == EndOf(g, r, w);
    } else {
      NodeReachesEnd(g, comp, c, r, init, k);
      var v :| IsStrongWalk(g, comp, c, w[k].0, v) && EndOf(g, w[k].0, v) == last.0;
      ExtendWalk(g, comp, c, w[k].0, v, last.0, last.1);
      assert EndOf(g, w[k].0, v + [(last.0, last.1)]) == EndOf(g, r, w);
    }
  }

  lemma StrongReachTrans(g: Graph, comp: seq<int>, c: int, x: int, y: int, z: int)
    requires StrongReach(g, comp, c, x, y) && StrongReach(g, comp, c, y, z)
    ensures StrongReach(g, comp, c, x, z)
  {
    var v :| IsStrongWalk(g, comp, c, x, v) && EndOf(g, x, v) == y;
    var w :| IsStrongWalk(g, comp, c, y, w) && EndOf(g, y, w) == z;
    JoinWalks(g, comp, c, x, v, w);
  }

  /** b is the last member that strongly reaches r. */
  ghost predicate LastReaching(g: Graph, comp: seq<int>, c: int, members: NodeList, r: int, b: int) {
    b in members && StrongReach(g, comp, c, b, r) &&
    forall m :: m in members && m > b ==> !StrongReach(g, comp, c, m, r)
  }

  lemma {:induction false} SomeLastReaching(g: Graph, comp: seq<int>, c: int, members: NodeList, r: int, k: int)
    returns (b: int)
    requires Ascending(members) && 0 <= k < |members| && StrongReach(g, comp, c, members[k], r)
    ensures LastReaching(g, comp, c, members, r, b)
    decreases |members| - k
  {
    if n :| k < n < |members| && StrongReach(g, comp, c, members[n], r) {
      b := SomeLastReaching(g, comp, c, members, r, n);
    } else {
      b := members[k];
    }
  }

  lemma AvoidsAbove(g: Graph, comp: seq<int>, c: int, members: NodeList, r: int, b: int, w: Steps)
    requires LastReaching(g, comp, c, members, r, b) && IsStrongWalk(g, comp, c, b, w) && EndOf(g, b, w) == r
    ensures Avoids(w, ReachedFromAbove(g, comp, c, members, b))
  {
    forall k | 0 <= k < |w| ensures w[k].0 !in ReachedFromAbove(g, comp, c, members, b) {
      NodeReachesEnd(g, comp, c, b, w, k);
      if w[k].0 in ReachedFromAbove(g, comp, c, members, b) {
        var m :| m in members && m > b && StrongReach(g, comp, c, m, w[k].0);
        StrongReachTrans(g, comp, c, m, w[k].0, r);
      }
    }
  }

  /** A component with a strong cycle is never linearizable. */
  lemma CycleNotLinearizable(g: Graph, comp: seq<int>, c: int, members: NodeList, r: int, w: Steps)
    requires Ascending(members) && r in members && |w| > 0
    requires IsStrongWalk(g, comp, c, r, w) && EndOf(g, r, w) == r
    ensures !Linearizable(g, comp, c, members)
  {
    var k :| 0 <= k < |members| && members[k] == r;
    assert IsStrongWalk(g, comp, c, r, []) && EndOf(g, r, []) == r;
    var b := SomeLastReaching(g, comp, c, members, r, k);
    var v :| IsStrongWalk(g, comp, c, b, v) && EndOf(g, b, v) == r;
    JoinWalks(g, comp, c, b, v, w);
    AvoidsAbove(g, comp, c, members, r, b, v);
    AvoidsAbove(g, comp, c, members, r, b, v + w);
    assert |v + w| > |v|;
    assert SameEnd(g, comp, c, b, ReachedFromAbove(g, comp, c, members, b), v, v + w);
  }

  // ---- a component without a strong cycle that is refused all the same ----

  /** Node 3 needs 1 and 2, both of which need 0; the way back to 3 is weak. */
  const DIAMOND: Graph := [
    [Edge(3, false, false)],
    [Edge(0, true, false)],
    [Edge(0, true, false)],
    [Edge(1, true, false), Edge(2, true, false)]]

  const ONE_MAP: seq<int> := [0, 0, 0, 0]
  const ONE_LIST: NodeList := [0, 1, 2, 3]

  /** A graph of four nodes that is one component, with the walks that show it. */
  lemma FourNodes(g: Graph, p: seq<int>, q: seq<int>)
    requires WellFormed(g) && |g| == 4 && IsWalk(g, p) && IsWalk(g, q)
    requires |p| == 4 && p[0] == 0 && p[3] == 0 && |q| == 4 && q[0] == 0 && q[3] == 0
    requires forall x :: 0 <= x < 4 ==> x in p || x in q
    ensures Decomposition(g, ONE_MAP, [ONE_LIST]) && IsComponentGraph(g, ONE_MAP, [ONE_LIST], [[]])
  {
    forall x | Node(g, x) ensures Reach(g, 0, x) && Reach(g, x, 0) {
      OnClosedWalk(g, if x in p then p else q, x);
    }
    assert ONE_MAP == OneMap(4) && ONE_LIST == OneList(4);
    OneComponent(g);
  }

  lemma OnClosedWalk(g: Graph, p: seq<int>, x: int)
    requires IsWalk(g, p) && x in p && p[0] == p[|p| - 1]
    ensures Reach(g, p[0], x) && Reach(g, x, p[0])
  {
    var k :| 0 <= k < |p| && p[k] == x;
    var front, back := p[..k + 1], p[k..];
    forall m | 0 <= m < |front| - 1 ensures HasEdge(g, front[m], front[m + 1]) {
      assert HasEdge(g, p[m], p[m + 1]);
    }
    forall m | 0 <= m < |back| - 1 ensures HasEdge(g, back[m], back[m + 1]) {
      assert HasEdge(g, p[k + m], p[k + m + 1]);
    }
    assert IsWalk(g, front) && IsWalk(g, back);
  }

  lemma DiamondComponent()
    ensures Decomposition(DIAMOND, ONE_MAP, [ONE_LIST]) && IsComponentGraph(DIAMOND, ONE_MAP, [ONE_LIST], [[]])
  {
    var g: Graph := DIAMOND;
    assert g[0][0].dest == 3 && g[3][0].dest == 1 && g[3][1].dest == 2 && g[1][0].dest == 0 && g[2][0].dest == 0;
    assert HasEdge(g, 0, 3) && HasEdge(g, 3, 1) && HasEdge(g, 3, 2) && HasEdge(g, 1, 0) && HasEdge(g, 2, 0);
    FourNodes(g, [0, 3, 1, 0], [0, 3, 2, 0]);
  }

  lemma {:induction false} DiamondWalk(r: int, w: Steps)
    requires IsStrongWalk(DIAMOND, ONE_MAP, 0, r, w) && |w| > 0
    ensures EndOf(DIAMOND, r, w) < r
    decreases |w|
  {
    var init := w[..|w| - 1];
    if |init| > 0 {
      DiamondWalk(r, init);
    }
  }

  /** The two strong paths meet in node 0, so the component is refused although it has no strong cycle. */
  lemma DiamondRefused()
    ensures Decomposition(DIAMOND, ONE_MAP, [ONE_LIST]) && IsComponentGraph(DIAMOND, ONE_MAP, [ONE_LIST], [[]])
    ensures !Linearizable(DIAMOND, ONE_MAP, 0, ONE_LIST)
    ensures forall r, w :: IsStrongWalk(DIAMOND, ONE_MAP, 0, r, w) && |w| > 0 ==> EndOf(DIAMOND, r, w) != r
  {
    DiamondComponent();
    hide Decomposition, IsComponentGraph;
    var left := [(3, 0)] + [(1, 0)];
    var right := [(3, 1)] + [(2, 0)];
    ExtendWalk(DIAMOND, ONE_MAP, 0, 3, [], 3, 0);
    assert [] + [(3, 0)] == [(3, 0)];
    ExtendWalk(DIAMOND, ONE_MAP, 0, 3, [(3, 0)], 1, 0);
    ExtendWalk(DIAMOND, ONE_MAP, 0, 3, [], 3, 1);
    assert [] + [(3, 1)] == [(3, 1)];
    ExtendWalk(DIAMOND, ONE_MAP, 0, 3, [(3, 1)], 2, 0);
    var above := ReachedFromAbove(DIAMOND, ONE_MAP, 0, ONE_LIST, 3);
    assert above == {} by {
      assert forall m :: m in ONE_LIST ==> m <= 3;
    }
    assert left[0] != right[0];
    assert SameEnd(DIAMOND, ONE_MAP, 0, 3, above, left, right);
    assert 3 in ONE_LIST;
    forall r, w | IsStrongWalk(DIAMOND, ONE_MAP, 0, r, w) && |w| > 0 ensures EndOf(DIAMOND, r, w) != r {
      DiamondWalk(r, w);
    }
  }

  // ---- the same component under another numbering, accepted ----

  /** The diamond with its nodes numbered the other way round: node 0 needs 1 and 2, both of which need 3. */
  const RENUMBERED: Graph := [
    [Edge(1, true, false), Edge(2, true, false)],
    [Edge(3, true, false)],
    [Edge(3, true, false)],
    [Edge(0, false, false)]]

  lemma RenumberedComponent()
    ensures Decomposition(RENUMBERED, ONE_MAP, [ONE_LIST]) && IsComponentGraph(RENUMBERED, ONE_MAP, [ONE_LIST], [[]])
  {
    var g: Graph := RENUMBERED;
    assert g[0][0].dest == 1 && g[0][1].dest == 2 && g[1][0].dest == 3 && g[2][0].dest == 3 && g[3][0].dest == 0;
    assert HasEdge(g, 0, 1) && HasEdge(g, 0, 2) && HasEdge(g, 1, 3) && HasEdge(g, 2, 3) && HasEdge(g, 3, 0);
    FourNodes(g, [0, 1, 3, 0], [0, 2, 3, 0]);
  }

  /** Where all strong edges of r lead into e, a walk from r that avoids e has at most one step. */
  lemma {:induction false} OneStep(g: Graph, comp: seq<int>, c: int, r: int, e: set<int>, w: Steps)
    requires IsStrongWalk(g, comp, c, r, w) && Avoids(w, e)
    requires forall k :: StrongStep(g, comp, c, r, k) ==> g[r][k].dest in e
    ensures |w| <= 1 && (|w| == 1 ==> w[0].0 == r && StrongStep(g, comp, c, r, w[0].1))
    decreases |w|
  {
    if |w| > 0 {
      var init := w[..|w| - 1];
      OneStep(g, comp, c, r, e, init);
      assert w == init + [w[|w| - 1]];
    }
  }

  lemma NoMeetingAt(g: Graph, comp: seq<int>, c: int, r: int, e: set<int>)
    requires forall k :: StrongStep(g, comp, c, r, k) ==> g[r][k].dest in e && g[r][k].dest != r
    requires forall j, k :: StrongStep(g, comp, c, r, j) && StrongStep(g, comp, c, r, k) && j != k ==>
               g[r][j].dest != g[r][k].dest
    ensures !Meeting(g, comp, c, r, e)
  {
    forall v, w ensures !SameEnd(g, comp, c, r, e, v, w) {
      if IsStrongWalk(g, comp, c, r, v) && IsStrongWalk(g, comp, c, r, w) && Avoids(v, e) && Avoids(w, e)
         && EndOf(g, r, v) == EndOf(g, r, w) {
        OneEnd(g, comp, c, r, e, v, w);
      }
    }
  }

  lemma OneEnd(g: Graph, comp: seq<int>, c: int, r: int, e: set<int>, v: Steps, w: Steps)
    requires forall k :: StrongStep(g, comp, c, r, k) ==> g[r][k].dest in e && g[r][k].dest != r
    requires forall j, k :: StrongStep(g, comp, c, r, j) && StrongStep(g, comp, c, r, k) && j != k ==>
               g[r][j].dest != g[r][k].dest
    requires IsStrongWalk(g, comp, c, r, v) && IsStrongWalk(g, comp, c, r, w) && Avoids(v, e) && Avoids(w, e)
    requires EndOf(g, r, v) == EndOf(g, r, w)
    ensures v == w
  {
    OneStep(g, comp, c, r, e, v);
    OneStep(g, comp, c, r, e, w);
  }

  lemma RenumberedAbove(r: int, x: int)
    requires 0 <= r < x < 4
    ensures x in ReachedFromAbove(RENUMBERED, ONE_MAP, 0, ONE_LIST, r)
  {
    assert IsStrongWalk(RENUMBERED, ONE_MAP, 0, x, []) && EndOf(RENUMBERED, x, []) == x;
    assert StrongReach(RENUMBERED, ONE_MAP, 0, x, x);
    assert ONE_LIST[x] == x && x in ONE_LIST;
    assert FromAbove(RENUMBERED, ONE_MAP, 0, ONE_LIST, r, x);
  }

  /** Two strong walks from node 0 still meet, in node 3, but the searches from 1 and 2 have finished it before:
      whether a component is accepted depends on how its targets are numbered. */
  lemma RenumberedAccepted()
    ensures Decomposition(RENUMBERED, ONE_MAP, [ONE_LIST]) && IsComponentGraph(RENUMBERED, ONE_MAP, [ONE_LIST], [[]])
    ensures Meeting(RENUMBERED, ONE_MAP, 0, 0, {})
    ensures Linearizable(RENUMBERED, ONE_MAP, 0, ONE_LIST)
  {
    RenumberedComponent();
    RenumberedMeeting();
    hide Decomposition, IsComponentGraph;
    forall r | r in ONE_LIST
      ensures !Meeting(RENUMBERED, ONE_MAP, 0, r, ReachedFromAbove(RENUMBERED, ONE_MAP, 0, ONE_LIST, r))
    {
      forall x | r < x < 4 ensures x in ReachedFromAbove(RENUMBERED, ONE_MAP, 0, ONE_LIST, r) {
        RenumberedAbove(r, x);
      }
      hide ReachedFromAbove, Meeting;
      NoMeetingAt(RENUMBERED, ONE_MAP, 0, r, ReachedFromAbove(RENUMBERED, ONE_MAP, 0, ONE_LIST, r));
    }
  }

  lemma RenumberedMeeting()
    ensures Meeting(RENUMBERED, ONE_MAP, 0, 0, {})
  {
    var left := [(0, 0)] + [(1, 0)];
    var right := [(0, 1)] + [(2, 0)];
    ExtendWalk(RENUMBERED, ONE_MAP, 0, 0, [], 0, 0);
    assert [] + [(0, 0)] == [(0, 0)];
    ExtendWalk(RENUMBERED, ONE_MAP, 0, 0, [(0, 0)], 1, 0);
    ExtendWalk(RENUMBERED, ONE_MAP, 0, 0, [], 0, 1);
    assert [] + [(0, 1)] == [(0, 1)];
    ExtendWalk(RENUMBERED, ONE_MAP, 0, 0, [(0, 1)], 2, 0);
    assert left[0] != right[0];
    assert SameEnd(RENUMBERED, ONE_MAP, 0, 0, {}, left, right);
  }
}
