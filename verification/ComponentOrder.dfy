/** Topological numbering of a component graph, as the source's depth-first search assigns it. */
module ComponentOrder {
  import opened Collections
  import opened Graphs
  import opened LinkSchedule

  /** The component numbering while the search is running: `busy` are the components being visited. */
  ghost predicate Numbering(cg: Graph, visited: seq<bool>, order: seq<int>, id: int, busy: set<int>) {
    && WellFormed(cg) && |visited| == |order| == |cg|
    && NumbersFrom(order, id) && EdgesUp(cg, order) && Marks(visited, order, busy)
  }

  /** The numbers given are distinct and fill the range from id up. */
  ghost predicate NumbersFrom(order: seq<int>, id: int) {
    && 0 <= id <= |order|
    && (forall c :: 0 <= c < |order| ==> order[c] == |order| || id <= order[c] < |order|)
    && (forall c, d :: 0 <= c < d < |order| && order[c] < |order| ==> order[c] != order[d])
    && |Numbered(order)| == |order| - id
  }

  ghost predicate EdgesUp(cg: Graph, order: seq<int>)
    requires |order| == |cg|
  {
    forall c, d :: HasEdge(cg, c, d) && Node(cg, c) && Node(cg, d) && order[c] < |cg| ==> order[c] < order[d] < |cg|
  }

  ghost predicate Marks(visited: seq<bool>, order: seq<int>, busy: set<int>) {
    && |visited| == |order|
    && (forall c :: 0 <= c < |order| ==> (visited[c] <==> order[c] < |order| || c in busy))
    && (forall c :: c in busy ==> 0 <= c < |order| && order[c] == |order|)
  }

  lemma MarkBusy(cg: Graph, visited: seq<bool>, order: seq<int>, id: int, busy: set<int>, c: int)
    requires Numbering(cg, visited, order, id, busy) && Node(cg, c) && c !in busy
    ensures |visited| == |order| == |cg| && WellFormed(cg)
    ensures visited[c] ==> order[c] < |cg|
    ensures !visited[c] ==> Numbering(cg, visited[c := true], order, id, busy + {c})
  {
    hide HasEdge;
  }

  lemma StillBusy(cg: Graph, visited: seq<bool>, order: seq<int>, id: int, busy: set<int>, c: int)
    requires Numbering(cg, visited, order, id, busy) && c in busy
    ensures Node(cg, c) && |order| == |cg| && order[c] == |cg|
  {
  }

  ghost function Numbered(order: seq<int>): set<int> {
    set c | 0 <= c < |order| && order[c] < |order|
  }

  ghost predicate Descending(cg: Graph) {
    forall c, d :: HasEdge(cg, c, d) ==> 0 <= d < c < |cg|
  }

  /** Numbers given stay; nothing else is being claimed about the rest. */
  ghost predicate NumbersKept(order: seq<int>, order': seq<int>) {
    |order'| == |order| && forall c :: 0 <= c < |order| && order[c] < |order| ==> order'[c] == order[c]
  }

  lemma NumberNext(cg: Graph, visited: seq<bool>, order: seq<int>, id: int, busy: set<int>, c: int)
    requires Numbering(cg, visited, order, id, busy + {c}) && Node(cg, c) && order[c] == |cg| && c !in busy
    requires forall d :: HasEdge(cg, c, d) ==> Node(cg, d) && order[d] < |cg|
    ensures 0 < id <= |cg| && Numbering(cg, visited, order[c := id - 1], id - 1, busy)
  {
    hide HasEdge;
    NextNumber(order, id, c);
    assert EdgesUp(cg, order[c := id - 1]) by {
      hide Marks;
      NextEdges(cg, order, id, c);
    }
  }

  lemma NextNumber(order: seq<int>, id: int, c: int)
    requires NumbersFrom(order, id) && 0 <= c < |order| && order[c] == |order|
    ensures id > 0 && NumbersFrom(order[c := id - 1], id - 1)
  {
    NumberedBound(order, c);
    assert Numbered(order[c := id - 1]) == Numbered(order) + {c};
  }

  lemma NextEdges(cg: Graph, order: seq<int>, id: int, c: int)
    requires |order| == |cg| && EdgesUp(cg, order) && NumbersFrom(order, id) && id > 0
    requires Node(cg, c) && order[c] == |cg|
    requires forall d :: HasEdge(cg, c, d) ==> Node(cg, d) && order[d] < |cg|
    ensures EdgesUp(cg, order[c := id - 1])
  {
    hide HasEdge, Numbered;
  }

  lemma NumberedBound(order: seq<int>, c: int)
    requires 0 <= c < |order| && order[c] == |order|
    ensures c !in Numbered(order) && |Numbered(order)| < |order|
  {
    var all := set x | 0 <= x < |order| && x in All(|order|);
    AllCount(|order|);
    assert all == All(|order|);
    assert Numbered(order) <= All(|order|) - {c};
    SubsetCount(Numbered(order), All(|order|) - {c});
  }

  ghost function All(n: nat): set<int> {
    if n == 0 then {} else All(n - 1) + {n - 1}
  }

  lemma {:induction false} AllCount(n: nat)
    ensures |All(n)| == n && forall x :: x in All(n) <==> 0 <= x < n
  {
    if n > 0 {
      AllCount(n - 1);
    }
  }

  lemma {:induction false} SubsetCount<T>(a: set<T>, b: set<T>)
    requires a <= b
    ensures |a| <= |b|
  {
    if a != {} {
      var x := SomeElement(a);
      SubsetCount(a - {x}, b - {x});
    }
  }

  lemma NumberingBegins(cg: Graph, visited: seq<bool>, order: seq<int>)
    requires WellFormed(cg) && |visited| == |order| == |cg|
    requires forall c :: 0 <= c < |cg| ==> !visited[c] && order[c] == |cg|
    ensures Numbering(cg, visited, order, |cg|, {})
  {
    assert Numbered(order) == {};
  }

  /** When every component has a number, the numbers are a topological permutation. */
  lemma NumberingDone(cg: Graph, visited: seq<bool>, order: seq<int>, id: int)
    requires Numbering(cg, visited, order, id, {}) && Descending(cg)
    requires forall c :: 0 <= c < |cg| ==> order[c] < |cg|
    ensures TopologicalOrder(cg, order) && id == 0
  {
    hide HasEdge;
    AllCount(|cg|);
    assert Numbered(order) == All(|cg|);
  }

  lemma NeighborsNumbered(cg: Graph, order: seq<int>, c: int)
    requires WellFormed(cg) && |order| == |cg| && Node(cg, c)
    requires forall m :: 0 <= m < |cg[c]| ==> order[cg[c][m].dest] < |cg|
    ensures forall d :: HasEdge(cg, c, d) ==> Node(cg, d) && order[d] < |cg|
  {
  }
}
