/** Sorting the edges of a node by destination and keeping one edge for each destination. */
module EdgeLists {
  import opened Graphs
  import opened LinkSearch

  ghost predicate ByDest(edges: EdgeList) {
    forall j, k :: 0 <= j < k < |edges| ==> edges[j].dest <= edges[k].dest
  }

  /** One edge for each destination, in ascending order. */
  ghost predicate OnePerDest(edges: EdgeList) {
    forall j, k :: 0 <= j < k < |edges| ==> edges[j].dest < edges[k].dest
  }

  function InsertEdge(e: Edge, edges: EdgeList): EdgeList {
    if |edges| == 0 || e.dest <= edges[0].dest then [e] + edges
    else [edges[0]] + InsertEdge(e, edges[1..])
  }

  function SortEdges(edges: EdgeList): EdgeList {
    if |edges| == 0 then [] else InsertEdge(edges[0], SortEdges(edges[1..]))
  }

  /** The first of each run of edges to the same destination. */
  function UniqueEdges(edges: EdgeList): EdgeList {
    if |edges| == 0 then []
    else
      var n := |edges| - 1;
      UniqueEdges(edges[..n]) + (if n > 0 && edges[n - 1].dest == edges[n].dest then [] else [edges[n]])
  }

  lemma {:induction false} Inserted(e: Edge, edges: EdgeList)
    requires ByDest(edges)
    ensures ByDest(InsertEdge(e, edges))
    ensures forall x :: x in InsertEdge(e, edges) <==> x == e || x in edges
  {
    if |edges| > 0 && e.dest > edges[0].dest {
      var rest := InsertEdge(e, edges[1..]);
      Inserted(e, edges[1..]);
      assert edges == [edges[0]] + edges[1..];
      assert forall k :: 0 <= k < |rest| ==> rest[k] in rest;
    }
  }

  lemma {:induction false} SortedEdges(edges: EdgeList)
    ensures ByDest(SortEdges(edges)) && forall x :: x in SortEdges(edges) <==> x in edges
  {
    if |edges| > 0 {
      SortedEdges(edges[1..]);
      Inserted(edges[0], SortEdges(edges[1..]));
      assert edges == [edges[0]] + edges[1..];
    }
  }

  lemma {:induction false} UniqueOrdered(edges: EdgeList)
    requires ByDest(edges)
    ensures OnePerDest(UniqueEdges(edges)) && (|edges| == 0 <==> |UniqueEdges(edges)| == 0)
    ensures |edges| > 0 ==> UniqueEdges(edges)[|UniqueEdges(edges)| - 1].dest == edges[|edges| - 1].dest
  {
    if |edges| > 0 {
      UniqueOrdered(edges[..|edges| - 1]);
    }
  }

  lemma {:induction false} UniqueDests(edges: EdgeList, v: int)
    requires ByDest(edges)
    ensures HasDest(UniqueEdges(edges), v) <==> HasDest(edges, v)
  {
    if |edges| > 0 {
      var n := |edges| - 1;
      UniqueDests(edges[..n], v);
      assert edges == edges[..n] + [edges[n]];
      HasDestAppend(edges[..n], [edges[n]], v);
      HasDestAppend(UniqueEdges(edges[..n]), if n > 0 && edges[n - 1].dest == edges[n].dest then [] else [edges[n]], v);
      if n > 0 && edges[n - 1].dest == edges[n].dest && HasDest([edges[n]], v) {
        assert edges[..n][n - 1].dest == v;
      }
    }
  }

  lemma {:induction false} UniqueFrom(edges: EdgeList, e: Edge)
    requires e in UniqueEdges(edges)
    ensures e in edges
  {
    if e in UniqueEdges(edges[..|edges| - 1]) {
      UniqueFrom(edges[..|edges| - 1], e);
    }
  }

  /** Cleaning keeps all destinations, each once, in ascending order. */
  lemma Cleaned(edges: EdgeList)
    ensures OnePerDest(UniqueEdges(SortEdges(edges)))
    ensures forall v :: HasDest(UniqueEdges(SortEdges(edges)), v) <==> HasDest(edges, v)
    ensures forall e :: e in UniqueEdges(SortEdges(edges)) ==> e in edges
  {
    var s := SortEdges(edges);
    SortedEdges(edges);
    UniqueOrdered(s);
    hide ByDest, OnePerDest, UniqueEdges, SortEdges;
    forall v ensures HasDest(UniqueEdges(s), v) <==> HasDest(edges, v) {
      UniqueDests(s, v);
      SameDests(s, edges, v);
    }
    forall e | e in UniqueEdges(s) ensures e in edges {
      UniqueFrom(s, e);
    }
  }

  lemma SameDests(a: EdgeList, b: EdgeList, v: int)
    requires forall e :: e in a <==> e in b
    ensures HasDest(a, v) <==> HasDest(b, v)
  {
    if HasDest(a, v) {
      var k :| 0 <= k < |a| && a[k].dest == v;
      assert a[k] in b;
    }
    if HasDest(b, v) {
      var k :| 0 <= k < |b| && b[k].dest == v;
      assert b[k] in a;
    }
  }
}
