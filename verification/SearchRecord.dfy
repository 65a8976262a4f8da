/** What an algorithm that searches depth-first has to record so that it is known to follow `DepthFirst`. */
module SearchRecord {
  import opened Graphs
  import D = DepthFirst

  /** A visit of i took the set of entered nodes from `seen` to `now`, and the finished ones from `post` to `more`. */
  ghost predicate Visits(g: Graph, seen: set<int>, now: set<int>, post: seq<int>, more: seq<int>, i: int) {
    && WellFormed(g) && Node(g, i)
    && more == post + D.Visit(g, seen, i) && now == seen + D.Members(D.Visit(g, seen, i))
  }

  /** The same in the middle of the visit, when i has been entered and e of its edges have been followed. */
  ghost predicate Follows(g: Graph, seen: set<int>, now: set<int>, post: seq<int>, more: seq<int>, i: int, e: int) {
    && WellFormed(g) && Node(g, i) && 0 <= e <= |g[i]|
    && more == post + D.Follow(g, seen + {i}, i, e)
    && now == seen + {i} + D.Members(D.Follow(g, seen + {i}, i, e))
  }

  /** The first n roots have been visited. */
  ghost predicate Searches(g: Graph, roots: seq<int>, seen: set<int>, post: seq<int>, n: int) {
    && WellFormed(g) && D.AreNodes(g, roots) && 0 <= n <= |roots|
    && post == D.Search(g, roots, n) && seen == D.Members(post)
  }

  lemma {:induction false} NoneFollowed(g: Graph, seen: set<int>, post: seq<int>, i: int)
    requires WellFormed(g) && Node(g, i)
    ensures Follows(g, seen, seen + {i}, post, post, i, 0)
  {
    assert post + [] == post;
  }

  lemma {:induction false} FollowsSeen(g: Graph, seen: set<int>, now: set<int>, post: seq<int>, more: seq<int>,
                                       i: int, e: int)
    requires Follows(g, seen, now, post, more, i, e) && e < |g[i]| && g[i][e].dest in now
    ensures Follows(g, seen, now, post, more, i, e + 1)
  {
    D.FollowIs(g, seen + {i}, i, e + 1);
    hide D.Follow;
    var before := D.Follow(g, seen + {i}, i, e);
    assert before + [] == before;
  }

  lemma {:induction false} FollowsChild(g: Graph, seen: set<int>, now: set<int>, later: set<int>, post: seq<int>,
                                        more: seq<int>, yet: seq<int>, i: int, e: int)
    requires Follows(g, seen, now, post, more, i, e) && e < |g[i]| && Visits(g, now, later, more, yet, g[i][e].dest)
    ensures Follows(g, seen, later, post, yet, i, e + 1)
  {
    D.FollowIs(g, seen + {i}, i, e + 1);
    hide D.Follow, D.Visit;
    Appended(post, D.Follow(g, seen + {i}, i, e), D.Visit(g, now, g[i][e].dest));
  }

  lemma {:induction false} Appended(a: seq<int>, b: seq<int>, c: seq<int>)
    ensures (a + b) + c == a + (b + c) && D.Members(b + c) == D.Members(b) + D.Members(c)
  {
  }

  lemma {:induction false} AllFollowed(g: Graph, seen: set<int>, now: set<int>, post: seq<int>, more: seq<int>, i: int)
    requires Node(g, i) && i !in seen && Follows(g, seen, now, post, more, i, |g[i]|)
    ensures Visits(g, seen, now, post, more + [i], i)
  {
    var below := D.Follow(g, seen + {i}, i, |g[i]|);
    assert D.Visit(g, seen, i) == below + [i];
    hide D.Follow, D.Visit;
    Appended(post, below, [i]);
    assert D.Members([i]) == {i};
  }

  lemma {:induction false} NoneSearched(g: Graph, roots: seq<int>)
    requires WellFormed(g) && D.AreNodes(g, roots)
    ensures Searches(g, roots, {}, [], 0)
  {
  }

  lemma {:induction false} SearchesSeen(g: Graph, roots: seq<int>, seen: set<int>, post: seq<int>, n: int)
    requires Searches(g, roots, seen, post, n) && n < |roots| && roots[n] in seen
    ensures Searches(g, roots, seen, post, n + 1)
  {
    D.SearchIs(g, roots, n + 1);
    hide D.Search;
    assert post + [] == post;
  }

  lemma {:induction false} SearchesNext(g: Graph, roots: seq<int>, seen: set<int>, now: set<int>, post: seq<int>,
                                        more: seq<int>, n: int)
    requires Searches(g, roots, seen, post, n) && n < |roots| && Visits(g, seen, now, post, more, roots[n])
    ensures Searches(g, roots, now, more, n + 1)
  {
    D.SearchIs(g, roots, n + 1);
    hide D.Search, D.Visit;
    Appended([], post, D.Visit(g, seen, roots[n]));
  }
}
