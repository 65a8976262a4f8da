/** Small facts about sets, maps and sequences that several modules use. */
module Collections {

  datatype Option<+T> = None | Some(value: T)

  lemma SomeElement<T>(s: set<T>) returns (x: T)
    requires s != {}
    ensures x in s
  {
    x :| x in s;
  }

  lemma SomeKey<K, V>(m: map<K, V>) returns (x: K)
    requires m != map[]
    ensures x in m
  {
    x :| x in m;
  }

  lemma Associate<T>(a: seq<T>, b: seq<T>, c: seq<T>)
    ensures (a + b) + c == a + (b + c)
  {
  }

  lemma UpdateTwice<K, V>(m: map<K, V>, k: K, u: V, v: V)
    ensures m[k := u][k := v] == m[k := v]
  {
  }

  lemma UpdateRemoved<K, V>(m: map<K, V>, k: K, v: V)
    ensures m[k := v] - {k} == m - {k}
  {
  }

  lemma CountAppend<T>(a: seq<T>, b: seq<T>, e: T)
    ensures multiset(a + b)[e] == multiset(a)[e] + multiset(b)[e]
  {
  }

  lemma {:induction false} SomeLeast(s: set<int>, x: int)
    requires x in s
    ensures exists o :: o in s && forall p :: p in s ==> o <= p
    decreases s
  {
    if y :| y in s && y < x {
      var rest := s - {x};
      SomeLeast(rest, y);
      var o :| o in rest && forall p :: p in rest ==> o <= p;
      assert forall p :: p in s ==> p == x || p in rest;
      assert o in s;
    }
  }

  function Reverse<T>(a: seq<T>): (b: seq<T>)
    ensures |b| == |a| && forall k :: 0 <= k < |a| ==> b[k] == a[|a| - 1 - k]
  {
    if |a| == 0 then [] else Reverse(a[1..]) + [a[0]]
  }

  lemma ReverseCons<T>(x: T, a: seq<T>)
    ensures Reverse([x] + a) == Reverse(a) + [x]
  {
    assert ([x] + a)[1..] == a;
  }

  lemma ReverseAppend<T>(a: seq<T>, b: seq<T>)
    ensures Reverse(a + b) == Reverse(b) + Reverse(a)
  {
  }

  lemma ReverseTwice<T>(a: seq<T>)
    ensures Reverse(Reverse(a)) == a
  {
  }
}
