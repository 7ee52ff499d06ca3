/** Lexicographic order of names, and the sorted list of a finite set of keys. */
module Ordering {

  /** Code-point order of strings. */
  predicate NameLeq(a: string, b: string) {
    a == "" || (b != "" && (a[0] < b[0] || (a[0] == b[0] && NameLeq(a[1..], b[1..]))))
  }

  lemma {:induction false} NameTotal(a: string, b: string)
    ensures NameLeq(a, b) || NameLeq(b, a)
    ensures NameLeq(a, b) && NameLeq(b, a) ==> a == b
  {
    if a != "" && b != "" {
      NameTotal(a[1..], b[1..]);
      assert a == [a[0]] + a[1..] && b == [b[0]] + b[1..];
    }
  }

  lemma {:induction false} NameTransitive(a: string, b: string, c: string)
    requires NameLeq(a, b) && NameLeq(b, c)
    ensures NameLeq(a, c)
  {
    if a != "" {
      if a[0] == b[0] && b[0] == c[0] {
        NameTransitive(a[1..], b[1..], c[1..]);
      }
    }
  }

  ghost predicate TotalOrder<K(!new)>(leq: (K, K) -> bool) {
    && (forall a, b :: leq(a, b) || leq(b, a))
    && (forall a, b :: leq(a, b) && leq(b, a) ==> a == b)
    && (forall a, b, c :: leq(a, b) && leq(b, c) ==> leq(a, c))
  }

  ghost predicate Least<K>(s: set<K>, leq: (K, K) -> bool, k: K) {
    k in s && forall j :: j in s ==> leq(k, j)
  }

  lemma {:induction false} LeastExists<K(!new)>(s: set<K>, leq: (K, K) -> bool)
    requires TotalOrder(leq) && s != {}
    ensures exists k :: Least(s, leq, k)
    decreases |s|
  {
    var k :| k in s;
    if s == {k} {
      assert Least(s, leq, k);
    } else {
      LeastExists(s - {k}, leq);
      var m :| Least(s - {k}, leq, m);
      assert Least(s, leq, if leq(k, m) then k else m);
    }
  }

  /** The members of a set in increasing order. */
  ghost function Sorted<K(!new)>(s: set<K>, leq: (K, K) -> bool): (list: seq<K>)
    requires TotalOrder(leq)
    decreases |s|
  {
    if s == {} then []
    else
      LeastExists(s, leq);
      var k :| Least(s, leq, k);
      [k] + Sorted(s - {k}, leq)
  }

  /** The sorted list starts with the least member and goes on with the rest. */
  lemma SortedFirst<K(!new)>(s: set<K>, leq: (K, K) -> bool) returns (k: K)
    requires TotalOrder(leq) && s != {}
    ensures Least(s, leq, k) && Sorted(s, leq) == [k] + Sorted(s - {k}, leq)
  {
    LeastExists(s, leq);
    k :| Least(s, leq, k) && Sorted(s, leq) == [k] + Sorted(s - {k}, leq);
  }

  ghost predicate Distinct<K>(list: seq<K>) {
    forall i, j :: 0 <= i < j < |list| ==> list[i] != list[j]
  }

  ghost function Elements<K>(list: seq<K>): set<K> { set k | k in list }

  /** A list that names every key once. */
  ghost predicate Enumerates<K>(order: seq<K>, keys: set<K>) {
    Distinct(order) && Elements(order) == keys
  }

  lemma EnumeratesFront<K>(order: seq<K>, keys: set<K>)
    requires Enumerates(order, keys) && order != []
    ensures var n := |order|; order[n - 1] in keys && Enumerates(order[..n - 1], keys - {order[n - 1]})
  {
    var n := |order|;
    assert order == order[..n - 1] + [order[n - 1]];
    assert Elements(order) == Elements(order[..n - 1]) + {order[n - 1]};
  }

  /** The sorted list holds every member once. */
  lemma {:induction false} SortedLists<K(!new)>(s: set<K>, leq: (K, K) -> bool)
    requires TotalOrder(leq)
    ensures Distinct(Sorted(s, leq))
    ensures forall k :: k in Sorted(s, leq) <==> k in s
    ensures |Sorted(s, leq)| == |s|
    decreases |s|
  {
    if s != {} {
      var k := SortedFirst(s, leq);
      SortedLists(s - {k}, leq);
    }
  }

  ghost predicate Increasing<K>(list: seq<K>, leq: (K, K) -> bool) {
    forall i, j :: 0 <= i < j < |list| ==> leq(list[i], list[j])
  }

  lemma {:induction false} SortedIncreases<K(!new)>(s: set<K>, leq: (K, K) -> bool)
    requires TotalOrder(leq)
    ensures Increasing(Sorted(s, leq), leq)
    decreases |s|
  {
    if s != {} {
      var k := SortedFirst(s, leq);
      SortedIncreases(s - {k}, leq);
      SortedLists(s - {k}, leq);
    }
  }

  /** A list in increasing order that holds every member once is the sorted list. */
  lemma {:induction false} SortedUnique<K(!new)>(s: set<K>, leq: (K, K) -> bool, list: seq<K>)
    requires TotalOrder(leq) && Enumerates(list, s) && Increasing(list, leq)
    ensures list == Sorted(s, leq)
    decreases |s|
  {
    if list == [] {
      assert Elements(list) == {};
    } else {
      assert list[0] in Elements(list);
      var k := SortedFirst(s, leq);
      FirstIsLeast(s, leq, list);
      LeastUnique(s, leq, k, list[0]);
      EnumeratesRest(list, s);
      SortedUnique(s - {k}, leq, list[1..]);
    }
  }

  lemma FirstIsLeast<K(!new)>(s: set<K>, leq: (K, K) -> bool, list: seq<K>)
    requires TotalOrder(leq) && Enumerates(list, s) && Increasing(list, leq) && list != []
    ensures Least(s, leq, list[0])
  {
    assert list[0] in Elements(list);
    forall j | j in s ensures leq(list[0], j) {
      assert j in Elements(list);
      var i :| 0 <= i < |list| && list[i] == j;
    }
  }

  lemma EnumeratesRest<K>(list: seq<K>, s: set<K>)
    requires Enumerates(list, s) && list != []
    ensures Enumerates(list[1..], s - {list[0]})
  {
    assert list == [list[0]] + list[1..];
    assert Elements(list) == {list[0]} + Elements(list[1..]);
  }

  lemma NamesTotal()
    ensures TotalOrder(NameLeq)
  {
    forall a, b ensures (NameLeq(a, b) || NameLeq(b, a)) && (NameLeq(a, b) && NameLeq(b, a) ==> a == b) {
      NameTotal(a, b);
    }
    forall a, b, c | NameLeq(a, b) && NameLeq(b, c) ensures NameLeq(a, c) {
      NameTransitive(a, b, c);
    }
  }

  /** Names in code-point order. */
  ghost function SortedNames(names: set<string>): (list: seq<string>)
    ensures Distinct(list) && |list| == |names|
    ensures forall k :: k in list <==> k in names
  {
    NamesTotal();
    SortedLists(names, NameLeq);
    Sorted(names, NameLeq)
  }

  /** The least key of a non-empty set, found by scanning it. */
  method FindLeast<K(==, !new)>(s: set<K>, leq: (K, K) -> bool) returns (least: K)
    requires TotalOrder(leq) && s != {}
    ensures Least(s, leq, least)
  {
    least :| least in s;
    var rest := s - {least};
    while rest != {}
      invariant rest <= s && least in s
      invariant forall j :: j in s - rest ==> leq(least, j)
      decreases |rest|
    {
      var k :| k in rest;
      if leq(k, least) {
        least := k;
      }
      rest := rest - {k};
    }
  }

  lemma LeastUnique<K(!new)>(s: set<K>, leq: (K, K) -> bool, a: K, b: K)
    requires TotalOrder(leq) && Least(s, leq, a) && Least(s, leq, b)
    ensures a == b
  {
    assert leq(a, b) && leq(b, a);
  }

  /** Python's sorted() over the keys of a dictionary, Go's sort.Slice over distinct keys. */
  method Sort<K(==, !new)>(s: set<K>, leq: (K, K) -> bool) returns (list: seq<K>)
    requires TotalOrder(leq)
    ensures list == Sorted(s, leq)
  {
    list := [];
    var rest := s;
    while rest != {}
      invariant list + Sorted(rest, leq) == Sorted(s, leq)
      decreases |rest|
    {
      var k := FindLeast(rest, leq);
      ghost var m := SortedFirst(rest, leq);
      LeastUnique(rest, leq, k, m);
      list := list + [k];
      rest := rest - {k};
    }
  }
}
