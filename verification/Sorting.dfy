/** Stable sorting by an integer key, as the library sort is used here. */
module Sorting {

  function InsertBy<T>(x: T, s: seq<T>, key: T -> int): seq<T> {
    if s == [] || key(x) <= key(s[0]) then [x] + s else [s[0]] + InsertBy(x, s[1..], key)
  }

  function SortBy<T>(s: seq<T>, key: T -> int): seq<T> {
    if s == [] then [] else InsertBy(s[0], SortBy(s[1..], key), key)
  }

  predicate Ordered<T>(s: seq<T>, key: T -> int) {
    forall i, j :: 0 <= i < j < |s| ==> key(s[i]) <= key(s[j])
  }

  predicate StrictlyOrdered<T>(s: seq<T>, key: T -> int) {
    forall i, j :: 0 <= i < j < |s| ==> key(s[i]) < key(s[j])
  }

  lemma {:induction false} InsertKeeps<T>(x: T, s: seq<T>, key: T -> int)
    ensures multiset(InsertBy(x, s, key)) == multiset{x} + multiset(s)
  {
    if s != [] && key(x) > key(s[0]) {
      InsertKeeps(x, s[1..], key);
      assert s == [s[0]] + s[1..];
    }
  }

  lemma {:induction false} InsertOrders<T>(x: T, s: seq<T>, key: T -> int)
    requires Ordered(s, key)
    ensures Ordered(InsertBy(x, s, key), key)
    ensures forall y :: y in InsertBy(x, s, key) ==> y == x || y in s
  {
    if s != [] && key(x) > key(s[0]) {
      InsertOrders(x, s[1..], key);
      var r := InsertBy(x, s[1..], key);
      forall i | 0 <= i < |r| ensures key(s[0]) <= key(r[i]) {
        assert r[i] in r;
      }
    }
  }

  /** Sorting keeps every occurrence and orders by key. */
  lemma {:induction false} SortKeeps<T>(s: seq<T>, key: T -> int)
    ensures multiset(SortBy(s, key)) == multiset(s)
    ensures Ordered(SortBy(s, key), key)
  {
    if s != [] {
      SortKeeps(s[1..], key);
      InsertKeeps(s[0], SortBy(s[1..], key), key);
      InsertOrders(s[0], SortBy(s[1..], key), key);
      assert s == [s[0]] + s[1..];
    }
  }

  lemma {:induction false} TailMultiset<T>(s: seq<T>)
    requires s != []
    ensures multiset(s[1..]) == multiset(s) - multiset{s[0]}
  {
    assert s == [s[0]] + s[1..];
  }

  lemma {:induction false} LeastFirst<T>(a: seq<T>, b: seq<T>, key: T -> int)
    requires Ordered(a, key) && StrictlyOrdered(b, key) && multiset(a) == multiset(b) && b != []
    ensures a != [] && a[0] == b[0]
  {
    assert b[0] in multiset(b);
    assert b[0] in multiset(a);
    assert a[0] in multiset(a);
    assert a[0] in multiset(b);
    var i :| 0 <= i < |a| && a[i] == b[0];
    var j :| 0 <= j < |b| && b[j] == a[0];
    assert key(a[0]) <= key(a[i]);
    assert j == 0;
  }

  lemma {:induction false} TailOrdered<T>(a: seq<T>, b: seq<T>, key: T -> int)
    requires a != [] && b != [] && Ordered(a, key) && StrictlyOrdered(b, key)
    ensures Ordered(a[1..], key) && StrictlyOrdered(b[1..], key)
  {
  }

  /** A list with strictly increasing keys is the only ordered arrangement of its members. */
  lemma {:induction false} StrictOrderUnique<T>(a: seq<T>, b: seq<T>, key: T -> int)
    requires Ordered(a, key) && StrictlyOrdered(b, key) && multiset(a) == multiset(b)
    ensures a == b
  {
    hide Ordered, StrictlyOrdered;
    if b != [] {
      LeastFirst(a, b, key);
      TailMultiset(a);
      TailMultiset(b);
      TailOrdered(a, b, key);
      StrictOrderUnique(a[1..], b[1..], key);
      assert a == [a[0]] + a[1..] && b == [b[0]] + b[1..];
    } else {
      assert |multiset(a)| == |a| && |multiset(b)| == |b|;
    }
  }
}
