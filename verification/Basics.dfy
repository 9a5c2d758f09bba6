/** Vocabulary shared by every component. */
module Basics {

  /** A member key. The 32 key bytes are read as one big-endian integer, so the
      byte order the draw sorts by is the integer order. */
  type Address = nat

  datatype Option<+T> = None | Some(value: T)

  datatype Result<+T, +E> = Ok(value: T) | Err(error: E)

  function Min(a: int, b: int): int {
    if a <= b then a else b
  }

  function Max(a: int, b: int): int {
    if a <= b then b else a
  }

  /** The elements of `s` satisfying `p`, in order. */
  function Filter<T>(s: seq<T>, p: T -> bool): seq<T> {
    if s == [] then []
    else if p(s[0]) then [s[0]] + Filter(s[1..], p)
    else Filter(s[1..], p)
  }

  lemma {:induction false} FilterConcat<T>(a: seq<T>, b: seq<T>, p: T -> bool)
    ensures Filter(a + b, p) == Filter(a, p) + Filter(b, p)
  {
    if a == [] {
      assert a + b == b;
    } else {
      FilterConcat(a[1..], b, p);
      assert (a + b)[0] == a[0] && (a + b)[1..] == a[1..] + b;
      var ra, rb := Filter(a[1..], p), Filter(b, p);
      assert [a[0]] + (ra + rb) == ([a[0]] + ra) + rb;
    }
  }

  lemma {:induction false} FilterStep<T>(x: T, s: seq<T>, p: T -> bool)
    ensures |Filter([x] + s, p)| == |Filter(s, p)| + (if p(x) then 1 else 0)
  {
    assert ([x] + s)[1..] == s;
  }

  lemma {:induction false} FilterRemove<T>(s: seq<T>, i: nat, p: T -> bool)
    requires i < |s|
    ensures |Filter(s, p)| == |Filter(s[..i] + s[i + 1..], p)| + (if p(s[i]) then 1 else 0)
  {
    var before, after := s[..i], s[i + 1..];
    assert s == before + ([s[i]] + after);
    FilterConcat(before, [s[i]] + after, p);
    FilterConcat(before, after, p);
    FilterStep(s[i], after, p);
  }

  lemma {:induction false} RemoveMultiset<T>(s: seq<T>, i: nat)
    requires i < |s|
    ensures multiset(s[..i] + s[i + 1..]) == multiset(s) - multiset{s[i]}
  {
    assert s == s[..i] + [s[i]] + s[i + 1..];
  }

  /** How many elements satisfy `p` does not depend on the order of the sequence. */
  lemma {:induction false} FilterCountPermutation<T>(a: seq<T>, b: seq<T>, p: T -> bool)
    requires multiset(a) == multiset(b)
    ensures |Filter(a, p)| == |Filter(b, p)|
  {
    hide Filter;
    if a == [] {
      assert |multiset(a)| == 0;
      assert b == [];
    } else {
      assert a[0] in multiset(b);
      var i :| 0 <= i < |b| && b[i] == a[0];
      RemoveMultiset(a, 0);
      RemoveMultiset(b, i);
      FilterRemove(a, 0, p);
      FilterRemove(b, i, p);
      FilterCountPermutation(a[..0] + a[1..], b[..i] + b[i + 1..], p);
    }
  }

  predicate Distinct<T(==)>(s: seq<T>) {
    forall i, j :: 0 <= i < j < |s| ==> s[i] != s[j]
  }

  predicate IsPrefix<T(==)>(a: seq<T>, b: seq<T>) {
    |a| <= |b| && b[..|a|] == a
  }

  lemma {:induction false} PrefixAt<T>(a: seq<T>, b: seq<T>, i: nat)
    requires IsPrefix(a, b) && i < |a|
    ensures b[i] == a[i]
  {
    assert b[..|a|][i] == b[i];
  }

  lemma {:induction false} PrefixUpto<T>(a: seq<T>, b: seq<T>, n: nat)
    requires IsPrefix(a, b) && n <= |a|
    ensures b[..n] == a[..n]
  {
    assert b[..n] == b[..|a|][..n];
  }

  predicate Within(lo: int, r: int, hi: int) {
    lo <= r < hi
  }

  function Interval(lo: int, hi: int): set<int> {
    set r | lo <= r < hi && Within(lo, r, hi)
  }

  lemma {:induction false} IntervalSize(lo: int, hi: int)
    requires lo <= hi
    ensures |Interval(lo, hi)| == hi - lo
    decreases hi - lo
  {
    if lo < hi {
      IntervalSize(lo, hi - 1);
      assert Interval(lo, hi) == Interval(lo, hi - 1) + {hi - 1};
    } else {
      assert Interval(lo, hi) == {};
    }
  }
}
