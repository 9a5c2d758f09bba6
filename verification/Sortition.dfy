/** The weighted draw that orders a jury pool (crates/rrn-dispute/src/sortition.rs). */
module Sortition {
  import opened Basics
  import opened Sorting

  datatype Candidate = Candidate(who: Address, weight: nat)

  predicate Weighted(pool: seq<Candidate>) {
    forall i :: 0 <= i < |pool| ==> pool[i].weight >= 1
  }

  predicate DistinctKeys(pool: seq<Candidate>) {
    forall i, j :: 0 <= i < j < |pool| ==> pool[i].who != pool[j].who
  }

  function Keys(pool: seq<Candidate>): (r: seq<Address>)
    ensures |r| == |pool| && forall i :: 0 <= i < |r| ==> r[i] == pool[i].who
  {
    seq(|pool|, i requires 0 <= i < |pool| => pool[i].who)
  }

  function Total(pool: seq<Candidate>): nat {
    if pool == [] then 0 else pool[0].weight + Total(pool[1..])
  }

  // --- Starting order ---------------------------------------------------------

  function Key(): Candidate -> int {
    (c: Candidate) => c.who
  }

  /** The pool in key order. */
  function KeySorted(s: seq<Candidate>): seq<Candidate> {
    SortBy(s, Key())
  }

  lemma {:induction false} KeySortedKeeps(s: seq<Candidate>)
    ensures multiset(KeySorted(s)) == multiset(s)
    ensures Ordered(KeySorted(s), Key())
    ensures |KeySorted(s)| == |s|
  {
    SortKeeps(s, Key());
    assert |multiset(KeySorted(s))| == |KeySorted(s)| && |multiset(s)| == |s|;
  }

  lemma {:induction false} TwiceInMultiset(s: seq<Candidate>, i: nat, j: nat)
    requires i < j < |s| && s[i] == s[j]
    ensures multiset(s)[s[i]] >= 2
  {
    assert s == s[..j] + [s[j]] + s[j + 1..];
    assert s[..j][i] == s[i];
    assert s[i] in multiset(s[..j]);
  }

  lemma {:induction false} DistinctCounts(s: seq<Candidate>, c: Candidate)
    requires DistinctKeys(s)
    ensures multiset(s)[c] <= 1
  {
    if s != [] {
      DistinctCounts(s[1..], c);
      assert s == [s[0]] + s[1..];
      if s[0] == c {
        assert c !in s[1..];
      }
    }
  }

  lemma {:induction false} SortedStrictly(s: seq<Candidate>)
    requires DistinctKeys(s)
    ensures StrictlyOrdered(KeySorted(s), Key())
  {
    var r := KeySorted(s);
    KeySortedKeeps(s);
    forall i, j | 0 <= i < j < |r| ensures Key()(r[i]) < Key()(r[j]) {
      assert Key()(r[i]) <= Key()(r[j]);
      assert r[i] in multiset(r) && r[j] in multiset(r);
      assert r[i] in s && r[j] in s;
      if r[i].who == r[j].who {
        assert r[i] == r[j];
        TwiceInMultiset(r, i, j);
        DistinctCounts(s, r[i]);
      }
    }
  }

  // --- The draw ---------------------------------------------------------------

  /** The candidate whose weight interval holds residue `r`. */
  function Choose(pool: seq<Candidate>, r: nat): (i: nat)
    requires r < Total(pool)
    ensures i < |pool|
  {
    if r < pool[0].weight then 0 else 1 + Choose(pool[1..], r - pool[0].weight)
  }

  function Without(pool: seq<Candidate>, i: nat): seq<Candidate>
    requires i < |pool|
  {
    pool[..i] + pool[i + 1..]
  }

  lemma {:induction false} TotalPositive(pool: seq<Candidate>)
    requires Weighted(pool) && pool != []
    ensures Total(pool) >= 1
  {
  }

  /** Draws `remaining` out, one candidate a round, by the residues `draw` supplies. */
  function DrawFrom(remaining: seq<Candidate>, draw: nat -> nat, round: nat): (r: seq<Address>)
    requires Weighted(remaining)
    ensures |r| == |remaining|
    decreases |remaining|
  {
    if remaining == [] then []
    else
      TotalPositive(remaining);
      var i := Choose(remaining, draw(round) % Total(remaining));
      [remaining[i].who] + DrawFrom(Without(remaining, i), draw, round + 1)
  }

  lemma {:induction false} SortedWeighted(pool: seq<Candidate>)
    requires Weighted(pool)
    ensures Weighted(KeySorted(pool))
  {
    KeySortedKeeps(pool);
    var r := KeySorted(pool);
    forall i | 0 <= i < |r| ensures r[i].weight >= 1 {
      assert r[i] in multiset(r);
      assert r[i] in pool;
    }
  }

  function Draw(pool: seq<Candidate>, draw: nat -> nat): seq<Address>
    requires Weighted(pool)
  {
    SortedWeighted(pool);
    DrawFrom(KeySorted(pool), draw, 0)
  }

  lemma {:induction false} DrawStep(order: seq<Address>, remaining: seq<Candidate>, draw: nat -> nat, round: nat)
    requires Weighted(remaining) && remaining != [] && Total(remaining) >= 1
    ensures var i := Choose(remaining, draw(round) % Total(remaining));
            && Weighted(Without(remaining, i))
            && order + DrawFrom(remaining, draw, round)
            == (order + [remaining[i].who]) + DrawFrom(Without(remaining, i), draw, round + 1)
  {
    hide Total, Choose;
    var i := Choose(remaining, draw(round) % Total(remaining));
    var rest := DrawFrom(Without(remaining, i), draw, round + 1);
    assert order + ([remaining[i].who] + rest) == (order + [remaining[i].who]) + rest;
  }

  /** The seating order. `draw(round)` stands for the hash of seed and round, truncated to 64 bits. */
  method DrawSequence(pool: seq<Candidate>, draw: nat -> nat) returns (order: seq<Address>)
    requires Weighted(pool)
    ensures order == Draw(pool, draw)
  {
    var remaining := KeySorted(pool);
    SortedWeighted(pool);
    order := [];
    var round: nat := 0;
    assert order + DrawFrom(remaining, draw, round) == Draw(pool, draw);
    hide Draw, KeySorted;
    while remaining != []
      invariant Weighted(remaining)
      invariant order + DrawFrom(remaining, draw, round) == Draw(pool, draw)
      decreases |remaining|
    {
      TotalPositive(remaining);
      var r := draw(round) % Total(remaining);
      var acc, chosen := 0, 0;
      var i := 0;
      while i < |remaining|
        invariant 0 <= i <= |remaining|
        invariant acc <= r && acc + Total(remaining[i..]) == Total(remaining)
        invariant Choose(remaining, r) == i + Choose(remaining[i..], r - acc)
      {
        assert remaining[i..][0] == remaining[i] && remaining[i..][1..] == remaining[i + 1..];
        acc := acc + remaining[i].weight;
        if r < acc {
          chosen := i;
          break;
        }
        i := i + 1;
      }
      assert chosen == Choose(remaining, r);
      DrawStep(order, remaining, draw, round);
      order := order + [remaining[chosen].who];
      remaining := remaining[..chosen] + remaining[chosen + 1..];
      round := round + 1;
    }
  }

  lemma {:induction false} KeysWithout(pool: seq<Candidate>, i: nat)
    requires i < |pool|
    ensures multiset(Keys(pool)) == multiset{pool[i].who} + multiset(Keys(Without(pool, i)))
  {
    var keys := Keys(pool);
    assert Keys(Without(pool, i)) == keys[..i] + keys[i + 1..];
    assert keys == keys[..i] + [keys[i]] + keys[i + 1..];
  }

  lemma {:induction false} DrawFromPermutes(pool: seq<Candidate>, draw: nat -> nat, round: nat)
    requires Weighted(pool)
    ensures multiset(DrawFrom(pool, draw, round)) == multiset(Keys(pool))
    decreases |pool|
  {
    hide Choose, Keys;
    if pool == [] {
      NoKeys();
    } else {
      TotalPositive(pool);
      var i := Choose(pool, draw(round) % Total(pool));
      var rest := DrawFrom(Without(pool, i), draw, round + 1);
      DrawFromPermutes(Without(pool, i), draw, round + 1);
      assert multiset([pool[i].who] + rest) == multiset{pool[i].who} + multiset(rest);
      KeysWithout(pool, i);
    }
  }

  lemma {:induction false} NoKeys()
    ensures Keys([]) == []
  {
  }

  lemma {:induction false} KeysMultiset(a: seq<Candidate>, b: seq<Candidate>)
    requires multiset(a) == multiset(b)
    ensures multiset(Keys(a)) == multiset(Keys(b))
  {
    hide Keys;
    if a == [] {
      assert |multiset(a)| == 0;
      assert b == [];
    } else {
      assert a[0] in multiset(b);
      var i :| 0 <= i < |b| && b[i] == a[0];
      RemoveMultiset(a, 0);
      RemoveMultiset(b, i);
      KeysMultiset(Without(a, 0), Without(b, i));
      KeysWithout(a, 0);
      KeysWithout(b, i);
    }
  }

  /** The seating order is a permutation of the pool. */
  lemma {:induction false} DrawPermutes(pool: seq<Candidate>, draw: nat -> nat)
    requires Weighted(pool)
    ensures multiset(Draw(pool, draw)) == multiset(Keys(pool))
  {
    SortedWeighted(pool);
    DrawFromPermutes(KeySorted(pool), draw, 0);
    KeySortedKeeps(pool);
    KeysMultiset(KeySorted(pool), pool);
  }

  /** With distinct keys it does not depend on the order the pool was assembled in. */
  lemma {:induction false} DrawIgnoresAssembly(a: seq<Candidate>, b: seq<Candidate>, draw: nat -> nat)
    requires Weighted(a) && Weighted(b) && DistinctKeys(a) && DistinctKeys(b)
    requires multiset(a) == multiset(b)
    ensures Draw(a, draw) == Draw(b, draw)
  {
    KeySortedKeeps(a);
    KeySortedKeeps(b);
    SortedStrictly(a);
    SortedStrictly(b);
    StrictOrderUnique(KeySorted(a), KeySorted(b), Key());
  }

  lemma {:induction false} PermutationDistinct(a: seq<Address>, b: seq<Address>)
    requires Distinct(a) && multiset(a) == multiset(b)
    ensures Distinct(b) && |b| == |a|
  {
    assert |multiset(a)| == |a| && |multiset(b)| == |b|;
    forall i, j | 0 <= i < j < |b| ensures b[i] != b[j] {
      if b[i] == b[j] {
        assert b == b[..j] + [b[j]] + b[j + 1..];
        assert b[..j][i] == b[i];
        assert b[i] in multiset(b[..j]);
        assert multiset(a)[b[i]] >= 2;
        OnceEach(a, b[i]);
      }
    }
  }

  lemma {:induction false} OnceEach(s: seq<Address>, x: Address)
    requires Distinct(s)
    ensures multiset(s)[x] <= 1
  {
    if s != [] {
      OnceEach(s[1..], x);
      assert s == [s[0]] + s[1..];
      if s[0] == x {
        assert x !in s[1..];
      }
    }
  }

  /** No key is drawn twice. */
  lemma {:induction false} DrawDistinct(pool: seq<Candidate>, draw: nat -> nat)
    requires Weighted(pool) && DistinctKeys(pool)
    ensures Distinct(Draw(pool, draw)) && |Draw(pool, draw)| == |pool|
  {
    DrawPermutes(pool, draw);
    PermutationDistinct(Keys(pool), Draw(pool, draw));
  }

  // --- Proportionality --------------------------------------------------------

  lemma {:induction false} ChooseInterval(pool: seq<Candidate>, i: nat, r: nat)
    requires i < |pool| && r < Total(pool)
    ensures Choose(pool, r) == i <==> Total(pool[..i]) <= r < Total(pool[..i]) + pool[i].weight
  {
    if i > 0 {
      assert pool[..i][0] == pool[0] && pool[..i][1..] == pool[1..][..i - 1];
      if r >= pool[0].weight {
        ChooseInterval(pool[1..], i - 1, r - pool[0].weight);
      }
    }
  }

  lemma {:induction false} TotalSplit(pool: seq<Candidate>, i: nat)
    requires i < |pool|
    ensures Total(pool[..i]) + pool[i].weight <= Total(pool)
  {
    if i > 0 {
      assert pool[..i][0] == pool[0] && pool[..i][1..] == pool[1..][..i - 1];
      TotalSplit(pool[1..], i - 1);
    }
  }

  function Residues(pool: seq<Candidate>, i: nat): set<int> {
    set r | 0 <= r < Total(pool) && Choose(pool, r) == i
  }

  /** In every round exactly `w` of the residues select a candidate of weight `w`. */
  lemma {:induction false} DrawIsProportional(pool: seq<Candidate>, i: nat)
    requires i < |pool|
    ensures |Residues(pool, i)| == pool[i].weight
  {
    var lo := Total(pool[..i]);
    TotalSplit(pool, i);
    forall r | 0 <= r < Total(pool)
      ensures Choose(pool, r) == i <==> Within(lo, r, lo + pool[i].weight)
    {
      ChooseInterval(pool, i, r);
    }
    assert Residues(pool, i) == Interval(lo, lo + pool[i].weight);
    IntervalSize(lo, lo + pool[i].weight);
  }

  // --- What each round draws ----------------------------------------------------

  function NotAmong(drawn: seq<Address>): Candidate -> bool {
    (c: Candidate) => c.who !in drawn
  }

  /** The candidate at `j` of `left` holds residue `r` in its stretch of the summed weights. */
  predicate HoldsResidue(left: seq<Candidate>, j: nat, r: nat) {
    j < |left| && Total(left[..j]) <= r < Total(left[..j]) + left[j].weight
  }

  /** `who` holds the residue of `n` among `left`. */
  ghost predicate DrawnFrom(left: seq<Candidate>, n: nat, who: Address) {
    Total(left) > 0 && exists j: nat :: HoldsResidue(left, j, n % Total(left)) && left[j].who == who
  }

  lemma {:induction false} KeepsAll(s: seq<Candidate>)
    ensures Filter(s, NotAmong([])) == s
  {
    if s != [] {
      KeepsAll(s[1..]);
    }
  }

  lemma {:induction false} SameFilter(s: seq<Candidate>, p: Candidate -> bool, q: Candidate -> bool)
    requires forall c :: c in s ==> p(c) == q(c)
    ensures Filter(s, p) == Filter(s, q)
  {
    if s != [] {
      SameFilter(s[1..], p, q);
    }
  }

  lemma {:induction false} LeftAfter(s: seq<Candidate>, i: nat, drawn: seq<Address>)
    requires i < |s| && DistinctKeys(s)
    ensures Filter(Without(s, i), NotAmong(drawn)) == Filter(s, NotAmong([s[i].who] + drawn))
  {
    var before, after := s[..i], s[i + 1..];
    var p, q := NotAmong([s[i].who] + drawn), NotAmong(drawn);
    assert s == before + ([s[i]] + after);
    FilterConcat(before, [s[i]] + after, p);
    FilterConcat([s[i]], after, p);
    FilterConcat(before, after, q);
    assert Filter([s[i]], p) == [] by {
      assert [s[i]][1..] == [];
    }
    SameFilter(before, p, q);
    SameFilter(after, p, q);
  }

  lemma {:induction false} RoundDraws(remaining: seq<Candidate>, draw: nat -> nat, round: nat, i: nat)
    requires Weighted(remaining) && DistinctKeys(remaining) && i < |remaining|
    ensures (var order := DrawFrom(remaining, draw, round);
             DrawnFrom(Filter(remaining, NotAmong(order[..i])), draw(round + i), order[i]))
    decreases |remaining|
  {
    hide Filter, Total, Choose;
    TotalPositive(remaining);
    var r := draw(round) % Total(remaining);
    var c := Choose(remaining, r);
    var order, rest := DrawFrom(remaining, draw, round), DrawFrom(Without(remaining, c), draw, round + 1);
    assert order == [remaining[c].who] + rest;
    if i == 0 {
      KeepsAll(remaining);
      ChooseInterval(remaining, c, r);
      assert order[..0] == [];
      assert HoldsResidue(remaining, c, r);
    } else {
      RoundDraws(Without(remaining, c), draw, round + 1, i - 1);
      assert order[..i] == [remaining[c].who] + rest[..i - 1];
      LeftAfter(remaining, c, rest[..i - 1]);
    }
  }

  /** Round `i` draws, of those not drawn before and in key order, the one whose stretch of the summed weights
      holds that round's own number, reduced by their total. */
  lemma {:induction false} DrawMeans(pool: seq<Candidate>, draw: nat -> nat, i: nat)
    requires Weighted(pool) && DistinctKeys(pool) && i < |pool|
    ensures (var order := Draw(pool, draw);
             && |order| == |pool| && Ordered(KeySorted(pool), Key())
             && DrawnFrom(Filter(KeySorted(pool), NotAmong(order[..i])), draw(i), order[i]))
  {
    hide DrawFrom, Filter, DrawnFrom, KeySorted;
    KeySortedKeeps(pool);
    SortedWeighted(pool);
    SortedDistinct(pool);
    RoundDraws(KeySorted(pool), draw, 0, i);
  }

  lemma {:induction false} SortedDistinct(pool: seq<Candidate>)
    requires DistinctKeys(pool)
    ensures DistinctKeys(KeySorted(pool))
  {
    SortedStrictly(pool);
    var r := KeySorted(pool);
    forall i, j | 0 <= i < j < |r| ensures r[i].who != r[j].who {
      assert Key()(r[i]) < Key()(r[j]);
    }
  }
}
