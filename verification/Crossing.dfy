/** What a threshold crossing is: the first position by which enough distinct eligible members had
    signed (crates/rrn-governance/src/emergency.rs). */
module Crossing {
  import opened Basics
  import opened Sorting
  import opened GovLog
  import opened EmergencyChain
  import opened EmergencyTimeline

  /** The signers at positions up to `p`. */
  function SignersUpto(sigs: seq<Sig>, p: nat): set<Address> {
    set i | 0 <= i < |sigs| && sigs[i].position <= p :: sigs[i].who
  }

  predicate DistinctSigners(sigs: seq<Sig>) {
    forall i, j :: 0 <= i < j < |sigs| ==> sigs[i].who != sigs[j].who
  }

  function SignersOf(sigs: seq<Sig>): set<Address> {
    set i | 0 <= i < |sigs| :: sigs[i].who
  }

  lemma {:induction false} DistinctCount(sigs: seq<Sig>)
    requires DistinctSigners(sigs)
    ensures |SignersOf(sigs)| == |sigs|
  {
    if sigs != [] {
      var last := |sigs| - 1;
      DistinctCount(sigs[..last]);
      assert SignersOf(sigs) == SignersOf(sigs[..last]) + {sigs[last].who};
      assert sigs[last].who !in SignersOf(sigs[..last]);
    }
  }

  /** The crossing of a list in log order is the first position by which the threshold was met. */
  lemma {:induction false} CrossingFirst(sigs: seq<Sig>, threshold: nat, p: nat)
    requires StrictlyOrdered(sigs, ByPosition()) && DistinctSigners(sigs) && threshold > 0
    ensures CrossingSeq(sigs, threshold) == Some(p) ==>
      |SignersUpto(sigs, p)| >= threshold && forall q: nat :: q < p ==> |SignersUpto(sigs, q)| < threshold
    ensures CrossingSeq(sigs, threshold) == None ==> |SignersUpto(sigs, p)| < threshold
  {
    var t := threshold - 1;
    if t < |sigs| {
      Head(sigs, threshold);
      DistinctCount(sigs[..threshold]);
      SubsetSize(SignersOf(sigs[..threshold]), SignersUpto(sigs, sigs[t].position));
      forall q: nat | q < sigs[t].position ensures |SignersUpto(sigs, q)| < threshold {
        Tail(sigs, t, q);
        DistinctCount(sigs[..t]);
        SubsetSize(SignersUpto(sigs, q), SignersOf(sigs[..t]));
      }
    } else {
      DistinctCount(sigs);
      SubsetSize(SignersUpto(sigs, p), SignersOf(sigs));
    }
  }

  lemma {:induction false} Head(sigs: seq<Sig>, n: nat)
    requires StrictlyOrdered(sigs, ByPosition()) && 0 < n <= |sigs|
    ensures SignersOf(sigs[..n]) <= SignersUpto(sigs, sigs[n - 1].position)
  {
    forall i | 0 <= i < n ensures sigs[i].position <= sigs[n - 1].position {
      if i < n - 1 {
        assert ByPosition()(sigs[i]) < ByPosition()(sigs[n - 1]);
      }
    }
  }

  lemma {:induction false} Tail(sigs: seq<Sig>, t: nat, q: nat)
    requires StrictlyOrdered(sigs, ByPosition()) && t < |sigs| && q < sigs[t].position
    ensures SignersUpto(sigs, q) <= SignersOf(sigs[..t])
  {
    assert forall i :: t < i < |sigs| ==> ByPosition()(sigs[t]) < ByPosition()(sigs[i]);
    assert forall i :: 0 <= i < t ==> sigs[..t][i] == sigs[i];
  }

  // --- Who the lists hold -----------------------------------------------------

  /** Of candidates in log order, the eligible ones at positions up to `p`. */
  function Counted(G: Gov, root: Root, pin: Pin, seen: set<Address>, candidates: seq<Sig>, p: nat): set<Address> {
    set i | 0 <= i < |candidates| && candidates[i].position <= p && Eligible(G, root, pin, candidates[i].who)
            && candidates[i].who !in seen :: candidates[i].who
  }

  /** `sigs` is `candidates` with each eligible signer kept at the first place it appears. */
  predicate Kept(
    G: Gov, root: Root, pin: Pin, seen: set<Address>, candidates: seq<Sig>, sigs: seq<Sig>, p: nat)
  {
    && StrictlyOrdered(sigs, ByPosition()) && DistinctSigners(sigs)
    && (forall s :: s in sigs ==> s in candidates && s.who !in seen)
    && SignersUpto(sigs, p) == Counted(G, root, pin, seen, candidates, p)
  }

  lemma {:induction false} FirstEligibleHolds(
    G: Gov, root: Root, pin: Pin, seen: set<Address>, candidates: seq<Sig>, p: nat)
    requires StrictlyOrdered(candidates, ByPosition())
    ensures Kept(G, root, pin, seen, candidates, FirstEligible(G, root, pin, seen, candidates), p)
  {
    if candidates != [] {
      hide SignedBy, Eligible, Kept;
      var last := |candidates| - 1;
      var init, c := candidates[..last], candidates[last];
      InitOrdered(candidates);
      FirstEligibleHolds(G, root, pin, seen, init, p);
      var sigs := FirstEligible(G, root, pin, seen, init);
      if Eligible(G, root, pin, c.who) && c.who !in seen && !SignedBy(sigs, c.who) {
        KeptNew(G, root, pin, seen, candidates, sigs, p);
      } else {
        KeptSkip(G, root, pin, seen, candidates, sigs, p);
      }
    } else {
      assert Counted(G, root, pin, seen, [], p) == {};
    }
  }

  lemma {:induction false} InitOrdered(candidates: seq<Sig>)
    requires StrictlyOrdered(candidates, ByPosition()) && candidates != []
    ensures StrictlyOrdered(candidates[..|candidates| - 1], ByPosition())
  {
    var init := candidates[..|candidates| - 1];
    assert forall i, j :: 0 <= i < j < |init| ==> ByPosition()(candidates[i]) < ByPosition()(candidates[j]);
  }

  lemma {:induction false} KeptNew(
    G: Gov, root: Root, pin: Pin, seen: set<Address>, candidates: seq<Sig>, sigs: seq<Sig>, p: nat)
    requires StrictlyOrdered(candidates, ByPosition()) && candidates != []
    requires (var last := |candidates| - 1;
              && Kept(G, root, pin, seen, candidates[..last], sigs, p) && !SignedBy(sigs, candidates[last].who)
              && Eligible(G, root, pin, candidates[last].who) && candidates[last].who !in seen)
    ensures Kept(G, root, pin, seen, candidates, sigs + [candidates[|candidates| - 1]], p)
  {
    hide SignedBy, Eligible, SignersUpto, Counted;
    var c := candidates[|candidates| - 1];
    CountedStep(G, root, pin, seen, candidates, p);
    EarlierThan(candidates, sigs);
    SignersStep(sigs, c, p);
    Appended(sigs, c);
  }

  lemma {:induction false} KeptSkip(
    G: Gov, root: Root, pin: Pin, seen: set<Address>, candidates: seq<Sig>, sigs: seq<Sig>, p: nat)
    requires StrictlyOrdered(candidates, ByPosition()) && candidates != []
    requires (var last := |candidates| - 1;
              && Kept(G, root, pin, seen, candidates[..last], sigs, p)
              && !(Eligible(G, root, pin, candidates[last].who) && candidates[last].who !in seen
                   && !SignedBy(sigs, candidates[last].who)))
    ensures Kept(G, root, pin, seen, candidates, sigs, p)
  {
    hide SignedBy, Eligible, SignersUpto, Counted, StrictlyOrdered;
    var c := candidates[|candidates| - 1];
    CountedStep(G, root, pin, seen, candidates, p);
    EarlierThan(candidates, sigs);
    if SignedBy(sigs, c.who) {
      AlreadyCounted(sigs, c, p);
    }
  }

  lemma {:induction false} EarlierThan(candidates: seq<Sig>, sigs: seq<Sig>)
    requires StrictlyOrdered(candidates, ByPosition()) && candidates != []
    requires forall s :: s in sigs ==> s in candidates[..|candidates| - 1]
    ensures forall s :: s in sigs ==> ByPosition()(s) < ByPosition()(candidates[|candidates| - 1])
  {
    var last := |candidates| - 1;
    forall s | s in sigs ensures ByPosition()(s) < ByPosition()(candidates[last]) {
      var i :| 0 <= i < last && candidates[..last][i] == s;
      assert candidates[i] == s;
    }
  }

  lemma {:induction false} Appended(sigs: seq<Sig>, c: Sig)
    requires StrictlyOrdered(sigs, ByPosition()) && DistinctSigners(sigs) && !SignedBy(sigs, c.who)
    requires forall s :: s in sigs ==> ByPosition()(s) < ByPosition()(c)
    ensures StrictlyOrdered(sigs + [c], ByPosition()) && DistinctSigners(sigs + [c])
  {
    assert forall i :: 0 <= i < |sigs| ==> sigs[i] in sigs;
  }

  lemma {:induction false} CountedStep(G: Gov, root: Root, pin: Pin, seen: set<Address>, candidates: seq<Sig>, p: nat)
    requires candidates != []
    ensures (var last := |candidates| - 1;
             Counted(G, root, pin, seen, candidates, p)
             == Counted(G, root, pin, seen, candidates[..last], p)
                + (if candidates[last].position <= p && Eligible(G, root, pin, candidates[last].who)
                      && candidates[last].who !in seen then {candidates[last].who} else {}))
  {
    hide Eligible;
    var last := |candidates| - 1;
    assert forall i :: 0 <= i < last ==> candidates[..last][i] == candidates[i];
  }

  lemma {:induction false} SignersStep(sigs: seq<Sig>, c: Sig, p: nat)
    ensures SignersUpto(sigs + [c], p) == SignersUpto(sigs, p) + (if c.position <= p then {c.who} else {})
  {
    var all := sigs + [c];
    assert all[|sigs|] == c && forall i :: 0 <= i < |sigs| ==> all[i] == sigs[i];
  }

  /** A signer listed earlier is counted at every position from the later one on. */
  lemma {:induction false} AlreadyCounted(sigs: seq<Sig>, c: Sig, p: nat)
    requires SignedBy(sigs, c.who) && forall s :: s in sigs ==> ByPosition()(s) < ByPosition()(c)
    ensures c.position <= p ==> c.who in SignersUpto(sigs, p)
  {
    var i :| 0 <= i < |sigs| && sigs[i].who == c.who;
    assert sigs[i] in sigs;
  }

  // --- Declarations -----------------------------------------------------------

  lemma {:induction false} CosignersOrdered(log: Log, target: Hash, n: nat)
    requires n <= |log|
    ensures StrictlyOrdered(Cosigners(log, target, n), ByPosition())
    ensures forall s :: s in Cosigners(log, target, n) <==>
      1 <= s.position <= n && Signs(log[s.position - 1], target) && log[s.position - 1].record.who == s.who
  {
    if n > 0 {
      hide Signs;
      CosignersOrdered(log, target, n - 1);
      var earlier := Cosigners(log, target, n - 1);
      assert forall i :: 0 <= i < |earlier| ==> earlier[i] in earlier;
    }
  }

  /** The eligible members behind `target` by position `p`: its author once it is declared, and everyone
      else from the first co-signature of their own. */
  function Backers(
    G: Gov, root: Root, pin: Pin, log: Log, target: Hash, author: Address, authorSeq: nat, p: nat): set<Address>
  {
    (if Eligible(G, root, pin, author) && authorSeq <= p then {author} else {})
    + (set k | 0 <= k < |log| && k < p && Signs(log[k], target) && log[k].record.who != author
               && Eligible(G, root, pin, log[k].record.who) :: log[k].record.who)
  }

  lemma {:induction false} BackersCounted(
    G: Gov, root: Root, pin: Pin, log: Log, target: Hash, author: Address, authorSeq: nat, seen: set<Address>, p: nat)
    requires seen == (if Eligible(G, root, pin, author) then {author} else {})
    ensures Backers(G, root, pin, log, target, author, authorSeq, p)
         == (if Eligible(G, root, pin, author) && authorSeq <= p then {author} else {})
            + Counted(G, root, pin, seen, Cosigners(log, target, |log|), p)
  {
    hide Eligible, Cosigners, StrictlyOrdered;
    var cosigners := Cosigners(log, target, |log|);
    CosignersOrdered(log, target, |log|);
    forall k | 0 <= k < |log| && Signs(log[k], target) ensures Sig(k + 1, log[k].record.who) in cosigners {
    }
    forall k | 0 <= k < |log| && k < p && Signs(log[k], target) && log[k].record.who != author
               && Eligible(G, root, pin, log[k].record.who)
      ensures log[k].record.who in Counted(G, root, pin, seen, cosigners, p)
    {
      var i :| 0 <= i < |cosigners| && cosigners[i] == Sig(k + 1, log[k].record.who);
      assert cosigners[i].position <= p;
    }
    forall i | 0 <= i < |cosigners| ensures Signs(log[cosigners[i].position - 1], target) {
      assert cosigners[i] in cosigners;
    }
  }

  /** The signature list holds each backer once, in log order. */
  lemma {:induction false} SignaturesMeaning(
    G: Gov, root: Root, pin: Pin, log: Log, target: Hash, author: Address, authorSeq: nat, p: nat)
    requires 1 <= authorSeq <= |log| && log[authorSeq - 1].record.Declare?
    ensures (var sigs := EligibleSigs(G, root, pin, log, target, author, authorSeq);
             && StrictlyOrdered(sigs, ByPosition()) && DistinctSigners(sigs)
             && SignersUpto(sigs, p) == Backers(G, root, pin, log, target, author, authorSeq, p))
  {
    hide Eligible, Cosigners, FirstEligible, SignersUpto, Counted, Backers;
    var own := if Eligible(G, root, pin, author) then [Sig(authorSeq, author)] else [];
    var seen := if own == [] then {} else {author};
    var cosigners := Cosigners(log, target, |log|);
    CosignersOrdered(log, target, |log|);
    FirstEligibleHolds(G, root, pin, seen, cosigners, p);
    BackersCounted(G, root, pin, log, target, author, authorSeq, seen, p);
    var others := FirstEligible(G, root, pin, seen, cosigners);
    if own == [] {
      assert own + others == others;
      AlreadySorted(others);
    } else {
      forall s | s in others ensures s.position != authorSeq {
        assert s in cosigners;
      }
      OwnFirst(own[0], others, p);
    }
  }

  /** A list in order is what sorting makes of it. */
  lemma {:induction false} AlreadySorted(sigs: seq<Sig>)
    requires StrictlyOrdered(sigs, ByPosition())
    ensures SortBy(sigs, ByPosition()) == sigs
  {
    SortKeeps(sigs, ByPosition());
    StrictOrderUnique(SortBy(sigs, ByPosition()), sigs, ByPosition());
  }

  /** Sorting the author's signature into the others. */
  lemma {:induction false} OwnFirst(own: Sig, others: seq<Sig>, p: nat)
    requires StrictlyOrdered(others, ByPosition()) && DistinctSigners(others)
    requires forall s :: s in others ==> s.position != own.position && s.who != own.who
    ensures (var sigs := SortBy([own] + others, ByPosition());
             && StrictlyOrdered(sigs, ByPosition()) && DistinctSigners(sigs)
             && SignersUpto(sigs, p) == SignersUpto(others, p) + (if own.position <= p then {own.who} else {}))
  {
    hide SortBy, InsertBy, SignersUpto;
    AlreadySorted(others);
    SortOne(own, others);
    Inserted(own, others, p);
  }

  lemma {:induction false} SortOne(x: Sig, s: seq<Sig>)
    ensures SortBy([x] + s, ByPosition()) == InsertBy(x, SortBy(s, ByPosition()), ByPosition())
  {
    assert ([x] + s)[1..] == s;
  }

  lemma {:induction false} Inserted(x: Sig, s: seq<Sig>, p: nat)
    requires StrictlyOrdered(s, ByPosition()) && DistinctSigners(s)
    requires forall y :: y in s ==> y.position != x.position && y.who != x.who
    ensures (var r := InsertBy(x, s, ByPosition());
             && StrictlyOrdered(r, ByPosition()) && DistinctSigners(r)
             && (forall y :: y in r <==> y == x || y in s)
             && SignersUpto(r, p) == SignersUpto(s, p) + (if x.position <= p then {x.who} else {}))
  {
    hide SignersUpto, StrictlyOrdered, DistinctSigners;
    if s == [] || x.position <= s[0].position {
      Prepended(x, s, p);
      Least(x, s);
      HeadFirst(x, s);
    } else {
      TailOrdered(s);
      Inserted(x, s[1..], p);
      var rest := InsertBy(x, s[1..], ByPosition());
      Prepended(s[0], rest, p);
      Prepended(s[0], s[1..], p);
      assert s == [s[0]] + s[1..];
      HeadFirst(s[0], rest);
    }
  }

  lemma {:induction false} TailOrdered(s: seq<Sig>)
    requires StrictlyOrdered(s, ByPosition()) && DistinctSigners(s) && s != []
    ensures StrictlyOrdered(s[1..], ByPosition()) && DistinctSigners(s[1..])
    ensures forall y :: y in s[1..] ==> s[0].position < y.position && s[0].who != y.who
  {
    forall y | y in s[1..] ensures s[0].position < y.position && s[0].who != y.who {
      var i :| 0 <= i < |s| - 1 && s[1..][i] == y;
      assert s[i + 1] == y && ByPosition()(s[0]) < ByPosition()(s[i + 1]);
    }
  }

  lemma {:induction false} Least(x: Sig, s: seq<Sig>)
    requires StrictlyOrdered(s, ByPosition()) && (s == [] || x.position < s[0].position)
    ensures forall y :: y in s ==> x.position < y.position
  {
    forall y | y in s ensures x.position < y.position {
      var i :| 0 <= i < |s| && s[i] == y;
      if i > 0 {
        assert ByPosition()(s[0]) < ByPosition()(s[i]);
      }
    }
  }

  lemma {:induction false} HeadFirst(x: Sig, s: seq<Sig>)
    requires StrictlyOrdered(s, ByPosition()) && DistinctSigners(s)
    requires forall y :: y in s ==> x.position < y.position && x.who != y.who
    ensures StrictlyOrdered([x] + s, ByPosition()) && DistinctSigners([x] + s)
  {
    assert forall i :: 0 <= i < |s| ==> s[i] in s;
  }

  lemma {:induction false} Prepended(x: Sig, s: seq<Sig>, p: nat)
    ensures SignersUpto([x] + s, p) == SignersUpto(s, p) + (if x.position <= p then {x.who} else {})
  {
    var all := [x] + s;
    assert all[0] == x && forall i :: 0 <= i < |s| ==> all[i + 1] == s[i];
    forall i | 0 <= i < |s| && s[i].position <= p ensures s[i].who in SignersUpto(all, p) {
      assert all[i + 1] == s[i];
    }
  }

  /** A declaration crosses at the first position by which as many distinct eligible members as the
      threshold were behind it. */
  lemma {:induction false} DeclarationCrosses(
    G: Gov, root: Root, pin: Pin, log: Log, target: Hash, author: Address, authorSeq: nat, threshold: nat, p: nat)
    requires 1 <= authorSeq <= |log| && log[authorSeq - 1].record.Declare? && threshold > 0
    ensures (var crossing := CrossingSeq(EligibleSigs(G, root, pin, log, target, author, authorSeq), threshold);
             && (crossing == Some(p) ==>
                   |Backers(G, root, pin, log, target, author, authorSeq, p)| >= threshold
                   && forall q: nat :: q < p ==> |Backers(G, root, pin, log, target, author, authorSeq, q)| < threshold)
             && (crossing == None ==> |Backers(G, root, pin, log, target, author, authorSeq, p)| < threshold))
  {
    hide EligibleSigs, Backers, CrossingSeq, SignersUpto;
    var sigs := EligibleSigs(G, root, pin, log, target, author, authorSeq);
    SignaturesMeaning(G, root, pin, log, target, author, authorSeq, p);
    CrossingFirst(sigs, threshold, p);
    forall q: nat | q < p
      ensures SignersUpto(sigs, q) == Backers(G, root, pin, log, target, author, authorSeq, q)
    {
      SignaturesMeaning(G, root, pin, log, target, author, authorSeq, q);
    }
  }

  // --- Lapses -----------------------------------------------------------------

  /** The eligible members who by position `p` had moved to lift `h`, or co-signed any motion to. */
  function Lifters(G: Gov, root: Root, pin: Pin, log: Log, h: Hash, p: nat): set<Address> {
    (set k | 0 <= k < |log| && k < p && MovesToLapse(log[k], h) && Eligible(G, root, pin, log[k].record.m.author)
       :: log[k].record.m.author)
    + (set k | 0 <= k < |log| && k < p && SignsLapse(log[k], LapseTargets(log, h)) && Eligible(G, root, pin, log[k].record.who)
         :: log[k].record.who)
  }

  lemma {:induction false} LapseCandidatesMeaning(log: Log, h: Hash, targets: set<Hash>, n: nat)
    requires n <= |log|
    ensures forall s :: s in LapseCandidates(log, h, targets, n) <==>
      1 <= s.position <= n
      && ((MovesToLapse(log[s.position - 1], h) && log[s.position - 1].record.m.author == s.who)
          || (SignsLapse(log[s.position - 1], targets) && log[s.position - 1].record.who == s.who))
  {
    if n > 0 {
      LapseCandidatesMeaning(log, h, targets, n - 1);
    }
  }

  lemma {:induction false} LiftersCounted(G: Gov, root: Root, pin: Pin, log: Log, h: Hash, p: nat)
    ensures Lifters(G, root, pin, log, h, p)
         == Counted(G, root, pin, {}, LapseCandidates(log, h, LapseTargets(log, h), |log|), p)
  {
    hide Eligible, LapseCandidates, LapseTargets, MovesToLapse, SignsLapse;
    var targets := LapseTargets(log, h);
    var all := LapseCandidates(log, h, targets, |log|);
    LapseCandidatesMeaning(log, h, targets, |log|);
    forall k | 0 <= k < |log| && MovesToLapse(log[k], h)
      ensures log[k].record.Lapse? && Sig(k + 1, log[k].record.m.author) in all
    {
      MovesKind(log[k], h);
    }
    forall k | 0 <= k < |log| && SignsLapse(log[k], targets)
      ensures log[k].record.Cosign? && Sig(k + 1, log[k].record.who) in all
    {
      SignsKind(log[k], targets);
    }
    forall i | 0 <= i < |all|
      ensures 1 <= all[i].position <= |log|
      ensures (MovesToLapse(log[all[i].position - 1], h) && log[all[i].position - 1].record.m.author == all[i].who)
           || (SignsLapse(log[all[i].position - 1], targets) && log[all[i].position - 1].record.who == all[i].who)
    {
      assert all[i] in all;
    }
  }

  lemma {:induction false} MovesKind(e: Entry, h: Hash)
    requires MovesToLapse(e, h)
    ensures e.record.Lapse?
  {
  }

  lemma {:induction false} SignsKind(e: Entry, targets: set<Hash>)
    requires SignsLapse(e, targets)
    ensures e.record.Cosign?
  {
  }

  /** A lift crosses at the first position by which as many distinct eligible members as the threshold
      had signed any motion to lift the emergency: splitting them over several motions costs nothing. */
  lemma {:induction false} LapseCrosses(G: Gov, root: Root, pin: Pin, log: Log, h: Hash, threshold: nat, p: nat)
    requires threshold > 0
    ensures (var boundary := LapseBoundary(G, root, pin, log, h, threshold);
             && (boundary == Some(p) ==>
                   |Lifters(G, root, pin, log, h, p)| >= threshold
                   && forall q: nat :: q < p ==> |Lifters(G, root, pin, log, h, q)| < threshold)
             && (boundary == None ==> |Lifters(G, root, pin, log, h, p)| < threshold))
  {
    hide LapseCandidates, LapseTargets, Lifters, CrossingSeq, SignersUpto, Counted, FirstEligible;
    var candidates := LapseCandidates(log, h, LapseTargets(log, h), |log|);
    CandidatesOrdered(log, h, LapseTargets(log, h), |log|);
    var sigs := LapseSigs(G, root, pin, log, h);
    FirstEligibleHolds(G, root, pin, {}, candidates, p);
    LiftersCounted(G, root, pin, log, h, p);
    CrossingFirst(sigs, threshold, p);
    forall q: nat | q < p ensures SignersUpto(sigs, q) == Lifters(G, root, pin, log, h, q) {
      FirstEligibleHolds(G, root, pin, {}, candidates, q);
      LiftersCounted(G, root, pin, log, h, q);
    }
  }
}
