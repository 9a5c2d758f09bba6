/** Who may be drawn: the electorate of a log prefix minus recusals
    (crates/rrn-dispute/src/sortition.rs). */
module JuryPool {
  import opened Basics
  import opened Docket
  import opened Sortition

  /** Standing, scored by code this model does not contain: the electorate and the draw weight
      are functions of the evidence admitted up to a position and of an instant. */
  datatype Standing = Standing(
    electorate: (seq<Entry>, int) -> seq<Address>,
    weight: (seq<Entry>, Address, int) -> nat)

  ghost predicate Sound(st: Standing) {
    forall evidence, at :: Distinct(st.electorate(evidence, at))
  }

  /** The records standing may be scored from: all but requests for a fresh round. */
  function EvidenceOf(log: Log): Log {
    if log == [] then []
    else if IsEvidence(log[0]) then [log[0]] + EvidenceOf(log[1..])
    else EvidenceOf(log[1..])
  }

  predicate IsEvidence(e: Entry) {
    !e.record.Reseat?
  }

  /** The first `seq` entries. */
  function Upto(log: Log, position: nat): Log {
    log[..Min(position, |log|)]
  }

  function Electorate(st: Standing, log: Log, position: nat, at: int): seq<Address> {
    st.electorate(EvidenceOf(Upto(log, position)), at)
  }

  lemma {:induction false} EvidenceConcat(a: Log, b: Log)
    ensures EvidenceOf(a + b) == EvidenceOf(a) + EvidenceOf(b)
  {
    if a == [] {
      assert a + b == b;
    } else {
      EvidenceConcat(a[1..], b);
      assert (a + b)[0] == a[0] && (a + b)[1..] == a[1..] + b;
      assert [a[0]] + (EvidenceOf(a[1..]) + EvidenceOf(b)) == ([a[0]] + EvidenceOf(a[1..])) + EvidenceOf(b);
    }
  }

  /** An electorate pinned at a position the log already has does not see later entries. */
  lemma {:induction false} ElectoratePinned(st: Standing, log: Log, log': Log, position: nat, at: int)
    requires IsPrefix(log, log') && position <= |log|
    ensures Electorate(st, log', position, at) == Electorate(st, log, position, at)
  {
    PrefixUpto(log, log', position);
  }

  /** A gate judging at the position its own record will take sees what replay sees there. */
  lemma {:induction false} ElectorateAtOwnPosition(st: Standing, log: Log, e: Entry, at: int)
    requires !IsEvidence(e)
    ensures Electorate(st, log + [e], |log| + 1, at) == Electorate(st, log, |log| + 1, at)
  {
    EvidenceConcat(log, [e]);
    assert [e][1..] == [];
    assert EvidenceOf([e]) == [];
    assert EvidenceOf(log) + [] == EvidenceOf(log);
    assert Upto(log + [e], |log| + 1) == log + [e];
    assert Upto(log, |log| + 1) == log;
  }

  // --- Recusal ----------------------------------------------------------------

  /** Everyone who vouched for `subject` in the first `until` entries. */
  function Vouchers(log: Log, subject: Address, until: nat): set<Address> {
    set i | 0 <= i < |Upto(log, until)| && log[i].record == Vouch(subject) :: log[i].signer
  }

  /** Everyone `voucher` vouched for in the first `until` entries. */
  function Vouchees(log: Log, voucher: Address, until: nat): set<Address> {
    set i | 0 <= i < |Upto(log, until)| && log[i].record.Vouch? && log[i].signer == voucher :: log[i].record.subject
  }

  method VouchersOfUntil(log: Log, subject: Address, until: nat) returns (vouchers: set<Address>)
    ensures vouchers == Vouchers(log, subject, until)
  {
    vouchers := {};
    var i := 0;
    while i < |log|
      invariant 0 <= i <= |log|
      invariant vouchers == Vouchers(log, subject, Min(i, until))
    {
      if i + 1 > until {
        break;
      }
      if log[i].record.Vouch? && log[i].record.subject == subject {
        vouchers := vouchers + {log[i].signer};
      }
      i := i + 1;
    }
  }

  method VoucheesOfUntil(log: Log, voucher: Address, until: nat) returns (vouchees: set<Address>)
    ensures vouchees == Vouchees(log, voucher, until)
  {
    vouchees := {};
    var i := 0;
    while i < |log|
      invariant 0 <= i <= |log|
      invariant vouchees == Vouchees(log, voucher, Min(i, until))
    {
      if i + 1 > until {
        break;
      }
      if log[i].signer == voucher && log[i].record.Vouch? {
        vouchees := vouchees + {log[i].record.subject};
      }
      i := i + 1;
    }
  }

  /** `electorate` without the excluded, each with its weight, floored at one. */
  function Weigh(st: Standing, log: Log, electorate: seq<Address>, excluded: set<Address>, at: int, position: nat)
    : (pool: seq<Candidate>)
    ensures Weighted(pool)
    ensures forall c :: c in pool ==> c.who in electorate && c.who !in excluded
    ensures forall a :: a in electorate && a !in excluded ==> exists c :: c in pool && c.who == a
  {
    if electorate == [] then []
    else
      var rest := Weigh(st, log, electorate[1..], excluded, at, position);
      if electorate[0] in excluded then rest
      else
        [Candidate(electorate[0], Max(st.weight(EvidenceOf(Upto(log, position)), electorate[0], at), 1))] + rest
  }

  /** The two-tier pool: the soft recusal is dropped when the strict pool cannot fill a panel. */
  function Pool(st: Standing, log: Log, hard: set<Address>, soft: set<Address>, at: int, position: nat, size: nat)
    : (pool: seq<Candidate>)
    ensures Weighted(pool)
  {
    var electorate := Electorate(st, log, position, at);
    var strict := Weigh(st, log, electorate, hard + soft, at, position);
    if |strict| >= size then strict else Weigh(st, log, electorate, hard, at, position)
  }

  method EligiblePoolExcluding(
    st: Standing, log: Log, hard: set<Address>, soft: set<Address>, at: int, position: nat, size: nat)
    returns (pool: seq<Candidate>)
    ensures pool == Pool(st, log, hard, soft, at, position, size)
  {
    var electorate := Electorate(st, log, position, at);
    pool := WeighAll(st, log, electorate, hard + soft, at, position);
    if |pool| >= size {
      return;
    }
    pool := WeighAll(st, log, electorate, hard, at, position);
  }

  lemma {:induction false} WeighStep(
    st: Standing, log: Log, electorate: seq<Address>, excluded: set<Address>, at: int, position: nat, i: nat)
    requires i < |electorate|
    ensures Weigh(st, log, electorate[i..], excluded, at, position)
         == (if electorate[i] in excluded then []
             else [Candidate(electorate[i], Max(st.weight(EvidenceOf(Upto(log, position)), electorate[i], at), 1))])
            + Weigh(st, log, electorate[i + 1..], excluded, at, position)
  {
    assert electorate[i..][0] == electorate[i] && electorate[i..][1..] == electorate[i + 1..];
  }

  method WeighAll(st: Standing, log: Log, electorate: seq<Address>, excluded: set<Address>, at: int, position: nat)
    returns (pool: seq<Candidate>)
    ensures pool == Weigh(st, log, electorate, excluded, at, position)
  {
    hide Weigh;
    pool := [];
    assert electorate[0..] == electorate;
    for i := 0 to |electorate|
      invariant pool + Weigh(st, log, electorate[i..], excluded, at, position)
             == Weigh(st, log, electorate, excluded, at, position)
    {
      WeighStep(st, log, electorate, excluded, at, position, i);
      if electorate[i] !in excluded {
        var weight := st.weight(EvidenceOf(Upto(log, position)), electorate[i], at);
        pool := pool + [Candidate(electorate[i], Max(weight, 1))];
      }
    }
    assert electorate[|electorate|..] == [];
    WeighNobody(st, log, excluded, at, position);
  }

  lemma {:induction false} WeighNobody(st: Standing, log: Log, excluded: set<Address>, at: int, position: nat)
    ensures Weigh(st, log, [], excluded, at, position) == []
  {
  }

  lemma {:induction false} WeighDistinct(
    st: Standing, log: Log, electorate: seq<Address>, excluded: set<Address>, at: int, position: nat)
    requires Distinct(electorate)
    ensures DistinctKeys(Weigh(st, log, electorate, excluded, at, position))
  {
    hide EvidenceOf, Upto;
    if electorate != [] {
      WeighDistinct(st, log, electorate[1..], excluded, at, position);
      var rest := Weigh(st, log, electorate[1..], excluded, at, position);
      assert forall i :: 0 <= i < |rest| ==> rest[i] in rest;
      assert electorate[0] !in electorate[1..];
    }
  }

  lemma {:induction false} PoolDistinct(
    st: Standing, log: Log, hard: set<Address>, soft: set<Address>, at: int, position: nat, size: nat)
    requires Sound(st)
    ensures DistinctKeys(Pool(st, log, hard, soft, at, position, size))
  {
    var electorate := Electorate(st, log, position, at);
    assert Distinct(electorate);
    WeighDistinct(st, log, electorate, hard + soft, at, position);
    WeighDistinct(st, log, electorate, hard, at, position);
  }

  function Free(electorate: seq<Address>, excluded: set<Address>): set<Address> {
    set a | a in electorate && a !in excluded
  }

  lemma {:induction false} WeighSize(
    st: Standing, log: Log, electorate: seq<Address>, excluded: set<Address>, at: int, position: nat)
    requires Distinct(electorate)
    ensures |Weigh(st, log, electorate, excluded, at, position)| == |Free(electorate, excluded)|
  {
    if electorate == [] {
      assert Free(electorate, excluded) == {};
    } else {
      WeighSize(st, log, electorate[1..], excluded, at, position);
      var rest := Free(electorate[1..], excluded);
      assert electorate[0] !in electorate[1..];
      if electorate[0] in excluded {
        assert Free(electorate, excluded) == rest;
      } else {
        assert Free(electorate, excluded) == rest + {electorate[0]};
      }
    }
  }

  /** Recusal: nobody hard-recused is ever in the pool, and anybody soft-recused is only there
      when fewer members than a panel are free of both recusals. */
  lemma {:induction false} PoolRecuses(
    st: Standing, log: Log, hard: set<Address>, soft: set<Address>, at: int, position: nat, size: nat, c: Candidate)
    requires Sound(st) && c in Pool(st, log, hard, soft, at, position, size)
    ensures c.who !in hard && c.who in Electorate(st, log, position, at)
    ensures c.who in soft ==> |Free(Electorate(st, log, position, at), hard + soft)| < size
  {
    var electorate := Electorate(st, log, position, at);
    assert Distinct(electorate);
    WeighSize(st, log, electorate, hard + soft, at, position);
  }

  /** And everybody else is: a member of the electorate is in the pool exactly when not hard-recused, and not
      soft-recused unless the members free of both are fewer than a panel. */
  lemma {:induction false} PoolHolds(
    st: Standing, log: Log, hard: set<Address>, soft: set<Address>, at: int, position: nat, size: nat, a: Address)
    requires Sound(st)
    ensures a in Keys(Pool(st, log, hard, soft, at, position, size)) <==>
              && a in Electorate(st, log, position, at) && a !in hard
              && (a in soft ==> |Free(Electorate(st, log, position, at), hard + soft)| < size)
  {
    hide Weigh, EvidenceOf, Sound;
    var electorate, pool := Electorate(st, log, position, at), Pool(st, log, hard, soft, at, position, size);
    assert Distinct(electorate) by { SoundHere(st, log, position, at); }
    WeighSize(st, log, electorate, hard + soft, at, position);
    if a in Keys(pool) {
      var i :| 0 <= i < |Keys(pool)| && Keys(pool)[i] == a;
      assert pool[i] in pool;
    }
    if c: Candidate :| c in pool && c.who == a {
      var i :| 0 <= i < |pool| && pool[i] == c;
      assert Keys(pool)[i] == a;
    }
  }

  lemma {:induction false} SoundHere(st: Standing, log: Log, position: nat, at: int)
    requires Sound(st)
    ensures Distinct(Electorate(st, log, position, at))
  {
  }

  /** Everything the pool is computed from lies at or before the pinned position. */
  lemma {:induction false} PoolPinned(
    st: Standing, log: Log, log': Log, hard: set<Address>, soft: set<Address>, at: int, position: nat, size: nat)
    requires Upto(log', position) == Upto(log, position)
    ensures Pool(st, log', hard, soft, at, position, size) == Pool(st, log, hard, soft, at, position, size)
  {
    var electorate := Electorate(st, log, position, at);
    WeighPinned(st, log, log', electorate, hard + soft, at, position);
    WeighPinned(st, log, log', electorate, hard, at, position);
  }

  lemma {:induction false} WeighPinned(
    st: Standing, log: Log, log': Log, electorate: seq<Address>, excluded: set<Address>, at: int, position: nat)
    requires Upto(log', position) == Upto(log, position)
    ensures Weigh(st, log', electorate, excluded, at, position) == Weigh(st, log, electorate, excluded, at, position)
  {
    if electorate != [] {
      WeighPinned(st, log, log', electorate[1..], excluded, at, position);
    }
  }

  lemma {:induction false} RecusalPinned(log: Log, log': Log, who: Address, position: nat)
    requires Upto(log', position) == Upto(log, position)
    ensures Vouchers(log', who, position) == Vouchers(log, who, position)
    ensures Vouchees(log', who, position) == Vouchees(log, who, position)
  {
    var u := Upto(log, position);
    assert forall i :: 0 <= i < |u| ==> u[i] == log[i];
    assert forall i :: 0 <= i < |u| ==> Upto(log', position)[i] == log'[i];
  }

  lemma {:induction false} UptoPrefix(log: Log, log': Log, position: nat)
    requires IsPrefix(log, log') && position <= |log|
    ensures Upto(log', position) == Upto(log, position)
  {
    PrefixUpto(log, log', position);
  }

  // --- Standing where it is pinned --------------------------------------------

  function NotReseat(): Entry -> bool {
    (e: Entry) => !e.record.Reseat?
  }

  /** What standing may be scored from: the first `position` entries but requests for a fresh round. */
  function Seen(log: Log, position: nat): Log {
    Filter(log[..Min(position, |log|)], NotReseat())
  }

  lemma {:induction false} EvidenceIsSeen(log: Log)
    ensures EvidenceOf(log) == Filter(log, NotReseat())
  {
    if log != [] {
      EvidenceIsSeen(log[1..]);
    }
  }

  /** The electorate pinned at a position and an instant is scored from just that. */
  lemma {:induction false} ElectorateMeans(st: Standing, log: Log, position: nat, at: int)
    ensures Electorate(st, log, position, at) == st.electorate(Seen(log, position), at)
  {
    EvidenceIsSeen(Upto(log, position));
  }

  function NotIn(excluded: set<Address>): Address -> bool {
    (a: Address) => a !in excluded
  }

  lemma {:induction false} WeighHead(
    st: Standing, log: Log, electorate: seq<Address>, excluded: set<Address>, at: int, position: nat)
    requires electorate != []
    ensures (var rest := Weigh(st, log, electorate[1..], excluded, at, position);
             Weigh(st, log, electorate, excluded, at, position)
             == if electorate[0] in excluded then rest
                else [Candidate(electorate[0], Max(st.weight(Seen(log, position), electorate[0], at), 1))] + rest)
  {
    EvidenceIsSeen(Upto(log, position));
  }

  lemma {:induction false} KeysStep(c: Candidate, pool: seq<Candidate>)
    ensures Keys([c] + pool) == [c.who] + Keys(pool)
  {
  }

  /** The pool of a tier: the electorate in order but the excluded, each weighed by that same evidence. */
  lemma {:induction false} WeighMeans(
    st: Standing, log: Log, electorate: seq<Address>, excluded: set<Address>, at: int, position: nat)
    ensures Keys(Weigh(st, log, electorate, excluded, at, position)) == Filter(electorate, NotIn(excluded))
    ensures forall c :: c in Weigh(st, log, electorate, excluded, at, position) ==>
              c.weight == Max(st.weight(Seen(log, position), c.who, at), 1)
  {
    hide Seen, Keys, Weigh;
    if electorate == [] {
      WeighNobody(st, log, excluded, at, position);
      assert Keys([]) == [];
    } else {
      WeighHead(st, log, electorate, excluded, at, position);
      WeighMeans(st, log, electorate[1..], excluded, at, position);
      if electorate[0] !in excluded {
        KeysStep(Candidate(electorate[0], Max(st.weight(Seen(log, position), electorate[0], at), 1)),
                 Weigh(st, log, electorate[1..], excluded, at, position));
      }
    }
  }

  /** One of the two vouched for the other among the first `n` entries. */
  predicate Tied(log: Log, a: Address, b: Address, n: nat) {
    exists k :: 0 <= k < n && k < |log| && log[k].record.Vouch?
                && ((log[k].signer == a && log[k].record.subject == b) || (log[k].signer == b && log[k].record.subject == a))
  }

  lemma {:induction false} VouchesMean(log: Log, a: Address, b: Address, n: nat)
    ensures a in Vouchers(log, b, n) + Vouchees(log, b, n) <==> Tied(log, a, b, n)
  {
    var u := Upto(log, n);
    if a in Vouchers(log, b, n) {
      var k :| 0 <= k < |u| && log[k].record == Vouch(b) && log[k].signer == a;
      assert log[k].record.Vouch?;
    }
    if a in Vouchees(log, b, n) {
      var k :| 0 <= k < |u| && log[k].record.Vouch? && log[k].signer == b && log[k].record.subject == a;
    }
    if Tied(log, a, b, n) {
      var k :| 0 <= k < n && k < |log| && log[k].record.Vouch?
               && ((log[k].signer == a && log[k].record.subject == b) || (log[k].signer == b && log[k].record.subject == a));
      assert k < |u|;
      assert log[k].record == Vouch(log[k].record.subject);
    }
  }
}
