/** Replaying the log into the emergencies that legitimately took force
    (crates/rrn-governance/src/emergency.rs). */
module EmergencyTimeline {
  import opened Basics
  import opened Sorting
  import opened GovLog
  import opened EmergencyChain

  const DECLARATION_TTL: int := DURATION_CEILING

  /** `ceil(2n/3)` at the floor, the literal share above it. */
  function DeclarationThreshold(n: nat, pct: nat): nat {
    if pct <= DECLARATION_PCT_FLOOR then (n * 2 + 2) / 3 else (n * pct + 99) / 100
  }

  // --- Log reads --------------------------------------------------------------

  /** A declaration with content address `h`, signed by its author. */
  predicate Declares(e: Entry, h: Hash) {
    e.record.Declare? && OfDeclaration(e.record.d) == h && e.signer == e.record.d.author
  }

  /** Position of the first declaration of `h` among the first `n` entries. */
  function DeclarationTo(log: Log, h: Hash, n: nat): (r: Option<nat>)
    requires n <= |log|
    ensures r.Some? ==> 1 <= r.value <= n && Declares(log[r.value - 1], h)
  {
    if n == 0 then None
    else
      var earlier := DeclarationTo(log, h, n - 1);
      if earlier.Some? then earlier else if Declares(log[n - 1], h) then Some(n) else None
  }

  function FindDeclaration(log: Log, h: Hash): (r: Option<nat>)
    ensures r.Some? ==> 1 <= r.value <= |log| && Declares(log[r.value - 1], h)
  {
    DeclarationTo(log, h, |log|)
  }

  predicate Moves(e: Entry, h: Hash) {
    e.record.Lapse? && OfMotion(e.record.m) == h && e.signer == e.record.m.author
  }

  function MotionTo(log: Log, h: Hash, n: nat): (r: Option<nat>)
    requires n <= |log|
    ensures r.Some? ==> 1 <= r.value <= n && Moves(log[r.value - 1], h)
  {
    if n == 0 then None
    else
      var earlier := MotionTo(log, h, n - 1);
      if earlier.Some? then earlier else if Moves(log[n - 1], h) then Some(n) else None
  }

  function FindMotion(log: Log, h: Hash): (r: Option<nat>)
    ensures r.Some? ==> 1 <= r.value <= |log| && Moves(log[r.value - 1], h)
  {
    MotionTo(log, h, |log|)
  }

  predicate Anchors(G: Gov, e: Entry, h: Hash) {
    e.record.Admitted? && e.signer == G.station && e.record.target == h
  }

  /** The instant on the earliest station anchor of `h`. */
  function AnchorTo(G: Gov, log: Log, h: Hash, n: nat): Option<int>
    requires n <= |log|
  {
    if n == 0 then None
    else
      var earlier := AnchorTo(G, log, h, n - 1);
      if earlier.Some? then earlier
      else if Anchors(G, log[n - 1], h) then Some(log[n - 1].record.admittedAt) else None
  }

  // --- Signatures -------------------------------------------------------------

  /** A signature and the position it first appears at. */
  datatype Sig = Sig(position: nat, who: Address)

  function ByPosition(): Sig -> int {
    (s: Sig) => s.position
  }

  predicate Eligible(G: Gov, root: Root, pin: Pin, who: Address) {
    G.st.eligible(pin.evidence, root.founders, pin.at, who)
  }

  predicate Signs(e: Entry, target: Hash) {
    e.record.Cosign? && e.record.target == target && e.signer == e.record.who
  }

  /** The self-signed co-signatures of `target` among the first `n` entries, in log order. */
  function Cosigners(log: Log, target: Hash, n: nat): seq<Sig>
    requires n <= |log|
  {
    if n == 0 then []
    else if Signs(log[n - 1], target) then Cosigners(log, target, n - 1) + [Sig(n, log[n - 1].record.who)]
    else Cosigners(log, target, n - 1)
  }

  predicate SignedBy(sigs: seq<Sig>, who: Address) {
    exists i :: 0 <= i < |sigs| && sigs[i].who == who
  }

  /** Of `candidates`, each eligible signer not in `seen`, at the first place it appears. */
  function FirstEligible(G: Gov, root: Root, pin: Pin, seen: set<Address>, candidates: seq<Sig>): seq<Sig> {
    if candidates == [] then []
    else
      var last := |candidates| - 1;
      var sigs := FirstEligible(G, root, pin, seen, candidates[..last]);
      var c := candidates[last];
      if Eligible(G, root, pin, c.who) && c.who !in seen && !SignedBy(sigs, c.who) then sigs + [c] else sigs
  }

  /** The distinct eligible signatures toward `target` on `log`, the author's first, by position. */
  function EligibleSigs(G: Gov, root: Root, pin: Pin, log: Log, target: Hash, author: Address, authorSeq: nat): seq<Sig> {
    var own := if authorSeq <= |log| && Eligible(G, root, pin, author) then [Sig(authorSeq, author)] else [];
    var seen := if own == [] then {} else {author};
    SortBy(own + FirstEligible(G, root, pin, seen, Cosigners(log, target, |log|)), ByPosition())
  }

  /** The position at which the count crosses. */
  function CrossingSeq(sigs: seq<Sig>, threshold: nat): Option<nat> {
    if threshold == 0 then (if sigs == [] then None else Some(sigs[0].position))
    else if threshold - 1 < |sigs| then Some(sigs[threshold - 1].position) else None
  }

  method EligibleSignatures(
    G: Gov, root: Root, pin: Pin, log: Log, target: Hash, author: Address, authorSeq: nat, upto: nat)
    returns (sigs: seq<Sig>)
    requires upto <= |log|
    ensures sigs == EligibleSigs(G, root, pin, log[..upto], target, author, authorSeq)
  {
    var seen: set<Address> := {};
    sigs := [];
    if authorSeq <= upto && Eligible(G, root, pin, author) {
      seen := {author};
      sigs := [Sig(authorSeq, author)];
    }
    ghost var own, before := sigs, seen;
    ghost var prefix := log[..upto];
    var i := 0;
    while i < upto
      invariant 0 <= i <= upto
      invariant sigs == own + FirstEligible(G, root, pin, before, Cosigners(prefix, target, i))
      invariant forall a :: a in seen <==>
        a in before || SignedBy(FirstEligible(G, root, pin, before, Cosigners(prefix, target, i)), a)
    {
      var e := log[i];
      assert prefix[i] == e;
      CosignersStep(G, root, pin, before, prefix, target, i);
      ghost var was := FirstEligible(G, root, pin, before, Cosigners(prefix, target, i));
      if e.record.Cosign? && e.record.target == target && e.signer == e.record.who
         && Eligible(G, root, pin, e.record.who) && e.record.who !in seen {
        seen := seen + {e.record.who};
        ghost var now := was + [Sig(i + 1, e.record.who)];
        SignedByAppend(was, Sig(i + 1, e.record.who));
        sigs := sigs + [Sig(i + 1, e.record.who)];
      }
      i := i + 1;
    }
    assert prefix[..|prefix|] == prefix;
    sigs := SortBy(sigs, ByPosition());
  }

  lemma {:induction false} SignedByAppend(sigs: seq<Sig>, s: Sig)
    ensures forall a :: SignedBy(sigs + [s], a) <==> SignedBy(sigs, a) || a == s.who
  {
    forall a ensures SignedBy(sigs + [s], a) <==> SignedBy(sigs, a) || a == s.who {
      var all := sigs + [s];
      if SignedBy(sigs, a) {
        var i :| 0 <= i < |sigs| && sigs[i].who == a;
        assert all[i].who == a;
      }
      if a == s.who {
        assert all[|sigs|].who == a;
      }
    }
  }

  /** The signatures after the entry at `position`. */
  function Joined(
    G: Gov, root: Root, pin: Pin, seen: set<Address>, sigs: seq<Sig>, e: Entry, position: nat, target: Hash): seq<Sig>
  {
    if Signs(e, target) && Eligible(G, root, pin, e.record.who) && e.record.who !in seen && !SignedBy(sigs, e.record.who)
    then sigs + [Sig(position, e.record.who)] else sigs
  }

  lemma {:induction false} CosignersStep(
    G: Gov, root: Root, pin: Pin, seen: set<Address>, log: Log, target: Hash, i: nat)
    requires i < |log|
    ensures FirstEligible(G, root, pin, seen, Cosigners(log, target, i + 1))
         == Joined(G, root, pin, seen, FirstEligible(G, root, pin, seen, Cosigners(log, target, i)), log[i], i + 1, target)
  {
    var before := Cosigners(log, target, i);
    if Signs(log[i], target) {
      var c := Sig(i + 1, log[i].record.who);
      assert (before + [c])[..|before|] == before;
    }
  }

  // --- Lapses -----------------------------------------------------------------

  predicate MovesToLapse(e: Entry, h: Hash) {
    e.record.Lapse? && e.record.m.target == h && e.signer == e.record.m.author
  }

  /** The lapse motions against `h`: what a lapse co-signature may target. */
  function LapseTargets(log: Log, h: Hash): set<Hash> {
    set i | 0 <= i < |log| && MovesToLapse(log[i], h) :: OfMotion(log[i].record.m)
  }

  predicate SignsLapse(e: Entry, targets: set<Hash>) {
    e.record.Cosign? && e.record.target in targets && e.signer == e.record.who
  }

  /** Every signature toward lifting `h`: motion authors and co-signers of any of its motions. */
  function LapseCandidates(log: Log, h: Hash, targets: set<Hash>, n: nat): seq<Sig>
    requires n <= |log|
  {
    if n == 0 then []
    else
      var earlier := LapseCandidates(log, h, targets, n - 1);
      if MovesToLapse(log[n - 1], h) then earlier + [Sig(n, log[n - 1].record.m.author)]
      else if SignsLapse(log[n - 1], targets) then earlier + [Sig(n, log[n - 1].record.who)]
      else earlier
  }

  function LapseSigs(G: Gov, root: Root, pin: Pin, log: Log, h: Hash): seq<Sig> {
    FirstEligible(G, root, pin, {}, LapseCandidates(log, h, LapseTargets(log, h), |log|))
  }

  /** Where a lift of `h` crossed, pooling signatures over all its motions. */
  function LapseBoundary(G: Gov, root: Root, pin: Pin, log: Log, h: Hash, threshold: nat): Option<nat> {
    CrossingSeq(LapseSigs(G, root, pin, log, h), threshold)
  }

  /** The motion authors (`motions`) or the co-signers among the first `n` entries. */
  function OneKind(log: Log, h: Hash, targets: set<Hash>, motions: bool, n: nat): seq<Sig>
    requires n <= |log|
  {
    if n == 0 then []
    else
      var earlier := OneKind(log, h, targets, motions, n - 1);
      if motions && MovesToLapse(log[n - 1], h) then earlier + [Sig(n, log[n - 1].record.m.author)]
      else if !motions && SignsLapse(log[n - 1], targets) then earlier + [Sig(n, log[n - 1].record.who)]
      else earlier
  }

  lemma {:induction false} KindsTogether(log: Log, h: Hash, targets: set<Hash>, n: nat)
    requires n <= |log|
    ensures multiset(OneKind(log, h, targets, true, n)) + multiset(OneKind(log, h, targets, false, n))
         == multiset(LapseCandidates(log, h, targets, n))
  {
    if n > 0 {
      KindsTogether(log, h, targets, n - 1);
    }
  }

  lemma {:induction false} CandidatesOrdered(log: Log, h: Hash, targets: set<Hash>, n: nat)
    requires n <= |log|
    ensures StrictlyOrdered(LapseCandidates(log, h, targets, n), ByPosition())
    ensures forall c :: c in LapseCandidates(log, h, targets, n) ==> c.position <= n
  {
    if n > 0 {
      hide MovesToLapse, SignsLapse;
      CandidatesOrdered(log, h, targets, n - 1);
      var earlier := LapseCandidates(log, h, targets, n - 1);
      assert forall i :: 0 <= i < |earlier| ==> earlier[i] in earlier;
    }
  }

  /** Collecting the two kinds separately and sorting gives the candidates in log order. */
  lemma {:induction false} SortedCandidates(log: Log, h: Hash, targets: set<Hash>)
    ensures SortBy(OneKind(log, h, targets, true, |log|) + OneKind(log, h, targets, false, |log|), ByPosition())
         == LapseCandidates(log, h, targets, |log|)
  {
    var both := OneKind(log, h, targets, true, |log|) + OneKind(log, h, targets, false, |log|);
    SortKeeps(both, ByPosition());
    KindsTogether(log, h, targets, |log|);
    CandidatesOrdered(log, h, targets, |log|);
    StrictOrderUnique(SortBy(both, ByPosition()), LapseCandidates(log, h, targets, |log|), ByPosition());
  }

  method LapseBoundaryOf(G: Gov, root: Root, pin: Pin, log: Log, h: Hash, threshold: nat) returns (r: Option<nat>)
    ensures r == LapseBoundary(G, root, pin, log, h, threshold)
  {
    var targets: set<Hash> := {};
    var candidates: seq<Sig> := [];
    for i := 0 to |log|
      invariant targets == LapseTargets(log[..i], h)
      invariant candidates == OneKind(log, h, LapseTargets(log, h), true, i)
    {
      var e := log[i];
      LapseTargetsStep(log, h, i);
      if e.record.Lapse? && e.record.m.target == h && e.signer == e.record.m.author {
        targets := targets + {OfMotion(e.record.m)};
        candidates := candidates + [Sig(i + 1, e.record.m.author)];
      }
    }
    assert log[..|log|] == log;
    ghost var motions := candidates;
    for i := 0 to |log|
      invariant candidates == motions + OneKind(log, h, targets, false, i)
    {
      var e := log[i];
      if e.record.Cosign? && e.record.target in targets && e.signer == e.record.who {
        candidates := candidates + [Sig(i + 1, e.record.who)];
      }
    }
    candidates := SortBy(candidates, ByPosition());
    SortedCandidates(log, h, targets);
    var seen: set<Address> := {};
    var sigs: seq<Sig> := [];
    for i := 0 to |candidates|
      invariant sigs == FirstEligible(G, root, pin, {}, candidates[..i])
      invariant forall a :: a in seen <==> SignedBy(sigs, a)
    {
      var c := candidates[i];
      assert candidates[..i + 1][..i] == candidates[..i];
      if Eligible(G, root, pin, c.who) && c.who !in seen {
        SignedByAppend(sigs, c);
        seen := seen + {c.who};
        sigs := sigs + [c];
      }
    }
    assert candidates[..|candidates|] == candidates;
    r := CrossingSeq(sigs, threshold);
  }

  lemma {:induction false} LapseTargetsStep(log: Log, h: Hash, i: nat)
    requires i < |log|
    ensures LapseTargets(log[..i + 1], h)
         == LapseTargets(log[..i], h) + (if MovesToLapse(log[i], h) then {OfMotion(log[i].record.m)} else {})
  {
    var a, b := log[..i], log[..i + 1];
    assert forall k :: 0 <= k < i ==> a[k] == b[k];
    assert b[i] == log[i];
  }

  // --- The derivation ---------------------------------------------------------

  /** An emergency that took force. `position` is the activation's, its electorate's single pin;
      `lapsed` is where a lift crossed, if one did. */
  datatype ActiveEmergency = ActiveEmergency(
    hash: Hash, reason: nat, scope: nat, start: int, expiry: int, renewals: nat, position: nat, lapsed: Option<nat>)

  datatype Derivation = Derivation(timeline: seq<ActiveEmergency>, dead: set<Hash>, anchors: map<Hash, int>)

  function Spans(timeline: seq<ActiveEmergency>): (r: seq<Span>)
    ensures |r| == |timeline|
    ensures forall i :: 0 <= i < |r| ==> r[i] == Span(timeline[i].start, timeline[i].expiry)
  {
    seq(|timeline|, i requires 0 <= i < |timeline| => Span(timeline[i].start, timeline[i].expiry))
  }

  /** Some activation of `h` stands. */
  predicate Took(timeline: seq<ActiveEmergency>, h: Hash) {
    exists i :: 0 <= i < |timeline| && timeline[i].hash == h
  }

  predicate Decided(D: Derivation, h: Hash) {
    Took(D.timeline, h) || h in D.dead
  }

  predicate SameCommunity(root: Root, d: Declaration) {
    root.community.Some? ==> d.community == root.community.value
  }

  function ThresholdAt(G: Gov, root: Root, pin: Pin): nat {
    DeclarationThreshold(G.st.electorateSize(pin.evidence, root.founders, pin.at), root.declarationPct)
  }

  /** Whether the declaration at `declared` had gathered its supermajority by `position`, everything
      judged at that one pin. */
  predicate CrossingReached(G: Gov, root: Root, log: Log, declared: nat, at: int, position: nat)
    requires 1 <= declared <= |log| && log[declared - 1].record.Declare? && position <= |log|
  {
    var d, pin := log[declared - 1].record.d, PinAt(log, position, at);
    CrossingSeq(EligibleSigs(G, root, pin, log[..position], OfDeclaration(d), d.author, declared),
                ThresholdAt(G, root, pin)).Some?
  }

  function Scheduled(d: Declaration, at: int): int {
    at + ClampDuration(d.duration)
  }

  /** A declaration of `h` naming this community. */
  predicate Known(root: Root, log: Log, h: Hash) {
    var declared := FindDeclaration(log, h);
    declared.Some? && SameCommunity(root, log[declared.value - 1].record.d)
  }

  /** Whether the refusal of `h` at index `k` is believed. */
  predicate RefusalStands(G: Gov, root: Root, log: Log, D: Derivation, k: nat, h: Hash, at: int)
    requires k < |log|
  {
    && !Decided(D, h) && Known(root, log, h)
    && var declared := FindDeclaration(log, h).value;
       CrossingReached(G, root, log, declared, at, k + 1)
       && ChainDecision(Spans(D.timeline), Span(at, Scheduled(log[declared - 1].record.d, at)), root.maxRenewals).None?
  }

  /** Whether the activation of `h` at index `k` is believed. */
  predicate ActivationStands(G: Gov, root: Root, log: Log, D: Derivation, k: nat, h: Hash, at: int, expiry: int)
    requires k < |log|
  {
    && Known(root, log, h) && !Decided(D, h)
    && h in D.anchors && at - D.anchors[h] <= DECLARATION_TTL
    && var declared := FindDeclaration(log, h).value;
       CrossingReached(G, root, log, declared, at, k + 1)
       && expiry == Scheduled(log[declared - 1].record.d, at)
       && ChainDecision(Spans(D.timeline), Span(at, expiry), root.maxRenewals).Some?
  }

  function NewEmergency(G: Gov, root: Root, log: Log, D: Derivation, k: nat, h: Hash, at: int, expiry: int): ActiveEmergency
    requires k < |log| && ActivationStands(G, root, log, D, k, h, at, expiry)
  {
    var d, pin := log[FindDeclaration(log, h).value - 1].record.d, PinAt(log, k + 1, at);
    ActiveEmergency(h, d.reason, d.scope, at, expiry,
      ChainDecision(Spans(D.timeline), Span(at, expiry), root.maxRenewals).value, k + 1,
      LapseBoundary(G, root, pin, log, h, ThresholdAt(G, root, pin)))
  }

  /** What the entry at index `k` of `log` adds to the derivation so far. */
  function Replay(G: Gov, root: Root, log: Log, D: Derivation, k: nat): Derivation
    requires k < |log|
  {
    if log[k].signer != G.station then D
    else
      match log[k].record
      case Admitted(h, at) => if h in D.anchors then D else D.(anchors := D.anchors[h := at])
      case Refused(h, at) => if RefusalStands(G, root, log, D, k, h, at) then D.(dead := D.dead + {h}) else D
      case Activated(h, at, expiry, _) =>
        if ActivationStands(G, root, log, D, k, h, at, expiry)
        then D.(timeline := D.timeline + [NewEmergency(G, root, log, D, k, h, at, expiry)]) else D
      case _ => D
  }

  function DeriveTo(G: Gov, root: Root, log: Log, n: nat): Derivation
    requires n <= |log|
  {
    if n == 0 then Derivation([], {}, map[])
    else Replay(G, root, log, DeriveTo(G, root, log, n - 1), n - 1)
  }

  function Derive(G: Gov, root: Root, log: Log): Derivation {
    DeriveTo(G, root, log, |log|)
  }

  method IsCrossingReached(G: Gov, root: Root, log: Log, declared: nat, at: int, position: nat) returns (r: bool)
    requires 1 <= declared <= |log| && log[declared - 1].record.Declare? && position <= |log|
    ensures r == CrossingReached(G, root, log, declared, at, position)
  {
    var d, pin := log[declared - 1].record.d, PinAt(log, position, at);
    var sigs := EligibleSignatures(G, root, pin, log, OfDeclaration(d), d.author, declared, position);
    r := CrossingSeq(sigs, ThresholdAt(G, root, pin)).Some?;
  }

  /** One replay pass, threading the chain state. */
  method DeriveEmergencies(G: Gov, root: Root, log: Log) returns (D: Derivation)
    ensures D == Derive(G, root, log)
  {
    hide CrossingReached, LapseBoundary, FindDeclaration, Fold;
    var timeline: seq<ActiveEmergency>, chain: seq<Span>, decided: set<Hash> := [], [], {};
    var dead: set<Hash>, anchors: map<Hash, int> := {}, map[];
    for k := 0 to |log|
      invariant Derivation(timeline, dead, anchors) == DeriveTo(G, root, log, k)
      invariant chain == Spans(timeline)
      invariant forall h :: h in decided <==> Took(timeline, h)
    {
      ghost var before := Derivation(timeline, dead, anchors);
      var e := log[k];
      if e.signer != G.station {
        continue;
      }
      match e.record {
        case Admitted(h, at) =>
          if h !in anchors {
            anchors := anchors[h := at];
          }
        case Refused(h, at) =>
          var stands := JudgeRefusal(G, root, log, before, chain, decided, dead, k, h, at);
          if stands {
            dead := dead + {h};
          }
        case Activated(h, at, expiry, _) =>
          var renewals := JudgeActivation(G, root, log, before, chain, decided, dead, anchors, k, h, at, expiry);
          if renewals.Some? {
            var d, pin := log[FindDeclaration(log, h).value - 1].record.d, PinAt(log, k + 1, at);
            var lapsed := LapseBoundaryOf(G, root, pin, log, h, ThresholdAt(G, root, pin));
            var emergency := ActiveEmergency(h, d.reason, d.scope, at, expiry, renewals.value, k + 1, lapsed);
            TookAppend(timeline, emergency);
            decided := decided + {h};
            chain := chain + [Span(at, expiry)];
            timeline := timeline + [emergency];
          }
        case _ =>
      }
    }
    D := Derivation(timeline, dead, anchors);
  }

  lemma {:induction false} TookAppend(timeline: seq<ActiveEmergency>, e: ActiveEmergency)
    ensures forall h :: Took(timeline + [e], h) <==> Took(timeline, h) || h == e.hash
  {
    forall h ensures Took(timeline + [e], h) <==> Took(timeline, h) || h == e.hash {
      var all := timeline + [e];
      if Took(timeline, h) {
        var i :| 0 <= i < |timeline| && timeline[i].hash == h;
        assert all[i].hash == h;
      }
      if h == e.hash {
        assert all[|timeline|].hash == h;
      }
    }
  }

  method JudgeRefusal(
    G: Gov, root: Root, log: Log, ghost D: Derivation, chain: seq<Span>, decided: set<Hash>, dead: set<Hash>,
    k: nat, h: Hash, at: int) returns (stands: bool)
    requires k < |log| && chain == Spans(D.timeline) && dead == D.dead
    requires forall h :: h in decided <==> Took(D.timeline, h)
    ensures stands == RefusalStands(G, root, log, D, k, h, at)
  {
    hide CrossingReached, ChainDecision, FindDeclaration, ClampDuration;
    if h in decided || h in dead {
      return false;
    }
    var declared := FindDeclaration(log, h);
    if declared.None? || !SameCommunity(root, log[declared.value - 1].record.d) {
      return false;
    }
    var reached := IsCrossingReached(G, root, log, declared.value, at, k + 1);
    if !reached {
      return false;
    }
    var scheduled := at + ClampDuration(log[declared.value - 1].record.d.duration);
    return ChainDecision(chain, Span(at, scheduled), root.maxRenewals).None?;
  }

  method JudgeActivation(
    G: Gov, root: Root, log: Log, ghost D: Derivation, chain: seq<Span>, decided: set<Hash>, dead: set<Hash>,
    anchors: map<Hash, int>, k: nat, h: Hash, at: int, expiry: int) returns (renewals: Option<nat>)
    requires k < |log| && chain == Spans(D.timeline) && dead == D.dead && anchors == D.anchors
    requires forall h :: h in decided <==> Took(D.timeline, h)
    ensures renewals.Some? <==> ActivationStands(G, root, log, D, k, h, at, expiry)
    ensures renewals.Some? ==> renewals == ChainDecision(chain, Span(at, expiry), root.maxRenewals)
  {
    hide CrossingReached, ChainDecision, FindDeclaration, ClampDuration;
    var declared := FindDeclaration(log, h);
    if declared.None? || !SameCommunity(root, log[declared.value - 1].record.d) {
      return None;
    }
    if h in decided || h in dead {
      return None;
    }
    if h !in anchors || at - anchors[h] > DECLARATION_TTL {
      return None;
    }
    var reached := IsCrossingReached(G, root, log, declared.value, at, k + 1);
    if !reached {
      return None;
    }
    var scheduled := at + ClampDuration(log[declared.value - 1].record.d.duration);
    if expiry != scheduled {
      return None;
    }
    return ChainDecision(chain, Span(at, scheduled), root.maxRenewals);
  }

  // --- Public predicates ------------------------------------------------------

  /** Whether an emergency covers a record at `at` and `position`; `None` is past every position.
      Strict at the activation instant. */
  predicate Governs(e: ActiveEmergency, at: int, position: Option<nat>) {
    && (position.Some? ==> position.value > e.position)
    && e.start < at && at <= e.expiry
    && (e.lapsed.Some? ==> position.Some? && position.value < e.lapsed.value)
  }

  /** After the activation in log and clock, up to the expiry, and before the lift if one crossed. */
  predicate Covers(e: ActiveEmergency, at: int, position: Option<nat>) {
    && e.start < at <= e.expiry
    && match position
       case None => e.lapsed.None?
       case Some(p) => e.position < p && (e.lapsed.Some? ==> p < e.lapsed.value)
  }

  /** The emergency at index `i` is the first of the timeline to cover a record. */
  predicate FirstToGovern(timeline: seq<ActiveEmergency>, at: int, position: Option<nat>, i: nat) {
    i < |timeline| && Governs(timeline[i], at, position) && forall j :: 0 <= j < i ==> !Governs(timeline[j], at, position)
  }

  /** The first emergency of the timeline covering a record, if any. */
  function ActiveAt(timeline: seq<ActiveEmergency>, at: int, position: Option<nat>): (r: Option<ActiveEmergency>)
    ensures r.Some? ==> r.value in timeline && Governs(r.value, at, position)
    ensures r.Some? ==> exists i: nat :: FirstToGovern(timeline, at, position, i) && timeline[i] == r.value
    ensures r.None? ==> forall i :: 0 <= i < |timeline| ==> !Governs(timeline[i], at, position)
    ensures r.Some? ==> Covers(r.value, at, position)
    ensures r.None? ==> forall e :: e in timeline ==> !Covers(e, at, position)
  {
    if timeline == [] then None
    else if Governs(timeline[0], at, position) then Some(timeline[0])
    else ActiveAt(timeline[1..], at, position)
  }

  datatype Status = StatusActivated | StatusDead | StatusExpired | StatusPending

  function DeclarationStatus(D: Derivation, h: Hash, probe: int): Status {
    if Took(D.timeline, h) then StatusActivated
    else if h in D.dead then StatusDead
    else if h in D.anchors && probe - D.anchors[h] > DECLARATION_TTL then StatusExpired
    else StatusPending
  }
}
