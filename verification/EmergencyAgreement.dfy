/** Gates and replay agree about emergencies, and what was derived stays derived
    (crates/rrn-governance/src/emergency.rs). */
module EmergencyAgreement {
  import opened Basics
  import opened GovLog
  import opened EmergencyChain
  import opened EmergencyTimeline

  // --- Records in their place -------------------------------------------------

  /** A station marker that decides a declaration. */
  predicate IsDecision(G: Gov, e: Entry) {
    e.signer == G.station && (e.record.Refused? || e.record.Activated?)
  }

  /** What the doors make true of the entry at index `k` whatever the root: a co-signature follows its
      target, and a decision follows its declaration and carries its own admission instant. */
  predicate PlacedAt(G: Gov, log: Log, k: nat)
    requires k < |log|
  {
    && (log[k].record.Cosign? && log[k].signer == log[k].record.who ==>
          DeclarationTo(log, log[k].record.target, k).Some? || MotionTo(log, log[k].record.target, k).Some?)
    && (IsDecision(G, log[k]) ==>
          DeclarationTo(log, log[k].record.target, k).Some? && log[k].record.instant == log[k].at)
  }

  predicate Placed(G: Gov, log: Log) {
    Clocked(log) && forall k :: 0 <= k < |log| ==> PlacedAt(G, log, k)
  }

  lemma {:induction false} DeclarationLocal(log: Log, log': Log, h: Hash, n: nat)
    requires IsPrefix(log, log') && n <= |log|
    ensures DeclarationTo(log', h, n) == DeclarationTo(log, h, n)
  {
    if n > 0 {
      PrefixAt(log, log', n - 1);
      DeclarationLocal(log, log', h, n - 1);
    }
  }

  lemma {:induction false} MotionLocal(log: Log, log': Log, h: Hash, n: nat)
    requires IsPrefix(log, log') && n <= |log|
    ensures MotionTo(log', h, n) == MotionTo(log, h, n)
  {
    if n > 0 {
      PrefixAt(log, log', n - 1);
      MotionLocal(log, log', h, n - 1);
    }
  }

  lemma {:induction false} DeclarationStays(log: Log, h: Hash, m: nat, n: nat)
    requires m <= n <= |log| && DeclarationTo(log, h, m).Some?
    ensures DeclarationTo(log, h, n) == DeclarationTo(log, h, m)
    decreases n
  {
    if m < n {
      DeclarationStays(log, h, m, n - 1);
    }
  }

  /** A declaration found on a log is the one found on every extension. */
  lemma {:induction false} FoundStays(log: Log, log': Log, h: Hash, k: nat)
    requires IsPrefix(log, log') && k <= |log| && DeclarationTo(log, h, k).Some?
    ensures FindDeclaration(log, h) == FindDeclaration(log', h) == DeclarationTo(log, h, k)
  {
    DeclarationStays(log, h, k, |log|);
    DeclarationLocal(log, log', h, k);
    DeclarationStays(log', h, k, |log'|);
  }

  lemma {:induction false} PlacedAtLocal(G: Gov, log: Log, log': Log, k: nat)
    requires IsPrefix(log, log') && k < |log| && PlacedAt(G, log, k)
    ensures PlacedAt(G, log', k)
  {
    PrefixAt(log, log', k);
    if log[k].record.Cosign? {
      DeclarationLocal(log, log', log[k].record.target, k);
      MotionLocal(log, log', log[k].record.target, k);
    } else if IsDecision(G, log[k]) {
      DeclarationLocal(log, log', log[k].record.target, k);
    }
  }

  // --- Reading a longer log ---------------------------------------------------

  /** The same emergency on a longer reading: only the lapse may appear, past everything read before. */
  predicate SameEmergency(e: ActiveEmergency, e': ActiveEmergency, bound: nat) {
    && e' == e.(lapsed := e'.lapsed)
    && (e.lapsed.Some? ==> e'.lapsed == e.lapsed)
    && (e.lapsed.None? && e'.lapsed.Some? ==> e'.lapsed.value > bound)
  }

  /** `D'` keeps everything `D` says. */
  predicate Keeps(D: Derivation, D': Derivation, bound: nat) {
    && |D.timeline| <= |D'.timeline|
    && (forall i :: 0 <= i < |D.timeline| ==> SameEmergency(D.timeline[i], D'.timeline[i], bound))
    && D.dead <= D'.dead
    && (forall h :: h in D.anchors ==> h in D'.anchors && D'.anchors[h] == D.anchors[h])
  }

  predicate Alike(D: Derivation, D': Derivation, bound: nat) {
    && |D.timeline| == |D'.timeline|
    && (forall i :: 0 <= i < |D.timeline| ==> SameEmergency(D.timeline[i], D'.timeline[i], bound))
    && D.dead == D'.dead && D.anchors == D'.anchors
  }

  lemma {:induction false} AlikeReads(D: Derivation, D': Derivation, bound: nat, h: Hash)
    requires Alike(D, D', bound)
    ensures Spans(D.timeline) == Spans(D'.timeline) && (Decided(D, h) <==> Decided(D', h))
  {
    forall i | 0 <= i < |D.timeline| ensures D.timeline[i].hash == D'.timeline[i].hash {
      assert SameEmergency(D.timeline[i], D'.timeline[i], bound);
    }
    forall i | 0 <= i < |D.timeline| ensures Spans(D.timeline)[i] == Spans(D'.timeline)[i] {
      assert SameEmergency(D.timeline[i], D'.timeline[i], bound);
    }
  }

  /** A co-signature already on the log names the same lapse motions on every extension. */
  lemma {:induction false} LapseTargetsAgree(G: Gov, log: Log, log': Log, h: Hash, k: nat)
    requires IsPrefix(log, log') && k < |log| && PlacedAt(G, log, k)
    ensures SignsLapse(log[k], LapseTargets(log, h)) <==> SignsLapse(log[k], LapseTargets(log', h))
  {
    if log[k].record.Cosign? && log[k].signer == log[k].record.who {
      var t := log[k].record.target;
      if t in LapseTargets(log, h) {
        var i :| 0 <= i < |log| && MovesToLapse(log[i], h) && t == OfMotion(log[i].record.m);
        PrefixAt(log, log', i);
      }
      if t in LapseTargets(log', h) {
        assert t.OfMotion? && t.m.target == h;
        var at := MotionTo(log, t, k).value;
        assert MovesToLapse(log[at - 1], h);
      }
    }
  }

  lemma {:induction false} CandidatesAgree(G: Gov, log: Log, log': Log, h: Hash, n: nat)
    requires IsPrefix(log, log') && n <= |log| && forall k :: 0 <= k < |log| ==> PlacedAt(G, log, k)
    ensures LapseCandidates(log', h, LapseTargets(log', h), n) == LapseCandidates(log, h, LapseTargets(log, h), n)
  {
    if n > 0 {
      hide LapseTargets;
      CandidatesAgree(G, log, log', h, n - 1);
      PrefixAt(log, log', n - 1);
      LapseTargetsAgree(G, log, log', h, n - 1);
    }
  }

  /** Reading further only adds later candidates. */
  lemma {:induction false} CandidatesGrow(log: Log, h: Hash, targets: set<Hash>, m: nat, n: nat) returns (more: seq<Sig>)
    requires m <= n <= |log|
    ensures LapseCandidates(log, h, targets, n) == LapseCandidates(log, h, targets, m) + more
    ensures forall c :: c in more ==> c.position > m
    decreases n
  {
    if m == n {
      more := [];
    } else {
      more := CandidatesGrow(log, h, targets, m, n - 1);
      if MovesToLapse(log[n - 1], h) {
        more := more + [Sig(n, log[n - 1].record.m.author)];
      } else if SignsLapse(log[n - 1], targets) {
        more := more + [Sig(n, log[n - 1].record.who)];
      }
    }
  }

  lemma {:induction false} EligibleGrow(G: Gov, root: Root, pin: Pin, seen: set<Address>, a: seq<Sig>, b: seq<Sig>)
    returns (more: seq<Sig>)
    ensures FirstEligible(G, root, pin, seen, a + b) == FirstEligible(G, root, pin, seen, a) + more
    ensures forall c :: c in more ==> c in b
  {
    if b == [] {
      assert a + b == a;
      more := [];
    } else {
      var last := |b| - 1;
      assert (a + b)[..|a + b| - 1] == a + b[..last];
      more := EligibleGrow(G, root, pin, seen, a, b[..last]);
      var sigs := FirstEligible(G, root, pin, seen, a + b[..last]);
      if Eligible(G, root, pin, b[last].who) && b[last].who !in seen && !SignedBy(sigs, b[last].who) {
        more := more + [b[last]];
      }
    }
  }

  /** A lift that crossed stays where it crossed; one that had not may cross only later. */
  lemma {:induction false} LapseExtends(G: Gov, root: Root, pin: Pin, log: Log, log': Log, h: Hash, threshold: nat)
    requires IsPrefix(log, log') && forall k :: 0 <= k < |log| ==> PlacedAt(G, log, k)
    ensures (var before, after := LapseBoundary(G, root, pin, log, h, threshold), LapseBoundary(G, root, pin, log', h, threshold);
             && (before.Some? ==> after == before)
             && (before.None? && after.Some? ==> after.value > |log|))
  {
    hide LapseCandidates, LapseTargets, PlacedAt, FirstEligible;
    CandidatesAgree(G, log, log', h, |log|);
    var more := CandidatesGrow(log', h, LapseTargets(log', h), |log|, |log'|);
    var sigs := EligibleGrow(G, root, pin, {}, LapseCandidates(log, h, LapseTargets(log, h), |log|), more);
    assert forall i :: 0 <= i < |sigs| ==> sigs[i] in sigs && sigs[i].position > |log|;
  }

  lemma {:induction false} CrossingLocal(G: Gov, root: Root, log: Log, log': Log, declared: nat, at: int, position: nat)
    requires IsPrefix(log, log') && 1 <= declared <= |log| && log[declared - 1].record.Declare? && position <= |log|
    ensures log'[declared - 1] == log[declared - 1]
    ensures CrossingReached(G, root, log', declared, at, position) <==> CrossingReached(G, root, log, declared, at, position)
  {
    hide EligibleSigs;
    PrefixAt(log, log', declared - 1);
    PrefixUpto(log, log', position);
  }

  lemma {:induction false} StandsAlike(G: Gov, root: Root, log: Log, log': Log, D: Derivation, D': Derivation, k: nat)
    requires IsPrefix(log, log') && k < |log| && PlacedAt(G, log, k) && IsDecision(G, log[k])
    requires Alike(D, D', |log|)
    ensures FindDeclaration(log, log[k].record.target).Some?
    ensures FindDeclaration(log', log[k].record.target) == FindDeclaration(log, log[k].record.target)
    ensures (var h := log[k].record.target; log'[FindDeclaration(log, h).value - 1] == log[FindDeclaration(log, h).value - 1])
    ensures log[k].record.Refused? ==>
      (RefusalStands(G, root, log', D', k, log[k].record.target, log[k].record.instant)
       <==> RefusalStands(G, root, log, D, k, log[k].record.target, log[k].record.instant))
    ensures log[k].record.Activated? ==>
      (ActivationStands(G, root, log', D', k, log[k].record.target, log[k].record.instant, log[k].record.expiry)
       <==> ActivationStands(G, root, log, D, k, log[k].record.target, log[k].record.instant, log[k].record.expiry))
  {
    hide CrossingReached, Spans, Took, ChainDecision, ClampDuration, FindDeclaration, Alike;
    var h, at := log[k].record.target, log[k].record.instant;
    FoundStays(log, log', h, k);
    AlikeReads(D, D', |log|, h);
    CrossingLocal(G, root, log, log', FindDeclaration(log, h).value, at, k + 1);
    AlikeSets(D, D', |log|);
  }

  lemma {:induction false} AlikeSets(D: Derivation, D': Derivation, bound: nat)
    requires Alike(D, D', bound)
    ensures D.dead == D'.dead && D.anchors == D'.anchors
  {
  }

  lemma {:induction false} NewEmergencyAlike(
    G: Gov, root: Root, log: Log, log': Log, D: Derivation, D': Derivation, k: nat, h: Hash, at: int, expiry: int)
    requires IsPrefix(log, log') && k < |log| && forall j :: 0 <= j < |log| ==> PlacedAt(G, log, j)
    requires Spans(D.timeline) == Spans(D'.timeline)
    requires ActivationStands(G, root, log, D, k, h, at, expiry) && ActivationStands(G, root, log', D', k, h, at, expiry)
    requires FindDeclaration(log', h) == FindDeclaration(log, h)
    ensures SameEmergency(NewEmergency(G, root, log, D, k, h, at, expiry), NewEmergency(G, root, log', D', k, h, at, expiry), |log|)
  {
    hide CrossingReached, Spans, Took, ChainDecision, ClampDuration, FindDeclaration, LapseBoundary, PlacedAt, ThresholdAt;
    PrefixAt(log, log', FindDeclaration(log, h).value - 1);
    PinPrefix(log, log', k + 1, at);
    var pin := PinAt(log, k + 1, at);
    LapseExtends(G, root, pin, log, log', h, ThresholdAt(G, root, pin));
  }

  /** Replaying the same entries on a longer log differs only in later lapses. */
  lemma {:induction false} ReplayAlike(G: Gov, root: Root, log: Log, log': Log, D: Derivation, D': Derivation, k: nat)
    requires IsPrefix(log, log') && Placed(G, log) && k < |log| && Alike(D, D', |log|)
    ensures Alike(Replay(G, root, log, D, k), Replay(G, root, log', D', k), |log|)
  {
    hide PlacedAt, RefusalStands, ActivationStands, NewEmergency, Spans, SameEmergency;
    PrefixAt(log, log', k);
    if IsDecision(G, log[k]) {
      StandsAlike(G, root, log, log', D, D', k);
      AlikeReads(D, D', |log|, log[k].record.target);
      var h, at := log[k].record.target, log[k].record.instant;
      if log[k].record.Activated? && ActivationStands(G, root, log, D, k, h, at, log[k].record.expiry) {
        NewEmergencyAlike(G, root, log, log', D, D', k, h, at, log[k].record.expiry);
      }
    }
  }

  lemma {:induction false} DeriveAlike(G: Gov, root: Root, log: Log, log': Log, n: nat)
    requires IsPrefix(log, log') && Placed(G, log) && n <= |log|
    ensures Alike(DeriveTo(G, root, log, n), DeriveTo(G, root, log', n), |log|)
  {
    hide Placed, Replay;
    if n > 0 {
      DeriveAlike(G, root, log, log', n - 1);
      ReplayAlike(G, root, log, log', DeriveTo(G, root, log, n - 1), DeriveTo(G, root, log', n - 1), n - 1);
    }
  }

  /** `D'` continues `D`. */
  predicate Continued(D: Derivation, D': Derivation) {
    && |D.timeline| <= |D'.timeline| && D'.timeline[..|D.timeline|] == D.timeline
    && D.dead <= D'.dead
    && (forall h :: h in D.anchors ==> h in D'.anchors && D'.anchors[h] == D.anchors[h])
  }

  lemma {:induction false} ContinuedOn(A: Derivation, B: Derivation, C: Derivation)
    requires Continued(A, B) && Continued(B, C)
    ensures Continued(A, C)
  {
    assert C.timeline[..|A.timeline|] == C.timeline[..|B.timeline|][..|A.timeline|];
  }

  lemma {:induction false} DeriveGrows(G: Gov, root: Root, log: Log, m: nat, n: nat)
    requires m <= n <= |log|
    ensures Continued(DeriveTo(G, root, log, m), DeriveTo(G, root, log, n))
    decreases n
  {
    hide Replay;
    var D := DeriveTo(G, root, log, m);
    if m < n {
      hide Continued;
      DeriveGrows(G, root, log, m, n - 1);
      ReplayGrows(G, root, log, DeriveTo(G, root, log, n - 1), n - 1);
      ContinuedOn(D, DeriveTo(G, root, log, n - 1), DeriveTo(G, root, log, n));
    }
  }

  lemma {:induction false} ReplayGrows(G: Gov, root: Root, log: Log, D: Derivation, k: nat)
    requires k < |log|
    ensures Continued(D, Replay(G, root, log, D, k))
  {
    hide RefusalStands, ActivationStands, NewEmergency;
  }

  /** Deriving from any extension keeps every emergency, every refusal and every anchor already
      derived; only a lapse may appear, once, past the end of the shorter log. */
  lemma {:induction false} DerivationKeeps(G: Gov, root: Root, log: Log, log': Log)
    requires IsPrefix(log, log') && Placed(G, log)
    ensures Keeps(Derive(G, root, log), Derive(G, root, log'), |log|)
  {
    hide DeriveTo, Placed, SameEmergency;
    DeriveAlike(G, root, log, log', |log|);
    DeriveGrows(G, root, log', |log|, |log'|);
    var mid, D' := DeriveTo(G, root, log', |log|), Derive(G, root, log');
    assert forall i :: 0 <= i < |mid.timeline| ==> D'.timeline[i] == D'.timeline[..|mid.timeline|][i];
  }
}
