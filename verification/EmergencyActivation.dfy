/** With a fixed electorate, enough signatures decide a declaration: the converse of gate and replay
    agreement (crates/rrn-governance/src/emergency.rs). */
module EmergencyActivation {
  import opened Basics
  import opened GovLog
  import opened EmergencyChain
  import opened EmergencyTimeline
  import opened Crossing
  import opened FrontDoors
  import opened EmergencyAgreement
  import opened EmergencyRuns
  import opened Freeze

  /** Standing does not move: who is eligible, and the threshold, are the same at every pin. */
  ghost predicate Steady(G: Gov, root: Root, threshold: nat) {
    && threshold > 0
    && (forall pin :: ThresholdAt(G, root, pin) == threshold)
    && forall pin, pin', who :: Eligible(G, root, pin, who) == Eligible(G, root, pin', who)
  }

  /** Where standing is read when it does not matter. */
  const ANY_PIN: Pin := Pin(0, [])

  /** The eligible members behind the declaration of `h`, read at any pin. */
  function Supporters(G: Gov, root: Root, log: Log, h: Hash, p: nat): set<Address>
    requires FindDeclaration(log, h).Some?
  {
    var declared := FindDeclaration(log, h).value;
    Backers(G, root, ANY_PIN, log, h, log[declared - 1].record.d.author, declared, p)
  }

  lemma {:induction false} SteadyBackers(
    G: Gov, root: Root, threshold: nat, pin: Pin, log: Log, h: Hash, author: Address, authorSeq: nat, p: nat)
    requires Steady(G, root, threshold)
    ensures Backers(G, root, pin, log, h, author, authorSeq, p) == Backers(G, root, ANY_PIN, log, h, author, authorSeq, p)
  {
    hide Eligible;
    assert forall who :: Eligible(G, root, pin, who) == Eligible(G, root, ANY_PIN, who);
  }

  /** `h` is anchored exactly when it is declared, and decided once enough members are behind it. */
  predicate Settled(G: Gov, root: Root, log: Log, threshold: nat, h: Hash) {
    && (AnchorTo(G, log, h, |log|).Some? <==> FindDeclaration(log, h).Some?)
    && (FindDeclaration(log, h).Some? && |Supporters(G, root, log, h, |log|)| >= threshold ==>
          Decided(Derive(G, root, log), h))
  }

  // --- Reading a longer log ---------------------------------------------------

  lemma {:induction false} AnchorStays(G: Gov, log: Log, log': Log, h: Hash, n: nat)
    requires IsPrefix(log, log') && |log| <= n <= |log'| && AnchorTo(G, log, h, |log|).Some?
    ensures AnchorTo(G, log', h, n) == AnchorTo(G, log, h, |log|)
    decreases n
  {
    if n == |log| {
      AnchorLocal(G, log, log', h, n);
    } else {
      AnchorStays(G, log, log', h, n - 1);
    }
  }

  lemma {:induction false} AnchorLocal(G: Gov, log: Log, log': Log, h: Hash, n: nat)
    requires IsPrefix(log, log') && n <= |log|
    ensures AnchorTo(G, log', h, n) == AnchorTo(G, log, h, n)
  {
    if n > 0 {
      PrefixAt(log, log', n - 1);
      AnchorLocal(G, log, log', h, n - 1);
    }
  }

  lemma {:induction false} DecidedStays(G: Gov, root: Root, log: Log, log': Log, h: Hash)
    requires Placed(G, log) && IsPrefix(log, log') && Decided(Derive(G, root, log), h)
    ensures Decided(Derive(G, root, log'), h)
  {
    hide Placed, Derive;
    DerivationKeeps(G, root, log, log');
    var D, D' := Derive(G, root, log), Derive(G, root, log');
    if Took(D.timeline, h) {
      var i :| 0 <= i < |D.timeline| && D.timeline[i].hash == h;
      assert SameEmergency(D.timeline[i], D'.timeline[i], |log|);
    }
  }

  /** Entries that do not sign `h` leave its support as it was. */
  lemma {:induction false} SupportQuiet(G: Gov, root: Root, log: Log, log': Log, h: Hash)
    requires IsPrefix(log, log') && FindDeclaration(log, h).Some?
    requires forall k :: |log| <= k < |log'| ==> !Signs(log'[k], h)
    ensures FindDeclaration(log', h) == FindDeclaration(log, h)
    ensures Supporters(G, root, log', h, |log'|) == Supporters(G, root, log, h, |log|)
  {
    hide Eligible, Signs;
    Found(log, log', h);
    forall k | 0 <= k < |log| ensures log'[k] == log[k] {
      PrefixAt(log, log', k);
    }
  }

  lemma {:induction false} Found(log: Log, log': Log, h: Hash)
    requires IsPrefix(log, log') && FindDeclaration(log, h).Some?
    ensures FindDeclaration(log', h) == FindDeclaration(log, h)
  {
    UnfoldFind(log, h);
    FoundStays(log, log', h, |log|);
  }

  lemma {:induction false} SettledQuiet(G: Gov, root: Root, threshold: nat, log: Log, log': Log, h: Hash)
    requires Placed(G, log) && IsPrefix(log, log') && FindDeclaration(log, h).Some?
    requires Settled(G, root, log, threshold, h)
    requires forall k :: |log| <= k < |log'| ==> !Signs(log'[k], h)
    ensures Settled(G, root, log', threshold, h)
  {
    hide Placed, Derive, Supporters, Decided, AnchorTo, FindDeclaration;
    SupportQuiet(G, root, log, log', h);
    AnchorStays(G, log, log', h, |log'|);
    if Decided(Derive(G, root, log), h) {
      DecidedStays(G, root, log, log', h);
    }
  }

  // --- The crossing record decides --------------------------------------------

  /** Right after the record at `crossing` was admitted, an anchored declaration within its time to live
      whose support reaches the threshold there and not before is decided once the marker is written. */
  lemma {:induction false} CrossingDecides(G: Gov, threshold: nat, log: Log, h: Hash, crossing: nat, now: int)
    requires Faithful(G, RootNow(log), log) && Steady(G, RootNow(log), threshold) && FindDeclaration(log, h).Some?
    requires AnchorTo(G, log, h, |log|).Some?
    requires AdmissionInstant(log, now) - AnchorTo(G, log, h, |log|).value <= DECLARATION_TTL
    requires |Supporters(G, RootNow(log), log, h, crossing)| >= threshold
    requires forall q: nat :: q < crossing ==> |Supporters(G, RootNow(log), log, h, q)| < threshold
    ensures Decided(Derive(G, RootNow(log), WithMarker(G, log, h, crossing, now)), h)
  {
    hide Faithful, Derive, Decided, Backers, FounderCharter, AnchorTo, ThresholdAt, Eligible, EligibleSigs, CrossingSeq, Steady;
    var root := RootNow(log);
    if !Decided(Derive(G, root, log), h) {
      CrossesAt(G, root, threshold, log, h, crossing, NextPin(log, now));
      MarkerKind(G, root, log, h, crossing, now);
      MarkerAgreed(G, root, log, h, crossing, now);
      var log' := WithMarker(G, log, h, crossing, now);
      BelievedDecides(Derive(G, root, log'), log'[|log|], |log'|);
    }
  }

  lemma {:induction false} CrossesAt(G: Gov, root: Root, threshold: nat, log: Log, h: Hash, crossing: nat, pin: Pin)
    requires Steady(G, root, threshold) && FindDeclaration(log, h).Some?
    requires |Supporters(G, root, log, h, crossing)| >= threshold
    requires forall q: nat :: q < crossing ==> |Supporters(G, root, log, h, q)| < threshold
    ensures (var declared := FindDeclaration(log, h).value;
             CrossingSeq(EligibleSigs(G, root, pin, log, h, log[declared - 1].record.d.author, declared),
                         ThresholdAt(G, root, pin)) == Some(crossing))
  {
    hide Backers, EligibleSigs, CrossingSeq, ThresholdAt, Eligible;
    var declared := FindDeclaration(log, h).value;
    var author := log[declared - 1].record.d.author;
    forall q: nat ensures Backers(G, root, pin, log, h, author, declared, q) == Supporters(G, root, log, h, q) {
      SteadyBackers(G, root, threshold, pin, log, h, author, declared, q);
    }
    var crossed := CrossingSeq(EligibleSigs(G, root, pin, log, h, author, declared), threshold);
    DeclarationCrosses(G, root, pin, log, h, author, declared, threshold, crossing);
    if crossed.Some? {
      DeclarationCrosses(G, root, pin, log, h, author, declared, threshold, crossed.value);
      assert !(crossed.value < crossing) && !(crossing < crossed.value);
    }
  }

  // --- Steps ------------------------------------------------------------------

  lemma {:induction false} FitsTtl(G: Gov, root: Root, log: Log, h: Hash, at: int)
    requires DeclarationStatus(Derive(G, root, log), h, at) == StatusPending && AnchorTo(G, log, h, |log|).Some?
    ensures at - AnchorTo(G, log, h, |log|).value <= DECLARATION_TTL && !Decided(Derive(G, root, log), h)
  {
    hide DeriveTo, AnchorTo;
    AnchorsRead(G, root, log, h, |log|);
  }

  lemma {:induction false} SupportAdmitted(G: Gov, log: Log, h: Hash, who: Address, signer: Address, now: int)
    requires SupportRefusal(G, log, h, who, signer, now).None? && FindDeclaration(log, h).Some?
    ensures DeclarationStatus(Derive(G, RootNow(log), log), h, AdmissionInstant(log, now)) == StatusPending
  {
    hide Derive, DeclarationStatus, FounderCharter, Eligible;
  }

  lemma {:induction false} SupportersGrow(G: Gov, root: Root, log: Log, log': Log, h: Hash, p: nat)
    requires IsPrefix(log, log') && FindDeclaration(log, h).Some? && FindDeclaration(log', h) == FindDeclaration(log, h)
    requires p <= |log|
    ensures Supporters(G, root, log', h, p) == Supporters(G, root, log, h, p)
  {
    hide Eligible, Signs;
    forall k | 0 <= k < |log| ensures log'[k] == log[k] {
      PrefixAt(log, log', k);
    }
  }

  lemma {:induction false} SupportersMonotone(G: Gov, root: Root, log: Log, h: Hash, p: nat, q: nat)
    requires FindDeclaration(log, h).Some? && p <= q
    ensures |Supporters(G, root, log, h, p)| <= |Supporters(G, root, log, h, q)|
  {
    hide Eligible, Signs;
    SubsetSize(Supporters(G, root, log, h, p), Supporters(G, root, log, h, q));
  }

  /** An admitted co-signature leaves its declaration settled. */
  lemma {:induction false} SupportSettles(G: Gov, threshold: nat, log: Log, h: Hash, who: Address, signer: Address, now: int)
    requires Faithful(G, RootNow(log), log) && Steady(G, RootNow(log), threshold)
    requires FindDeclaration(log, h).Some? && Settled(G, RootNow(log), log, threshold, h)
    requires SupportRefusal(G, log, h, who, signer, now).None?
    ensures Settled(G, RootNow(log), Written(G, log, Support(h, who, signer), now), threshold, h)
  {
    hide Faithful, Derive, Decided, Supporters, FounderCharter, AnchorTo, Steady, DeclarationStatus, SupportRefusal, WithMarker, FindDeclaration;
    var root, signed := RootNow(log), Append(log, Cosign(h, who), signer, now);
    assert signed[..|log|] == log;
    SupportAdmitted(G, log, h, who, signer, now);
    FitsTtl(G, root, log, h, AdmissionInstant(log, now));
    SignedFaithful(G, log, h, who, signer, now);
    Found(log, signed, h);
    AnchorStays(G, log, signed, h, |signed|);
    SupportersGrow(G, root, log, signed, h, |log|);
    if |Supporters(G, root, signed, h, |signed|)| >= threshold {
      forall q: nat | q < |log| + 1 ensures |Supporters(G, root, signed, h, q)| < threshold {
        SupportersMonotone(G, root, signed, h, q, |log|);
      }
      CrossingDecides(G, threshold, signed, h, |log| + 1, now);
    }
    AfterMarker(G, threshold, signed, h, |log| + 1, now);
  }

  /** The marker adds no support. */
  lemma {:induction false} AfterMarker(G: Gov, threshold: nat, log: Log, h: Hash, crossing: nat, now: int)
    requires FindDeclaration(log, h).Some? && AnchorTo(G, log, h, |log|).Some?
    requires |Supporters(G, RootNow(log), log, h, |log|)| >= threshold ==>
      Decided(Derive(G, RootNow(log), WithMarker(G, log, h, crossing, now)), h)
    ensures Settled(G, RootNow(log), WithMarker(G, log, h, crossing, now), threshold, h)
  {
    hide Derive, Decided, Supporters, FounderCharter, AnchorTo, WithMarker, FindDeclaration;
    var log' := WithMarker(G, log, h, crossing, now);
    MarkerQuiet(G, log, h, crossing, now);
    SupportQuiet(G, RootNow(log), log, log', h);
    AnchorStays(G, log, log', h, |log'|);
  }

  /** Before a declaration nothing signs it, and its own record counts its author. */
  lemma {:induction false} FreshSupporters(G: Gov, root: Root, log: Log, d: Declaration, now: int, q: nat)
    requires Placed(G, log) && FindDeclaration(log, OfDeclaration(d)).None?
    ensures (var b, h := Anchored(G, log, d, d.author, now), OfDeclaration(d);
             && FindDeclaration(b, h) == Some(|log| + 1)
             && Supporters(G, root, b, h, q)
                == if q > |log| && Eligible(G, root, ANY_PIN, d.author) then {d.author} else {})
  {
    hide Eligible;
    var b, h := Anchored(G, log, d, d.author, now), OfDeclaration(d);
    assert b[..|log|] == log;
    NotEarlier(log, b, h, |log|);
    assert Declares(b[|log|], h);
    DeclarationStays(b, h, |log| + 1, |b|);
    forall k | 0 <= k < |b| ensures !Signs(b[k], h) {
      if k < |log| {
        PrefixAt(log, b, k);
        assert PlacedAt(G, log, k);
        if Signs(log[k], h) {
          DeclarationStays(log, h, k, |log|);
        }
      }
    }
  }

  lemma {:induction false} NotEarlier(log: Log, log': Log, h: Hash, n: nat)
    requires IsPrefix(log, log') && n <= |log| && FindDeclaration(log, h).None?
    ensures DeclarationTo(log', h, n).None?
  {
    DeclarationLocal(log, log', h, n);
    if DeclarationTo(log, h, n).Some? {
      DeclarationStays(log, h, n, |log|);
    }
  }

  /** An admitted declaration is settled from the start. */
  lemma {:induction false} RaiseSettles(G: Gov, threshold: nat, log: Log, d: Declaration, now: int)
    requires Faithful(G, RootNow(log), log) && Steady(G, RootNow(log), threshold)
    requires SameCommunity(RootNow(log), d) && FindDeclaration(log, OfDeclaration(d)).None?
    requires AnchorTo(G, log, OfDeclaration(d), |log|).None?
    ensures Settled(G, RootNow(log), Written(G, log, Raise(d, d.author), now), threshold, OfDeclaration(d))
  {
    hide Derive, Decided, Supporters, FounderCharter, Steady, WithMarker, FindDeclaration, Anchored, Eligible, Agreed, Native;
    var root, b, h := RootNow(log), Anchored(G, log, d, d.author, now), OfDeclaration(d);
    AnchoredFaithful(G, log, d, d.author, now);
    AnchoredNow(G, log, d, now);
    FreshSupporters(G, root, log, d, now, |log|);
    forall q: nat ensures |Supporters(G, root, b, h, q)| <= |Supporters(G, root, b, h, |log| + 1)|
      ensures q <= |log| ==> |Supporters(G, root, b, h, q)| == 0
    {
      FreshSupporters(G, root, log, d, now, q);
      FreshSupporters(G, root, log, d, now, |log| + 1);
    }
    if |Supporters(G, root, b, h, |b|)| >= threshold {
      ThresholdPositive(G, root, threshold);
      CrossingDecides(G, threshold, b, h, |log| + 1, now);
    }
    AfterMarker(G, threshold, b, h, |log| + 1, now);
  }

  lemma {:induction false} ThresholdPositive(G: Gov, root: Root, threshold: nat)
    requires Steady(G, root, threshold)
    ensures threshold > 0
  {
  }

  /** The anchor just written is the first, and is as old as its declaration. */
  lemma {:induction false} AnchoredNow(G: Gov, log: Log, d: Declaration, now: int)
    requires AnchorTo(G, log, OfDeclaration(d), |log|).None?
    ensures (var b, h := Anchored(G, log, d, d.author, now), OfDeclaration(d);
             && AnchorTo(G, b, h, |b|) == Some(AdmissionInstant(log, now))
             && AdmissionInstant(b, now) == AdmissionInstant(log, now))
  {
    var b, h := Anchored(G, log, d, d.author, now), OfDeclaration(d);
    assert b[..|log|] == log;
    AnchorLocal(G, log, b, h, |log|);
    assert b[|log|].record.Declare? && Anchors(G, b[|log| + 1], h);
    assert AnchorTo(G, b, h, |log| + 1).None?;
  }

  /** Where nothing declares or anchors `h`, nothing is to be settled. */
  lemma {:induction false} UndeclaredStays(G: Gov, root: Root, threshold: nat, log: Log, log': Log, h: Hash)
    requires IsPrefix(log, log') && FindDeclaration(log, h).None? && Settled(G, root, log, threshold, h)
    requires forall k :: |log| <= k < |log'| ==> !Declares(log'[k], h) && !Anchors(G, log'[k], h)
    ensures Settled(G, root, log', threshold, h)
  {
    hide Supporters, Decided, Derive, Declares, Anchors;
    UndeclaredTo(G, log, log', h, |log'|);
  }

  lemma {:induction false} UndeclaredTo(G: Gov, log: Log, log': Log, h: Hash, n: nat)
    requires IsPrefix(log, log') && FindDeclaration(log, h).None? && AnchorTo(G, log, h, |log|).None? && |log| <= n <= |log'|
    requires forall k :: |log| <= k < |log'| ==> !Declares(log'[k], h) && !Anchors(G, log'[k], h)
    ensures DeclarationTo(log', h, n).None? && AnchorTo(G, log', h, n).None?
    decreases n
  {
    hide Declares, Anchors;
    if n == |log| {
      DeclarationLocal(log, log', h, n);
      AnchorLocal(G, log, log', h, n);
    } else {
      UndeclaredTo(G, log, log', h, n - 1);
    }
  }

  // --- Every door -------------------------------------------------------------

  lemma {:induction false} WrittenKinds(G: Gov, act: Act, e: Entry, h: Hash)
    requires WrittenFor(act, e.record)
    ensures Signs(e, h) ==> act.Support? && act.target == h
    ensures Declares(e, h) ==> act.Raise? && h == OfDeclaration(act.d)
  {
  }

  /** An admitted anchor is for the declaration raised. */
  lemma {:induction false} AnchorWritten(G: Gov, log: Log, act: Act, now: int, h: Hash, k: nat)
    requires RefusalOf(G, log, act, now).None? && |log| <= k < |Step(G, log, act, now)|
    requires Anchors(G, Step(G, log, act, now)[k], h)
    ensures act.Raise? && h == OfDeclaration(act.d)
  {
    hide RefusalOf, WithMarker, FounderCharter;
    StepWrites(G, log, act, now);
    assert WrittenFor(act, Step(G, log, act, now)[k].record);
    if act.Raise? {
      var b := Anchored(G, log, act.d, act.signer, now);
      MarkerQuiet(G, b, OfDeclaration(act.d), |log| + 1, now);
      PrefixAt(b, Step(G, log, act, now), if k < |b| then k else 0);
    }
  }

  lemma {:induction false} StepSettles(G: Gov, threshold: nat, log: Log, act: Act, now: int, h: Hash)
    requires Faithful(G, RootNow(log), log) && Steady(G, RootNow(log), threshold)
    requires Settled(G, RootNow(log), log, threshold, h)
    ensures Settled(G, RootNow(log), Step(G, log, act, now), threshold, h)
  {
    hide Settled, Steady, FounderCharter, Written, FindDeclaration, RefusalOf, WrittenFor, Agreed, Native, Signs, Declares, Anchors, Placed;
    var log', root := Step(G, log, act, now), RootNow(log);
    StepWrites(G, log, act, now);
    forall k | |log| <= k < |log'|
      ensures Signs(log'[k], h) ==> act.Support? && act.target == h
      ensures Declares(log'[k], h) ==> act.Raise? && h == OfDeclaration(act.d)
      ensures Anchors(G, log'[k], h) ==> act.Raise? && h == OfDeclaration(act.d)
    {
      WrittenKinds(G, act, log'[k], h);
      if Anchors(G, log'[k], h) && RefusalOf(G, log, act, now).None? {
        AnchorWritten(G, log, act, now, h, k);
      }
    }
    if RefusalOf(G, log, act, now).Some? {
    } else if act.Support? && act.target == h && FindDeclaration(log, h).Some? {
      AsSupport(G, log, act, now);
      SupportSettles(G, threshold, log, h, act.who, act.signer, now);
    } else if act.Raise? && h == OfDeclaration(act.d) {
      AsRaise(G, log, act, now);
      UnanchoredUndeclared(G, root, log, threshold, h);
      RaiseSettles(G, threshold, log, act.d, now);
    } else if FindDeclaration(log, h).Some? {
      SettledQuiet(G, root, threshold, log, log', h);
    } else {
      UndeclaredStays(G, root, threshold, log, log', h);
    }
  }

  lemma {:induction false} UnanchoredUndeclared(G: Gov, root: Root, log: Log, threshold: nat, h: Hash)
    requires Settled(G, root, log, threshold, h) && FindDeclaration(log, h).None?
    ensures AnchorTo(G, log, h, |log|).None?
  {
  }

  lemma {:induction false} AsSupport(G: Gov, log: Log, act: Act, now: int)
    requires act.Support? && RefusalOf(G, log, act, now).None?
    ensures SupportRefusal(G, log, act.target, act.who, act.signer, now).None?
  {
  }

  lemma {:induction false} AsRaise(G: Gov, log: Log, act: Act, now: int)
    requires act.Raise? && RefusalOf(G, log, act, now).None?
    ensures act.signer == act.d.author && SameCommunity(RootNow(log), act.d)
    ensures FindDeclaration(log, OfDeclaration(act.d)).None?
  {
  }

  // --- Runs -------------------------------------------------------------------

  lemma {:induction false} RunSettles(G: Gov, root: Root, threshold: nat, log: Log, acts: seq<Timed>, h: Hash)
    requires Faithful(G, root, log) && RootHeld(G, root, log, acts) && Steady(G, root, threshold)
    requires Settled(G, root, log, threshold, h)
    ensures Settled(G, root, Run(G, log, acts), threshold, h)
  {
    hide Faithful, Settled, Steady, Step, FounderCharter;
    if acts != [] {
      var n := |acts| - 1;
      RootHeldPrefix(G, root, log, acts, n);
      RunSettles(G, root, threshold, log, acts[..n], h);
      GateReplayAgreement(G, root, log, acts[..n]);
      StepSettles(G, threshold, Run(G, log, acts[..n]), acts[n].act, acts[n].now, h);
    }
  }

  /** A decision replay believes was reached by as many members as the threshold. */
  lemma {:induction false} DecidedSupported(G: Gov, root: Root, threshold: nat, log: Log, n: nat, h: Hash)
    requires Placed(G, log)
    requires n <= |log| && Steady(G, root, threshold) && Decided(DeriveTo(G, root, log, n), h)
    ensures FindDeclaration(log, h).Some?
    ensures |Supporters(G, root, log, h, |log|)| >= threshold
  {
    hide Steady, ThresholdAt, Eligible, Supporters, CrossingReached, FindDeclaration, ChainDecision, NewEmergency, PlacedAt;
    var D := DeriveTo(G, root, log, n - 1);
    if Decided(D, h) {
      DecidedSupported(G, root, threshold, log, n - 1, h);
    } else {
      var r := log[n - 1].record;
      JustDecided(G, root, log, D, n - 1, h);
      DeclaredBefore(G, log, n - 1);
      CrossedSupported(G, root, threshold, log, h, r.instant, n);
    }
  }

  lemma {:induction false} JustDecided(G: Gov, root: Root, log: Log, D: Derivation, k: nat, h: Hash)
    requires k < |log| && !Decided(D, h) && Decided(Replay(G, root, log, D, k), h)
    ensures IsDecision(G, log[k]) && log[k].record.target == h
    ensures FindDeclaration(log, h).Some?
    ensures CrossingReached(G, root, log, FindDeclaration(log, h).value, log[k].record.instant, k + 1)
  {
    hide CrossingReached, FindDeclaration, ChainDecision, LapseBoundary;
    if log[k].signer == G.station && log[k].record.Activated? {
      var r := log[k].record;
      if ActivationStands(G, root, log, D, k, r.target, r.instant, r.expiry) {
        TookAppend(D.timeline, NewEmergency(G, root, log, D, k, r.target, r.instant, r.expiry));
      }
    }
  }

  lemma {:induction false} DeclaredBefore(G: Gov, log: Log, k: nat)
    requires k < |log| && Placed(G, log) && IsDecision(G, log[k])
    ensures FindDeclaration(log, log[k].record.target).Some? && FindDeclaration(log, log[k].record.target).value <= k
  {
    assert PlacedAt(G, log, k);
    DeclarationStays(log, log[k].record.target, k, |log|);
  }

  lemma {:induction false} CrossedSupported(G: Gov, root: Root, threshold: nat, log: Log, h: Hash, at: int, position: nat)
    requires position <= |log| && FindDeclaration(log, h).Some? && Steady(G, root, threshold)
    requires FindDeclaration(log, h).value <= position
    requires CrossingReached(G, root, log, FindDeclaration(log, h).value, at, position)
    ensures |Supporters(G, root, log, h, |log|)| >= threshold
  {
    hide ThresholdAt, Eligible, Backers, EligibleSigs, CrossingSeq;
    var declared := FindDeclaration(log, h).value;
    var author, pin, prefix := log[declared - 1].record.d.author, PinAt(log, position, at), log[..position];
    var crossed := CrossingSeq(EligibleSigs(G, root, pin, prefix, h, author, declared), threshold);
    DeclarationCrosses(G, root, pin, prefix, h, author, declared, threshold, crossed.value);
    SteadyBackers(G, root, threshold, pin, prefix, h, author, declared, crossed.value);
    BackersGrow(G, root, prefix, log, h, author, declared, crossed.value);
  }

  lemma {:induction false} BackersGrow(
    G: Gov, root: Root, log: Log, log': Log, h: Hash, author: Address, authorSeq: nat, p: nat)
    requires IsPrefix(log, log') && authorSeq <= |log'|
    ensures |Backers(G, root, ANY_PIN, log, h, author, authorSeq, p)|
         <= |Backers(G, root, ANY_PIN, log', h, author, authorSeq, |log'|)|
  {
    hide Eligible, Signs;
    forall k | 0 <= k < |log| ensures log'[k] == log[k] {
      PrefixAt(log, log', k);
    }
    SubsetSize(Backers(G, root, ANY_PIN, log, h, author, authorSeq, p),
               Backers(G, root, ANY_PIN, log', h, author, authorSeq, |log'|));
  }

  /** Over every run judged by one root, with an electorate that does not move: a declaration has taken
      force or died exactly when the members behind it reach the threshold. */
  lemma {:induction false} DecidedIffSupported(
    G: Gov, root: Root, threshold: nat, log: Log, acts: seq<Timed>, h: Hash)
    requires Faithful(G, root, log) && RootHeld(G, root, log, acts) && Steady(G, root, threshold)
    requires Settled(G, root, log, threshold, h) && FindDeclaration(Run(G, log, acts), h).Some?
    ensures Decided(Derive(G, root, Run(G, log, acts)), h)
       <==> |Supporters(G, root, Run(G, log, acts), h, |Run(G, log, acts)|)| >= threshold
  {
    hide Faithful, Steady, Supporters, Run, RootHeld, Decided, FounderCharter;
    RunSettles(G, root, threshold, log, acts, h);
    var log' := Run(G, log, acts);
    if Decided(Derive(G, root, log'), h) {
      GateReplayAgreement(G, root, log, acts);
      FaithfulPlaced(G, root, log');
      DecidedSupported(G, root, threshold, log', |log'|, h);
    }
  }

  lemma {:induction false} FaithfulPlaced(G: Gov, root: Root, log: Log)
    requires Faithful(G, root, log)
    ensures Placed(G, log)
  {
  }

  /** A log that speaks of no emergency has nothing to settle. */
  lemma {:induction false} FoundingSettled(G: Gov, root: Root, log: Log, threshold: nat, h: Hash)
    requires forall k :: 0 <= k < |log| ==> Plain(log[k].record) && !log[k].record.Admitted?
    ensures Settled(G, root, log, threshold, h)
  {
    NothingDeclared(G, log, h, |log|);
  }

  lemma {:induction false} NothingDeclared(G: Gov, log: Log, h: Hash, n: nat)
    requires n <= |log| && forall k :: 0 <= k < |log| ==> Plain(log[k].record) && !log[k].record.Admitted?
    ensures DeclarationTo(log, h, n).None? && AnchorTo(G, log, h, n).None?
  {
    if n > 0 {
      NothingDeclared(G, log, h, n - 1);
    }
  }
}
