/** Emergencies over every run of the front doors: caps, agreement of gate and replay, and finality
    (crates/rrn-governance/src/emergency.rs). */
module EmergencyRuns {
  import opened Basics
  import opened GovLog
  import opened EmergencyChain
  import opened EmergencyTimeline
  import opened FrontDoors
  import opened EmergencyAgreement

  // --- What stands on a timeline ----------------------------------------------

  /** The emergency at index `i` stands on a station marker of its own, and took exactly the renewal
      count the caps gave it after the ones before it. */
  predicate Genuine(G: Gov, root: Root, log: Log, timeline: seq<ActiveEmergency>, i: nat)
    requires i < |timeline|
  {
    var e := timeline[i];
    && 1 <= e.position <= |log| && IsDecision(G, log[e.position - 1])
    && log[e.position - 1].record.Activated? && log[e.position - 1].record.target == e.hash
    && log[e.position - 1].record.instant == e.start && log[e.position - 1].record.expiry == e.expiry
    && Clamped(Span(e.start, e.expiry))
    && ChainDecision(Spans(timeline)[..i], Span(e.start, e.expiry), root.maxRenewals) == Some(e.renewals)
  }

  /** Every emergency is genuine, they follow the log, and no declaration is decided twice. */
  predicate WellDecided(G: Gov, root: Root, log: Log, D: Derivation, n: nat) {
    && (forall i :: 0 <= i < |D.timeline| ==> Genuine(G, root, log, D.timeline, i) && D.timeline[i].position <= n)
    && (forall i, j :: 0 <= i < j < |D.timeline| ==>
          D.timeline[i].position < D.timeline[j].position && D.timeline[i].hash != D.timeline[j].hash)
    && (forall i :: 0 <= i < |D.timeline| ==> D.timeline[i].hash !in D.dead)
    && (forall h :: h in D.dead ==> RefusedBy(G, log, h, n))
  }

  predicate RefusedBy(G: Gov, log: Log, h: Hash, n: nat) {
    exists k: nat :: k < n && k < |log| && IsDecision(G, log[k]) && log[k].record.Refused? && log[k].record.target == h
  }

  lemma {:induction false} GenuineGrows(G: Gov, root: Root, log: Log, timeline: seq<ActiveEmergency>, e: ActiveEmergency, i: nat)
    requires i < |timeline| && Genuine(G, root, log, timeline, i)
    ensures Genuine(G, root, log, timeline + [e], i)
  {
    assert Spans(timeline + [e])[..i] == Spans(timeline)[..i];
  }

  lemma {:induction false} NewGenuine(
    G: Gov, root: Root, log: Log, D: Derivation, k: nat, h: Hash, at: int, expiry: int, renewals: nat)
    requires k < |log| && log[k].signer == G.station && log[k].record == Activated(h, at, expiry, renewals)
    requires ActivationStands(G, root, log, D, k, h, at, expiry)
    ensures (var e := NewEmergency(G, root, log, D, k, h, at, expiry);
             && e.hash == h && e.start == at && e.expiry == expiry && e.position == k + 1
             && ChainDecision(Spans(D.timeline), Span(at, expiry), root.maxRenewals) == Some(e.renewals)
             && Genuine(G, root, log, D.timeline + [e], |D.timeline|))
  {
    hide LapseBoundary, CrossingReached;
    var e := NewEmergency(G, root, log, D, k, h, at, expiry);
    assert Spans(D.timeline + [e])[..|D.timeline|] == Spans(D.timeline);
  }

  lemma {:induction false} ActivationDecides(G: Gov, root: Root, log: Log, D: Derivation, e: ActiveEmergency, k: nat)
    requires WellDecided(G, root, log, D, k) && e.position == k + 1 && !Decided(D, e.hash)
    requires Genuine(G, root, log, D.timeline + [e], |D.timeline|)
    ensures WellDecided(G, root, log, D.(timeline := D.timeline + [e]), k + 1)
  {
    hide Genuine;
    forall i | 0 <= i < |D.timeline| ensures Genuine(G, root, log, D.timeline + [e], i) {
      GenuineGrows(G, root, log, D.timeline, e, i);
    }
    RefusalsStay(G, log, D, k);
  }

  lemma {:induction false} RefusalsStay(G: Gov, log: Log, D: Derivation, k: nat)
    ensures forall h :: RefusedBy(G, log, h, k) ==> RefusedBy(G, log, h, k + 1)
  {
  }

  lemma {:induction false} RefusalDecides(G: Gov, root: Root, log: Log, D: Derivation, k: nat)
    requires k < |log| && WellDecided(G, root, log, D, k) && IsDecision(G, log[k]) && log[k].record.Refused?
    requires !Decided(D, log[k].record.target)
    ensures WellDecided(G, root, log, D.(dead := D.dead + {log[k].record.target}), k + 1)
  {
    hide Genuine;
    RefusalsStay(G, log, D, k);
    assert RefusedBy(G, log, log[k].record.target, k + 1);
  }

  lemma {:induction false} ReplayDecides(G: Gov, root: Root, log: Log, D: Derivation, k: nat)
    requires k < |log| && WellDecided(G, root, log, D, k)
    ensures WellDecided(G, root, log, Replay(G, root, log, D, k), k + 1)
  {
    hide Genuine, NewEmergency, CrossingReached, Known, ChainDecision, WellDecided, Decided, RefusedBy;
    var r := log[k].record;
    if log[k].signer == G.station && r.Activated? && ActivationStands(G, root, log, D, k, r.target, r.instant, r.expiry) {
      NewGenuine(G, root, log, D, k, r.target, r.instant, r.expiry, r.renewals);
      ActivationDecides(G, root, log, D, NewEmergency(G, root, log, D, k, r.target, r.instant, r.expiry), k);
    } else if log[k].signer == G.station && r.Refused? && RefusalStands(G, root, log, D, k, r.target, r.instant) {
      RefusalDecides(G, root, log, D, k);
    } else {
      QuietDecides(G, root, log, D, Replay(G, root, log, D, k), k);
    }
  }

  lemma {:induction false} QuietDecides(G: Gov, root: Root, log: Log, D: Derivation, D': Derivation, k: nat)
    requires WellDecided(G, root, log, D, k) && D'.timeline == D.timeline && D'.dead == D.dead
    ensures WellDecided(G, root, log, D', k + 1)
  {
    hide Genuine;
    RefusalsStay(G, log, D, k);
  }

  lemma {:induction false} DeriveDecides(G: Gov, root: Root, log: Log, n: nat)
    requires n <= |log|
    ensures WellDecided(G, root, log, DeriveTo(G, root, log, n), n)
  {
    hide Replay, Genuine;
    if n > 0 {
      DeriveDecides(G, root, log, n - 1);
      ReplayDecides(G, root, log, DeriveTo(G, root, log, n - 1), n - 1);
    }
  }

  /** On a placed log the derived activations are an accepted timeline, so the caps and the duty cycle
      hold of them. */
  lemma {:induction false} SpansAccepted(G: Gov, root: Root, log: Log)
    requires Placed(G, log)
    ensures Accepted(Spans(Derive(G, root, log).timeline), root.maxRenewals)
  {
    hide DeriveTo, ChainDecision, Clamped;
    DeriveDecides(G, root, log, |log|);
    var timeline := Derive(G, root, log).timeline;
    forall i, j | 0 <= i <= j < |timeline| ensures Spans(timeline)[i].start <= Spans(timeline)[j].start {
      assert Genuine(G, root, log, timeline, i) && Genuine(G, root, log, timeline, j);
      assert PlacedAt(G, log, timeline[i].position - 1) && PlacedAt(G, log, timeline[j].position - 1);
    }
    forall i | 0 <= i < |timeline|
      ensures Clamped(Spans(timeline)[i])
      ensures ChainDecision(Spans(timeline)[..i], Spans(timeline)[i], root.maxRenewals).Some?
    {
      assert Genuine(G, root, log, timeline, i);
    }
  }

  // --- Markers are believed ---------------------------------------------------

  /** Every declaration on the log names the root's community. */
  predicate Native(root: Root, log: Log) {
    forall k :: 0 <= k < |log| && log[k].record.Declare? && log[k].signer == log[k].record.d.author ==>
      SameCommunity(root, log[k].record.d)
  }

  /** The replay believes the decision `e` at `position`, with the instants and the renewal count it
      states. */
  predicate BelievedAt(D: Derivation, e: Entry, position: nat) {
    match e.record
    case Refused(h, _) => h in D.dead
    case Activated(h, at, expiry, renewals) =>
      exists i :: 0 <= i < |D.timeline| && Attested(D.timeline[i], h, at, expiry, renewals, position)
    case _ => true
  }

  predicate Attested(e: ActiveEmergency, h: Hash, at: int, expiry: int, renewals: nat, position: nat) {
    e.hash == h && e.start == at && e.expiry == expiry && e.renewals == renewals && e.position == position
  }

  lemma {:induction false} BelievedKeeps(D: Derivation, D': Derivation, bound: nat, e: Entry, position: nat)
    requires Keeps(D, D', bound) && BelievedAt(D, e, position)
    ensures BelievedAt(D', e, position)
  {
    if e.record.Activated? {
      var r := e.record;
      var i :| 0 <= i < |D.timeline| && Attested(D.timeline[i], r.target, r.instant, r.expiry, r.renewals, position);
      assert SameEmergency(D.timeline[i], D'.timeline[i], bound);
      assert Attested(D'.timeline[i], r.target, r.instant, r.expiry, r.renewals, position);
    }
  }

  /** Every decision is believed, and each declaration has at most one. */
  predicate Agreed(G: Gov, root: Root, log: Log) {
    && (forall k :: 0 <= k < |log| && IsDecision(G, log[k]) ==> BelievedAt(Derive(G, root, log), log[k], k + 1))
    && (forall j, k :: 0 <= j < k < |log| && IsDecision(G, log[j]) && IsDecision(G, log[k]) ==>
          log[j].record.target != log[k].record.target)
  }

  predicate Faithful(G: Gov, root: Root, log: Log) {
    Placed(G, log) && Native(root, log) && Agreed(G, root, log)
  }

  lemma {:induction false} CosignersLocal(log: Log, log': Log, h: Hash, n: nat)
    requires IsPrefix(log, log') && n <= |log|
    ensures Cosigners(log', h, n) == Cosigners(log, h, n)
  {
    if n > 0 {
      PrefixAt(log, log', n - 1);
      CosignersLocal(log, log', h, n - 1);
    }
  }

  /** The crossing the gate counted is the crossing replay counts at the marker's own position. */
  lemma {:induction false} CrossingAtMarker(G: Gov, root: Root, log: Log, e: Entry, declared: nat, now: int)
    requires IsMarker(e) && 1 <= declared <= |log| && log[declared - 1].record.Declare?
    requires (var d, pin := log[declared - 1].record.d, NextPin(log, now);
              CrossingSeq(EligibleSigs(G, root, pin, log, OfDeclaration(d), d.author, declared), ThresholdAt(G, root, pin)).Some?)
    ensures CrossingReached(G, root, log + [e], declared, AdmissionInstant(log, now), |log| + 1)
  {
    hide FirstEligible, CrossingSeq;
    var log' := log + [e];
    assert log'[..|log|] == log && log'[..|log'|] == log' && log'[declared - 1] == log[declared - 1];
    PinIgnoresMarker(log, e, AdmissionInstant(log, now));
    var h := OfDeclaration(log[declared - 1].record.d);
    CosignersLocal(log, log', h, |log|);
    assert Cosigners(log', h, |log'|) == Cosigners(log', h, |log|);
  }

  lemma {:induction false} AnchorsRead(G: Gov, root: Root, log: Log, h: Hash, n: nat)
    requires n <= |log|
    ensures (var D := DeriveTo(G, root, log, n);
             AnchorTo(G, log, h, n) == (if h in D.anchors then Some(D.anchors[h]) else None))
  {
    hide RefusalStands, ActivationStands, NewEmergency;
    if n > 0 {
      AnchorsRead(G, root, log, h, n - 1);
    }
  }

  /** What the caps make of a crossing. */
  function DecisionFor(h: Hash, at: int, d: Declaration, chain: Option<nat>): Record {
    match chain
    case None => Refused(h, at)
    case Some(renewals) => Activated(h, at, Scheduled(d, at), renewals)
  }

  lemma {:induction false} MarkerMeaning(G: Gov, root: Root, log: Log, h: Hash, crossing: nat, now: int)
    requires Marker(G, root, log, h, crossing, now).Some?
    ensures (var r, at, D := Marker(G, root, log, h, crossing, now).value, AdmissionInstant(log, now), Derive(G, root, log);
             && !Decided(D, h) && FindDeclaration(log, h).Some?
             && (var declared := FindDeclaration(log, h).value;
                 var d, pin := log[declared - 1].record.d, NextPin(log, now);
                 && CrossingSeq(EligibleSigs(G, root, pin, log, h, d.author, declared), ThresholdAt(G, root, pin)).Some?
                 && AnchorTo(G, log, h, |log|).Some? && at - AnchorTo(G, log, h, |log|).value <= DECLARATION_TTL
                 && r == DecisionFor(h, at, d, ChainDecision(Spans(D.timeline), Span(at, Scheduled(d, at)), root.maxRenewals))))
  {
    hide Decided, FindDeclaration, EligibleSigs, ThresholdAt, Scheduled, ChainDecision, AnchorTo, Derive, AdmissionInstant;
  }

  /** A marker the station writes stands on replay. */
  lemma {:induction false} MarkerStands(G: Gov, root: Root, log: Log, h: Hash, crossing: nat, now: int)
    requires Placed(G, log) && Native(root, log) && Marker(G, root, log, h, crossing, now).Some?
    ensures (var r := Marker(G, root, log, h, crossing, now).value;
             var log', at := Append(log, r, G.station, now), AdmissionInstant(log, now);
             var D := DeriveTo(G, root, log', |log|);
             && (r.Refused? ==> RefusalStands(G, root, log', D, |log|, h, at))
             && (r.Activated? ==> ActivationStands(G, root, log', D, |log|, h, at, r.expiry))
             && (r.Activated? ==>
                   ChainDecision(Spans(D.timeline), Span(at, r.expiry), root.maxRenewals) == Some(r.renewals)))
  {
    hide Placed, CrossingReached, EligibleSigs, ThresholdAt, ChainDecision, Spans, Alike, Decided, DeriveTo, AnchorTo, Scheduled, FindDeclaration, Marker, AdmissionInstant;
    MarkerMeaning(G, root, log, h, crossing, now);
    var r := Marker(G, root, log, h, crossing, now).value;
    var e := Stamp(log, r, G.station, now);
    var log', declared := log + [e], FindDeclaration(log, h).value;
    FoundStays(log, log', h, |log|) by { assert FindDeclaration(log, h) == DeclarationTo(log, h, |log|) by { UnfoldFind(log, h); } }
    DeriveAlike(G, root, log, log', |log|);
    AlikeReads(DeriveTo(G, root, log, |log|), DeriveTo(G, root, log', |log|), |log|, h);
    AlikeSets(DeriveTo(G, root, log, |log|), DeriveTo(G, root, log', |log|), |log|);
    AnchorsRead(G, root, log, h, |log|);
    CrossingAtMarker(G, root, log, e, declared, now);
    assert log'[declared - 1] == log[declared - 1];
  }

  lemma {:induction false} UnfoldFind(log: Log, h: Hash)
    ensures FindDeclaration(log, h) == DeclarationTo(log, h, |log|)
  {
  }

  // --- Steps ------------------------------------------------------------------

  /** The entry keeps the log placed. */
  predicate KeepsPlace(G: Gov, log: Log, e: Entry) {
    && (log != [] ==> log[|log| - 1].at <= e.at)
    && (e.record.Cosign? && e.signer == e.record.who ==>
          FindDeclaration(log, e.record.target).Some? || FindMotion(log, e.record.target).Some?)
    && (IsDecision(G, e) ==> FindDeclaration(log, e.record.target).Some? && e.record.instant == e.at)
  }

  lemma {:induction false} AppendPlaced(G: Gov, log: Log, e: Entry)
    requires Placed(G, log) && KeepsPlace(G, log, e)
    ensures Placed(G, log + [e])
  {
    var log' := log + [e];
    assert log'[..|log|] == log;
    forall k | 0 <= k < |log'| ensures PlacedAt(G, log', k) {
      hide PlacedAt, DeclarationTo, MotionTo;
      if k < |log| {
        PlacedAtLocal(G, log, log', k);
      } else {
        LastPlaced(G, log, e);
      }
    }
  }

  lemma {:induction false} LastPlaced(G: Gov, log: Log, e: Entry)
    requires KeepsPlace(G, log, e)
    ensures PlacedAt(G, log + [e], |log|)
  {
    var log' := log + [e];
    assert log'[..|log|] == log;
    if e.record.Cosign? {
      DeclarationLocal(log, log', e.record.target, |log|);
      MotionLocal(log, log', e.record.target, |log|);
    } else if IsDecision(G, e) {
      DeclarationLocal(log, log', e.record.target, |log|);
    }
  }

  /** A marker joins the decisions replay believes, and no earlier one was about its declaration. */
  lemma {:induction false} MarkerAgreed(G: Gov, root: Root, log: Log, h: Hash, crossing: nat, now: int)
    requires Faithful(G, root, log) && Marker(G, root, log, h, crossing, now).Some?
    ensures (var r := Marker(G, root, log, h, crossing, now).value;
             var log' := Append(log, r, G.station, now);
             && KeepsPlace(G, log, log'[|log|])
             && BelievedAt(Derive(G, root, log'), log'[|log|], |log'|)
             && (forall k :: 0 <= k < |log| && IsDecision(G, log[k]) ==> log[k].record.target != h))
  {
    hide Marker, Replay, RefusalStands, ActivationStands, ChainDecision, Decided, Placed, Native, EligibleSigs, ThresholdAt;
    MarkerMeaning(G, root, log, h, crossing, now);
    MarkerStands(G, root, log, h, crossing, now);
    var r := Marker(G, root, log, h, crossing, now).value;
    var log' := Append(log, r, G.station, now);
    NewBelieved(G, root, log', DeriveTo(G, root, log', |log|), |log|);
    DeriveStep(G, root, log', |log|);
    forall k | 0 <= k < |log| && IsDecision(G, log[k]) ensures log[k].record.target != h {
      BelievedDecides(Derive(G, root, log), log[k], k + 1);
    }
  }

  lemma {:induction false} DeriveStep(G: Gov, root: Root, log: Log, k: nat)
    requires k < |log|
    ensures DeriveTo(G, root, log, k + 1) == Replay(G, root, log, DeriveTo(G, root, log, k), k)
  {
  }

  lemma {:induction false} BelievedDecides(D: Derivation, e: Entry, position: nat)
    requires BelievedAt(D, e, position) && (e.record.Refused? || e.record.Activated?)
    ensures Decided(D, e.record.target)
  {
  }

  /** A decision that stands is believed once replayed. */
  lemma {:induction false} NewBelieved(G: Gov, root: Root, log: Log, D: Derivation, k: nat)
    requires k < |log| && IsDecision(G, log[k])
    requires log[k].record.Refused? ==> RefusalStands(G, root, log, D, k, log[k].record.target, log[k].record.instant)
    requires log[k].record.Activated? ==>
      ActivationStands(G, root, log, D, k, log[k].record.target, log[k].record.instant, log[k].record.expiry)
    requires log[k].record.Activated? ==>
      ChainDecision(Spans(D.timeline), Span(log[k].record.instant, log[k].record.expiry), root.maxRenewals)
        == Some(log[k].record.renewals)
    ensures BelievedAt(Replay(G, root, log, D, k), log[k], k + 1)
  {
    hide ActivationStands, RefusalStands, Genuine, ChainDecision, LapseBoundary;
    var r := log[k].record;
    if r.Activated? {
      NewGenuine(G, root, log, D, k, r.target, r.instant, r.expiry, r.renewals);
      var timeline := Replay(G, root, log, D, k).timeline;
      assert Attested(timeline[|D.timeline|], r.target, r.instant, r.expiry, r.renewals, k + 1);
    }
  }

  /** What an entry that is no decision needs for the log to stay faithful. */
  predicate Harmless(G: Gov, root: Root, log: Log, e: Entry) {
    && KeepsPlace(G, log, e) && !IsDecision(G, e)
    && (e.record.Declare? && e.signer == e.record.d.author ==> SameCommunity(root, e.record.d))
  }

  lemma {:induction false} AgreedKeeps(G: Gov, root: Root, log: Log, e: Entry)
    requires Placed(G, log) && Agreed(G, root, log)
    ensures forall k :: 0 <= k < |log| && IsDecision(G, log[k]) ==> BelievedAt(Derive(G, root, log + [e]), log[k], k + 1)
  {
    hide Placed, Derive, BelievedAt, Keeps;
    var log' := log + [e];
    assert log'[..|log|] == log;
    DerivationKeeps(G, root, log, log');
    forall k | 0 <= k < |log| && IsDecision(G, log[k]) ensures BelievedAt(Derive(G, root, log'), log[k], k + 1) {
      BelievedKeeps(Derive(G, root, log), Derive(G, root, log'), |log|, log[k], k + 1);
    }
  }

  lemma {:induction false} HarmlessFaithful(G: Gov, root: Root, log: Log, e: Entry)
    requires Faithful(G, root, log) && Harmless(G, root, log, e)
    ensures Faithful(G, root, log + [e])
  {
    hide Placed, Derive, BelievedAt, KeepsPlace;
    AppendPlaced(G, log, e);
    AgreedKeeps(G, root, log, e);
  }

  lemma {:induction false} MarkerFaithful(G: Gov, root: Root, log: Log, h: Hash, crossing: nat, now: int)
    requires Faithful(G, root, log) && Marker(G, root, log, h, crossing, now).Some?
    ensures Faithful(G, root, Append(log, Marker(G, root, log, h, crossing, now).value, G.station, now))
  {
    hide Placed, Derive, BelievedAt, KeepsPlace, Marker;
    MarkerAgreed(G, root, log, h, crossing, now);
    MarkerKind(G, root, log, h, crossing, now);
    var e := Stamp(log, Marker(G, root, log, h, crossing, now).value, G.station, now);
    AppendPlaced(G, log, e);
    AgreedKeeps(G, root, log, e);
  }

  lemma {:induction false} MarkerKind(G: Gov, root: Root, log: Log, h: Hash, crossing: nat, now: int)
    requires Marker(G, root, log, h, crossing, now).Some?
    ensures (var r := Marker(G, root, log, h, crossing, now).value;
             (r.Refused? || r.Activated?) && r.target == h)
  {
    MarkerMeaning(G, root, log, h, crossing, now);
  }

  lemma {:induction false} RootStays(log: Log, record: Record, signer: Address, now: int)
    requires !record.PublishCharter?
    ensures RootNow(Append(log, record, signer, now)) == RootNow(log)
  {
    var log' := Append(log, record, signer, now);
    assert log'[..|log|] == log;
    RootUnchanged(log, log');
  }

  lemma {:induction false} WithMarkerFaithful(G: Gov, log: Log, h: Hash, crossing: nat, now: int)
    requires Faithful(G, RootNow(log), log)
    ensures Faithful(G, RootNow(log), WithMarker(G, log, h, crossing, now))
  {
    hide Faithful, Marker;
    if Marker(G, RootNow(log), log, h, crossing, now).Some? {
      MarkerFaithful(G, RootNow(log), log, h, crossing, now);
    }
  }

  /** Records that are neither declarations, co-signatures nor decisions. */
  predicate Plain(record: Record) {
    !record.Declare? && !record.Cosign? && !record.Refused? && !record.Activated?
  }

  lemma {:induction false} PlainFaithful(G: Gov, root: Root, log: Log, record: Record, signer: Address, now: int)
    requires Faithful(G, root, log) && Plain(record)
    ensures Faithful(G, root, Append(log, record, signer, now))
  {
    hide Faithful;
    HarmlessFaithful(G, root, log, Stamp(log, record, signer, now));
  }

  lemma {:induction false} AnchoredFaithful(G: Gov, log: Log, d: Declaration, signer: Address, now: int)
    requires Faithful(G, RootNow(log), log) && SameCommunity(RootNow(log), d)
    ensures Faithful(G, RootNow(log), Anchored(G, log, d, signer, now))
    ensures RootNow(Anchored(G, log, d, signer, now)) == RootNow(log)
  {
    hide Faithful, FounderCharter;
    var root, a := RootNow(log), Append(log, Declare(d), signer, now);
    HarmlessFaithful(G, root, log, Stamp(log, Declare(d), signer, now));
    RootStays(log, Declare(d), signer, now);
    var anchor := Admitted(OfDeclaration(d), AdmissionInstant(log, now));
    PlainFaithful(G, root, a, anchor, G.station, now);
    RootStays(a, anchor, G.station, now);
  }

  lemma {:induction false} RaiseFaithful(G: Gov, log: Log, d: Declaration, signer: Address, now: int)
    requires Faithful(G, RootNow(log), log) && SameCommunity(RootNow(log), d)
    ensures Faithful(G, RootNow(log), Written(G, log, Raise(d, signer), now))
  {
    hide Faithful, WithMarker, FounderCharter, Anchored;
    AnchoredFaithful(G, log, d, signer, now);
    WithMarkerFaithful(G, Anchored(G, log, d, signer, now), OfDeclaration(d), |log| + 1, now);
  }

  lemma {:induction false} SignedFaithful(G: Gov, log: Log, target: Hash, who: Address, signer: Address, now: int)
    requires Faithful(G, RootNow(log), log)
    requires FindDeclaration(log, target).Some? || FindMotion(log, target).Some?
    ensures Faithful(G, RootNow(log), Append(log, Cosign(target, who), signer, now))
    ensures RootNow(Append(log, Cosign(target, who), signer, now)) == RootNow(log)
  {
    hide Faithful, FounderCharter, FindDeclaration, FindMotion;
    HarmlessFaithful(G, RootNow(log), log, Stamp(log, Cosign(target, who), signer, now));
    RootStays(log, Cosign(target, who), signer, now);
  }

  lemma {:induction false} SupportFaithful(G: Gov, log: Log, target: Hash, who: Address, signer: Address, now: int)
    requires Faithful(G, RootNow(log), log)
    requires FindDeclaration(log, target).Some? || FindMotion(log, target).Some?
    ensures Faithful(G, RootNow(log), Written(G, log, Support(target, who, signer), now))
  {
    hide Faithful, WithMarker, FounderCharter, FindDeclaration, FindMotion;
    SignedFaithful(G, log, target, who, signer, now);
    WithMarkerFaithful(G, Append(log, Cosign(target, who), signer, now), target, |log| + 1, now);
  }

  /** An admitted co-signature found its target. */
  lemma {:induction false} SupportFound(G: Gov, log: Log, target: Hash, who: Address, signer: Address, now: int)
    requires SupportRefusal(G, log, target, who, signer, now).None?
    ensures FindDeclaration(log, target).Some? || FindMotion(log, target).Some?
  {
  }

  /** Every step of every door keeps the log faithful to the root it was judged by. */
  lemma {:induction false} StepFaithful(G: Gov, log: Log, act: Act, now: int)
    requires Faithful(G, RootNow(log), log)
    ensures Faithful(G, RootNow(log), Step(G, log, act, now))
  {
    hide Faithful, WithMarker, FounderCharter, SupportRefusal, PutRefusal, SecondRefusal, CastRefusal, EnactRefusal, Lapsable, CharterFrozen, AttestedWindow;
    var root := RootNow(log);
    if RefusalOf(G, log, act, now).None? {
      match act {
        case Raise(d, signer) => RaiseFaithful(G, log, d, signer, now);
        case Support(target, who, signer) =>
          SupportFound(G, log, target, who, signer, now);
          SupportFaithful(G, log, target, who, signer, now);
        case Lift(m, signer) => PlainFaithful(G, root, log, Lapse(m), signer, now);
        case Publish(charter, signers, _) => PlainFaithful(G, root, log, PublishCharter(charter, signers), G.station, now);
        case Put(p, signer, rules) =>
          PlainFaithful(G, root, log, Propose(p), signer, now);
          var active := ActiveNow(G, log, now, Some(|log| + 1));
          WindowPlain(p, rules, active, AdmissionInstant(log, now));
          PlainFaithful(G, root, Append(log, Propose(p), signer, now),
                        AttestedWindow(p, rules, active, AdmissionInstant(log, now)), G.station, now);
        case Second(p, who, signer) => PlainFaithful(G, root, log, Endorse(p, who), signer, now);
        case Cast(p, who, choice, signer) => PlainFaithful(G, root, log, Vote(p, who, choice), signer, now);
        case Enact(p) => PlainFaithful(G, root, log, Implemented(p, now), G.station, now);
        case Other(tag, signer) => PlainFaithful(G, root, log, Evidence(tag), signer, now);
      }
    }
  }

  lemma {:induction false} WindowPlain(p: Proposal, rules: Rules, active: Option<ActiveEmergency>, at: int)
    ensures AttestedWindow(p, rules, active, at).Window? && Plain(AttestedWindow(p, rules, active, at))
  {
  }

  // --- Steps keep every record in its place, whatever becomes of the root -----

  lemma {:induction false} AppendRecordPlaced(G: Gov, log: Log, record: Record, signer: Address, now: int)
    requires Placed(G, log) && !record.Refused? && !record.Activated?
    requires record.Cosign? ==> FindDeclaration(log, record.target).Some? || FindMotion(log, record.target).Some?
    ensures Placed(G, Append(log, record, signer, now))
  {
    hide Placed, FindDeclaration, FindMotion;
    AppendPlaced(G, log, Stamp(log, record, signer, now));
  }

  lemma {:induction false} WithMarkerPlaced(G: Gov, log: Log, h: Hash, crossing: nat, now: int)
    requires Placed(G, log)
    ensures Placed(G, WithMarker(G, log, h, crossing, now))
    ensures IsPrefix(log, WithMarker(G, log, h, crossing, now))
  {
    hide Placed, Marker, FounderCharter, FindDeclaration;
    var root := RootNow(log);
    if Marker(G, root, log, h, crossing, now).Some? {
      MarkerMeaning(G, root, log, h, crossing, now);
      AppendPlaced(G, log, Stamp(log, Marker(G, root, log, h, crossing, now).value, G.station, now));
    }
    assert WithMarker(G, log, h, crossing, now)[..|log|] == log;
  }

  lemma {:induction false} WrittenPlaced(G: Gov, log: Log, act: Act, now: int)
    requires Placed(G, log)
    requires act.Support? ==> FindDeclaration(log, act.target).Some? || FindMotion(log, act.target).Some?
    ensures Placed(G, Written(G, log, act, now)) && IsPrefix(log, Written(G, log, act, now))
  {
    hide Placed, WithMarker, FindDeclaration, FindMotion, AttestedWindow, ActiveNow;
    match act {
      case Raise(d, signer) =>
        AppendRecordPlaced(G, log, Declare(d), signer, now);
        AppendRecordPlaced(G, Append(log, Declare(d), signer, now),
                           Admitted(OfDeclaration(d), AdmissionInstant(log, now)), G.station, now);
        var anchored := Anchored(G, log, d, signer, now);
        WithMarkerPlaced(G, anchored, OfDeclaration(d), |log| + 1, now);
        assert anchored[..|log|] == log;
        PrefixUpto(anchored, WithMarker(G, anchored, OfDeclaration(d), |log| + 1, now), |log|);
      case Support(target, who, signer) =>
        AppendRecordPlaced(G, log, Cosign(target, who), signer, now);
        var signed := Append(log, Cosign(target, who), signer, now);
        assert signed[..|log|] == log;
        WithMarkerPlaced(G, signed, target, |log| + 1, now);
        PrefixUpto(signed, WithMarker(G, signed, target, |log| + 1, now), |log|);
      case Lift(m, signer) => AppendRecordPlaced(G, log, Lapse(m), signer, now);
      case Publish(charter, signers, _) => AppendRecordPlaced(G, log, PublishCharter(charter, signers), G.station, now);
      case Put(p, signer, rules) =>
        AppendRecordPlaced(G, log, Propose(p), signer, now);
        var active := ActiveNow(G, log, now, Some(|log| + 1));
        WindowPlain(p, rules, active, AdmissionInstant(log, now));
        AppendRecordPlaced(G, Append(log, Propose(p), signer, now),
                           AttestedWindow(p, rules, active, AdmissionInstant(log, now)), G.station, now);
      case Second(p, who, signer) => AppendRecordPlaced(G, log, Endorse(p, who), signer, now);
      case Cast(p, who, choice, signer) => AppendRecordPlaced(G, log, Vote(p, who, choice), signer, now);
      case Enact(p) => AppendRecordPlaced(G, log, Implemented(p, now), G.station, now);
      case Other(tag, signer) => AppendRecordPlaced(G, log, Evidence(tag), signer, now);
    }
  }

  lemma {:induction false} StepPlaced(G: Gov, log: Log, act: Act, now: int)
    requires Placed(G, log)
    ensures Placed(G, Step(G, log, act, now)) && IsPrefix(log, Step(G, log, act, now))
  {
    hide Placed, Written, SupportRefusal, PutRefusal, SecondRefusal, CastRefusal, EnactRefusal, Lapsable, CharterFrozen;
    if RefusalOf(G, log, act, now).None? {
      if act.Support? {
        SupportFound(G, log, act.target, act.who, act.signer, now);
      }
      WrittenPlaced(G, log, act, now);
    }
  }

  // --- Runs -------------------------------------------------------------------

  datatype Timed = Timed(act: Act, now: int)

  /** The log after a run of acts brought to the station, at whatever clock readings. */
  function Run(G: Gov, log: Log, acts: seq<Timed>): Log {
    if acts == [] then log
    else
      var last := acts[|acts| - 1];
      Step(G, Run(G, log, acts[..|acts| - 1]), last.act, last.now)
  }

  /** Every act of the run was judged by `root`. */
  predicate RootHeld(G: Gov, root: Root, log: Log, acts: seq<Timed>) {
    forall i :: 0 <= i < |acts| ==> RootNow(Run(G, log, acts[..i])) == root
  }

  lemma {:induction false} RootHeldPrefix(G: Gov, root: Root, log: Log, acts: seq<Timed>, n: nat)
    requires RootHeld(G, root, log, acts) && n <= |acts|
    ensures RootHeld(G, root, log, acts[..n])
  {
    forall i | 0 <= i < n ensures acts[..n][..i] == acts[..i] {
    }
  }

  lemma {:induction false} RunPlaced(G: Gov, log: Log, acts: seq<Timed>)
    requires Placed(G, log)
    ensures Placed(G, Run(G, log, acts)) && IsPrefix(log, Run(G, log, acts))
  {
    hide Placed, Step;
    if acts == [] {
      assert log[..|log|] == log;
    } else {
      var before, last := Run(G, log, acts[..|acts| - 1]), acts[|acts| - 1];
      RunPlaced(G, log, acts[..|acts| - 1]);
      StepPlaced(G, before, last.act, last.now);
      PrefixUpto(before, Step(G, before, last.act, last.now), |log|);
    }
  }

  /** Over every run judged by one root, each marker the station writes is believed on replay with the
      instants and the renewal count it states, and no declaration gets two. */
  lemma {:induction false} GateReplayAgreement(G: Gov, root: Root, log: Log, acts: seq<Timed>)
    requires Faithful(G, root, log) && RootHeld(G, root, log, acts)
    ensures Faithful(G, root, Run(G, log, acts))
  {
    hide Faithful, Step, FounderCharter;
    if acts != [] {
      var n := |acts| - 1;
      RootHeldPrefix(G, root, log, acts, n);
      GateReplayAgreement(G, root, log, acts[..n]);
      StepFaithful(G, Run(G, log, acts[..n]), acts[n].act, acts[n].now);
    }
  }

  /** A clocked log of charters, evidence and other records that say nothing of emergencies is faithful
      to every root. */
  lemma {:induction false} FoundingFaithful(G: Gov, root: Root, log: Log)
    requires Clocked(log) && forall k :: 0 <= k < |log| ==> Plain(log[k].record)
    ensures Faithful(G, root, log)
  {
    hide Derive;
  }

  /** So gate and replay agree over every run judged by one root that starts from such a log. */
  lemma {:induction false} FoundedAgreement(G: Gov, root: Root, log: Log, acts: seq<Timed>)
    requires Clocked(log) && forall k :: 0 <= k < |log| ==> Plain(log[k].record)
    requires RootHeld(G, root, log, acts)
    ensures Faithful(G, root, Run(G, log, acts))
  {
    hide Faithful, Run, RootHeld;
    FoundingFaithful(G, root, log);
    GateReplayAgreement(G, root, log, acts);
  }

  /** Over every run, and read by any root, what was derived before is kept: entries of the timeline,
      refusals and anchors; a lapse may appear once, later than everything on the earlier log. */
  lemma {:induction false} RunKeeps(G: Gov, root: Root, log: Log, acts: seq<Timed>)
    requires Placed(G, log)
    ensures Keeps(Derive(G, root, log), Derive(G, root, Run(G, log, acts)), |log|)
  {
    RunPlaced(G, log, acts);
    DerivationKeeps(G, root, log, Run(G, log, acts));
  }

  /** On a faithful log a declaration has taken force exactly when the station activated it, and is
      dead exactly when the station refused it; never both. */
  lemma {:induction false} DecisionsStand(G: Gov, root: Root, log: Log, h: Hash)
    requires Faithful(G, root, log)
    ensures (var D := Derive(G, root, log);
             && (Took(D.timeline, h) <==>
                   exists k :: 0 <= k < |log| && IsDecision(G, log[k]) && log[k].record.Activated? && log[k].record.target == h)
             && (h in D.dead <==> RefusedBy(G, log, h, |log|))
             && !(Took(D.timeline, h) && h in D.dead))
  {
    hide Placed, Native, DeriveTo, Keeps;
    DeriveDecides(G, root, log, |log|);
    var D := Derive(G, root, log);
    if Took(D.timeline, h) {
      var i :| 0 <= i < |D.timeline| && D.timeline[i].hash == h;
      assert Genuine(G, root, log, D.timeline, i);
    }
  }

  /** A declaration that took force, or died, has that status at every later instant of every run. */
  lemma {:induction false} StatusFinal(G: Gov, root: Root, log: Log, acts: seq<Timed>, h: Hash, probe: int, probe': int)
    requires Placed(G, log)
    requires DeclarationStatus(Derive(G, root, log), h, probe) in {StatusActivated, StatusDead}
    ensures DeclarationStatus(Derive(G, root, Run(G, log, acts)), h, probe') == DeclarationStatus(Derive(G, root, log), h, probe)
  {
    hide Placed, DeriveTo, Run, Genuine;
    var D, D' := Derive(G, root, log), Derive(G, root, Run(G, log, acts));
    RunKeeps(G, root, log, acts);
    DeriveDecides(G, root, Run(G, log, acts), |Run(G, log, acts)|);
    if Took(D.timeline, h) {
      var i :| 0 <= i < |D.timeline| && D.timeline[i].hash == h;
      assert SameEmergency(D.timeline[i], D'.timeline[i], |log|);
      assert D'.timeline[i].hash == h;
    }
  }

  /** Over every run from the empty log, each chain of activations stays within the renewal cap and 14
      days of summed activity. */
  lemma {:induction false} RunCaps(G: Gov, root: Root, acts: seq<Timed>, n: nat)
    requires 0 < n <= |Derive(G, root, Run(G, [], acts)).timeline|
    ensures (var chain := Spans(Derive(G, root, Run(G, [], acts)).timeline)[..n];
             && n - ChainHead(chain) <= root.maxRenewals + 1
             && Sum(chain[ChainHead(chain)..]) <= CHAIN_MAX)
  {
    hide Derive, Run;
    RunPlaced(G, [], acts);
    SpansAccepted(G, root, Run(G, [], acts));
    var spans := Spans(Derive(G, root, Run(G, [], acts)).timeline);
    AcceptedPrefix(spans, root.maxRenewals, n);
    ChainCaps(spans[..n], root.maxRenewals);
  }

  /** And whenever a new chain starts, at `t`, the seconds covered by the activations before it are at
      most half the time since the first. */
  lemma {:induction false} RunDutyCycle(G: Gov, root: Root, acts: seq<Timed>, n: nat, t: int)
    requires 0 < n <= |Derive(G, root, Run(G, [], acts)).timeline|
    requires !Continues(EmergencyChain.Fold(Spans(Derive(G, root, Run(G, [], acts)).timeline)[..n]).value, t)
    ensures (var spans := Spans(Derive(G, root, Run(G, [], acts)).timeline)[..n];
             2 * |Covered(spans)| <= t - spans[0].start)
  {
    hide Derive, Run;
    RunPlaced(G, [], acts);
    SpansAccepted(G, root, Run(G, [], acts));
    var spans := Spans(Derive(G, root, Run(G, [], acts)).timeline);
    AcceptedPrefix(spans, root.maxRenewals, n);
    DutyCycle(spans[..n], root.maxRenewals, t);
  }

  /** Why the root is held fixed: read by a root of another community, none of these declarations was
      ever in force or refused, whatever the station had written. */
  lemma {:induction false} OtherRootForgets(G: Gov, root: Root, log: Log, n: nat)
    requires n <= |log| && root.community.Some?
    requires forall k :: 0 <= k < |log| && log[k].record.Declare? ==> log[k].record.d.community != root.community.value
    ensures DeriveTo(G, root, log, n).timeline == [] && DeriveTo(G, root, log, n).dead == {}
  {
    hide CrossingReached, ChainDecision, NewEmergency, Decided;
    if n > 0 {
      OtherRootForgets(G, root, log, n - 1);
    }
  }
}
