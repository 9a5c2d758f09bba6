/** The constitution is frozen while an emergency holds (crates/rrn-governance/src/charter.rs,
    proposal.rs, statute.rs and tally.rs). */
module Freeze {
  import opened Basics
  import opened GovLog
  import opened EmergencyTimeline
  import opened Proposals
  import opened FrontDoors
  import opened EmergencyAgreement
  import opened EmergencyRuns

  // --- The doors --------------------------------------------------------------

  /** The emergency at index `i` covers a record admitted at `at`: after its activation, up to its
      scheduled expiry, and not lifted. */
  predicate Holds(G: Gov, root: Root, log: Log, i: nat, at: int) {
    var timeline := Derive(G, root, log).timeline;
    i < |timeline| && timeline[i].lapsed.None? && timeline[i].start < at <= timeline[i].expiry
  }

  lemma {:induction false} HeldIsActive(G: Gov, log: Log, i: nat, now: int)
    requires Holds(G, RootNow(log), log, i, AdmissionInstant(log, now))
    ensures ActiveNow(G, log, now, None).Some? && ActiveNow(G, log, now, Some(|log| + 1)).Some?
  {
    hide DeriveTo, Genuine, FounderCharter;
    DeriveDecides(G, RootNow(log), log, |log|);
    var e := Derive(G, RootNow(log), log).timeline[i];
    assert Governs(e, AdmissionInstant(log, now), None) && Governs(e, AdmissionInstant(log, now), Some(|log| + 1));
  }

  function EnactedAmendments(G: Gov, log: Log): set<Proposal> {
    set k | 0 <= k < |log| && log[k].record.Implemented? && log[k].signer == G.station
            && log[k].record.proposal.kind.Amendment? :: log[k].record.proposal
  }

  /** Acts that would touch the constitution. */
  predicate Constitutional(act: Act) {
    act.Publish? || (act.Enact? && act.p.kind.Amendment?) || (act.Put? && act.p.kind.Amendment?)
  }

  /** Once a root exists, no founder charter, no amendment and no enactment of one gets through any
      door while an emergency holds. */
  lemma {:induction false} DoorsFrozen(G: Gov, log: Log, act: Act, now: int, i: nat)
    requires FounderCharter(log).Some? && Constitutional(act)
    requires Holds(G, RootNow(log), log, i, AdmissionInstant(log, now))
    ensures RefusalOf(G, log, act, now).Some?
  {
    hide FounderCharter, Derive, Authorized, Holds, FounderAuthorized;
    HeldIsActive(G, log, i, now);
  }

  /** The charter door is closed under an emergency exactly when a root exists: a charter with enough
      founder signatures is taken on a rootless log even then. */
  lemma {:induction false} CharterDoorFrozenIff(G: Gov, log: Log, charter: Charter, signers: set<Address>, pending: bool, now: int, i: nat)
    requires Holds(G, RootNow(log), log, i, AdmissionInstant(log, now)) && FounderAuthorized(charter, signers)
    ensures RefusalOf(G, log, Publish(charter, signers, pending), now) == Some(FrozenByEmergency) <==> FounderCharter(log).Some?
  {
    hide FounderCharter, Derive, Holds, FounderAuthorized;
    HeldIsActive(G, log, i, now);
  }

  /** With a root, an authorized charter is refused exactly while some unlifted emergency covers the
      instant it would be stamped with: strictly after its activation, up to its expiry. */
  lemma {:induction false} CharterDoorFrozenExactly(
    G: Gov, log: Log, charter: Charter, signers: set<Address>, pending: bool, now: int)
    requires FounderCharter(log).Some? && FounderAuthorized(charter, signers)
    ensures RefusalOf(G, log, Publish(charter, signers, pending), now) == Some(FrozenByEmergency)
       <==> exists i: nat :: Holds(G, RootNow(log), log, i, AdmissionInstant(log, now))
  {
    hide FounderCharter, Derive, FounderAuthorized;
    var timeline, at := Derive(G, RootNow(log), log).timeline, AdmissionInstant(log, now);
    if exists i: nat :: Holds(G, RootNow(log), log, i, at) {
      var i: nat :| Holds(G, RootNow(log), log, i, at);
      HeldIsActive(G, log, i, now);
    }
    if ActiveAt(timeline, at, None).Some? {
      var i: nat :| FirstToGovern(timeline, at, None, i);
      assert Holds(G, RootNow(log), log, i, at);
    }
  }

  /** A clock that steps back cannot be stamped before an activation already on the log, so an emergency
      not yet expired or lifted covers the stamp unless it falls in the very second of activation. */
  lemma {:induction false} SteppedBackClock(G: Gov, root: Root, log: Log, i: nat, now: int)
    requires Placed(G, log) && i < |Derive(G, root, log).timeline|
    requires Derive(G, root, log).timeline[i].lapsed.None?
    requires AdmissionInstant(log, now) <= Derive(G, root, log).timeline[i].expiry
    ensures AdmissionInstant(log, now) >= Derive(G, root, log).timeline[i].start
    ensures Holds(G, root, log, i, AdmissionInstant(log, now))
       <==> AdmissionInstant(log, now) != Derive(G, root, log).timeline[i].start
  {
    hide DeriveTo;
    DeriveDecides(G, root, log, |log|);
    var e := Derive(G, root, log).timeline[i];
    assert Genuine(G, root, log, Derive(G, root, log).timeline, i);
    assert PlacedAt(G, log, e.position - 1);
  }

  // --- What a step adds -------------------------------------------------------

  /** No entry past `n` publishes a root or enacts an amendment. */
  predicate ConstitutionQuiet(G: Gov, log: Log, n: nat) {
    forall k :: n <= k < |log| ==> !PublishesRoot(log[k]) && !(log[k].record.Implemented? && log[k].record.proposal.kind.Amendment?)
  }

  lemma {:induction false} MarkerQuiet(G: Gov, log: Log, h: Hash, crossing: nat, now: int)
    ensures (var log' := WithMarker(G, log, h, crossing, now);
             && |log| <= |log'| && log'[..|log|] == log
             && forall k :: |log| <= k < |log'| ==> log'[k].record.Refused? || log'[k].record.Activated?)
  {
    hide Marker, FounderCharter;
    if Marker(G, RootNow(log), log, h, crossing, now).Some? {
      MarkerKind(G, RootNow(log), log, h, crossing, now);
    }
  }

  /** What the act itself records, and the station's companions to it. */
  predicate WrittenFor(act: Act, record: Record) {
    match act
    case Raise(d, _) => record == Declare(d) || record.Admitted? || record.Refused? || record.Activated?
    case Support(target, who, _) => record == Cosign(target, who) || record.Refused? || record.Activated?
    case Lift(m, _) => record == Lapse(m)
    case Publish(charter, signers, _) => record == PublishCharter(charter, signers)
    case Put(p, _, _) => record == Propose(p) || record.Window?
    case Second(p, who, _) => record == Endorse(p, who)
    case Cast(p, who, choice, _) => record == Vote(p, who, choice)
    case Enact(p) => record.Implemented? && record.proposal == p
    case Other(_, _) => record.Evidence?
  }

  lemma {:induction false} StepWrites(G: Gov, log: Log, act: Act, now: int)
    ensures (var log' := Step(G, log, act, now);
             && IsPrefix(log, log')
             && (RefusalOf(G, log, act, now).Some? ==> log' == log)
             && forall k :: |log| <= k < |log'| ==> WrittenFor(act, log'[k].record))
  {
    hide RefusalOf, WithMarker, AttestedWindow, ActiveNow, FindDeclaration;
    var log' := Step(G, log, act, now);
    if RefusalOf(G, log, act, now).Some? {
      assert log[..|log|] == log;
    } else if act.Raise? {
      var anchored := Anchored(G, log, act.d, act.signer, now);
      MarkerQuiet(G, anchored, OfDeclaration(act.d), |log| + 1, now);
      assert anchored[..|log|] == log;
      PrefixUpto(anchored, log', |log|);
      forall k | |log| <= k < |log'| ensures WrittenFor(act, log'[k].record) {
        if k < |anchored| {
          PrefixAt(anchored, log', k);
        }
      }
    } else if act.Support? {
      var signed := Append(log, Cosign(act.target, act.who), act.signer, now);
      MarkerQuiet(G, signed, act.target, |log| + 1, now);
      assert signed[..|log|] == log;
      PrefixUpto(signed, log', |log|);
      forall k | |log| <= k < |log'| ensures WrittenFor(act, log'[k].record) {
        if k < |signed| {
          PrefixAt(signed, log', k);
        }
      }
    } else if act.Put? {
      var active := ActiveNow(G, log, now, Some(|log| + 1));
      WindowPlain(act.p, act.rules, active, AdmissionInstant(log, now));
      assert log'[..|log|] == log;
    } else {
      assert log'[..|log|] == log;
    }
  }

  /** A step under an emergency leaves the founder root and the enacted amendments as they were. */
  lemma {:induction false} FrozenStep(G: Gov, log: Log, act: Act, now: int, i: nat)
    requires FounderCharter(log).Some? && Holds(G, RootNow(log), log, i, AdmissionInstant(log, now))
    ensures ConstitutionQuiet(G, Step(G, log, act, now), |log|)
    ensures FounderCharter(Step(G, log, act, now)) == FounderCharter(log)
    ensures EnactedAmendments(G, Step(G, log, act, now)) == EnactedAmendments(G, log)
  {
    hide Step, RefusalOf, FounderCharter, Holds;
    var log' := Step(G, log, act, now);
    StepWrites(G, log, act, now);
    if Constitutional(act) {
      DoorsFrozen(G, log, act, now, i);
    }
    assert ConstitutionQuiet(G, log', |log|);
    RootUnchanged(log, log');
    AmendmentsQuiet(G, log, log');
  }

  lemma {:induction false} AmendmentsQuiet(G: Gov, log: Log, log': Log)
    requires IsPrefix(log, log') && ConstitutionQuiet(G, log', |log|)
    ensures EnactedAmendments(G, log') == EnactedAmendments(G, log)
  {
    forall k | 0 <= k < |log| ensures log'[k] == log[k] {
      PrefixAt(log, log', k);
    }
  }
}
