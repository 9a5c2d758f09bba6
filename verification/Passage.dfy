/** What it takes to pass, in the charter's own bars and the log's own ballots
    (crates/rrn-governance/src/tally.rs, vote.rs and proposal.rs). */
module Passage {
  import opened Basics
  import opened GovLog
  import opened EmergencyTimeline
  import opened Proposals
  import opened CharterFold
  import opened FrontDoors
  import opened EmergencyMeaning

  // --- The record -------------------------------------------------------------

  /** `e` is the station's window for `p`. */
  predicate WindowsIt(G: Gov, e: Entry, p: Proposal) {
    e.record.Window? && e.signer == G.station && e.record.proposal == p
  }

  /** `w` is the first window the station attested for `p`, with the figures it states. */
  predicate OpenedBy(G: Gov, log: Log, p: Proposal, w: Opening) {
    && 1 <= w.position <= |log| && WindowsIt(G, log[w.position - 1], p)
    && w.at == log[w.position - 1].record.openedAt && w.votingEndsAt == log[w.position - 1].record.votingEndsAt
    && w.implementationAt == log[w.position - 1].record.implementationAt
    && forall j :: 0 <= j < w.position - 1 ==> !WindowsIt(G, log[j], p)
  }

  lemma {:induction false} WindowMeans(G: Gov, log: Log, p: Proposal, n: nat, w: Opening)
    requires n <= |log|
    ensures WindowTo(G, log, p, n) == Some(w) <==> OpenedBy(G, log, p, w) && w.position <= n
    ensures WindowTo(G, log, p, n).None? ==> forall j :: 0 <= j < n ==> !WindowsIt(G, log[j], p)
  {
    if n > 0 {
      WindowMeans(G, log, p, n - 1, w);
      if WindowTo(G, log, p, n - 1).Some? {
        WindowMeans(G, log, p, n - 1, WindowTo(G, log, p, n - 1).value);
      }
    }
  }

  /** A record is authorized when it is well formed, put by its author, windowed by the station, and its
      author was eligible, by the founder root, where and when that window opened. */
  lemma {:induction false} AuthorizedMeans(G: Gov, charter: Option<Charter>, log: Log, p: Proposal, w: Opening)
    ensures Authorized(G, RootOf(charter), log, p) == Some(w) <==>
              && p.wellFormed && OpenedBy(G, log, p, w) && May(G, charter, log, w.position, w.at, p.author)
              && exists k :: 0 <= k < |log| && log[k].record == Propose(p) && log[k].signer == p.author
  {
    hide WindowTo, Eligible, May, PinAt, RootOf, OpenedBy;
    WindowMeans(G, log, p, |log|, w);
    PinReads(G, charter, log, w.position, w.at);
    if OpenedBy(G, log, p, w) {
      assert w.position <= |log| by { PositionFits(G, log, p, w); }
    }
    if k: int :| 0 <= k < |log| && log[k].record == Propose(p) && log[k].signer == p.author {
      assert Proposes(log[k], p);
    }
  }

  lemma {:induction false} PositionFits(G: Gov, log: Log, p: Proposal, w: Opening)
    requires OpenedBy(G, log, p, w)
    ensures w.position <= |log|
  {
  }

  /** The members, other than its author, eligible where the window opened who endorsed `p`. */
  function Endorsing(G: Gov, charter: Option<Charter>, log: Log, p: Proposal, w: Opening): set<Address> {
    set k | 0 <= k < |log| && log[k].record.Endorse? && log[k].record.proposal == p && log[k].signer == log[k].record.who
            && log[k].signer != p.author && May(G, charter, log, w.position, w.at, log[k].signer)
      :: log[k].signer
  }

  /** A proposal is published once they are as many as standing asks for there. */
  lemma {:induction false} PublishedMeans(G: Gov, charter: Option<Charter>, log: Log, p: Proposal, w: Opening)
    ensures Published(G, RootOf(charter), log, p, w) <==>
              |Endorsing(G, charter, log, p, w)| >= G.st.endorsements(Seen(log, w.position), FoundersOf(charter), w.at)
  {
    hide Eligible, May, PinAt, RootOf;
    PinReads(G, charter, log, w.position, w.at);
    PinMeaning(log, w.position, w.at);
    FoundersRead(charter);
    assert Endorsers(G, RootOf(charter), log, p, OpenPin(log, w), |log|) == Endorsing(G, charter, log, p, w);
  }

  // --- The ballots ------------------------------------------------------------

  /** `e` is a self-signed ballot on `p`. */
  predicate VotesOn(e: Entry, p: Proposal) {
    e.record.Vote? && e.record.proposal == p && e.signer == e.record.who
  }

  /** Where the electorate of `p` is pinned: a position and an instant. */
  datatype Place = Place(position: nat, at: int)

  /** The members eligible there whose first ballot after the opening is `choice`. */
  function Choosing(
    G: Gov, charter: Option<Charter>, log: Log, p: Proposal, after: nat, place: Place, choice: Choice): set<Address>
  {
    set k | after <= k < |log| && VotesOn(log[k], p) && log[k].record.choice == choice
            && (forall j :: after <= j < k ==> !(VotesOn(log[j], p) && log[j].signer == log[k].signer))
            && May(G, charter, log, place.position, place.at, log[k].signer)
      :: log[k].signer
  }

  /** `who`'s first ballot among the entries at indices `[after, n)`. */
  predicate FirstBallot(log: Log, p: Proposal, who: Address, after: nat, n: nat, k: nat) {
    && after <= k < n <= |log| && VotesOn(log[k], p) && log[k].signer == who
    && forall j :: after <= j < k ==> !(VotesOn(log[j], p) && log[j].signer == who)
  }

  lemma {:induction false} BallotMeans(
    G: Gov, root: Root, log: Log, p: Proposal, pin: Pin, after: nat, n: nat, who: Address)
    requires n <= |log|
    ensures (var box := VotesTo(G, root, log, p, pin, after, n);
             && (who in box ==> Eligible(G, root, pin, who)
                                && exists k: nat :: FirstBallot(log, p, who, after, n, k) && box[who] == log[k].record.choice)
             && (who !in box && Eligible(G, root, pin, who) ==>
                   forall k :: after <= k < n ==> !(VotesOn(log[k], p) && log[k].signer == who)))
  {
    hide Eligible;
    if n > after {
      BallotMeans(G, root, log, p, pin, after, n - 1, who);
      var box := VotesTo(G, root, log, p, pin, after, n - 1);
      if who in box {
        var k: nat :| FirstBallot(log, p, who, after, n - 1, k) && box[who] == log[k].record.choice;
        assert FirstBallot(log, p, who, after, n, k);
      } else if VotesOn(log[n - 1], p) && log[n - 1].signer == who && Eligible(G, root, pin, who) {
        assert FirstBallot(log, p, who, after, n, n - 1);
      }
    }
  }

  lemma {:induction false} CastingIsChoosing(
    G: Gov, charter: Option<Charter>, log: Log, p: Proposal, after: nat, place: Place, choice: Choice)
    ensures Casting(VotesTo(G, RootOf(charter), log, p, PinAt(log, place.position, place.at), after, |log|), choice)
         == Choosing(G, charter, log, p, after, place, choice)
  {
    hide Eligible, May, PinAt, RootOf, VotesTo;
    var root, pin := RootOf(charter), PinAt(log, place.position, place.at);
    PinReads(G, charter, log, place.position, place.at);
    var box := VotesTo(G, root, log, p, pin, after, |log|);
    forall who | who in Casting(box, choice) ensures who in Choosing(G, charter, log, p, after, place, choice) {
      BallotMeans(G, root, log, p, pin, after, |log|, who);
      var k: nat :| FirstBallot(log, p, who, after, |log|, k) && box[who] == log[k].record.choice;
      assert log[k].signer == who;
    }
    forall who | who in Choosing(G, charter, log, p, after, place, choice) ensures who in Casting(box, choice) {
      var k :| after <= k < |log| && VotesOn(log[k], p) && log[k].record.choice == choice && log[k].signer == who
               && (forall j :: after <= j < k ==> !(VotesOn(log[j], p) && log[j].signer == log[k].signer))
               && May(G, charter, log, place.position, place.at, log[k].signer);
      BallotMeans(G, root, log, p, pin, after, |log|, who);
      var i: nat :| FirstBallot(log, p, who, after, |log|, i) && box[who] == log[i].record.choice;
      assert i == k;
    }
  }

  // --- The bars ---------------------------------------------------------------

  /** Some decided, enough of `n` took part, and enough of those who decided said yes. */
  predicate Meets(yes: nat, no: nat, abstain: nat, n: nat, quorumPct: nat, approvalPct: nat) {
    yes + no > 0 && 100 * (yes + no + abstain) >= quorumPct * n && 100 * yes >= approvalPct * (yes + no)
  }

  /** The ballots for `p` read at `place`, against an electorate of the governing charter's founders. */
  predicate VoteMeets(
    G: Gov, root: Option<Charter>, log: Log, p: Proposal, after: nat, place: Place, governing: Charter,
    quorumPct: nat, approvalPct: nat)
  {
    Meets(|Choosing(G, root, log, p, after, place, Yes)|, |Choosing(G, root, log, p, after, place, No)|,
          |Choosing(G, root, log, p, after, place, Abstain)|,
          G.st.electorateSize(Seen(log, place.position), governing.founders, place.at), quorumPct, approvalPct)
  }

  /** The parts of a count that do not depend on the kind: nothing is carried without a published record and
      a closed vote. */
  lemma {:induction false} CountMeans(
    G: Gov, root: Option<Charter>, log: Log, p: Proposal, now: int, governing: Charter, w: Opening, place: Place)
    requires Authorized(G, RootOf(root), log, p) == Some(w)
    requires ElectoratePin(G, RootOf(root), log, p, w) == PinAt(log, place.position, place.at)
    ensures (var yes := |Choosing(G, root, log, p, w.position, place, Yes)|;
             var no := |Choosing(G, root, log, p, w.position, place, No)|;
             var abstain := |Choosing(G, root, log, p, w.position, place, Abstain)|;
             var n := G.st.electorateSize(Seen(log, place.position), governing.founders, place.at);
             var bars := Thresholds(p.kind, governing.rules, GoverningEmergency(G, RootOf(root), log, p, w).Some?);
             Passed(G, RootOf(root), log, p, now, governing) <==>
               && Published(G, RootOf(root), log, p, w) && now > w.votingEndsAt
               && 100 * (yes + no + abstain) >= bars.0 * n && Approved(p.kind, yes, yes + no, bars.1))
  {
    hide Authorized, Published, VotesTo, ElectoratePin, GoverningEmergency, Choosing, Thresholds, RootOf, PinAt, Seen;
    PinMeaning(log, place.position, place.at);
    CastingIsChoosing(G, root, log, p, w.position, place, Yes);
    CastingIsChoosing(G, root, log, p, w.position, place, No);
    CastingIsChoosing(G, root, log, p, w.position, place, Abstain);
    if !Published(G, RootOf(root), log, p, w) {
      NoBallots();
    }
  }

  lemma {:induction false} NoBallots()
    ensures forall c :: Casting(map[], c) == {}
  {
  }

  lemma {:induction false} OpenPlace(G: Gov, root: Root, log: Log, p: Proposal, w: Opening)
    requires !p.kind.EmergencyMeasure?
    ensures GoverningEmergency(G, root, log, p, w).None?
    ensures ElectoratePin(G, root, log, p, w) == PinAt(log, w.position, w.at)
  {
  }

  /** An amendment passes exactly when it is authorized and published, its vote is over, and the ballots of the
      electorate where it opened meet the charter's amendment bars. */
  lemma {:induction false} AmendmentPasses(G: Gov, root: Option<Charter>, log: Log, p: Proposal, now: int, governing: Charter)
    requires p.kind.Amendment?
    ensures (var w := Authorized(G, RootOf(root), log, p);
             Passed(G, RootOf(root), log, p, now, governing) <==>
               && w.Some? && Published(G, RootOf(root), log, p, w.value) && now > w.value.votingEndsAt
               && VoteMeets(G, root, log, p, w.value.position, Place(w.value.position, w.value.at), governing,
                            governing.rules.amendmentQuorumPct, governing.rules.amendmentApprovalPct))
  {
    hide Authorized, Published, Votes, ElectoratePin, GoverningEmergency, Choosing, RootOf, Seen;
    var w := Authorized(G, RootOf(root), log, p);
    if w.Some? {
      OpenPlace(G, RootOf(root), log, p, w.value);
      CountMeans(G, root, log, p, now, governing, w.value, Place(w.value.position, w.value.at));
    }
  }

  /** A statute likewise, by the statute bars. */
  lemma {:induction false} StatutePasses(G: Gov, root: Option<Charter>, log: Log, p: Proposal, now: int, governing: Charter)
    requires p.kind.Ordinary?
    ensures (var w := Authorized(G, RootOf(root), log, p);
             Passed(G, RootOf(root), log, p, now, governing) <==>
               && w.Some? && Published(G, RootOf(root), log, p, w.value) && now > w.value.votingEndsAt
               && VoteMeets(G, root, log, p, w.value.position, Place(w.value.position, w.value.at), governing,
                            governing.rules.statuteQuorumPct, governing.rules.statuteApprovalPct))
  {
    hide Authorized, Published, Votes, ElectoratePin, GoverningEmergency, Choosing, RootOf, Seen;
    var w := Authorized(G, RootOf(root), log, p);
    if w.Some? {
      OpenPlace(G, RootOf(root), log, p, w.value);
      CountMeans(G, root, log, p, now, governing, w.value, Place(w.value.position, w.value.at));
    }
  }

  /** A measure's approval: two-thirds of those who decided, or the share a stricter charter asks for. */
  predicate MeasureApproves(yes: nat, no: nat, pct: nat) {
    yes + no > 0 && if pct <= 67 then 3 * yes >= 2 * (yes + no) else 100 * yes >= pct * (yes + no)
  }

  /** An emergency measure opened under an emergency is voted on by the electorate of its activation and needs
      half of it to take part, or the share a stricter charter asks for; opened under none it is voted on
      like a statute. Either way it needs two-thirds, or a stricter charter's share, of those who decide. */
  lemma {:induction false} MeasurePasses(G: Gov, root: Option<Charter>, log: Log, p: Proposal, now: int, governing: Charter)
    requires p.kind.EmergencyMeasure?
    ensures (var w := Authorized(G, RootOf(root), log, p);
             Passed(G, RootOf(root), log, p, now, governing) <==>
               && w.Some? && Published(G, RootOf(root), log, p, w.value) && now > w.value.votingEndsAt
               && (var e := ActiveAt(Derive(G, RootOf(root), log).timeline, w.value.at, Some(w.value.position));
                   var place := if e.Some? then Place(e.value.position, e.value.start) else Place(w.value.position, w.value.at);
                   var yes := |Choosing(G, root, log, p, w.value.position, place, Yes)|;
                   var no := |Choosing(G, root, log, p, w.value.position, place, No)|;
                   var abstain := |Choosing(G, root, log, p, w.value.position, place, Abstain)|;
                   var n := G.st.electorateSize(Seen(log, place.position), governing.founders, place.at);
                   && MeasureApproves(yes, no, governing.rules.emergencyThresholdPct)
                   && if e.Some?
                      then 2 * (yes + no + abstain) >= n
                           && 100 * (yes + no + abstain) >= governing.rules.emergencyQuorumPct * n
                      else 100 * (yes + no + abstain) >= governing.rules.statuteQuorumPct * n))
  {
    hide Authorized, Published, Votes, Choosing, RootOf, Seen, Derive, ActiveAt, PinAt;
    var w := Authorized(G, RootOf(root), log, p);
    if w.Some? {
      var e := ActiveAt(Derive(G, RootOf(root), log).timeline, w.value.at, Some(w.value.position));
      var place := if e.Some? then Place(e.value.position, e.value.start) else Place(w.value.position, w.value.at);
      CountMeans(G, root, log, p, now, governing, w.value, place);
      QuorumFloor(|Choosing(G, root, log, p, w.value.position, place, Yes)|
                  + |Choosing(G, root, log, p, w.value.position, place, No)|
                  + |Choosing(G, root, log, p, w.value.position, place, Abstain)|,
                  G.st.electorateSize(Seen(log, place.position), governing.founders, place.at),
                  governing.rules.emergencyQuorumPct);
    }
  }

  lemma {:induction false} QuorumFloor(turnout: nat, n: nat, pct: nat)
    ensures 100 * turnout >= Max(pct, MEASURE_QUORUM_FLOOR) * n <==> 2 * turnout >= n && 100 * turnout >= pct * n
  {
    if pct <= 50 {
      assert pct * n <= 50 * n;
    } else {
      assert pct * n >= 50 * n;
    }
  }

  // --- The way to the effective charter ---------------------------------------

  /** `p` was carried under `charter`: opened, published, its vote closed before it fell due, and its ballots
      met that charter's amendment bars. */
  ghost predicate CarriedUnder(G: Gov, root: Option<Charter>, log: Log, p: Proposal, charter: Charter) {
    && p.kind.Amendment? && p.kind.newCharter.version == charter.version + 1 && p.kind.newCharter.previous == Some(charter)
    && (exists k :: 0 <= k < |log| && log[k].record.Implemented? && log[k].record.proposal == p && log[k].signer == G.station)
    && exists w ::
         && OpenedBy(G, log, p, w) && w.implementationAt > w.votingEndsAt
         && |Endorsing(G, root, log, p, w)| >= G.st.endorsements(Seen(log, w.position), FoundersOf(root), w.at)
         && VoteMeets(G, root, log, p, w.position, Place(w.position, w.at), charter,
                      charter.rules.amendmentQuorumPct, charter.rules.amendmentApprovalPct)
  }

  lemma {:induction false} AdvancesCarried(G: Gov, root: Option<Charter>, log: Log, p: Proposal, charter: Charter)
    requires Advances(G, RootOf(root), log, p, charter)
    ensures CarriedUnder(G, root, log, p, charter)
  {
    hide Authorized, Published, VoteMeets, RootOf, OpenedBy, Endorsing, Passed, Seen;
    var k :| 0 <= k < |log| && Enacts(G, log[k], p);
    var w := Authorized(G, RootOf(root), log, p).value;
    AmendmentPasses(G, root, log, p, w.implementationAt, charter);
    AuthorizedMeans(G, root, log, p, w);
    PublishedMeans(G, root, log, p, w);
  }

  /** The charter before step `i` of a chain from `from`. */
  function Before(from: Charter, chain: seq<Proposal>, i: nat): Charter
    requires i < |chain| && forall j :: 0 <= j < |chain| ==> chain[j].kind.Amendment?
  {
    if i == 0 then from else chain[i - 1].kind.newCharter
  }

  /** Every step of a lineage was carried under the charter before it. */
  lemma {:induction false} LineageCarried(
    G: Gov, root: Option<Charter>, log: Log, all: seq<Proposal>, from: Charter, chain: seq<Proposal>, to: Charter)
    requires Lineage(G, RootOf(root), log, all, from, chain, to)
    ensures forall i :: 0 <= i < |chain| ==> chain[i].kind.Amendment?
    ensures forall i: nat :: i < |chain| ==> CarriedUnder(G, root, log, chain[i], Before(from, chain, i))
    ensures to == if chain == [] then from else chain[|chain| - 1].kind.newCharter
    decreases |chain|
  {
    hide Advances, CarriedUnder, RootOf;
    if chain != [] {
      AdvancesVersion(G, RootOf(root), log, chain[0], from);
      AdvancesCarried(G, root, log, chain[0], from);
      var rest := chain[1..];
      LineageCarried(G, root, log, all, chain[0].kind.newCharter, rest, to);
      forall i: nat | 0 < i < |chain|
        ensures chain[i].kind.Amendment? && CarriedUnder(G, root, log, chain[i], if i == 1 then chain[0].kind.newCharter else chain[i - 1].kind.newCharter)
      {
        assert chain[i] == rest[i - 1];
        assert CarriedUnder(G, root, log, rest[i - 1], Before(chain[0].kind.newCharter, rest, i - 1));
      }
    }
  }

  /** The effective charter was earned step by step from the founder root, each step by the amendment bars of
      the charter it replaced. */
  lemma {:induction false} EffectiveCharterEarned(G: Gov, log: Log) returns (chain: seq<Proposal>)
    requires FounderCharter(log).Some?
    ensures EffectiveCharter(G, log).Some? && forall i :: 0 <= i < |chain| ==> chain[i].kind.Amendment?
    ensures forall i: nat :: i < |chain| ==>
      CarriedUnder(G, FounderCharter(log), log, chain[i], Before(FounderCharter(log).value, chain, i))
    ensures EffectiveCharter(G, log).value
         == if chain == [] then FounderCharter(log).value else chain[|chain| - 1].kind.newCharter
  {
    hide CarriedUnder, Advances, EffectiveCharter, FounderCharter, RootOf;
    chain := EffectiveCharterMeaning(G, log);
    LineageCarried(G, FounderCharter(log), log, ProposalsTo(G, RootOf(FounderCharter(log)), log, |log|),
                   FounderCharter(log).value, chain, EffectiveCharter(G, log).value);
  }

  // --- What the doors take ------------------------------------------------------

  /** Some emergency of the log covers a record admitted now. */
  predicate Covered(G: Gov, log: Log, now: int, position: Option<nat>) {
    exists e :: e in Derive(G, RootOf(FounderCharter(log)), log).timeline && Covers(e, AdmissionInstant(log, now), position)
  }

  lemma {:induction false} CoveredIff(G: Gov, log: Log, now: int, position: Option<nat>)
    ensures Covered(G, log, now, position) <==> ActiveNow(G, log, now, position).Some?
  {
    hide Derive, FounderCharter, Governs, Covers;
  }

  /** A founder charter is published when three quarters of its founders signed (or as a pending one) and the
      log has no root or no emergency covers it. */
  lemma {:induction false} PublishMeans(G: Gov, log: Log, charter: Charter, signers: set<Address>, pending: bool, now: int)
    ensures RefusalOf(G, log, Publish(charter, signers, pending), now).None? <==>
              && (pending || 4 * |set a | a in signers && a in charter.founders| >= 3 * |set a | a in charter.founders|)
              && (FounderCharter(log).None? || !Covered(G, log, now, None))
  {
    hide FounderCharter, ActiveNow, Covered, FounderAuthorized;
    ThreeQuarters(charter, signers);
    CoveredIff(G, log, now, None);
  }

  /** A proposal is taken from its own eligible author, once, an amendment under no emergency, and a measure
      only if it expires in time. */
  lemma {:induction false} PutMeans(G: Gov, log: Log, p: Proposal, signer: Address, rules: Rules, now: int)
    requires RefusalOf(G, log, Put(p, signer, rules), now).None?
    ensures signer == p.author && p.wellFormed
    ensures May(G, FounderCharter(log), log, |log| + 1, AdmissionInstant(log, now), p.author)
    ensures Authorized(G, RootOf(FounderCharter(log)), log, p).None?
    ensures p.kind.Amendment? ==> !Covered(G, log, now, Some(|log| + 1))
    ensures p.kind.EmergencyMeasure? && !Covered(G, log, now, Some(|log| + 1)) ==>
              p.kind.expiresAt <= AdmissionInstant(log, now) + 86_400 * rules.deliberationDays + 30 * 86_400
    ensures p.kind.EmergencyMeasure? && Covered(G, log, now, Some(|log| + 1)) ==>
              exists e :: e in Derive(G, RootOf(FounderCharter(log)), log).timeline
                          && Covers(e, AdmissionInstant(log, now), Some(|log| + 1)) && p.kind.expiresAt <= e.expiry + 7 * 86_400
  {
    hide FounderCharter, Covered, Eligible, May, PinAt, Derive, Authorized, MeasureLimit, Covers, Governs;
    PinReads(G, FounderCharter(log), log, |log| + 1, AdmissionInstant(log, now));
    CoveredIff(G, log, now, Some(|log| + 1));
    if p.kind.EmergencyMeasure? {
      LimitMeans(p, rules, ActiveNow(G, log, now, Some(|log| + 1)), AdmissionInstant(log, now));
    }
  }

  /** A ballot is taken while the vote is open, from a member of the pinned electorate who has cast none. */
  lemma {:induction false} CastMeans(G: Gov, log: Log, p: Proposal, who: Address, choice: Choice, signer: Address, now: int)
    requires RefusalOf(G, log, Cast(p, who, choice, signer), now).None?
    ensures signer == who && Authorized(G, RootOf(FounderCharter(log)), log, p).Some?
    ensures (var w := Authorized(G, RootOf(FounderCharter(log)), log, p).value;
             && Published(G, RootOf(FounderCharter(log)), log, p, w) && AdmissionInstant(log, now) <= w.votingEndsAt
             && (forall k :: w.position <= k < |log| ==> !(VotesOn(log[k], p) && log[k].signer == who))
             && (!p.kind.EmergencyMeasure? ==> May(G, FounderCharter(log), log, w.position, w.at, who)))
  {
    hide FounderCharter, Eligible, May, PinAt, Authorized, Published, VotesTo, GoverningEmergency;
    CastAllowed(G, log, p, who, choice, signer, now);
    var w := Authorized(G, RootOf(FounderCharter(log)), log, p).value;
    PinReads(G, FounderCharter(log), log, w.position, w.at);
    forall k | w.position <= k < |log| ensures !(VotesOn(log[k], p) && log[k].signer == who) {
      assert !(Casts(log[k], p) && log[k].record.who == who);
    }
    if !p.kind.EmergencyMeasure? {
      OpenPlace(G, RootOf(FounderCharter(log)), log, p, w);
    }
  }

  /** An amendment is enacted once, under no emergency, when it was carried by the bars of the charter in force
      and is due. */
  lemma {:induction false} EnactMeans(G: Gov, log: Log, p: Proposal, now: int)
    requires p.kind.Amendment? && RefusalOf(G, log, Enact(p), now).None?
    ensures !Covered(G, log, now, None) && EffectiveCharter(G, log).Some?
    ensures forall k :: 0 <= k < |log| ==>
              !(log[k].record.Implemented? && log[k].record.proposal == p && log[k].signer == G.station)
    ensures exists w ::
              && OpenedBy(G, log, p, w) && now > w.votingEndsAt && now >= w.implementationAt
              && |Endorsing(G, FounderCharter(log), log, p, w)|
                 >= G.st.endorsements(Seen(log, w.position), FoundersOf(FounderCharter(log)), w.at)
              && VoteMeets(G, FounderCharter(log), log, p, w.position, Place(w.position, w.at), EffectiveCharter(G, log).value,
                           EffectiveCharter(G, log).value.rules.amendmentQuorumPct,
                           EffectiveCharter(G, log).value.rules.amendmentApprovalPct)
  {
    hide FounderCharter, Covered, ActiveNow, Authorized, Published, VoteMeets, EffectiveCharter, OpenedBy, Endorsing, Passed, Seen;
    var root := FounderCharter(log);
    CoveredIff(G, log, now, None);
    EnactAllowed(G, log, p, now);
    var w := Authorized(G, RootOf(root), log, p).value;
    AmendmentPasses(G, root, log, p, now, EffectiveCharter(G, log).value);
    AuthorizedMeans(G, root, log, p, w);
    PublishedMeans(G, root, log, p, w);
    forall k | 0 <= k < |log|
      ensures !(log[k].record.Implemented? && log[k].record.proposal == p && log[k].signer == G.station)
    {
      assert !Enacts(G, log[k], p);
    }
  }
}
