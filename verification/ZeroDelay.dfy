/** A worked amendment: put, carried and enacted under a charter whose implementation delay is no days,
    and without effect (crates/rrn-governance/src/tally.rs). */
module ZeroDelay {
  import opened Basics
  import opened GovLog
  import opened EmergencyChain
  import opened EmergencyTimeline
  import opened Proposals
  import opened CharterFold
  import opened FrontDoors
  import opened FrozenCharter
  import opened Enactment
  import opened RootlessEmergency

  /** A charter with member 1 as its founder: amendments are voted on for a day and due at once. */
  function Hasty(version: nat, previous: Option<Charter>): Charter {
    Charter(version, previous, 0, [1], 67, 2, Rules(50, 50, 7, 0, 67, 86_400, 50, 50, 75, 1), 0)
  }

  function First(): Charter {
    Hasty(1, None)
  }

  function Motion1(): Proposal {
    Proposal(1, Amendment(Hasty(2, Some(First()))), true, 0)
  }

  function Founded(): Log {
    [Entry(PublishCharter(First(), {1}), 0, 0)]
  }

  function PutLog(): Log {
    Founded() + [Entry(Propose(Motion1()), 1, 0), Entry(Window(Motion1(), 0, DAY, DAY), 0, 0)]
  }

  function VotedLog(): Log {
    PutLog() + [Entry(Vote(Motion1(), 1, Yes), 1, 0)]
  }

  function EnactedLog(): Log {
    VotedLog() + [Entry(Implemented(Motion1(), DAY + 1), 0, DAY + 1)]
  }

  /** No emergency was ever declared. */
  predicate Calm(log: Log) {
    forall k :: 0 <= k < |log| ==> !IsMarker(log[k])
  }

  lemma {:induction false} NothingDerived(root: Root, log: Log, n: nat)
    requires Calm(log) && n <= |log|
    ensures DeriveTo(Alone(), root, log, n) == Derivation([], {}, map[])
  {
    if n > 0 {
      NothingDerived(root, log, n - 1);
    }
  }

  lemma {:induction false} NoEmergency(log: Log, now: int, position: Option<nat>)
    requires Calm(log)
    ensures ActiveNow(Alone(), log, now, position).None?
  {
    hide FounderCharter, DeriveTo;
    NothingDerived(RootNow(log), log, |log|);
  }

  lemma {:induction false} SameRoot(log: Log)
    requires IsPrefix(Founded(), log) && forall k :: 1 <= k < |log| ==> !log[k].record.PublishCharter?
    ensures FounderCharter(log) == Some(First())
  {
    assert Founders(First()) == {1} && {1} * Founders(First()) == {1};
    assert FounderCharterTo(Founded(), 0).None?;
    RootUnchanged(Founded(), log);
  }

  lemma {:induction false} PublishAdmitted()
    ensures Step(Alone(), [], Publish(First(), {1}, false), 0) == Founded()
  {
    hide Derive;
    assert Founders(First()) == {1} && {1} * Founders(First()) == {1};
  }

  lemma {:induction false} PutAdmitted()
    ensures Step(Alone(), Founded(), Put(Motion1(), 1, First().rules), 0) == PutLog()
  {
    hide FounderCharter, ActiveNow;
    NoEmergency(Founded(), 0, Some(2));
    assert !ProposedBy(Founded(), Motion1(), 1);
  }

  const OPENING: Opening := Opening(3, 0, DAY, DAY)

  lemma {:induction false} OpenedAtOnce(root: Root)
    ensures Authorized(Alone(), root, PutLog(), Motion1()) == Some(OPENING)
    ensures Published(Alone(), root, PutLog(), Motion1(), OPENING)
  {
    hide EvidenceOf;
    assert Proposes(PutLog()[1], Motion1());
    assert WindowTo(Alone(), PutLog(), Motion1(), 1).None?;
    assert WindowTo(Alone(), PutLog(), Motion1(), 2).None?;
  }

  lemma {:induction false} Opened(root: Root, log: Log)
    requires IsPrefix(PutLog(), log)
    ensures Authorized(Alone(), root, log, Motion1()) == Some(OPENING)
    ensures Published(Alone(), root, log, Motion1(), OPENING)
  {
    hide Authorized, Published, PutLog;
    OpenedAtOnce(root);
    AuthorizedStays(Alone(), root, PutLog(), log, Motion1());
    PublishedStays(Alone(), root, PutLog(), log, Motion1());
  }

  lemma {:induction false} VoteAdmitted()
    ensures Step(Alone(), PutLog(), Cast(Motion1(), 1, Yes, 1), 0) == VotedLog()
  {
    hide FounderCharter, Authorized, Published, PinAt;
    var root := RootNow(PutLog());
    assert PutLog()[..3] == PutLog();
    Opened(root, PutLog());
    assert VotesTo(Alone(), root, PutLog(), Motion1(), OpenPin(PutLog(), OPENING), 3, 3) == map[];
  }

  /** One vote of one member: quorum and approval are met against the founding charter. */
  lemma {:induction false} Carried(root: Root, now: int)
    requires now > DAY
    ensures Passed(Alone(), root, VotedLog(), Motion1(), now, First())
  {
    hide Authorized, Published, PinAt;
    var log := VotedLog();
    assert log[..3] == PutLog();
    Opened(root, log);
    var pin := OpenPin(log, OPENING);
    assert VotesTo(Alone(), root, log, Motion1(), pin, 3, 3) == map[];
    assert Proposals.Votes(Alone(), root, log, Motion1()) == map[1 := Yes];
    assert Casting(map[1 := Yes], Yes) == {1};
    assert Casting(map[1 := Yes], No) == {};
    assert Casting(map[1 := Yes], Abstain) == {};
  }

  lemma {:induction false} StillFirst()
    ensures FounderCharter(VotedLog()) == Some(First()) && EffectiveCharter(Alone(), VotedLog()) == Some(First())
  {
    hide FounderCharterTo, Advances, ProposalsTo;
    var log := VotedLog();
    assert log[..1] == Founded();
    SameRoot(log);
    var all := ProposalsTo(Alone(), RootNow(log), log, |log|);
    if NextAmendment(Alone(), RootNow(log), log, all, First()).Some? {
      AdvancesEnacted(Alone(), RootNow(log), log, NextAmendment(Alone(), RootNow(log), log, all, First()).value, First());
    }
  }

  lemma {:induction false} EnactAdmitted()
    ensures EnactRefusal(Alone(), VotedLog(), Motion1(), DAY + 1).None?
    ensures Step(Alone(), VotedLog(), Enact(Motion1()), DAY + 1) == EnactedLog()
  {
    hide FounderCharter, Authorized, Passed, EffectiveCharter, ActiveNow;
    var log, root := VotedLog(), RootNow(VotedLog());
    assert log[..3] == PutLog();
    NoEmergency(log, DAY + 1, None);
    Opened(root, log);
    Carried(root, DAY + 1);
    StillFirst();
    assert !EnactedBy(Alone(), log, Motion1(), 4);
  }

  /** Four acts, each admitted: a founder charter, an amendment to it, the one member's vote for it, and
      its enactment the second after voting ended. The enactment is on the log, and the effective
      charter is still the founder charter. */
  lemma {:induction false} EnactedWithoutEffect()
    ensures Step(Alone(), [], Publish(First(), {1}, false), 0) == Founded()
    ensures Step(Alone(), Founded(), Put(Motion1(), 1, First().rules), 0) == PutLog()
    ensures Step(Alone(), PutLog(), Cast(Motion1(), 1, Yes, 1), 0) == VotedLog()
    ensures Step(Alone(), VotedLog(), Enact(Motion1()), DAY + 1) == EnactedLog()
    ensures EnactedBy(Alone(), EnactedLog(), Motion1(), |EnactedLog()|)
    ensures EffectiveCharter(Alone(), VotedLog()) == EffectiveCharter(Alone(), EnactedLog()) == Some(First())
  {
    hide FounderCharter, Authorized, Step, EffectiveCharter, RootOf, EnactRefusal;
    PublishAdmitted();
    PutAdmitted();
    VoteAdmitted();
    EnactAdmitted();
    StillFirst();
    LastEnacts(Alone(), VotedLog(), Motion1(), DAY + 1);
    assert VotedLog()[..3] == PutLog();
    Opened(RootNow(VotedLog()), VotedLog());
    EnactmentTakesEffectIff(Alone(), VotedLog(), Motion1(), DAY + 1);
  }
}
