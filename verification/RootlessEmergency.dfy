/** A worked emergency: one member's declaration takes force at once. On a log with no charter the charter
    door is then open, and with one it is open in the very second of activation
    (crates/rrn-governance/src/emergency.rs, crates/rrn-governance/src/charter.rs). */
module RootlessEmergency {
  import opened Basics
  import opened Sorting
  import opened GovLog
  import opened EmergencyChain
  import opened EmergencyTimeline
  import opened FrontDoors
  import opened EmergencyAgreement
  import opened EmergencyRuns
  import opened Freeze

  /** One member, who counts as the whole electorate; the station's key is 0. */
  function Alone(): Gov {
    Gov(Standing((_: Log, _: seq<Address>, _: int, who: Address) => who == 1,
                 (_: Log, _: seq<Address>, _: int) => 1,
                 (_: Log, _: seq<Address>, _: int) => 0), 0)
  }

  function Alarm(): Declaration {
    Declaration(0, 1, 0, 0, DAY, 0, None, 0)
  }

  const ALARM: Hash := OfDeclaration(Alarm())

  /** Only charters, all published at instant 0, for the alarm's community or none. */
  predicate Bare(base: Log) {
    && (forall k :: 0 <= k < |base| ==> base[k].record.PublishCharter? && base[k].at == 0)
    && SameCommunity(RootNow(base), Alarm()) && RootNow(base).declarationPct <= 100
  }

  function Declared(base: Log): Log {
    Anchored(Alone(), base, Alarm(), 1, 0)
  }

  function InForce(base: Log): Log {
    Append(Declared(base), Activated(ALARM, 0, DAY, 0), 0, 0)
  }

  lemma {:induction false} Shape(base: Log)
    requires Bare(base)
    ensures InForce(base) == base + [Entry(Declare(Alarm()), 1, 0), Entry(Admitted(ALARM, 0), 0, 0),
                                     Entry(Activated(ALARM, 0, DAY, 0), 0, 0)]
    ensures Declared(base) == base + [Entry(Declare(Alarm()), 1, 0), Entry(Admitted(ALARM, 0), 0, 0)]
    ensures InForce(base)[..|base|] == base && InForce(base)[..|base| + 2] == Declared(base)
    ensures AdmissionInstant(base, 0) == AdmissionInstant(Declared(base), 0) == 0
    ensures forall now :: AdmissionInstant(InForce(base), now) == Max(now, 0)
  {
    hide RootNow;
  }

  lemma {:induction false} RootKept(base: Log)
    requires Bare(base)
    ensures RootNow(Declared(base)) == RootNow(base)
    ensures FounderCharter(InForce(base)) == FounderCharter(base)
  {
    hide FounderCharterTo, RootOf;
    Shape(base);
    RootUnchanged(base, Declared(base)) by { assert Declared(base)[..|base|] == base; }
    RootUnchanged(base, InForce(base));
  }

  // --- What the log says of the alarm -----------------------------------------

  /** Nothing before the declaration bears on it, and nobody co-signs or moves to lift it. */
  lemma {:induction false} Quiet(base: Log, root: Root, n: nat)
    requires Bare(base) && n <= |InForce(base)|
    ensures n <= |base| ==> DeclarationTo(InForce(base), ALARM, n).None?
    ensures n <= |base| + 1 ==> AnchorTo(Alone(), InForce(base), ALARM, n).None?
    ensures n <= |base| + 1 ==> DeriveTo(Alone(), root, InForce(base), n) == Derivation([], {}, map[])
    ensures Cosigners(InForce(base), ALARM, n) == []
    ensures LapseCandidates(InForce(base), ALARM, LapseTargets(InForce(base), ALARM), n) == []
  {
    hide LapseTargets, RootNow;
    if n > 0 {
      Shape(base);
      Quiet(base, root, n - 1);
      assert n <= |base| ==> InForce(base)[n - 1] == base[n - 1];
    }
  }

  lemma {:induction false} Read(base: Log, root: Root)
    requires Bare(base)
    ensures (var log := Declared(base);
             && FindDeclaration(log, ALARM) == Some(|base| + 1)
             && AnchorTo(Alone(), log, ALARM, |log|) == Some(0)
             && Derive(Alone(), root, log) == Derivation([], {}, map[ALARM := 0])
             && Cosigners(log, ALARM, |log|) == [])
  {
    hide RootNow;
    var log, all, n := Declared(base), InForce(base), |base|;
    Shape(base);
    Quiet(base, root, n);
    Quiet(base, root, n + 1);
    Quiet(base, root, n + 2);
    DeclarationLocal(log, all, ALARM, n);
    assert Declares(log[n], ALARM);
    DeclarationStays(log, ALARM, n + 1, n + 2);
    CosignersLocal(log, all, ALARM, n + 2);
    AnchorsAt(log, all, n + 1);
    DerivesAlike(root, log, all, n + 1);
  }

  lemma {:induction false} AnchorsAt(log: Log, all: Log, n: nat)
    requires IsPrefix(log, all) && n <= |log|
    ensures AnchorTo(Alone(), log, ALARM, n) == AnchorTo(Alone(), all, ALARM, n)
  {
    if n > 0 {
      PrefixAt(log, all, n - 1);
      AnchorsAt(log, all, n - 1);
    }
  }

  /** Before any decision a derivation reads the entries alone. */
  lemma {:induction false} DerivesAlike(root: Root, log: Log, all: Log, n: nat)
    requires IsPrefix(log, all) && n <= |log| && forall k :: 0 <= k < n ==> !log[k].record.Refused? && !log[k].record.Activated?
    ensures DeriveTo(Alone(), root, log, n) == DeriveTo(Alone(), root, all, n)
  {
    if n > 0 {
      PrefixAt(log, all, n - 1);
      DerivesAlike(root, log, all, n - 1);
    }
  }

  /** The lone member's own declaration crosses. */
  lemma {:induction false} Crosses(base: Log, pin: Pin)
    requires Bare(base)
    ensures EligibleSigs(Alone(), RootNow(base), pin, Declared(base), ALARM, 1, |base| + 1) == [Sig(|base| + 1, 1)]
    ensures ThresholdAt(Alone(), RootNow(base), pin) == 1
  {
    hide FounderCharter, Cosigners;
    Read(base, RootNow(base));
    var own := [Sig(|base| + 1, 1)];
    assert own + [] == own && own[1..] == [];
    assert SortBy(own, ByPosition()) == InsertBy(own[0], SortBy([], ByPosition()), ByPosition());
  }

  /** And the station activates it. */
  lemma {:induction false} Activates(base: Log)
    requires Bare(base)
    ensures Marker(Alone(), RootNow(base), Declared(base), ALARM, |base| + 1, 0) == Some(Activated(ALARM, 0, DAY, 0))
    ensures Step(Alone(), base, Raise(Alarm(), 1), 0) == InForce(base)
  {
    hide EligibleSigs, ThresholdAt, Derive, FindDeclaration, AnchorTo, FounderCharter, NextPin, RootOf;
    Shape(base);
    RootKept(base);
    Crosses(base, NextPin(Declared(base), 0));
    Read(base, RootNow(base));
    assert Spans([]) == [];
    Undeclared(base);
  }

  lemma {:induction false} Undeclared(base: Log)
    requires Bare(base)
    ensures FindDeclaration(base, ALARM).None?
  {
    hide RootNow;
    Shape(base);
    Quiet(base, RootOf(None), |base|);
    DeclarationLocal(base, InForce(base), ALARM, |base|);
  }

  lemma {:induction false} Founding(base: Log)
    requires Bare(base)
    ensures Faithful(Alone(), RootNow(base), Declared(base))
  {
    hide Faithful, FounderCharter;
    Shape(base);
    FoundingFaithful(Alone(), RootNow(base), base);
    AnchoredFaithful(Alone(), base, Alarm(), 1, 0);
  }

  /** The timeline is the one emergency, from instant 0 for a day, unlifted. */
  lemma {:induction false} Timeline(base: Log)
    requires Bare(base)
    ensures (var timeline := Derive(Alone(), RootNow(base), InForce(base)).timeline;
             && |timeline| == 1 && timeline[0].start == 0 && timeline[0].expiry == DAY && timeline[0].lapsed.None?)
  {
    hide Marker, CrossingReached, ThresholdAt, ChainDecision, FindDeclaration, PinAt, FounderCharter, Faithful, LapseCandidates;
    var log, root := InForce(base), RootNow(base);
    Shape(base);
    Activates(base);
    Founding(base);
    Read(base, root);
    FaithfulPlace(base);
    MarkerStands(Alone(), root, Declared(base), ALARM, |base| + 1, 0);
    DeriveAlike(Alone(), root, Declared(base), log, |base| + 2);
    var D := DeriveTo(Alone(), root, log, |base| + 2);
    NewGenuine(Alone(), root, log, D, |base| + 2, ALARM, 0, DAY, 0);
    var pin := PinAt(log, |base| + 3, 0);
    Crosses(base, pin);
    Quiet(base, root, |log|);
    assert LapseBoundary(Alone(), root, pin, log, ALARM, 1).None?;
  }

  lemma {:induction false} FaithfulPlace(base: Log)
    requires Bare(base)
    ensures Placed(Alone(), Declared(base)) && Native(RootNow(base), Declared(base))
  {
    hide Placed, FounderCharter;
    Founding(base);
  }

  // --- Without a root ---------------------------------------------------------

  lemma {:induction false} EmptyIsBare()
    ensures Bare([])
  {
  }

  /** The first authorized charter on a log is the root. */
  lemma {:induction false} FirstRoot(log: Log, e: Entry)
    requires FounderCharter(log).None? && PublishesRoot(e)
    ensures FounderCharter(log + [e]) == Some(e.record.charter)
  {
    hide FounderAuthorized;
    var log' := log + [e];
    assert log'[..|log|] == log;
    FounderCharterLocal(log, log', |log|);
  }

  /** One declaration on the empty log puts an emergency in force with no root; a first founder charter
      admitted while it holds is not refused, and becomes the root. So the freeze needs a root. */
  lemma {:induction false} RootlessNotFrozen(charter: Charter, signers: set<Address>)
    requires FounderAuthorized(charter, signers)
    ensures Step(Alone(), [], Raise(Alarm(), 1), 0) == InForce([])
    ensures Holds(Alone(), RootNow(InForce([])), InForce([]), 0, AdmissionInstant(InForce([]), 1))
    ensures FounderCharter(InForce([])).None?
    ensures RefusalOf(Alone(), InForce([]), Publish(charter, signers, false), 1).None?
    ensures FounderCharter(Step(Alone(), InForce([]), Publish(charter, signers, false), 1)) == Some(charter)
  {
    hide Derive, Marker, FounderAuthorized, RootOf;
    EmptyIsBare();
    Shape([]);
    RootKept([]);
    Activates([]);
    Timeline([]);
    FirstRoot(InForce([]), Stamp(InForce([]), PublishCharter(charter, signers), 0, 1));
  }

  // --- In the second of activation --------------------------------------------

  /** A charter of the alarm's community, signed by its one founder. */
  function Founding1(version: nat): Charter {
    Charter(version, None, 0, [1], 67, 2, Rules(50, 50, 7, 7, 67, 86_400, 50, 50, 75, 30), 0)
  }

  function Rooted(): Log {
    [Entry(PublishCharter(Founding1(1), {1}), 0, 0)]
  }

  lemma {:induction false} FounderSigned(version: nat)
    ensures FounderAuthorized(Founding1(version), {1})
  {
    assert Founders(Founding1(version)) == {1};
    assert {1} * Founders(Founding1(version)) == {1};
  }

  lemma {:induction false} RootedIsBare()
    ensures Bare(Rooted()) && FounderCharter(Rooted()) == Some(Founding1(1))
  {
    hide FounderAuthorized;
    FounderSigned(1);
    assert FounderCharterTo(Rooted(), 0).None?;
  }

  /** With a root, a founder charter of the next version admitted in the very second an emergency takes
      force is not refused, and replaces the root; one second later it is refused. */
  lemma {:induction false} SameSecondNotFrozen()
    ensures Step(Alone(), Rooted(), Raise(Alarm(), 1), 0) == InForce(Rooted())
    ensures RefusalOf(Alone(), InForce(Rooted()), Publish(Founding1(2), {1}, false), 0).None?
    ensures FounderCharter(InForce(Rooted())) == Some(Founding1(1))
    ensures FounderCharter(Step(Alone(), InForce(Rooted()), Publish(Founding1(2), {1}, false), 0)) == Some(Founding1(2))
    ensures RefusalOf(Alone(), InForce(Rooted()), Publish(Founding1(2), {1}, false), 1) == Some(FrozenByEmergency)
  {
    hide Derive, Marker, FounderAuthorized, RootOf;
    RootedIsBare();
    Shape(Rooted());
    RootKept(Rooted());
    Activates(Rooted());
    Timeline(Rooted());
    FounderSigned(2);
    NextRoot(InForce(Rooted()), Stamp(InForce(Rooted()), PublishCharter(Founding1(2), {1}), 0, 0));
  }

  lemma {:induction false} NextRoot(log: Log, e: Entry)
    requires FounderCharter(log).Some? && PublishesRoot(e) && e.record.charter.version >= FounderCharter(log).value.version
    ensures FounderCharter(log + [e]) == Some(e.record.charter)
  {
    hide FounderAuthorized;
    var log' := log + [e];
    assert log'[..|log|] == log;
    FounderCharterLocal(log, log', |log|);
  }
}
