/** Enacted amendments are settled, and the effective charter is constant under an emergency
    (crates/rrn-governance/src/tally.rs and vote.rs). */
module FrozenCharter {
  import opened Basics
  import opened GovLog
  import opened Proposals
  import opened CharterFold
  import opened FrontDoors
  import opened EmergencyAgreement
  import opened EmergencyRuns
  import opened Freeze

  // --- A settled amendment stays counted as it was ----------------------------

  /** An amendment whose vote is over: authorized, published, and the log already past its window. */
  predicate Settled(G: Gov, root: Root, log: Log, p: Proposal) {
    var w := Authorized(G, root, log, p);
    && p.kind.Amendment? && w.Some? && Published(G, root, log, p, w.value)
    && log != [] && log[|log| - 1].at > w.value.votingEndsAt
  }

  lemma {:induction false} WindowStays(G: Gov, log: Log, log': Log, p: Proposal, n: nat)
    requires IsPrefix(log, log') && n <= |log|
    ensures WindowTo(G, log', p, n) == WindowTo(G, log, p, n)
  {
    if n > 0 {
      PrefixAt(log, log', n - 1);
      WindowStays(G, log, log', p, n - 1);
    }
  }

  lemma {:induction false} WindowKept(G: Gov, log: Log, p: Proposal, m: nat, n: nat)
    requires m <= n <= |log| && WindowTo(G, log, p, m).Some?
    ensures WindowTo(G, log, p, n) == WindowTo(G, log, p, m)
    decreases n
  {
    if m < n {
      WindowKept(G, log, p, m, n - 1);
    }
  }

  /** An authorized record is authorized, with the same window, on every extension read by the same
      root. */
  lemma {:induction false} AuthorizedStays(G: Gov, root: Root, log: Log, log': Log, p: Proposal)
    requires IsPrefix(log, log') && Authorized(G, root, log, p).Some?
    ensures Authorized(G, root, log', p) == Authorized(G, root, log, p)
    ensures OpenPin(log', Authorized(G, root, log, p).value) == OpenPin(log, Authorized(G, root, log, p).value)
  {
    hide WindowTo, EvidenceOf;
    WindowStays(G, log, log', p, |log|);
    WindowKept(G, log', p, |log|, |log'|);
    var w := Authorized(G, root, log, p).value;
    PinPrefix(log, log', w.position, w.at);
    var k :| 0 <= k < |log| && Proposes(log[k], p);
    PrefixAt(log, log', k);
    assert Proposes(log'[k], p);
  }

  lemma {:induction false} EndorsersGrow(G: Gov, root: Root, log: Log, log': Log, p: Proposal, pin: Pin)
    requires IsPrefix(log, log')
    ensures Endorsers(G, root, log, p, pin, |log|) <= Endorsers(G, root, log', p, pin, |log'|)
  {
    forall k | 0 <= k < |log| ensures log'[k] == log[k] {
      PrefixAt(log, log', k);
    }
  }

  lemma {:induction false} PublishedStays(G: Gov, root: Root, log: Log, log': Log, p: Proposal)
    requires IsPrefix(log, log') && Authorized(G, root, log, p).Some?
    requires Published(G, root, log, p, Authorized(G, root, log, p).value)
    ensures Published(G, root, log', p, Authorized(G, root, log, p).value)
  {
    hide Authorized, Endorsers, PinAt;
    AuthorizedStays(G, root, log, log', p);
    var pin := OpenPin(log, Authorized(G, root, log, p).value);
    EndorsersGrow(G, root, log, log', p, pin);
    EmergencyChain.SubsetSize(Endorsers(G, root, log, p, pin, |log|), Endorsers(G, root, log', p, pin, |log'|));
  }

  lemma {:induction false} VotesLocal(G: Gov, root: Root, log: Log, log': Log, p: Proposal, pin: Pin, after: nat, n: nat)
    requires IsPrefix(log, log') && n <= |log|
    ensures VotesTo(G, root, log', p, pin, after, n) == VotesTo(G, root, log, p, pin, after, n)
  {
    if n > after {
      PrefixAt(log, log', n - 1);
      VotesLocal(G, root, log, log', p, pin, after, n - 1);
    }
  }

  lemma {:induction false} VotesQuiet(G: Gov, root: Root, log: Log, p: Proposal, pin: Pin, after: nat, m: nat, n: nat)
    requires m <= n <= |log| && forall k :: m <= k < n ==> !Casts(log[k], p)
    ensures VotesTo(G, root, log, p, pin, after, n) == VotesTo(G, root, log, p, pin, after, m)
    decreases n
  {
    if m < n {
      VotesQuiet(G, root, log, p, pin, after, m, n - 1);
    }
  }

  /** With no further ballot, a published amendment counts the same against every charter on every
      extension. */
  lemma {:induction false} CountStays(G: Gov, root: Root, log: Log, log': Log, p: Proposal, charter: Charter)
    requires IsPrefix(log, log') && p.kind.Amendment? && Authorized(G, root, log, p).Some?
    requires Published(G, root, log, p, Authorized(G, root, log, p).value)
    requires forall k :: |log| <= k < |log'| ==> !Casts(log'[k], p)
    ensures Authorized(G, root, log', p) == Authorized(G, root, log, p)
    ensures CountAgainst(G, root, log', p, charter) == CountAgainst(G, root, log, p, charter)
  {
    hide Authorized, Published, OpenPin, VotesTo, Casts, TallyOf, Thresholds;
    AuthorizedStays(G, root, log, log', p);
    PublishedStays(G, root, log, log', p);
    var w := Authorized(G, root, log, p).value;
    VotesLocal(G, root, log, log', p, OpenPin(log, w), w.position, |log|);
    VotesQuiet(G, root, log', p, OpenPin(log, w), w.position, |log|, |log'|);
  }

  lemma {:induction false} SettledStays(G: Gov, root: Root, log: Log, log': Log, p: Proposal)
    requires IsPrefix(log, log') && Settled(G, root, log, p) && Clocked(log')
    ensures Settled(G, root, log', p)
  {
    hide Authorized, Published;
    AuthorizedStays(G, root, log, log', p);
    PublishedStays(G, root, log, log', p);
    PrefixAt(log, log', |log| - 1);
  }

  /** The log is past the end of the voting window attested for `p`, whatever kind of proposal it is. */
  predicate VotingOver(G: Gov, log: Log, p: Proposal) {
    var w := WindowTo(G, log, p, |log|);
    w.Some? && log != [] && log[|log| - 1].at > w.value.votingEndsAt
  }

  /** Then the ballot door is closed to it, under any root. */
  lemma {:induction false} BallotsClosed(G: Gov, log: Log, p: Proposal, act: Act, now: int)
    requires VotingOver(G, log, p)
    ensures (var log' := Step(G, log, act, now); forall k :: |log| <= k < |log'| ==> !Casts(log'[k], p))
  {
    hide VotingOver, Step, RefusalOf, WrittenFor;
    StepWrites(G, log, act, now);
    var log' := Step(G, log, act, now);
    forall k | |log| <= k < |log'| ensures !Casts(log'[k], p) {
      if Casts(log'[k], p) {
        CastWritten(act, log'[k].record);
        CastClosed(G, log, p, act.who, act.choice, act.signer, now);
      }
    }
  }

  lemma {:induction false} VotingStaysOver(G: Gov, log: Log, log': Log, p: Proposal)
    requires IsPrefix(log, log') && VotingOver(G, log, p) && Clocked(log')
    ensures VotingOver(G, log', p)
  {
    WindowStays(G, log, log', p, |log|);
    WindowKept(G, log', p, |log|, |log'|);
    PrefixAt(log, log', |log| - 1);
  }

  /** So no run adds a ballot to a proposal whose window is over, whatever becomes of the root. */
  lemma {:induction false} NoMoreBallots(G: Gov, log: Log, acts: seq<Timed>, p: Proposal)
    requires Placed(G, log) && VotingOver(G, log, p)
    ensures (var log' := Run(G, log, acts); forall k :: |log| <= k < |log'| ==> !Casts(log'[k], p))
  {
    hide Placed, VotingOver, Step, Casts;
    if acts != [] {
      var n := |acts| - 1;
      NoMoreBallots(G, log, acts[..n], p);
      RunPlaced(G, log, acts[..n]);
      var before := Run(G, log, acts[..n]);
      ClockOf(G, before);
      VotingStaysOver(G, log, before, p);
      BallotsClosed(G, before, p, acts[n].act, acts[n].now);
      StepWrites(G, before, acts[n].act, acts[n].now);
      forall k | |log| <= k < |before| ensures !Casts(Step(G, before, acts[n].act, acts[n].now)[k], p) {
        PrefixAt(before, Step(G, before, acts[n].act, acts[n].now), k);
      }
    }
  }

  lemma {:induction false} CastWritten(act: Act, record: Record)
    requires WrittenFor(act, record) && record.Vote?
    ensures act.Cast? && record == Vote(act.p, act.who, act.choice)
  {
  }

  lemma {:induction false} CastClosed(G: Gov, log: Log, p: Proposal, who: Address, choice: Choice, signer: Address, now: int)
    requires VotingOver(G, log, p)
    ensures RefusalOf(G, log, Cast(p, who, choice, signer), now).Some?
  {
    hide WindowTo, Published, FounderCharter, PinAt;
  }

  lemma {:induction false} SettledIsOver(G: Gov, root: Root, log: Log, p: Proposal)
    requires Settled(G, root, log, p)
    ensures VotingOver(G, log, p)
  {
    hide WindowTo, Published, PinAt;
  }

  // --- Enacted amendments are settled -----------------------------------------

  predicate AllSettled(G: Gov, root: Root, log: Log) {
    forall p :: p in EnactedAmendments(G, log) ==> Settled(G, root, log, p)
  }

  /** The enactment door admits only settled amendments. */
  lemma {:induction false} EnactmentSettles(G: Gov, log: Log, p: Proposal, now: int)
    requires EnactRefusal(G, log, p, now).None? && p.kind.Amendment?
    ensures Settled(G, RootNow(log), Step(G, log, Enact(p), now), p)
  {
    hide Authorized, Published, VotesTo, EffectiveCharter, EnactedBy, ActiveNow, FounderCharter;
    var root, log' := RootNow(log), Step(G, log, Enact(p), now);
    assert log'[..|log|] == log;
    PassedPublished(G, root, log, p, now, EffectiveCharter(G, log).value);
    AuthorizedStays(G, root, log, log', p);
    PublishedStays(G, root, log, log', p);
  }

  lemma {:induction false} NoVoters()
    ensures forall c :: Casting(map[], c) == {}
  {
  }

  /** Nothing passes unpublished: with no ballots counted there is nothing decisive. */
  lemma {:induction false} PassedPublished(G: Gov, root: Root, log: Log, p: Proposal, now: int, charter: Charter)
    requires Passed(G, root, log, p, now, charter)
    ensures Authorized(G, root, log, p).Some? && Published(G, root, log, p, Authorized(G, root, log, p).value)
  {
    hide Authorized, Published, VotesTo, ElectoratePin, GoverningEmergency;
    NoVoters();
    assert Votes(G, root, log, p) != map[];
  }

  /** A step judged by the root keeps every enacted amendment settled, and counted as it was. */
  lemma {:induction false} StepSettled(G: Gov, log: Log, act: Act, now: int)
    requires Placed(G, log) && AllSettled(G, RootNow(log), log)
    ensures AllSettled(G, RootNow(log), Step(G, log, act, now))
  {
    hide Settled, Step, Placed, FounderCharter, RefusalOf, EnactRefusal;
    var root, log' := RootNow(log), Step(G, log, act, now);
    StepPlaced(G, log, act, now);
    ClockOf(G, log');
    StepWrites(G, log, act, now);
    forall p | p in EnactedAmendments(G, log') ensures Settled(G, root, log', p) {
      if p in EnactedAmendments(G, log) {
        SettledStays(G, root, log, log', p);
      } else {
        NewlyEnacted(G, log, act, now, p);
        EnactmentSettles(G, log, p, now);
      }
    }
  }

  lemma {:induction false} ClockOf(G: Gov, log: Log)
    requires Placed(G, log)
    ensures Clocked(log)
  {
  }

  lemma {:induction false} NewlyEnacted(G: Gov, log: Log, act: Act, now: int, p: Proposal)
    requires p in EnactedAmendments(G, Step(G, log, act, now)) && p !in EnactedAmendments(G, log)
    ensures act == Enact(p) && EnactRefusal(G, log, p, now).None?
  {
    hide Step, EnactRefusal;
    var log' := Step(G, log, act, now);
    StepWrites(G, log, act, now);
    forall k | 0 <= k < |log| ensures log'[k] == log[k] {
      PrefixAt(log, log', k);
    }
    var k :| 0 <= k < |log'| && log'[k].record.Implemented? && log'[k].signer == G.station && log'[k].record.proposal == p;
    assert k >= |log|;
  }

  /** Over every run judged by one root, enacted amendments stay settled. */
  lemma {:induction false} RunSettled(G: Gov, root: Root, log: Log, acts: seq<Timed>)
    requires Placed(G, log) && AllSettled(G, root, log) && RootHeld(G, root, log, acts)
    ensures AllSettled(G, root, Run(G, log, acts))
  {
    hide Placed, AllSettled, Step, FounderCharter;
    if acts != [] {
      var n := |acts| - 1;
      RootHeldPrefix(G, root, log, acts, n);
      RunSettled(G, root, log, acts[..n]);
      RunPlaced(G, log, acts[..n]);
      StepSettled(G, Run(G, log, acts[..n]), acts[n].act, acts[n].now);
    }
  }

  /** An amendment the enactment door admits, linked to the charter in force, folds onto it exactly when
      its window left a delay between the end of voting and the due date: the fold counts it as of the
      due date, and a count is concluded only strictly after voting ends. */
  lemma {:induction false} EnactedAmendmentFolds(G: Gov, log: Log, p: Proposal, now: int)
    requires EnactRefusal(G, log, p, now).None? && p.kind.Amendment?
    requires (var current := EffectiveCharter(G, log).value;
              p.kind.newCharter.version == current.version + 1 && p.kind.newCharter.previous == Some(current))
    ensures Authorized(G, RootNow(log), log, p).Some?
    ensures (var w, current := Authorized(G, RootNow(log), log, p).value, EffectiveCharter(G, log).value;
             Advances(G, RootNow(log), Step(G, log, Enact(p), now), p, current) <==> w.implementationAt > w.votingEndsAt)
  {
    hide Authorized, Published, EffectiveCharter, EnactedBy, ActiveNow, FounderCharter, CountAgainst;
    var root, log', current := RootNow(log), Step(G, log, Enact(p), now), EffectiveCharter(G, log).value;
    assert log'[..|log|] == log;
    PassedPublished(G, root, log, p, now, current);
    CountStays(G, root, log, log', p, current);
    LastEnacts(G, log, p, now);
  }

  lemma {:induction false} LastEnacts(G: Gov, log: Log, p: Proposal, now: int)
    ensures (var log' := Append(log, Implemented(p, now), G.station, now); EnactedBy(G, log', p, |log'|))
  {
    assert Enacts(G, Append(log, Implemented(p, now), G.station, now)[|log|], p);
  }

  // --- The fold reads only enacted amendments ---------------------------------

  function In(S: set<Proposal>): Proposal -> bool {
    (p: Proposal) => p in S
  }

  /** The enacted amendments in the order the fold meets them. */
  function Enacted(G: Gov, root: Root, log: Log, S: set<Proposal>): seq<Proposal> {
    Filter(ProposalsTo(G, root, log, |log|), In(S))
  }

  lemma {:induction false} EnactedIff(G: Gov, log: Log, p: Proposal)
    requires p.kind.Amendment?
    ensures p in EnactedAmendments(G, log) <==> EnactedBy(G, log, p, |log|)
  {
    if EnactedBy(G, log, p, |log|) {
      var k :| 0 <= k < |log| && Enacts(G, log[k], p);
    }
    if p in EnactedAmendments(G, log) {
      var k :| 0 <= k < |log| && log[k].record.Implemented? && log[k].signer == G.station && log[k].record.proposal == p;
      assert Enacts(G, log[k], p);
    }
  }

  lemma {:induction false} AdvancesEnacted(G: Gov, root: Root, log: Log, a: Proposal, current: Charter)
    requires Advances(G, root, log, a, current)
    ensures a in EnactedAmendments(G, log)
  {
    hide Passed, Authorized, EnactedBy, EnactedAmendments;
    EnactedIff(G, log, a);
  }

  /** Skipping proposals that are no enacted amendment changes nothing the fold finds. */
  lemma {:induction false} NextSkips(G: Gov, root: Root, log: Log, all: seq<Proposal>, current: Charter)
    ensures NextAmendment(G, root, log, Filter(all, In(EnactedAmendments(G, log))), current)
         == NextAmendment(G, root, log, all, current)
  {
    hide Advances, EnactedAmendments;
    if all != [] {
      NextSkips(G, root, log, all[1..], current);
      if Advances(G, root, log, all[0], current) {
        AdvancesEnacted(G, root, log, all[0], current);
      }
      var S := EnactedAmendments(G, log);
      if all[0] in S {
        var rest := Filter(all[1..], In(S));
        assert Filter(all, In(S)) == [all[0]] + rest && ([all[0]] + rest)[1..] == rest;
      }
    }
  }

  lemma {:induction false} FoldSkips(G: Gov, root: Root, log: Log, all: seq<Proposal>, current: Charter)
    ensures Fold(G, root, log, Filter(all, In(EnactedAmendments(G, log))), current) == Fold(G, root, log, all, current)
    decreases Ahead(all, current.version)
  {
    hide Advances, EnactedAmendments, NextAmendment;
    NextSkips(G, root, log, all, current);
    var next := NextAmendment(G, root, log, all, current);
    if next.Some? {
      AdvancesVersion(G, root, log, next.value, current);
      AheadDrops(all, next.value, current.version);
      FoldSkips(G, root, log, all, next.value.kind.newCharter);
    }
  }

  /** Two readings agree about every amendment of `S`. */
  ghost predicate SameCounts(G: Gov, root: Root, log: Log, log': Log, S: set<Proposal>) {
    && EnactedAmendments(G, log') == EnactedAmendments(G, log) == S
    && forall p :: p in S ==>
         Authorized(G, root, log', p) == Authorized(G, root, log, p)
         && forall c :: CountAgainst(G, root, log', p, c) == CountAgainst(G, root, log, p, c)
  }

  lemma {:induction false} AdvancesSame(G: Gov, root: Root, log: Log, log': Log, S: set<Proposal>, a: Proposal, current: Charter)
    requires SameCounts(G, root, log, log', S) && a in S
    ensures Advances(G, root, log', a, current) <==> Advances(G, root, log, a, current)
  {
    hide Authorized, CountAgainst, EnactedBy, EnactedAmendments;
    if a.kind.Amendment? {
      EnactedIff(G, log, a);
      EnactedIff(G, log', a);
      assert CountAgainst(G, root, log', a, current) == CountAgainst(G, root, log, a, current);
    }
  }

  lemma {:induction false} NextSame(G: Gov, root: Root, log: Log, log': Log, S: set<Proposal>, list: seq<Proposal>, current: Charter)
    requires SameCounts(G, root, log, log', S) && forall a :: a in list ==> a in S
    ensures NextAmendment(G, root, log', list, current) == NextAmendment(G, root, log, list, current)
  {
    hide Advances, SameCounts;
    if list != [] {
      AdvancesSame(G, root, log, log', S, list[0], current);
      NextSame(G, root, log, log', S, list[1..], current);
    }
  }

  lemma {:induction false} FoldSame(G: Gov, root: Root, log: Log, log': Log, S: set<Proposal>, list: seq<Proposal>, current: Charter)
    requires SameCounts(G, root, log, log', S) && forall a :: a in list ==> a in S
    ensures Fold(G, root, log', list, current) == Fold(G, root, log, list, current)
    decreases Ahead(list, current.version)
  {
    hide Advances, SameCounts, NextAmendment;
    NextSame(G, root, log, log', S, list, current);
    var next := NextAmendment(G, root, log, list, current);
    if next.Some? {
      AdvancesVersion(G, root, log, next.value, current);
      AheadDrops(list, next.value, current.version);
      FoldSame(G, root, log, log', S, list, next.value.kind.newCharter);
    }
  }

  lemma {:induction false} FilterMembers<T>(s: seq<T>, p: T -> bool)
    ensures forall x :: x in Filter(s, p) ==> x in s && p(x)
  {
    if s != [] {
      FilterMembers(s[1..], p);
    }
  }

  lemma {:induction false} FilterOne<T>(s: seq<T>, x: T, p: T -> bool)
    ensures Filter(s + [x], p) == Filter(s, p) + (if p(x) then [x] else [])
  {
    FilterConcat(s, [x], p);
    assert [x][1..] == [];
  }

  lemma {:induction false} ProposedGrows(log: Log, log': Log, p: Proposal, n: nat)
    requires IsPrefix(log, log') && n <= |log|
    ensures ProposedBy(log', p, n) <==> ProposedBy(log, p, n)
  {
    forall k | 0 <= k < |log| ensures log'[k] == log[k] {
      PrefixAt(log, log', k);
    }
    if ProposedBy(log, p, n) {
      var k :| 0 <= k < n && Proposes(log[k], p);
      assert Proposes(log'[k], p);
    }
    if ProposedBy(log', p, n) {
      var k :| 0 <= k < n && Proposes(log'[k], p);
      assert Proposes(log[k], p);
    }
  }

  /** What the proposal list gains from one entry, seen through `S`. */
  lemma {:induction false} ListStep(G: Gov, root: Root, log: Log, S: set<Proposal>, n: nat)
    requires 0 < n <= |log|
    ensures (var before, e := Filter(ProposalsTo(G, root, log, n - 1), In(S)), log[n - 1];
             Filter(ProposalsTo(G, root, log, n), In(S))
             == if e.record.Propose? && e.record.proposal in S && Proposes(e, e.record.proposal)
                   && Authorized(G, root, log, e.record.proposal).Some? && !ProposedBy(log, e.record.proposal, n - 1)
                then before + [e.record.proposal] else before)
  {
    hide Authorized;
    var e := log[n - 1];
    if e.record.Propose? {
      FilterOne(ProposalsTo(G, root, log, n - 1), e.record.proposal, In(S));
      ProposalsToMeaning(G, root, log, n - 1, e.record.proposal);
    }
  }

  lemma {:induction false} ListSame(G: Gov, root: Root, log: Log, log': Log, S: set<Proposal>, n: nat)
    requires IsPrefix(log, log') && n <= |log|
    requires forall p :: p in S ==> Authorized(G, root, log', p).Some? && Authorized(G, root, log, p).Some?
    ensures Filter(ProposalsTo(G, root, log', n), In(S)) == Filter(ProposalsTo(G, root, log, n), In(S))
  {
    hide Authorized, ProposalsTo, Filter, ProposedBy;
    if n == 0 {
      EmptyList(G, root, log);
      EmptyList(G, root, log');
    } else {
      ListSame(G, root, log, log', S, n - 1);
      ListStep(G, root, log, S, n);
      ListStep(G, root, log', S, n);
      PrefixAt(log, log', n - 1);
      if log[n - 1].record.Propose? {
        ProposedGrows(log, log', log[n - 1].record.proposal, n - 1);
      }
    }
  }

  lemma {:induction false} EmptyList(G: Gov, root: Root, log: Log)
    ensures ProposalsTo(G, root, log, 0) == []
  {
  }

  lemma {:induction false} ListQuiet(G: Gov, root: Root, log: Log, S: set<Proposal>, m: nat, n: nat)
    requires m <= n <= |log| && forall p :: p in S ==> ProposedBy(log, p, m)
    ensures Filter(ProposalsTo(G, root, log, n), In(S)) == Filter(ProposalsTo(G, root, log, m), In(S))
    decreases n
  {
    hide Authorized, ProposalsTo, Filter;
    if m < n {
      ListQuiet(G, root, log, S, m, n - 1);
      ListStep(G, root, log, S, n);
    }
  }

  /** When root, enacted amendments and their counts agree, so does the effective charter. */
  lemma {:induction false} CharterSame(G: Gov, log: Log, log': Log)
    requires IsPrefix(log, log') && FounderCharter(log') == FounderCharter(log)
    requires AllSettled(G, RootNow(log), log)
    requires SameCounts(G, RootNow(log), log, log', EnactedAmendments(G, log))
    ensures EffectiveCharter(G, log') == EffectiveCharter(G, log)
  {
    hide Authorized, ProposalsTo, EnactedAmendments, CountAgainst, Filter, Fold, FounderCharter, ProposedBy, Published;
    var root, S := RootNow(log), EnactedAmendments(G, log);
    if FounderCharter(log).Some? {
      var all, all' := ProposalsTo(G, root, log, |log|), ProposalsTo(G, root, log', |log'|);
      ListSame(G, root, log, log', S, |log|);
      forall p | p in S ensures ProposedBy(log', p, |log|) {
        AuthorizedProposed(G, root, log, p);
        ProposedGrows(log, log', p, |log|);
      }
      ListQuiet(G, root, log', S, |log|, |log'|);
      var list := Filter(all, In(S));
      FilterMembers(all, In(S));
      assert Filter(all', In(S)) == list;
      FoldSkips(G, root, log, all, FounderCharter(log).value);
      FoldSkips(G, root, log', all', FounderCharter(log).value);
      FoldSame(G, root, log, log', S, list, FounderCharter(log).value);
    }
  }

  lemma {:induction false} AuthorizedProposed(G: Gov, root: Root, log: Log, p: Proposal)
    requires Authorized(G, root, log, p).Some?
    ensures ProposedBy(log, p, |log|)
  {
  }

  // --- The freeze over whole runs ---------------------------------------------

  /** Every act of the run is admitted while the emergency at index `i` holds. */
  predicate UnderEmergency(G: Gov, root: Root, log: Log, acts: seq<Timed>, i: nat) {
    forall j :: 0 <= j < |acts| ==>
      Holds(G, root, Run(G, log, acts[..j]), i, AdmissionInstant(Run(G, log, acts[..j]), acts[j].now))
  }

  lemma {:induction false} UnderPrefix(G: Gov, root: Root, log: Log, acts: seq<Timed>, i: nat, n: nat)
    requires UnderEmergency(G, root, log, acts, i) && n <= |acts|
    ensures UnderEmergency(G, root, log, acts[..n], i)
  {
    hide Holds, Run, AdmissionInstant;
    forall j | 0 <= j < n
      ensures Holds(G, root, Run(G, log, acts[..n][..j]), i, AdmissionInstant(Run(G, log, acts[..n][..j]), acts[..n][j].now))
    {
      assert acts[..n][..j] == acts[..j];
    }
  }

  /** No further ballot on a settled amendment over the run. */
  predicate BallotQuiet(log: Log, log': Log, S: set<Proposal>) {
    forall k, p :: |log| <= k < |log'| && p in S ==> !Casts(log'[k], p)
  }

  /** From a log with a root, no run of the doors under one emergency changes the founder root or the
      enacted amendments. */
  lemma {:induction false} RootFrozen(G: Gov, log: Log, acts: seq<Timed>, i: nat)
    requires FounderCharter(log).Some? && UnderEmergency(G, RootNow(log), log, acts, i)
    ensures FounderCharter(Run(G, log, acts)) == FounderCharter(log)
    ensures EnactedAmendments(G, Run(G, log, acts)) == EnactedAmendments(G, log)
  {
    hide FounderCharter, EnactedAmendments, Step, Holds;
    if acts != [] {
      var n := |acts| - 1;
      UnderPrefix(G, RootNow(log), log, acts, i, n);
      RootFrozen(G, log, acts[..n], i);
      assert Holds(G, RootNow(log), Run(G, log, acts[..n]), i, AdmissionInstant(Run(G, log, acts[..n]), acts[n].now));
      FrozenStep(G, Run(G, log, acts[..n]), acts[n].act, acts[n].now, i);
    }
  }

  /** Nor, when its enacted amendments are settled, the effective charter. */
  lemma {:induction false} ConstitutionFrozen(G: Gov, log: Log, acts: seq<Timed>, i: nat)
    requires Placed(G, log) && FounderCharter(log).Some? && AllSettled(G, RootNow(log), log)
    requires UnderEmergency(G, RootNow(log), log, acts, i)
    ensures EffectiveCharter(G, Run(G, log, acts)) == EffectiveCharter(G, log)
  {
    hide Placed, FounderCharter, Run, UnderEmergency, EnactedAmendments, EffectiveCharter, Settled, VotingOver, Casts;
    RootFrozen(G, log, acts, i);
    var log', S := Run(G, log, acts), EnactedAmendments(G, log);
    RunPlaced(G, log, acts);
    forall k, p | |log| <= k < |log'| && p in S ensures !Casts(log'[k], p) {
      SettledIsOver(G, RootNow(log), log, p);
      NoMoreBallots(G, log, acts, p);
    }
    SameCountsWhenQuiet(G, log, log');
    CharterSame(G, log, log');
  }

  lemma {:induction false} SameCountsWhenQuiet(G: Gov, log: Log, log': Log)
    requires IsPrefix(log, log') && AllSettled(G, RootNow(log), log)
    requires EnactedAmendments(G, log') == EnactedAmendments(G, log) && BallotQuiet(log, log', EnactedAmendments(G, log))
    ensures SameCounts(G, RootNow(log), log, log', EnactedAmendments(G, log))
  {
    hide Authorized, CountAgainst, EnactedAmendments, Casts, FounderCharter, Published;
    var root, S := RootNow(log), EnactedAmendments(G, log);
    forall p, c | p in S
      ensures Authorized(G, root, log', p) == Authorized(G, root, log, p)
      ensures CountAgainst(G, root, log', p, c) == CountAgainst(G, root, log, p, c)
    {
      CountStays(G, root, log, log', p, c);
    }
    forall p | p in S ensures Authorized(G, root, log', p) == Authorized(G, root, log, p) {
      var c: Charter :| true;
      CountStays(G, root, log, log', p, c);
    }
  }
}
