/** When an enacted amendment takes effect (crates/rrn-governance/src/tally.rs and statute.rs). */
module Enactment {
  import opened Basics
  import opened GovLog
  import opened EmergencyTimeline
  import opened Proposals
  import opened CharterFold
  import opened FrontDoors
  import opened EmergencyRuns
  import opened Freeze
  import opened FrozenCharter

  /** `p` is the next step after the charter in force: one version up and linked to it. */
  predicate Linked(G: Gov, log: Log, p: Proposal) {
    && p.kind.Amendment? && EffectiveCharter(G, log).Some?
    && p.kind.newCharter.version == EffectiveCharter(G, log).value.version + 1
    && p.kind.newCharter.previous == EffectiveCharter(G, log)
  }

  // --- The fold after an enactment ---------------------------------------------

  lemma {:induction false} FilterTwice<T>(s: seq<T>, p: T -> bool, q: T -> bool)
    requires forall x :: p(x) ==> q(x)
    ensures Filter(Filter(s, q), p) == Filter(s, p)
  {
    if s != [] {
      FilterTwice(s[1..], p, q);
      if q(s[0]) {
        var rest := Filter(s[1..], q);
        assert ([s[0]] + rest)[1..] == rest;
      }
    }
  }

  /** `log'` reads every amendment of `list` but `p` as `log` does, and `p` only against `target`. */
  ghost predicate DiffersAt(
    G: Gov, root: Root, log: Log, log': Log, list: seq<Proposal>, p: Proposal, target: Charter)
  {
    && (forall c :: !Advances(G, root, log, p, c))
    && (forall c :: Advances(G, root, log', p, c) ==> c == target)
    && (forall a, c :: a in list && a != p ==> (Advances(G, root, log', a, c) <==> Advances(G, root, log, a, c)))
  }

  lemma {:induction false} NextDiffers(
    G: Gov, root: Root, log: Log, log': Log, list: seq<Proposal>, p: Proposal, target: Charter, current: Charter)
    requires DiffersAt(G, root, log, log', list, p, target) && current != target
    ensures NextAmendment(G, root, log', list, current) == NextAmendment(G, root, log, list, current)
  {
    hide Advances;
    if list != [] {
      assert DiffersAt(G, root, log, log', list[1..], p, target);
      NextDiffers(G, root, log, log', list[1..], p, target, current);
      assert list[0] in list;
    }
  }

  /** The two folds go the same way until they reach the charter `p` amends. */
  lemma {:induction false} FoldUpTo(
    G: Gov, root: Root, log: Log, log': Log, list: seq<Proposal>, p: Proposal, target: Charter, current: Charter)
    requires DiffersAt(G, root, log, log', list, p, target) && Fold(G, root, log, list, current) == target
    ensures Fold(G, root, log', list, current) == Fold(G, root, log', list, target)
    decreases Ahead(list, current.version)
  {
    hide Advances, DiffersAt, NextAmendment;
    if current != target {
      NextDiffers(G, root, log, log', list, p, target, current);
      var next := NextAmendment(G, root, log, list, current);
      AdvancesVersion(G, root, log, next.value, current);
      AheadDrops(list, next.value, current.version);
      FoldUpTo(G, root, log, log', list, p, target, next.value.kind.newCharter);
    }
  }

  lemma {:induction false} FoldsOn(
    G: Gov, root: Root, log: Log, log': Log, list: seq<Proposal>, p: Proposal, target: Charter)
    requires DiffersAt(G, root, log, log', list, p, target) && p in list
    requires forall a :: a in list ==> !Advances(G, root, log, a, target)
    ensures Advances(G, root, log', p, target) ==> Fold(G, root, log', list, target).version > target.version
    ensures !Advances(G, root, log', p, target) ==> Fold(G, root, log', list, target) == target
  {
    hide Advances;
    var next := NextAmendment(G, root, log', list, target);
    if next.Some? {
      assert next.value == p;
      AdvancesVersion(G, root, log', p, target);
      AheadDrops(list, p, target.version);
      var chain := FoldReaches(G, root, log', list, p.kind.newCharter);
    }
  }

  lemma {:induction false} SameFold(G: Gov, root: Root, log: Log, all: seq<Proposal>, S: set<Proposal>, current: Charter)
    requires EnactedAmendments(G, log) <= S
    ensures Fold(G, root, log, Filter(all, In(S)), current) == Fold(G, root, log, all, current)
  {
    hide EnactedAmendments, Fold;
    FoldSkips(G, root, log, all, current);
    FoldSkips(G, root, log, Filter(all, In(S)), current);
    FilterTwice(all, In(EnactedAmendments(G, log)), In(S));
  }

  // --- One enactment -------------------------------------------------------------

  lemma {:induction false} EnactedGrows(G: Gov, log: Log, p: Proposal, now: int)
    requires p.kind.Amendment?
    ensures EnactedAmendments(G, Append(log, Implemented(p, now), G.station, now)) == EnactedAmendments(G, log) + {p}
  {
    hide AdmissionInstant;
    var log' := Append(log, Implemented(p, now), G.station, now);
    assert log'[|log|].record.proposal in EnactedAmendments(G, log');
    forall q | q in EnactedAmendments(G, log) ensures q in EnactedAmendments(G, log') {
      var k :| 0 <= k < |log| && log[k].record.Implemented? && log[k].signer == G.station && log[k].record.proposal == q;
      assert log'[k] == log[k];
    }
  }

  lemma {:induction false} AdvancesKept(G: Gov, root: Root, log: Log, log': Log, a: Proposal, c: Charter)
    requires IsPrefix(log, log') && Settled(G, root, log, a)
    requires forall k :: |log| <= k < |log'| ==> !Casts(log'[k], a)
    requires a in EnactedAmendments(G, log) && a in EnactedAmendments(G, log')
    ensures Advances(G, root, log', a, c) <==> Advances(G, root, log, a, c)
  {
    hide Authorized, Published, CountAgainst, EnactedBy, EnactedAmendments, Casts;
    CountStays(G, root, log, log', a, c);
    EnactedIff(G, log, a);
    EnactedIff(G, log', a);
  }

  lemma {:induction false} NotBefore(G: Gov, root: Root, log: Log, p: Proposal, now: int)
    requires EnactRefusal(G, log, p, now).None? && p.kind.Amendment?
    ensures p !in EnactedAmendments(G, log) && forall c :: !Advances(G, root, log, p, c)
  {
    hide Authorized, EnactedBy, EffectiveCharter, ActiveNow, Passed, EnactedAmendments;
    EnactedIff(G, log, p);
  }

  lemma {:induction false} EnactmentDiffers(G: Gov, log: Log, p: Proposal, now: int, list: seq<Proposal>)
    requires AllSettled(G, RootNow(log), log) && EnactRefusal(G, log, p, now).None? && Linked(G, log, p)
    requires forall a :: a in list ==> a in EnactedAmendments(G, log) + {p}
    ensures DiffersAt(G, RootNow(log), log, Append(log, Implemented(p, now), G.station, now), list, p,
                      EffectiveCharter(G, log).value)
  {
    hide Authorized, EffectiveCharter, Settled, EnactedAmendments, FounderCharter, Passed, EnactedBy, ActiveNow;
    var root, log' := RootNow(log), Append(log, Implemented(p, now), G.station, now);
    NotBefore(G, root, log, p, now);
    EnactedGrows(G, log, p, now);
    assert log'[..|log|] == log;
    forall a, c | a in list && a != p
      ensures Advances(G, root, log', a, c) <==> Advances(G, root, log, a, c)
    {
      AdvancesKept(G, root, log, log', a, c);
    }
  }

  lemma {:induction false} ListKept(G: Gov, log: Log, log': Log, S: set<Proposal>)
    requires IsPrefix(log, log')
    requires forall p :: p in S ==> Authorized(G, RootNow(log), log, p).Some?
    ensures Filter(ProposalsTo(G, RootNow(log), log', |log'|), In(S)) == Filter(ProposalsTo(G, RootNow(log), log, |log|), In(S))
  {
    hide Authorized, ProposalsTo, Filter, ProposedBy, FounderCharter, OpenPin;
    var root := RootNow(log);
    forall p | p in S ensures ProposedBy(log', p, |log|) && Authorized(G, root, log', p).Some? {
      AuthorizedProposed(G, root, log, p);
      ProposedGrows(log, log', p, |log|);
      AuthorizedStays(G, root, log, log', p);
    }
    ListSame(G, root, log, log', S, |log|);
    ListQuiet(G, root, log', S, |log|, |log'|);
  }

  lemma {:induction false} EnactedRoot(G: Gov, log: Log, p: Proposal, now: int)
    ensures FounderCharter(Append(log, Implemented(p, now), G.station, now)) == FounderCharter(log)
  {
    hide FounderCharter, AdmissionInstant;
    var log' := Append(log, Implemented(p, now), G.station, now);
    assert log'[..|log|] == log;
    RootUnchanged(log, log');
  }

  /** What the enactment door admits, from its own checks. */
  lemma {:induction false} EnactAdmits(G: Gov, log: Log, p: Proposal, now: int)
    requires EnactRefusal(G, log, p, now).None?
    ensures Step(G, log, Enact(p), now) == Append(log, Implemented(p, now), G.station, now)
    ensures FounderCharter(log).Some? && Authorized(G, RootNow(log), log, p).Some?
  {
    hide Authorized, EnactedBy, ActiveNow, Passed, FounderCharter;
  }

  lemma {:induction false} EffectiveIsFold(G: Gov, log: Log)
    requires FounderCharter(log).Some?
    ensures EffectiveCharter(G, log)
         == Some(Fold(G, RootNow(log), log, ProposalsTo(G, RootNow(log), log, |log|), FounderCharter(log).value))
  {
  }

  /** An amendment the enactment door admits, linked to the charter in force, raises the effective
      charter exactly when its window left a delay between the end of voting and the due date;
      otherwise the effective charter is the one it was. */
  lemma {:induction false} EnactmentTakesEffectIff(G: Gov, log: Log, p: Proposal, now: int)
    requires AllSettled(G, RootNow(log), log)
    requires EnactRefusal(G, log, p, now).None? && Linked(G, log, p)
    ensures Authorized(G, RootNow(log), log, p).Some? && EffectiveCharter(G, Step(G, log, Enact(p), now)).Some?
    ensures (var w := Authorized(G, RootNow(log), log, p).value;
             var before, after := EffectiveCharter(G, log).value, EffectiveCharter(G, Step(G, log, Enact(p), now)).value;
             && (after.version > before.version <==> w.implementationAt > w.votingEndsAt)
             && (w.implementationAt <= w.votingEndsAt ==> after == before))
  {
    hide Authorized, EnactRefusal, EnactedAmendments, Fold, FounderCharter, ProposalsTo, Settled, Step, EffectiveCharter;
    hide Advances, DiffersAt, Filter;
    EnactAdmits(G, log, p, now);
    var root, log', founded := RootNow(log), Append(log, Implemented(p, now), G.station, now), FounderCharter(log).value;
    var S, all, all' := EnactedAmendments(G, log) + {p}, ProposalsTo(G, root, log, |log|), ProposalsTo(G, root, log', |log'|);
    var list, current := Filter(all, In(S)), EffectiveCharter(G, log).value;
    assert log'[..|log|] == log;
    EnactedRoot(G, log, p, now);
    EnactedGrows(G, log, p, now);
    EffectiveIsFold(G, log);
    EffectiveIsFold(G, log');
    SettledAuthorized(G, root, log, S - {p});
    ListKept(G, log, log', S);
    SameFold(G, root, log, all, S, founded);
    SameFold(G, root, log', all', S, founded);
    FilterMembers(all, In(S));
    EnactmentDiffers(G, log, p, now, list);
    FoldUpTo(G, root, log, log', list, p, current, founded);
    var chain := FoldReaches(G, root, log, list, founded);
    PutInList(G, log, p, S);
    FoldsOn(G, root, log, log', list, p, current);
    EnactedAmendmentFolds(G, log, p, now);
  }

  lemma {:induction false} SettledAuthorized(G: Gov, root: Root, log: Log, S: set<Proposal>)
    requires AllSettled(G, root, log) && S <= EnactedAmendments(G, log)
    ensures forall a :: a in S ==> Authorized(G, root, log, a).Some?
  {
    hide Authorized, Published, EnactedAmendments;
  }

  lemma {:induction false} PutInList(G: Gov, log: Log, p: Proposal, S: set<Proposal>)
    requires p in S && Authorized(G, RootNow(log), log, p).Some?
    ensures p in Filter(ProposalsTo(G, RootNow(log), log, |log|), In(S))
  {
    hide Authorized, ProposalsTo, FounderCharter;
    AuthorizedProposed(G, RootNow(log), log, p);
    ProposalsToMeaning(G, RootNow(log), log, |log|, p);
    FilterKeeps(ProposalsTo(G, RootNow(log), log, |log|), In(S), p);
  }

  lemma {:induction false} FilterKeeps<T>(s: seq<T>, p: T -> bool, x: T)
    requires x in s && p(x)
    ensures x in Filter(s, p)
  {
    if s[0] != x {
      FilterKeeps(s[1..], p, x);
    }
  }

  // --- Without a delay it never does ---------------------------------------------

  /** The earliest window stands: with no delay in it no reading of any longer log advances any charter
      by `p`, under any root. */
  lemma {:induction false} NeverAdvances(G: Gov, root: Root, log: Log, log': Log, p: Proposal, c: Charter)
    requires IsPrefix(log, log') && WindowTo(G, log, p, |log|).Some?
    requires WindowTo(G, log, p, |log|).value.implementationAt <= WindowTo(G, log, p, |log|).value.votingEndsAt
    ensures !Advances(G, root, log', p, c)
  {
    hide CountAgainst, EnactedBy, WindowTo, PinAt;
    WindowStays(G, log, log', p, |log|);
    WindowKept(G, log', p, |log|, |log'|);
  }

  lemma {:induction false} NeverInLineage(
    G: Gov, root: Root, log: Log, p: Proposal, all: seq<Proposal>, from: Charter, chain: seq<Proposal>, to: Charter)
    requires forall c :: !Advances(G, root, log, p, c)
    requires Lineage(G, root, log, all, from, chain, to)
    ensures p !in chain
    decreases |chain|
  {
    hide Advances;
    if chain != [] {
      AdvancesVersion(G, root, log, chain[0], from);
      NeverInLineage(G, root, log, p, all, chain[0].kind.newCharter, chain[1..], to);
      assert chain == [chain[0]] + chain[1..];
    }
  }

  /** So on every longer log the effective charter is reached from the founder root of that log without
      `p`, enacted or not. */
  lemma {:induction false} WithoutDelayNever(G: Gov, log: Log, log': Log, p: Proposal) returns (chain: seq<Proposal>)
    requires IsPrefix(log, log') && FounderCharter(log').Some? && WindowTo(G, log, p, |log|).Some?
    requires WindowTo(G, log, p, |log|).value.implementationAt <= WindowTo(G, log, p, |log|).value.votingEndsAt
    ensures EffectiveCharter(G, log').Some? && p !in chain
    ensures Lineage(G, RootNow(log'), log', ProposalsTo(G, RootNow(log'), log', |log'|),
                    FounderCharter(log').value, chain, EffectiveCharter(G, log').value)
  {
    hide Advances, FounderCharter, EffectiveCharter, WindowTo, ProposalsTo, Lineage;
    chain := EffectiveCharterMeaning(G, log');
    forall c ensures !Advances(G, RootNow(log'), log', p, c) {
      NeverAdvances(G, RootNow(log'), log, log', p, c);
    }
    NeverInLineage(G, RootNow(log'), log', p, ProposalsTo(G, RootNow(log'), log', |log'|),
                   FounderCharter(log').value, chain, EffectiveCharter(G, log').value);
  }

  /** The station attests such a window for an amendment exactly when the charter it is put under has an
      implementation delay of no days. */
  lemma {:induction false} AttestedDelayIff(p: Proposal, rules: Rules, active: Option<ActiveEmergency>, at: int)
    requires p.kind.Amendment?
    ensures (var w := AttestedWindow(p, rules, active, at);
             w.Window? && (w.implementationAt > w.votingEndsAt <==> rules.delayDays > 0))
  {
  }
}
