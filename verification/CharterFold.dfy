/** The effective charter: the founder root with the enacted amendments folded on top
    (crates/rrn-governance/src/tally.rs). */
module CharterFold {
  import opened Basics
  import opened GovLog
  import opened EmergencyTimeline
  import opened Proposals

  predicate Enacts(G: Gov, e: Entry, p: Proposal) {
    e.record.Implemented? && e.signer == G.station && e.record.proposal == p
  }

  /** The station recorded the enactment of `p` among the first `n` entries. */
  predicate EnactedBy(G: Gov, log: Log, p: Proposal, n: nat)
    requires n <= |log|
  {
    exists k | 0 <= k < n :: Enacts(G, log[k], p)
  }

  /** The authorized proposals first put among the first `n` entries, each once, in log order. */
  function ProposalsTo(G: Gov, root: Root, log: Log, n: nat): seq<Proposal>
    requires n <= |log|
  {
    if n == 0 then []
    else
      var earlier, e := ProposalsTo(G, root, log, n - 1), log[n - 1];
      if e.record.Propose? && Proposes(e, e.record.proposal) && Authorized(G, root, log, e.record.proposal).Some?
         && e.record.proposal !in earlier
      then earlier + [e.record.proposal] else earlier
  }

  method AllProposals(G: Gov, root: Root, log: Log) returns (all: seq<Proposal>)
    ensures all == ProposalsTo(G, root, log, |log|)
  {
    hide WindowTo, EvidenceOf;
    all := [];
    var seen: set<Proposal> := {};
    for k := 0 to |log|
      invariant all == ProposalsTo(G, root, log, k)
      invariant forall p :: p in seen <==> p in all
    {
      var e := log[k];
      if e.record.Propose? && e.signer == e.record.proposal.author && e.record.proposal.wellFormed {
        var p := e.record.proposal;
        assert Proposes(log[k], p);
        var w := WindowTo(G, log, p, |log|);
        if w.Some? && Eligible(G, root, OpenPin(log, w.value), p.author) && p !in seen {
          seen := seen + {p};
          all := all + [p];
        }
      }
    }
  }

  /** Whether `a` is the enacted next step after `current`: one version up, linked to it, and passing
      when counted against it at the instant it was due. */
  predicate Advances(G: Gov, root: Root, log: Log, a: Proposal, current: Charter) {
    && a.kind.Amendment?
    && a.kind.newCharter.version == current.version + 1
    && a.kind.newCharter.previous == Some(current)
    && EnactedBy(G, log, a, |log|)
    && Authorized(G, root, log, a).Some?
    && Passed(G, root, log, a, Authorized(G, root, log, a).value.implementationAt, current)
  }

  /** The first of `all` that advances `current`. */
  function NextAmendment(G: Gov, root: Root, log: Log, all: seq<Proposal>, current: Charter): (r: Option<Proposal>)
    ensures r.Some? ==> r.value in all && Advances(G, root, log, r.value, current)
    ensures r.None? ==> forall a :: a in all ==> !Advances(G, root, log, a, current)
  {
    if all == [] then None
    else if Advances(G, root, log, all[0], current) then Some(all[0])
    else NextAmendment(G, root, log, all[1..], current)
  }

  /** The amendments of `all` to a later version: what bounds the fold. */
  function Ahead(all: seq<Proposal>, version: nat): set<int> {
    set i | 0 <= i < |all| && all[i].kind.Amendment? && all[i].kind.newCharter.version > version
  }

  lemma {:induction false} AheadDrops(all: seq<Proposal>, a: Proposal, version: nat)
    requires a in all && a.kind.Amendment? && a.kind.newCharter.version == version + 1
    ensures Ahead(all, version + 1) < Ahead(all, version)
  {
    var i :| 0 <= i < |all| && all[i] == a;
    assert i in Ahead(all, version) && i !in Ahead(all, version + 1);
  }

  function Fold(G: Gov, root: Root, log: Log, all: seq<Proposal>, current: Charter): Charter
    decreases Ahead(all, current.version)
  {
    match NextAmendment(G, root, log, all, current)
    case None => current
    case Some(a) =>
      AheadDrops(all, a, current.version);
      Fold(G, root, log, all, a.kind.newCharter)
  }

  /** The effective charter, or `None` before any charter is published. */
  function EffectiveCharter(G: Gov, log: Log): Option<Charter> {
    match FounderCharter(log)
    case None => None
    case Some(founded) =>
      var root := RootOf(FounderCharter(log));
      Some(Fold(G, root, log, ProposalsTo(G, root, log, |log|), founded))
  }

  method ResolveCharter(G: Gov, log: Log) returns (charter: Option<Charter>)
    ensures charter == EffectiveCharter(G, log)
  {
    hide ProposalsTo, FounderCharterTo;
    var founded := FindFounderCharter(log);
    if founded.None? {
      return None;
    }
    var root, current := RootOf(founded), founded.value;
    var all := AllProposals(G, root, log);
    var advanced := true;
    while advanced
      invariant EffectiveCharter(G, log) == Some(Fold(G, root, log, all, current))
      invariant !advanced ==> NextAmendment(G, root, log, all, current).None?
      decreases Ahead(all, current.version), advanced
    {
      advanced := false;
      var next := FirstAdvancing(G, root, log, all, current);
      if next.Some? {
        AheadDrops(all, next.value, current.version);
        current := next.value.kind.newCharter;
        advanced := true;
      }
    }
    charter := Some(current);
  }

  method FirstAdvancing(G: Gov, root: Root, log: Log, all: seq<Proposal>, current: Charter)
    returns (next: Option<Proposal>)
    ensures next == NextAmendment(G, root, log, all, current)
  {
    hide Authorized, Passed;
    for i := 0 to |all|
      invariant NextAmendment(G, root, log, all, current) == NextAmendment(G, root, log, all[i..], current)
    {
      var a := all[i];
      assert all[i..][0] == a && all[i..][1..] == all[i + 1..];
      if a.kind.Amendment? && a.kind.newCharter.version == current.version + 1
         && a.kind.newCharter.previous == Some(current) && EnactedBy(G, log, a, |log|) {
        var w := Authorized(G, root, log, a);
        if w.Some? {
          var passed := HasPassed(G, root, log, a, w.value.implementationAt, current);
          if passed {
            return Some(a);
          }
        }
      }
    }
    return None;
  }

  // --- What the fold reaches --------------------------------------------------

  /** `chain` leads from one charter to another, each amendment enacted and passing against its
      predecessor. */
  predicate Lineage(G: Gov, root: Root, log: Log, all: seq<Proposal>, from: Charter, chain: seq<Proposal>, to: Charter)
    decreases |chain|
  {
    if chain == [] then from == to
    else
      && chain[0] in all
      && Advances(G, root, log, chain[0], from)
      && Lineage(G, root, log, all, chain[0].kind.newCharter, chain[1..], to)
  }

  /** The fold ends where no amendment advances further, at the end of a lineage of enacted amendments
      that raises the version by one a step. */
  lemma {:induction false} FoldReaches(G: Gov, root: Root, log: Log, all: seq<Proposal>, current: Charter)
    returns (chain: seq<Proposal>)
    ensures Lineage(G, root, log, all, current, chain, Fold(G, root, log, all, current))
    ensures Fold(G, root, log, all, current).version == current.version + |chain|
    ensures forall a :: a in all ==> !Advances(G, root, log, a, Fold(G, root, log, all, current))
    decreases Ahead(all, current.version)
  {
    hide Advances;
    match NextAmendment(G, root, log, all, current) {
      case None => chain := [];
      case Some(a) =>
        AdvancesVersion(G, root, log, a, current);
        AheadDrops(all, a, current.version);
        var rest := FoldReaches(G, root, log, all, a.kind.newCharter);
        chain := [a] + rest;
        assert chain[1..] == rest;
    }
  }

  lemma {:induction false} AdvancesVersion(G: Gov, root: Root, log: Log, a: Proposal, current: Charter)
    requires Advances(G, root, log, a, current)
    ensures a.kind.Amendment? && a.kind.newCharter.version == current.version + 1
  {
  }

  /** The effective charter is reached from the founder root by a chain of enacted amendments, each
      one version up, linked to its predecessor and passing against it, and none is left to apply. */
  lemma {:induction false} EffectiveCharterMeaning(G: Gov, log: Log) returns (chain: seq<Proposal>)
    requires FounderCharter(log).Some?
    ensures EffectiveCharter(G, log).Some?
    ensures (var root, founded, charter := RootOf(FounderCharter(log)), FounderCharter(log).value, EffectiveCharter(G, log).value;
             var all := ProposalsTo(G, root, log, |log|);
             && Lineage(G, root, log, all, founded, chain, charter)
             && charter.version == founded.version + |chain|
             && forall a :: a in all ==> !Advances(G, root, log, a, charter))
  {
    var root := RootOf(FounderCharter(log));
    chain := FoldReaches(G, root, log, ProposalsTo(G, root, log, |log|), FounderCharter(log).value);
  }

  lemma {:induction false} ProposalsToMeaning(G: Gov, root: Root, log: Log, n: nat, p: Proposal)
    requires n <= |log|
    ensures p in ProposalsTo(G, root, log, n) <==> ProposedBy(log, p, n) && Authorized(G, root, log, p).Some?
    ensures Distinct(ProposalsTo(G, root, log, n))
  {
    hide Authorized;
    if n > 0 {
      ProposalsToMeaning(G, root, log, n - 1, p);
      if ProposedBy(log, p, n) && !ProposedBy(log, p, n - 1) {
        assert Proposes(log[n - 1], p);
      }
    }
  }
}
