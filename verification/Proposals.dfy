/** Proposals, endorsements, ballots and the tally, replayed from the log
    (crates/rrn-governance/src/proposal.rs, vote.rs and tally.rs). */
module Proposals {
  import opened Basics
  import opened GovLog
  import opened EmergencyTimeline

  // --- Windows and openings ---------------------------------------------------

  /** The station's attested window for a proposal; `position` is the attestation's own. */
  datatype Opening = Opening(position: nat, at: int, votingEndsAt: int, implementationAt: int)

  predicate Windows(G: Gov, e: Entry, p: Proposal) {
    e.record.Window? && e.signer == G.station && e.record.proposal == p
  }

  /** The earliest station window for `p` among the first `n` entries. */
  function WindowTo(G: Gov, log: Log, p: Proposal, n: nat): (w: Option<Opening>)
    requires n <= |log|
    ensures w.Some? ==> 1 <= w.value.position <= n && Windows(G, log[w.value.position - 1], p)
  {
    if n == 0 then None
    else
      var earlier := WindowTo(G, log, p, n - 1);
      if earlier.Some? then earlier
      else if Windows(G, log[n - 1], p)
      then Some(Opening(n, log[n - 1].record.openedAt, log[n - 1].record.votingEndsAt, log[n - 1].record.implementationAt))
      else None
  }

  predicate Proposes(e: Entry, p: Proposal) {
    e.record.Propose? && e.record.proposal == p && e.signer == p.author
  }

  predicate ProposedBy(log: Log, p: Proposal, n: nat)
    requires n <= |log|
  {
    exists k | 0 <= k < n :: Proposes(log[k], p)
  }

  function OpenPin(log: Log, w: Opening): Pin {
    PinAt(log, w.position, w.at)
  }

  /** The window of `p`, when its record is authorized: proposed by its author, well formed, windowed
      by the station, its author eligible at the opening. */
  function Authorized(G: Gov, root: Root, log: Log, p: Proposal): (w: Option<Opening>)
    ensures w.Some? ==> 1 <= w.value.position <= |log|
  {
    var w := WindowTo(G, log, p, |log|);
    if p.wellFormed && ProposedBy(log, p, |log|) && w.Some? && Eligible(G, root, OpenPin(log, w.value), p.author)
    then w else None
  }

  method FindProposal(G: Gov, root: Root, log: Log, p: Proposal) returns (w: Option<Opening>)
    ensures w == Authorized(G, root, log, p)
  {
    var k := 0;
    while k < |log|
      invariant 0 <= k <= |log|
      invariant ProposedBy(log, p, k) ==> Authorized(G, root, log, p).None?
    {
      var e := log[k];
      if e.record.Propose? && e.record.proposal == p && e.signer == p.author && p.wellFormed {
        var window := WindowTo(G, log, p, |log|);
        if window.Some? && Eligible(G, root, OpenPin(log, window.value), p.author) {
          return window;
        }
      }
      k := k + 1;
    }
    w := None;
  }

  // --- Endorsements -----------------------------------------------------------

  predicate Endorses(e: Entry, p: Proposal) {
    e.record.Endorse? && e.record.proposal == p && e.signer == e.record.who && e.record.who != p.author
  }

  /** The distinct eligible members other than the author who endorsed `p`. */
  function Endorsers(G: Gov, root: Root, log: Log, p: Proposal, pin: Pin, n: nat): set<Address>
    requires n <= |log|
  {
    set k | 0 <= k < n && Endorses(log[k], p) && Eligible(G, root, pin, log[k].record.who) :: log[k].record.who
  }

  predicate Published(G: Gov, root: Root, log: Log, p: Proposal, w: Opening) {
    var pin := OpenPin(log, w);
    |Endorsers(G, root, log, p, pin, |log|)| >= G.st.endorsements(pin.evidence, root.founders, pin.at)
  }

  method EndorsersOf(G: Gov, root: Root, log: Log, p: Proposal, pin: Pin) returns (who: set<Address>)
    ensures who == Endorsers(G, root, log, p, pin, |log|)
  {
    who := {};
    for k := 0 to |log|
      invariant who == Endorsers(G, root, log, p, pin, k)
    {
      EndorsersStep(G, root, log, p, pin, k);
      var e := log[k];
      if e.record.Endorse? && e.record.proposal == p && e.signer == e.record.who && e.record.who != p.author {
        if Eligible(G, root, pin, e.record.who) {
          who := who + {e.record.who};
        }
      }
    }
  }

  lemma {:induction false} EndorsersStep(G: Gov, root: Root, log: Log, p: Proposal, pin: Pin, k: nat)
    requires k < |log|
    ensures Endorsers(G, root, log, p, pin, k + 1)
         == Endorsers(G, root, log, p, pin, k)
            + (if Endorses(log[k], p) && Eligible(G, root, pin, log[k].record.who) then {log[k].record.who} else {})
  {
  }

  // --- Ballots ----------------------------------------------------------------

  /** Where ballots and the denominator are pinned: the governing emergency's activation for a measure
      opened under one, the proposal's own opening otherwise. */
  function GoverningEmergency(G: Gov, root: Root, log: Log, p: Proposal, w: Opening): Option<ActiveEmergency> {
    if p.kind.EmergencyMeasure? then ActiveAt(Derive(G, root, log).timeline, w.at, Some(w.position)) else None
  }

  function ElectoratePin(G: Gov, root: Root, log: Log, p: Proposal, w: Opening): Pin {
    match GoverningEmergency(G, root, log, p, w)
    case Some(e) => PinAt(log, e.position, e.start)
    case None => OpenPin(log, w)
  }

  predicate Casts(e: Entry, p: Proposal) {
    e.record.Vote? && e.record.proposal == p && e.signer == e.record.who
  }

  /** Each eligible voter's first ballot among the entries after the opening. */
  function VotesTo(G: Gov, root: Root, log: Log, p: Proposal, pin: Pin, after: nat, n: nat): map<Address, Choice>
    requires n <= |log|
  {
    if n <= after then map[]
    else
      var box, e := VotesTo(G, root, log, p, pin, after, n - 1), log[n - 1];
      if Casts(e, p) && Eligible(G, root, pin, e.record.who) && e.record.who !in box
      then box[e.record.who := e.record.choice] else box
  }

  function Votes(G: Gov, root: Root, log: Log, p: Proposal): map<Address, Choice> {
    match Authorized(G, root, log, p)
    case None => map[]
    case Some(w) =>
      if Published(G, root, log, p, w)
      then VotesTo(G, root, log, p, ElectoratePin(G, root, log, p, w), w.position, |log|) else map[]
  }

  method CollectVotes(G: Gov, root: Root, log: Log, p: Proposal) returns (ballots: map<Address, Choice>)
    ensures ballots == Votes(G, root, log, p)
  {
    hide WindowTo, EvidenceOf, Derive;
    ballots := map[];
    var w := FindProposal(G, root, log, p);
    if w.None? {
      return;
    }
    var openPin := OpenPin(log, w.value);
    var endorsers := EndorsersOf(G, root, log, p, openPin);
    if |endorsers| < G.st.endorsements(openPin.evidence, root.founders, openPin.at) {
      return;
    }
    var pin, after := ElectoratePin(G, root, log, p, w.value), w.value.position;
    for k := 0 to |log|
      invariant ballots == VotesTo(G, root, log, p, pin, after, k)
    {
      var e := log[k];
      if e.record.Vote? && e.record.proposal == p && e.signer == e.record.who && k + 1 > after {
        if Eligible(G, root, pin, e.record.who) && e.record.who !in ballots {
          ballots := ballots[e.record.who := e.record.choice];
        }
      }
    }
  }

  // --- The tally --------------------------------------------------------------

  const MEASURE_THRESHOLD_FLOOR: nat := 67
  const MEASURE_QUORUM_FLOOR: nat := 50

  /** The quorum and approval percentages for a kind of proposal. */
  function Thresholds(kind: Kind, rules: Rules, underEmergency: bool): (nat, nat) {
    match kind
    case Ordinary => (rules.statuteQuorumPct, rules.statuteApprovalPct)
    case Amendment(_) => (rules.amendmentQuorumPct, rules.amendmentApprovalPct)
    case EmergencyMeasure(_) =>
      (if underEmergency then Max(rules.emergencyQuorumPct, MEASURE_QUORUM_FLOOR) else rules.statuteQuorumPct,
       Max(rules.emergencyThresholdPct, MEASURE_THRESHOLD_FLOOR))
  }

  /** An exact two-thirds at the floor, the literal percentage above it. */
  predicate MeasureApproved(yes: nat, decisive: nat, pct: nat) {
    decisive > 0 && if pct <= MEASURE_THRESHOLD_FLOOR then yes * 3 >= 2 * decisive else yes * 100 >= pct * decisive
  }

  predicate Approved(kind: Kind, yes: nat, decisive: nat, pct: nat) {
    if kind.EmergencyMeasure? then MeasureApproved(yes, decisive, pct)
    else decisive > 0 && yes * 100 >= pct * decisive
  }

  datatype VoteTally = VoteTally(yes: nat, no: nat, abstain: nat, electorate: nat, quorumMet: bool, approvalMet: bool)

  function Casting(ballots: map<Address, Choice>, choice: Choice): set<Address> {
    set v | v in ballots && ballots[v] == choice
  }

  function TallyOf(kind: Kind, yes: nat, no: nat, abstain: nat, electorate: nat, bars: (nat, nat)): VoteTally {
    VoteTally(yes, no, abstain, electorate,
              (yes + no + abstain) * 100 >= bars.0 * electorate, Approved(kind, yes, yes + no, bars.1))
  }

  /** The count of `p` against a charter, or `None` when its record is not authorized. */
  function CountAgainst(G: Gov, root: Root, log: Log, p: Proposal, charter: Charter): Option<VoteTally> {
    match Authorized(G, root, log, p)
    case None => None
    case Some(w) =>
      var pin, ballots := ElectoratePin(G, root, log, p, w), Votes(G, root, log, p);
      Some(TallyOf(p.kind, |Casting(ballots, Yes)|, |Casting(ballots, No)|, |Casting(ballots, Abstain)|,
                   G.st.electorateSize(pin.evidence, charter.founders, pin.at),
                   Thresholds(p.kind, charter.rules, GoverningEmergency(G, root, log, p, w).Some?)))
  }

  /** Whether `p` has passed as of `now`: its voting is over, and both bars were met. */
  predicate Passed(G: Gov, root: Root, log: Log, p: Proposal, now: int, charter: Charter) {
    && CountAgainst(G, root, log, p, charter).Some?
    && now > Authorized(G, root, log, p).value.votingEndsAt
    && CountAgainst(G, root, log, p, charter).value.quorumMet
    && CountAgainst(G, root, log, p, charter).value.approvalMet
  }

  /** The voters of `left` who cast `choice`. */
  function Among(ballots: map<Address, Choice>, left: set<Address>, choice: Choice): set<Address> {
    set v | v in left && v in ballots && ballots[v] == choice
  }

  lemma {:induction false} AmongStep(ballots: map<Address, Choice>, left: set<Address>, v: Address, choice: Choice)
    requires v in left && v in ballots
    ensures |Among(ballots, left, choice)|
         == |Among(ballots, left - {v}, choice)| + (if ballots[v] == choice then 1 else 0)
  {
    var rest := Among(ballots, left - {v}, choice);
    if ballots[v] == choice {
      assert Among(ballots, left, choice) == rest + {v};
    } else {
      assert Among(ballots, left, choice) == rest;
    }
  }

  /** Ballots are visited in no particular order; the count is of sets of voters. */
  method Count(ballots: map<Address, Choice>) returns (yes: nat, no: nat, abstain: nat)
    ensures yes == |Casting(ballots, Yes)| && no == |Casting(ballots, No)| && abstain == |Casting(ballots, Abstain)|
  {
    yes, no, abstain := 0, 0, 0;
    var left := ballots.Keys;
    assert forall c :: Among(ballots, left, c) == Casting(ballots, c);
    while left != {}
      invariant left <= ballots.Keys
      invariant yes + |Among(ballots, left, Yes)| == |Casting(ballots, Yes)|
      invariant no + |Among(ballots, left, No)| == |Casting(ballots, No)|
      invariant abstain + |Among(ballots, left, Abstain)| == |Casting(ballots, Abstain)|
      decreases left
    {
      hide Casting, Among;
      var voter :| voter in left;
      AmongStep(ballots, left, voter, Yes);
      AmongStep(ballots, left, voter, No);
      AmongStep(ballots, left, voter, Abstain);
      match ballots[voter] {
        case Yes => yes := yes + 1;
        case No => no := no + 1;
        case Abstain => abstain := abstain + 1;
      }
      left := left - {voter};
    }
    assert forall c :: Among(ballots, left, c) == {};
  }

  method HasPassed(G: Gov, root: Root, log: Log, p: Proposal, now: int, charter: Charter) returns (passed: bool)
    ensures passed == Passed(G, root, log, p, now, charter)
  {
    hide Votes, Authorized, GoverningEmergency, PinAt;
    var w := FindProposal(G, root, log, p);
    if w.None? {
      return false;
    }
    var emergency := GoverningEmergency(G, root, log, p, w.value);
    var bars := Thresholds(p.kind, charter.rules, emergency.Some?);
    var pin := ElectoratePin(G, root, log, p, w.value);
    var ballots := CollectVotes(G, root, log, p);
    var yes, no, abstain := Count(ballots);
    var tally := TallyOf(p.kind, yes, no, abstain, G.st.electorateSize(pin.evidence, charter.founders, pin.at), bars);
    passed := now > w.value.votingEndsAt && tally.quorumMet && tally.approvalMet;
  }

  // --- The bars ---------------------------------------------------------------

  /** The share that declares an emergency is the share that carries its measure: with every member
      voting, `yes` clears the measure's bar exactly when `yes` co-signers clear the declaration's. */
  lemma {:induction false} MeasureMatchesDeclaration(yes: nat, n: nat, pct: nat)
    requires n > 0
    ensures MeasureApproved(yes, n, pct) <==> yes >= DeclarationThreshold(n, pct)
  {
    if pct > MEASURE_THRESHOLD_FLOOR {
      var bar := n * pct;
      assert yes * 100 >= bar <==> yes >= (bar + 99) / 100;
    }
  }

  /** No charter can lower a declaration's bar below two-thirds, or lower it by raising the percentage. */
  lemma {:induction false} NeverBelowTwoThirds(n: nat, pct: nat, higher: nat)
    requires pct <= higher
    ensures 3 * DeclarationThreshold(n, pct) >= 2 * n
    ensures DeclarationThreshold(n, pct) <= DeclarationThreshold(n, higher)
  {
    ProductGrows(n, 67, pct);
    ProductGrows(n, 67, higher);
    ProductGrows(n, pct, higher);
    var low, high := n * pct, n * higher;
  }

  lemma {:induction false} ProductGrows(n: nat, a: nat, b: nat)
    ensures a <= b ==> n * a <= n * b
  {
  }
}
