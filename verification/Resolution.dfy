/** The dispute's write gates and its derived resolution
    (crates/rrn-dispute/src/resolution.rs, crates/rrn-dispute/src/escalation.rs). */
module Resolution {
  import opened Basics
  import opened Panel
  import opened PanelLockIn
  import opened Docket
  import opened Sortition
  import opened JuryPool

  const CLOCK_SKEW_TOLERANCE: int := 5 * 60

  /** The parties, and the admission instant and position of the dispute entry. */
  datatype Info = Info(sender: Address, receiver: Address, openedAt: int, openedSeq: nat)

  /** What is fixed about one dispute: the standing functions, the parameters, the transaction,
      and the hash-driven draw its seed gives. */
  datatype Setup = Setup(st: Standing, params: Params, info: Info, tx: nat, draw: nat -> nat)

  datatype Resolution =
    | Pending | JuryUpheld | JuryRejected | Lapsed | AwaitingAppeal
    | EscalationPending | EscalationUpheld | EscalationRejected | EscalationLapsed

  predicate Terminal(r: Resolution) {
    !(r.Pending? || r.AwaitingAppeal? || r.EscalationPending?)
  }

  function MainClose(S: Setup): int {
    S.info.openedAt + S.params.windowSeconds
  }

  // --- The jury ---------------------------------------------------------------

  function VerdictPick(tx: nat): Entry -> Option<Cast> {
    (e: Entry) =>
      if e.record.Verdict? && e.record.tx == tx && e.signer == e.record.juror
      then Some(Cast(e.record.juror, e.record.uphold)) else None
  }

  /** Every juror's first verdict since the dispute was admitted. */
  function VerdictsIn(S: Setup, log: Log): Ballots {
    FirstBallots(log, VerdictPick(S.tx), S.info.openedSeq, |log|)
  }

  function Parties(info: Info): set<Address> {
    {info.sender, info.receiver}
  }

  /** Each party's vouchers and vouchees as of the dispute's admission. */
  function Recused(S: Setup, log: Log): set<Address> {
    var n := S.info.openedSeq;
    Vouchers(log, S.info.sender, n) + Vouchees(log, S.info.sender, n)
    + Vouchers(log, S.info.receiver, n) + Vouchees(log, S.info.receiver, n)
  }

  function EligiblePool(S: Setup, log: Log): (pool: seq<Candidate>)
    ensures Weighted(pool)
  {
    Pool(S.st, log, Parties(S.info), Recused(S, log), S.info.openedAt, S.info.openedSeq, S.params.panelSize)
  }

  function Jury(S: Setup, log: Log): seq<Address> {
    Draw(EligiblePool(S, log), S.draw)
  }

  function PanelQuery(S: Setup, log: Log, now: int): Query {
    Query(Jury(S, log), VerdictsIn(S, log), S.params.jurorResponse, now)
  }

  function PanelAt(S: Setup, log: Log, now: int): seq<Seat> {
    Seats(PanelQuery(S, log, now), S.info.openedAt, S.params.panelSize)
  }

  function JuryOutcome(S: Setup, log: Log, now: int): Option<Outcome> {
    Ruling(PanelQuery(S, log, now), S.info.openedAt, S.params.panelSize)
  }

  function JuryRuledAt(S: Setup, log: Log, now: int): Option<int> {
    RuledWhen(PanelQuery(S, log, now), S.info.openedAt, S.params.panelSize)
  }

  // --- Escalation -------------------------------------------------------------

  datatype Opened = Opened(initiator: Address, reason: Reason, at: int, position: nat)

  predicate Escalates(e: Entry, tx: nat) {
    e.record.Escalation? && e.record.tx == tx
  }

  /** The first escalation of `tx` among the first `n` entries. */
  function EscalationIn(log: Log, tx: nat, n: nat): Option<Opened>
    requires n <= |log|
  {
    if n == 0 then None
    else
      var earlier := EscalationIn(log, tx, n - 1);
      if earlier.Some? then earlier
      else if Escalates(log[n - 1], tx) then
        Some(Opened(log[n - 1].record.initiator, log[n - 1].record.reason, log[n - 1].at, n))
      else None
  }

  method EscalationOf(log: Log, tx: nat) returns (r: Option<Opened>)
    ensures r == EscalationIn(log, tx, |log|)
  {
    var n := 0;
    while n < |log|
      invariant 0 <= n <= |log|
      invariant EscalationIn(log, tx, n) == None
    {
      if Escalates(log[n], tx) {
        r := Some(Opened(log[n].record.initiator, log[n].record.reason, log[n].at, n + 1));
        EscalationStays(log, tx, n + 1, |log|);
        return;
      }
      n := n + 1;
    }
    r := None;
  }

  lemma {:induction false} EscalationStays(log: Log, tx: nat, m: nat, n: nat)
    requires m <= n <= |log| && EscalationIn(log, tx, m).Some?
    ensures EscalationIn(log, tx, n) == EscalationIn(log, tx, m)
    decreases n
  {
    if m < n {
      EscalationStays(log, tx, m, n - 1);
    }
  }

  function AppealDeadline(S: Setup, ruledAt: int): int {
    Min(ruledAt + S.params.appealWindow, MainClose(S))
  }

  /** The jury as both the decision and the escalation gate read it. */
  datatype JuryView = JuryView(outcome: Option<Outcome>, ruledAt: Option<int>, poolLen: nat, majority: nat)

  function View(S: Setup, log: Log, now: int): JuryView {
    JuryView(JuryOutcome(S, log, now), JuryRuledAt(S, log, now), |EligiblePool(S, log)|, Majority(S.params.panelSize))
  }

  /** Whether an escalation admitted at `at` is applicable, given the jury. */
  predicate Applies(S: Setup, jury: JuryView, reason: Reason, at: int) {
    match reason
    case Appeal =>
      jury.outcome.Some? && jury.ruledAt.Some?
      && at >= jury.ruledAt.value && at <= AppealDeadline(S, jury.ruledAt.value)
    case CannotSeat =>
      jury.poolLen < jury.majority && at >= S.info.openedAt && at <= MainClose(S)
  }

  predicate EscalationApplies(S: Setup, log: Log, now: int, reason: Reason, at: int) {
    Applies(S, View(S, log, now), reason, at)
  }

  function EscalationClose(S: Setup, at: int): int {
    Min(at + S.params.escalationWindow, MainClose(S))
  }

  function EscalationElectorate(S: Setup, log: Log, esc: Opened): set<Address> {
    Free(Electorate(S.st, log, esc.position, esc.at), Parties(S.info))
  }

  function BallotPick(tx: nat): Entry -> Option<Cast> {
    (e: Entry) =>
      if e.record.EscalationBallot? && e.record.tx == tx && e.signer == e.record.voter
      then Some(Cast(e.record.voter, e.record.uphold)) else None
  }

  function EscalationBallots(S: Setup, log: Log, esc: Opened): Ballots {
    FirstBallots(log, BallotPick(S.tx), esc.position, |log|)
  }

  predicate Credited(ballots: Ballots, electorate: set<Address>, from: int, close: int, voter: Address) {
    voter in ballots && voter in electorate && from <= ballots[voter].admittedAt <= close
  }

  /** The eligible voters whose ballot `want`s this side and was admitted inside the window. */
  function CreditedVoters(ballots: Ballots, electorate: set<Address>, from: int, close: int, want: bool): set<Address> {
    set v | v in ballots && Credited(ballots, electorate, from, close, v) && ballots[v].uphold == want
  }

  datatype EscalationTally =
    EscalationTally(uphold: nat, reject: nat, eligible: nat, quorumMet: bool, approvalMet: bool)

  function TallyOf(uphold: nat, reject: nat, eligible: nat, params: Params): EscalationTally {
    EscalationTally(uphold, reject, eligible,
      uphold + reject > 0 && (uphold + reject) * 100 >= params.quorumPct * eligible,
      uphold + reject > 0 && uphold * 100 >= params.approvalPct * (uphold + reject))
  }

  /** The credited voters of `left` on one side. */
  function CreditedAmong(
    ballots: Ballots, electorate: set<Address>, from: int, close: int, want: bool, left: set<Address>): set<Address>
  {
    CreditedVoters(ballots, electorate, from, close, want) * left
  }

  lemma {:induction false} CreditedStep(
    ballots: Ballots, electorate: set<Address>, from: int, close: int, want: bool, left: set<Address>, v: Address)
    requires v in left && v in ballots
    ensures |CreditedAmong(ballots, electorate, from, close, want, left)|
         == |CreditedAmong(ballots, electorate, from, close, want, left - {v})|
            + (if Credited(ballots, electorate, from, close, v) && ballots[v].uphold == want then 1 else 0)
  {
    var rest := CreditedAmong(ballots, electorate, from, close, want, left - {v});
    if Credited(ballots, electorate, from, close, v) && ballots[v].uphold == want {
      assert CreditedAmong(ballots, electorate, from, close, want, left) == rest + {v};
    } else {
      assert CreditedAmong(ballots, electorate, from, close, want, left) == rest;
    }
  }

  /** The ballots are visited in no particular order; the tally is by sets of voters, so the
      order cannot matter. */
  method CountEscalation(ballots: Ballots, electorate: set<Address>, params: Params, from: int, close: int)
    returns (t: EscalationTally)
    ensures t == TallyOf(|CreditedVoters(ballots, electorate, from, close, true)|,
                         |CreditedVoters(ballots, electorate, from, close, false)|, |electorate|, params)
  {
    var uphold, reject: nat := 0, 0;
    var left := ballots.Keys;
    assert forall want :: CreditedAmong(ballots, electorate, from, close, want, left)
                       == CreditedVoters(ballots, electorate, from, close, want);
    while left != {}
      invariant left <= ballots.Keys
      invariant uphold + |CreditedAmong(ballots, electorate, from, close, true, left)|
             == |CreditedVoters(ballots, electorate, from, close, true)|
      invariant reject + |CreditedAmong(ballots, electorate, from, close, false, left)|
             == |CreditedVoters(ballots, electorate, from, close, false)|
      decreases left
    {
      hide CreditedVoters, CreditedAmong;
      var voter :| voter in left;
      CreditedStep(ballots, electorate, from, close, true, left, voter);
      CreditedStep(ballots, electorate, from, close, false, left, voter);
      var ballot := ballots[voter];
      if voter in electorate && ballot.admittedAt >= from && ballot.admittedAt <= close {
        if ballot.uphold {
          uphold := uphold + 1;
        } else {
          reject := reject + 1;
        }
      }
      left := left - {voter};
    }
    t := TallyOf(uphold, reject, |electorate|, params);
  }

  function EscalationTallyIn(S: Setup, log: Log, esc: Opened): EscalationTally {
    var close := EscalationClose(S, esc.at);
    var ballots, electorate := EscalationBallots(S, log, esc), EscalationElectorate(S, log, esc);
    TallyOf(|CreditedVoters(ballots, electorate, esc.at, close, true)|,
            |CreditedVoters(ballots, electorate, esc.at, close, false)|, |electorate|, S.params)
  }

  /** Quorum failure fails open. */
  function TerminalOutcome(t: EscalationTally): Option<Outcome> {
    if !t.quorumMet then None else if t.approvalMet then Some(Upheld) else Some(Rejected)
  }

  function DecideEscalation(S: Setup, log: Log, esc: Opened, now: int): Resolution {
    if now < EscalationClose(S, esc.at) then EscalationPending
    else
      match TerminalOutcome(EscalationTallyIn(S, log, esc))
      case Some(Upheld) => EscalationUpheld
      case Some(Rejected) => EscalationRejected
      case None => EscalationLapsed
  }

  // --- The decision -----------------------------------------------------------

  predicate Settings(S: Setup) {
    S.params.jurorResponse >= 0
  }

  /** The escalation that governs the dispute, if a valid one is on the log. */
  function GoverningEscalation(S: Setup, log: Log, now: int): Option<Opened> {
    match EscalationIn(log, S.tx, |log|)
    case None => None
    case Some(esc) =>
      if esc.initiator in Parties(S.info) && EscalationApplies(S, log, now, esc.reason, esc.at)
      then Some(esc) else None
  }

  function Decide(S: Setup, log: Log, now: int): Resolution
    requires Settings(S)
  {
    var esc := GoverningEscalation(S, log, now);
    if esc.Some? then DecideEscalation(S, log, esc.value, now)
    else
      match JuryOutcome(S, log, now)
      case Some(outcome) =>
        RulingHasInstant(PanelQuery(S, log, now), S.info.openedAt, S.params.panelSize);
        if now <= AppealDeadline(S, JuryRuledAt(S, log, now).value) then AwaitingAppeal
        else if outcome == Upheld then JuryUpheld else JuryRejected
      case None => if now >= MainClose(S) then Lapsed else Pending
  }

  // --- What the write gates admit ---------------------------------------------

  /** An unanswered seat for `j` on the panel derived at `at`. */
  predicate HoldsLiveSeat(S: Setup, log: Log, j: Address, at: int) {
    Awaiting(PanelAt(S, log, at), j)
  }

  predicate VerdictOk(S: Setup, log: Log, juror: Address, castAt: int, signer: Address, at: int) {
    && signer == juror
    && castAt <= at + CLOCK_SKEW_TOLERANCE && at <= MainClose(S)
    && juror !in VerdictsIn(S, log)
    && HoldsLiveSeat(S, log, juror, at)
  }

  predicate EscalationOk(S: Setup, log: Log, initiator: Address, reason: Reason, signer: Address, at: int) {
    && signer == initiator && initiator in Parties(S.info)
    && EscalationIn(log, S.tx, |log|).None?
    && EscalationApplies(S, log, at, reason, at)
  }

  predicate BallotOk(S: Setup, log: Log, voter: Address, castAt: int, signer: Address, at: int) {
    var esc := EscalationIn(log, S.tx, |log|);
    && signer == voter && esc.Some?
    && voter in EscalationElectorate(S, log, esc.value)
    && esc.value.at <= at <= EscalationClose(S, esc.value.at)
    && castAt <= at + CLOCK_SKEW_TOLERANCE
    && voter !in EscalationBallots(S, log, esc.value)
  }

  /** What an admitted entry must have satisfied at the gate, if it concerns this dispute. */
  predicate Admissible(S: Setup, log: Log, e: Entry) {
    match e.record
    case Verdict(tx, juror, _, castAt) => tx == S.tx ==> VerdictOk(S, log, juror, castAt, e.signer, e.at)
    case Escalation(tx, initiator, reason, _) => tx == S.tx ==> EscalationOk(S, log, initiator, reason, e.signer, e.at)
    case EscalationBallot(tx, voter, _, castAt) => tx == S.tx ==> BallotOk(S, log, voter, castAt, e.signer, e.at)
    case _ => true
  }

  /** A log on which, since the dispute entry, every record of this dispute came through its gate. */
  predicate Gated(S: Setup, log: Log) {
    && Clocked(log)
    && 1 <= S.info.openedSeq <= |log| && S.info.openedAt == log[S.info.openedSeq - 1].at
    && (forall k :: 0 <= k < S.info.openedSeq ==> !Escalates(log[k], S.tx))
    && (forall k :: S.info.openedSeq <= k < |log| ==> Admissible(S, log[..k], log[k]))
  }

  lemma {:induction false} GatedPrefix(S: Setup, log: Log, log': Log)
    requires Gated(S, log') && IsPrefix(log, log') && S.info.openedSeq <= |log|
    ensures Gated(S, log)
  {
    forall k | 0 <= k < |log| ensures log[k] == log'[k] && log[..k] == log'[..k] {
      assert log'[..|log|][k] == log'[k];
      PrefixUpto(log, log', k);
    }
  }

  lemma {:induction false} GatedStep(S: Setup, log: Log, e: Entry)
    requires Gated(S, log) && Admissible(S, log, e) && log[|log| - 1].at <= e.at
    ensures Gated(S, log + [e])
  {
    var log' := log + [e];
    ClockedAppend(log, e);
    forall k | 0 <= k < |log'| ensures k < |log| ==> log'[k] == log[k] && log'[..k] == log[..k] {
    }
    assert log'[..|log|] == log;
  }
}
