/** The front doors of one dispute, as the station's log grows
    (crates/rrn-dispute/src/resolution.rs). */
module DisputeDesk {
  import opened Basics
  import opened Panel
  import opened PanelLockIn
  import opened Docket
  import opened Sortition
  import opened JuryPool
  import opened Resolution
  import opened DisputeFinality

  datatype Refusal =
    | BadVerdict | BadEscalation | BadBallot | NotDisputed | NotSeated | AlreadyVoted
    | AlreadyEscalated | NotEscalatable | NotEscalated | NotEligible

  /** Where the disputed transfer stands in the ledger. */
  datatype TransferState = Disputed | Voided | Settled

  function Enacted(r: Resolution): TransferState {
    match r
    case JuryUpheld => Voided
    case EscalationUpheld => Voided
    case Pending => Disputed
    case AwaitingAppeal => Disputed
    case EscalationPending => Disputed
    case _ => Settled
  }

  class Desk {
    const S: Setup
    var log: Log
    var transfer: TransferState

    /** The log is a run of the gates. */
    ghost predicate Valid()
      reads this
    {
      Settings(S) && Sound(S.st) && Gated(S, log)
    }

    /** Opens the desk over the log that ends with the dispute entry. */
    constructor (S: Setup, log: Log)
      requires Settings(S) && Sound(S.st)
      requires Clocked(log) && 1 <= S.info.openedSeq == |log| && S.info.openedAt == log[|log| - 1].at
      requires forall k :: 0 <= k < |log| ==> !Escalates(log[k], S.tx)
      ensures Valid() && this.S == S && this.log == log && transfer == Disputed
    {
      this.S, this.log, transfer := S, log, Disputed;
    }

    method RecusalSet() returns (recused: set<Address>)
      ensures recused == Recused(S, log)
    {
      recused := VouchersOfUntil(log, S.info.sender, S.info.openedSeq);
      var more := VoucheesOfUntil(log, S.info.sender, S.info.openedSeq);
      recused := recused + more;
      more := VouchersOfUntil(log, S.info.receiver, S.info.openedSeq);
      recused := recused + more;
      more := VoucheesOfUntil(log, S.info.receiver, S.info.openedSeq);
      recused := recused + more;
    }

    method JuryPanel(at: int) returns (jury: JuryView, panel: seq<Seat>, existing: Ballots)
      requires Valid()
      ensures jury == View(S, log, at) && panel == PanelAt(S, log, at) && existing == VerdictsIn(S, log)
    {
      hide Gated, Pool, Recused, FirstBallots, Seats, DrawFrom, KeySorted, Sound;
      var recused := RecusalSet();
      var pool := EligiblePoolExcluding(S.st, log, {S.info.sender, S.info.receiver}, recused,
                                        S.info.openedAt, S.info.openedSeq, S.params.panelSize);
      var sequence := DrawSequence(pool, S.draw);
      existing := CollectBallots(log, VerdictPick(S.tx), S.info.openedSeq);
      panel := ResolvePanel(sequence, existing, S.info.openedAt, S.params, at);
      var outcome := Tally(panel, S.params.panelSize);
      var ruledAt := RulingReachedAt(panel, existing, S.params);
      jury := JuryView(outcome, ruledAt, |pool|, S.params.panelSize / 2 + 1);
    }

    /** Admits a verdict exactly when it is genuine, the dispute is open, and its juror holds a live
        seat at the admission instant; otherwise nothing is written. */
    method AppendVerdict(juror: Address, uphold: bool, castAt: int, signer: Address, genuine: bool, now: int)
      returns (refusal: Option<Refusal>)
      requires Valid()
      modifies this`log
      ensures Valid()
      ensures refusal.None? <==>
        genuine && transfer == Disputed
        && VerdictOk(S, old(log), juror, castAt, signer, AdmissionInstant(old(log), now))
      ensures refusal.None? ==>
        log == old(log) + [Entry(Verdict(S.tx, juror, uphold, castAt), signer, AdmissionInstant(old(log), now))]
      ensures refusal.Some? ==> log == old(log)
      ensures refusal == Some(AlreadyVoted) ==> juror in VerdictsIn(S, log)
    {
      if !genuine || signer != juror {
        return Some(BadVerdict);
      }
      if transfer != Disputed {
        return Some(NotDisputed);
      }
      var at := AdmissionInstant(log, now);
      if castAt > at + CLOCK_SKEW_TOLERANCE || at > MainClose(S) {
        return Some(NotSeated);
      }
      var jury, panel, existing := JuryPanel(at);
      if juror in existing {
        return Some(AlreadyVoted);
      }
      JuryDistinct(S, log);
      SeatLookup(PanelQuery(S, log, at), S.info.openedAt, S.params.panelSize, juror);
      var seat := SeatOf(panel, juror);
      if seat.None? || seat.value.verdict.Some? {
        return Some(NotSeated);
      }
      var e := Entry(Verdict(S.tx, juror, uphold, castAt), signer, at);
      GatedStep(S, log, e);
      log := log + [e];
      return None;
    }

    /** Admits an escalation exactly when a party opens it, none is open, and its reason applies to
        the jury as of the admission instant. */
    method OpenEscalation(initiator: Address, reason: Reason, openedAt: int, signer: Address, genuine: bool, now: int)
      returns (refusal: Option<Refusal>)
      requires Valid()
      modifies this`log
      ensures Valid()
      ensures refusal.None? <==>
        genuine && transfer == Disputed && openedAt <= now
        && EscalationOk(S, old(log), initiator, reason, signer, AdmissionInstant(old(log), now))
      ensures refusal.None? ==>
        log == old(log) + [Entry(Escalation(S.tx, initiator, reason, openedAt), signer, AdmissionInstant(old(log), now))]
      ensures refusal.Some? ==> log == old(log)
      ensures refusal == Some(AlreadyEscalated) ==> EscalationIn(log, S.tx, |log|).Some?
    {
      if !genuine || signer != initiator {
        return Some(BadEscalation);
      }
      if transfer != Disputed {
        return Some(NotDisputed);
      }
      if initiator != S.info.sender && initiator != S.info.receiver {
        return Some(BadEscalation);
      }
      var open := EscalationOf(log, S.tx);
      if open.Some? {
        return Some(AlreadyEscalated);
      }
      if openedAt > now {
        return Some(NotEscalatable);
      }
      var at := AdmissionInstant(log, now);
      var jury, panel, existing := JuryPanel(at);
      if !Applies(S, jury, reason, at) {
        return Some(NotEscalatable);
      }
      var e := Entry(Escalation(S.tx, initiator, reason, openedAt), signer, at);
      GatedStep(S, log, e);
      log := log + [e];
      return None;
    }

    /** Admits a ballot exactly when its voter is in the pinned electorate, has not voted, and the
        admission falls inside the sub-window. */
    method AppendEscalationBallot(voter: Address, uphold: bool, castAt: int, signer: Address, genuine: bool, now: int)
      returns (refusal: Option<Refusal>)
      requires Valid()
      modifies this`log
      ensures Valid()
      ensures refusal.None? <==>
        genuine && transfer == Disputed
        && BallotOk(S, old(log), voter, castAt, signer, AdmissionInstant(old(log), now))
      ensures refusal.None? ==>
        log == old(log) + [Entry(EscalationBallot(S.tx, voter, uphold, castAt), signer, AdmissionInstant(old(log), now))]
      ensures refusal.Some? ==> log == old(log)
    {
      if !genuine || signer != voter {
        return Some(BadBallot);
      }
      if transfer != Disputed {
        return Some(NotDisputed);
      }
      var esc := EscalationOf(log, S.tx);
      if esc.None? {
        return Some(NotEscalated);
      }
      var close := EscalationClose(S, esc.value.at);
      var electorate := Electorate(S.st, log, esc.value.position, esc.value.at);
      var at := AdmissionInstant(log, now);
      if !(voter in electorate && voter != S.info.sender && voter != S.info.receiver)
         || at < esc.value.at || at > close || castAt > at + CLOCK_SKEW_TOLERANCE {
        return Some(NotEligible);
      }
      var ballots := CollectBallots(log, BallotPick(S.tx), esc.value.position);
      if voter in ballots {
        return Some(AlreadyVoted);
      }
      var e := Entry(EscalationBallot(S.tx, voter, uphold, castAt), signer, at);
      GatedStep(S, log, e);
      log := log + [e];
      return None;
    }

    /** Anything that is not a record of this dispute may be admitted at any time. */
    method AppendOther(record: Record, signer: Address, now: int)
      requires Valid()
      requires !CastsVerdict(S, Entry(record, signer, now)) && !Escalates(Entry(record, signer, now), S.tx)
      requires !(record.EscalationBallot? && record.tx == S.tx)
      modifies this`log
      ensures Valid()
      ensures log == old(log) + [Entry(record, signer, AdmissionInstant(old(log), now))]
    {
      var e := Entry(record, signer, AdmissionInstant(log, now));
      GatedStep(S, log, e);
      log := log + [e];
    }

    /** Recomputes the resolution and enacts a terminal one. */
    method Resolve(now: int) returns (r: Result<Resolution, Refusal>)
      requires Valid()
      modifies this`transfer
      ensures Valid()
      ensures old(transfer) != Disputed ==> r == Err(NotDisputed) && transfer == old(transfer)
      ensures old(transfer) == Disputed ==> r == Ok(Decide(S, log, now)) && transfer == Enacted(Decide(S, log, now))
      ensures old(transfer) == Disputed ==> (transfer == Voided <==> r.value == JuryUpheld || r.value == EscalationUpheld)
      ensures old(transfer) == Disputed ==> (transfer == Disputed <==> !Terminal(r.value))
    {
      hide Decide, Gated;
      if transfer != Disputed {
        return Err(NotDisputed);
      }
      var resolution := DecideNow(now);
      transfer := Enacted(resolution);
      return Ok(resolution);
    }

    method DecideNow(now: int) returns (r: Resolution)
      requires Valid()
      ensures r == Decide(S, log, now)
    {
      hide Gated, Seats, EligiblePool, DecideEscalation, EscalationIn, VerdictsIn, Jury;
      var jury, panel, existing := JuryPanel(now);
      var esc := EscalationOf(log, S.tx);
      if esc.Some? && (esc.value.initiator == S.info.sender || esc.value.initiator == S.info.receiver) {
        if Applies(S, jury, esc.value.reason, esc.value.at) {
          r := DecideOpen(esc.value, now);
          return;
        }
      }
      if jury.outcome.Some? {
        RulingHasInstant(PanelQuery(S, log, now), S.info.openedAt, S.params.panelSize);
        if now <= AppealDeadline(S, jury.ruledAt.value) {
          return AwaitingAppeal;
        }
        return if jury.outcome.value == Upheld then JuryUpheld else JuryRejected;
      }
      return if now >= MainClose(S) then Lapsed else Pending;
    }

    method DecideOpen(esc: Opened, now: int) returns (r: Resolution)
      requires Valid()
      ensures r == DecideEscalation(S, log, esc, now)
    {
      var close := EscalationClose(S, esc.at);
      if now < close {
        return EscalationPending;
      }
      var electorate := Free(Electorate(S.st, log, esc.position, esc.at), {S.info.sender, S.info.receiver});
      var ballots := CollectBallots(log, BallotPick(S.tx), esc.position);
      var tally := CountEscalation(ballots, electorate, S.params, esc.at, close);
      match TerminalOutcome(tally) {
        case Some(Upheld) => return EscalationUpheld;
        case Some(Rejected) => return EscalationRejected;
        case None => return EscalationLapsed;
      }
    }
  }
}
