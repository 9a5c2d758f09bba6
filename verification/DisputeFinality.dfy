/** Over every run of the gates: what they admit counts on replay, and a terminal resolution
    never changes. */
module DisputeFinality {
  import opened Basics
  import opened Panel
  import opened PanelLockIn
  import opened Docket
  import opened Sortition
  import opened JuryPool
  import opened Resolution

  // --- The jury is pinned -----------------------------------------------------

  /** Every log agreeing on the entries up to the dispute gives the same pool and seating order. */
  lemma {:induction false} JuryPinned(S: Setup, log: Log, log': Log)
    requires Upto(log', S.info.openedSeq) == Upto(log, S.info.openedSeq)
    ensures EligiblePool(S, log') == EligiblePool(S, log)
    ensures Jury(S, log') == Jury(S, log)
  {
    RecusalPinned(log, log', S.info.sender, S.info.openedSeq);
    RecusalPinned(log, log', S.info.receiver, S.info.openedSeq);
    PoolPinned(S.st, log, log', Parties(S.info), Recused(S, log), S.info.openedAt, S.info.openedSeq, S.params.panelSize);
  }

  /** No party is ever in the pool, and a party's voucher or vouchee only when the members free of
      every recusal cannot fill a panel. */
  lemma {:induction false} JuryRecuses(S: Setup, log: Log, c: Candidate)
    requires Sound(S.st) && c in EligiblePool(S, log)
    ensures c.who != S.info.sender && c.who != S.info.receiver
    ensures c.who in Recused(S, log) ==>
      |Free(Electorate(S.st, log, S.info.openedSeq, S.info.openedAt), Parties(S.info) + Recused(S, log))|
        < S.params.panelSize
  {
    PoolRecuses(S.st, log, Parties(S.info), Recused(S, log), S.info.openedAt, S.info.openedSeq, S.params.panelSize, c);
  }

  lemma {:induction false} JuryDistinct(S: Setup, log: Log)
    requires Sound(S.st)
    ensures Distinct(Jury(S, log)) && |Jury(S, log)| == |EligiblePool(S, log)|
  {
    var pool := EligiblePool(S, log);
    PoolDistinct(S.st, log, Parties(S.info), Recused(S, log), S.info.openedAt, S.info.openedSeq, S.params.panelSize);
    DrawDistinct(pool, S.draw);
  }

  // --- Readings of a growing log ----------------------------------------------

  /** Everything `log'` adds to `log` was admitted at or after `since`. */
  predicate Extends(log: Log, log': Log, since: int) {
    IsPrefix(log, log') && forall k :: |log| <= k < |log'| ==> log'[k].at >= since
  }

  lemma {:induction false} VerdictsGrow(S: Setup, log: Log, log': Log, since: int)
    requires Extends(log, log', since)
    ensures forall j :: j in VerdictsIn(S, log) ==> j in VerdictsIn(S, log') && VerdictsIn(S, log')[j] == VerdictsIn(S, log)[j]
    ensures forall j :: j in VerdictsIn(S, log') && j !in VerdictsIn(S, log) ==> VerdictsIn(S, log')[j].admittedAt >= since
  {
    var pick, after := VerdictPick(S.tx), S.info.openedSeq;
    assert log[..|log|] == log;
    BallotsLocal(log, log', pick, after, |log|);
    BallotsGrow(log', pick, after, |log|, |log'|, since);
  }

  lemma {:induction false} QueriesLater(S: Setup, log: Log, now: int, log': Log, now': int)
    requires Extends(log, log', now) && S.info.openedSeq <= |log| && now <= now'
    ensures Later(PanelQuery(S, log, now), PanelQuery(S, log', now'))
  {
    hide FirstBallots, Draw, Pool;
    UptoPrefix(log, log', S.info.openedSeq);
    JuryPinned(S, log, log');
    VerdictsGrow(S, log, log', now);
  }

  /** A reached jury ruling and its instant are the same in every later reading. */
  lemma {:induction false} JuryFinal(S: Setup, log: Log, now: int, log': Log, now': int)
    requires Extends(log, log', now) && S.info.openedSeq <= |log| && now <= now' && Settings(S)
    requires JuryOutcome(S, log, now).Some?
    ensures JuryOutcome(S, log', now') == JuryOutcome(S, log, now)
    ensures JuryRuledAt(S, log', now') == JuryRuledAt(S, log, now)
    ensures JuryRuledAt(S, log, now).Some?
  {
    hide VerdictsIn, Jury, Seats;
    QueriesLater(S, log, now, log', now');
    var q, q' := PanelQuery(S, log, now), PanelQuery(S, log', now');
    TallyLockIn(q, q', S.info.openedAt, S.params.panelSize);
    RulingInstantLockIn(q, q', S.info.openedAt, S.params.panelSize);
    RulingHasInstant(q, S.info.openedAt, S.params.panelSize);
  }

  // --- Verdicts: gate and replay agree ----------------------------------------

  predicate CastsVerdict(S: Setup, e: Entry) {
    e.record.Verdict? && e.record.tx == S.tx
  }

  lemma {:induction false} VerdictJoins(S: Setup, log: Log, e: Entry)
    requires CastsVerdict(S, e) && e.signer == e.record.juror && e.record.juror !in VerdictsIn(S, log)
    requires S.info.openedSeq <= |log|
    ensures VerdictsIn(S, log + [e]) == VerdictsIn(S, log)[e.record.juror := Ballot(e.record.uphold, e.at)]
  {
    var log' := log + [e];
    assert log'[..|log|] == log && log[..|log|] == log;
    BallotsLocal(log, log', VerdictPick(S.tx), S.info.openedSeq, |log|);
    assert log'[|log|] == e;
  }

  predicate CreditedIn(seats: seq<Seat>, j: Address, uphold: bool) {
    exists s :: s in seats && s.juror == j && s.verdict == Some(uphold)
  }

  /** Every verdict the gate admits is credited in that juror's seat by the panel derived at every
      later instant, whatever is admitted after it. */
  lemma {:induction false} AdmittedVerdictCounts(S: Setup, log: Log, k: nat, now: int)
    requires Settings(S) && Gated(S, log) && S.info.openedSeq <= k < |log| && CastsVerdict(S, log[k])
    requires log[k].at <= now
    ensures CreditedIn(PanelAt(S, log, now), log[k].record.juror, log[k].record.uphold)
  {
    hide Seats, FirstBallots, Jury;
    var e, before, after := log[k], log[..k], log[..k + 1];
    assert after == before + [e];
    assert VerdictOk(S, before, e.record.juror, e.record.castAt, e.signer, e.at);
    var s :| s in PanelAt(S, before, e.at) && s.juror == e.record.juror && s.verdict.None?;
    VerdictJoins(S, before, e);
    var q, q1, q' := PanelQuery(S, before, e.at), PanelQuery(S, after, e.at), PanelQuery(S, log, now);
    JuryPinned(S, before, after) by {
      UptoPrefix(before, after, S.info.openedSeq);
    }
    assert q1 == q.(ballots := WithBallot(q, s.juror, e.record.uphold, q.now));
    QueriesLater(S, after, e.at, log, now);
    AdmittedVerdictCredited(q, q', S.info.openedAt, S.params.panelSize, s, e.record.uphold);
    assert s.(verdict := Some(e.record.uphold)) in PanelAt(S, log, now);
  }

  // --- The tally is a plain count of the admitted verdicts --------------------

  function JurorsVoting(seats: seq<Seat>, want: bool): set<Address> {
    set s | s in seats && s.verdict == Some(want) :: s.juror
  }

  lemma {:induction false} JurorsStep(seats: seq<Seat>, want: bool)
    requires seats != []
    ensures JurorsVoting(seats, want)
         == JurorsVoting(seats[1..], want) + (if seats[0].verdict == Some(want) then {seats[0].juror} else {})
  {
    assert forall s :: s in seats <==> s == seats[0] || s in seats[1..];
  }

  lemma {:induction false} VotesAreJurors(seats: seq<Seat>, want: bool)
    requires forall j :: SeatsOf(seats, j) <= 1
    ensures Votes(seats, want) == |JurorsVoting(seats, want)|
  {
    hide SeatsOf, Votes;
    if seats == [] {
      NobodyVoting(want);
    } else {
      var rest, first := seats[1..], seats[0].juror;
      forall j ensures SeatsOf(rest, j) <= 1 {
        SeatStep(seats, j, want);
      }
      VotesAreJurors(rest, want);
      SeatStep(seats, first, want);
      JurorsStep(seats, want);
      if first in JurorsVoting(rest, want) {
        var s :| s in rest && s.verdict == Some(want) && s.juror == first;
        SeatedOnce(rest, s);
        assert false;
      }
    }
  }

  lemma {:induction false} NobodyVoting(want: bool)
    ensures Votes([], want) == 0 && JurorsVoting([], want) == {}
  {
  }

  function JurorsFor(ballots: Ballots, want: bool): set<Address> {
    set j | j in ballots && ballots[j].uphold == want
  }

  predicate AllAdmittedBy(ballots: Ballots, now: int) {
    forall j :: j in ballots ==> ballots[j].admittedAt <= now
  }

  lemma {:induction false} EveryVerdictCredited(S: Setup, log: Log, now: int, j: Address)
    requires Settings(S) && Gated(S, log) && j in VerdictsIn(S, log) && VerdictsIn(S, log)[j].admittedAt <= now
    ensures CreditedIn(PanelAt(S, log, now), j, VerdictsIn(S, log)[j].uphold)
  {
    var pick, after := VerdictPick(S.tx), S.info.openedSeq;
    BallotMeaning(log, pick, after, |log|, j);
    var i: nat :| FirstCastAt(log, pick, after, |log|, j, i)
                  && VerdictsIn(S, log)[j] == Ballot(pick(log[i]).value.uphold, log[i].at);
    AdmittedVerdictCounts(S, log, i, now);
  }

  /** Once every admitted verdict's instant has passed, the votes seated are exactly the verdicts
      admitted: no admitted verdict is dropped and none is counted twice. */
  lemma {:induction false} TallyCountsAdmitted(S: Setup, log: Log, now: int, want: bool)
    requires Settings(S) && Sound(S.st) && Gated(S, log) && AllAdmittedBy(VerdictsIn(S, log), now)
    ensures Votes(PanelAt(S, log, now), want) == |JurorsFor(VerdictsIn(S, log), want)|
  {
    hide VerdictsIn, Seats, Jury, Votes, SeatsOf, Gated;
    var q, seats := PanelQuery(S, log, now), PanelAt(S, log, now);
    JuryDistinct(S, log);
    forall j ensures SeatsOf(seats, j) <= 1 {
      NoJurorSeatedTwice(q, S.info.openedAt, S.params.panelSize, j);
    }
    VotesAreJurors(seats, want);
    PanelShape(q, S.info.openedAt, S.params.panelSize);
    forall j | j in JurorsFor(VerdictsIn(S, log), want) ensures j in JurorsVoting(seats, want) {
      EveryVerdictCredited(S, log, now, j);
      var s :| s in seats && s.juror == j && s.verdict == Some(want);
    }
    assert JurorsVoting(seats, want) == JurorsFor(VerdictsIn(S, log), want);
  }

  // --- Escalations: gate and replay agree -------------------------------------

  lemma {:induction false} EscalationLocal(log: Log, log': Log, tx: nat, n: nat)
    requires n <= |log| && n <= |log'| && log'[..n] == log[..n]
    ensures EscalationIn(log', tx, n) == EscalationIn(log, tx, n)
  {
    if n > 0 {
      assert log'[..n - 1] == log'[..n][..n - 1] && log[..n - 1] == log[..n][..n - 1];
      assert log'[n - 1] == log'[..n][n - 1] && log[n - 1] == log[..n][n - 1];
      EscalationLocal(log, log', tx, n - 1);
    }
  }

  lemma {:induction false} EscalationKept(S: Setup, log: Log, log': Log)
    requires IsPrefix(log, log') && EscalationIn(log, S.tx, |log|).Some?
    ensures EscalationIn(log', S.tx, |log'|) == EscalationIn(log, S.tx, |log|)
  {
    assert log[..|log|] == log;
    EscalationLocal(log, log', S.tx, |log|);
    EscalationStays(log', S.tx, |log|, |log'|);
  }

  /** An escalation first seen in `(m, n]` was admitted there. */
  lemma {:induction false} EscalationSeen(log: Log, tx: nat, m: nat, n: nat)
    requires m <= n <= |log| && EscalationIn(log, tx, m).None? && EscalationIn(log, tx, n).Some?
    ensures var esc := EscalationIn(log, tx, n).value;
            m < esc.position <= n && Escalates(log[esc.position - 1], tx)
            && esc == Opened(log[esc.position - 1].record.initiator, log[esc.position - 1].record.reason,
                             log[esc.position - 1].at, esc.position)
    decreases n
  {
    if EscalationIn(log, tx, n - 1).Some? {
      EscalationSeen(log, tx, m, n - 1);
    }
  }

  lemma {:induction false} ApplicabilityKept(
    S: Setup, log: Log, now: int, log': Log, now': int, reason: Reason, at: int)
    requires Extends(log, log', now) && S.info.openedSeq <= |log| && now <= now' && Settings(S)
    requires EscalationApplies(S, log, now, reason, at)
    ensures EscalationApplies(S, log', now', reason, at)
  {
    hide JuryOutcome, JuryRuledAt, EligiblePool;
    match reason {
      case Appeal => JuryFinal(S, log, now, log', now');
      case CannotSeat =>
        UptoPrefix(log, log', S.info.openedSeq);
        JuryPinned(S, log, log');
    }
  }

  /** An escalation the gate admits governs the dispute at every later reading. */
  lemma {:induction false} AdmittedEscalationGoverns(S: Setup, log: Log, k: nat, now: int)
    requires Settings(S) && Gated(S, log) && S.info.openedSeq <= k < |log| && Escalates(log[k], S.tx)
    requires log[k].at <= now
    ensures GoverningEscalation(S, log, now)
         == Some(Opened(log[k].record.initiator, log[k].record.reason, log[k].at, k + 1))
  {
    hide EscalationApplies;
    var e, before, after := log[k], log[..k], log[..k + 1];
    assert Admissible(S, before, e);
    assert EscalationIn(before, S.tx, k).None?;
    assert after[..k] == before[..k] && log[..k + 1] == after[..k + 1];
    EscalationLocal(before, after, S.tx, k);
    assert EscalationIn(after, S.tx, k + 1) == Some(Opened(e.record.initiator, e.record.reason, e.at, k + 1));
    EscalationKept(S, after, log);
    ApplicabilityKept(S, before, e.at, log, now, e.record.reason, e.at);
  }

  lemma {:induction false} ElectorateKept(S: Setup, log: Log, log': Log, esc: Opened)
    requires IsPrefix(log, log') && esc.position <= |log|
    ensures EscalationElectorate(S, log', esc) == EscalationElectorate(S, log, esc)
  {
    ElectoratePinned(S.st, log, log', esc.position, esc.at);
  }

  predicate CountsFor(S: Setup, log: Log, esc: Opened, voter: Address, uphold: bool) {
    voter in CreditedVoters(EscalationBallots(S, log, esc), EscalationElectorate(S, log, esc),
                            esc.at, EscalationClose(S, esc.at), uphold)
  }

  lemma {:induction false} BallotJoins(log: Log, log': Log, pick: Entry -> Option<Cast>, after: nat, e: Entry, cast: Cast)
    requires IsPrefix(log + [e], log') && after <= |log|
    requires pick(e) == Some(cast) && cast.who !in FirstBallots(log, pick, after, |log|)
    ensures var box := FirstBallots(log', pick, after, |log'|);
            cast.who in box && box[cast.who] == Ballot(cast.uphold, e.at)
  {
    var mid := log + [e];
    assert mid[..|log|] == log[..|log|] && mid[|log|] == e;
    BallotsLocal(log, mid, pick, after, |log|);
    assert mid[..|mid|] == mid;
    BallotsLocal(mid, log', pick, after, |mid|);
    BallotsKept(log', pick, after, |mid|, |log'|, cast.who);
  }

  /** Every ballot the gate admits is credited, on the side it was cast for, whenever the vote is
      tallied on this or any longer log. */
  lemma {:induction false} AdmittedBallotCounts(S: Setup, log: Log, k: nat, log': Log)
    requires Gated(S, log) && S.info.openedSeq <= k < |log| && IsPrefix(log, log')
    requires log[k].record.EscalationBallot? && log[k].record.tx == S.tx
    ensures EscalationIn(log', S.tx, |log'|).Some?
    ensures CountsFor(S, log', EscalationIn(log', S.tx, |log'|).value, log[k].record.voter, log[k].record.uphold)
  {
    hide FirstBallots, EscalationIn, Electorate;
    var e, before := log[k], log[..k];
    assert Admissible(S, before, e);
    var esc := EscalationIn(before, S.tx, k).value;
    assert IsPrefix(before, log') by { PrefixUpto(log, log', k); }
    EscalationKept(S, before, log');
    EscalationPositioned(before, S.tx);
    ElectorateKept(S, before, log', esc);
    assert before + [e] == log[..k + 1];
    PrefixUpto(log, log', k + 1);
    BallotJoins(before, log', BallotPick(S.tx), esc.position, e, Cast(e.record.voter, e.record.uphold));
  }

  lemma {:induction false} EscalationPositioned(log: Log, tx: nat)
    requires EscalationIn(log, tx, |log|).Some?
    ensures EscalationIn(log, tx, |log|).value.position <= |log|
  {
    EscalationSeen(log, tx, 0, |log|);
  }

  lemma {:induction false} BallotsKept(log: Log, pick: Entry -> Option<Cast>, after: nat, m: nat, n: nat, j: Address)
    requires m <= n <= |log| && j in FirstBallots(log, pick, after, m)
    ensures j in FirstBallots(log, pick, after, n)
         && FirstBallots(log, pick, after, n)[j] == FirstBallots(log, pick, after, m)[j]
    decreases n
  {
    if m < n {
      BallotsKept(log, pick, after, m, n - 1, j);
    }
  }

  // --- Termination and finality -----------------------------------------------

  /** Strictly past the main window every dispute has a terminal resolution. */
  lemma {:induction false} DecideTerminates(S: Setup, log: Log, now: int)
    requires Settings(S) && now > MainClose(S)
    ensures Terminal(Decide(S, log, now))
  {
    hide JuryOutcome, JuryRuledAt, GoverningEscalation, EscalationTallyIn;
  }

  /** A terminal resolution read strictly after the deadline that governs it. */
  predicate StrictlySettled(S: Setup, log: Log, now: int)
    requires Settings(S)
  {
    match Decide(S, log, now)
    case JuryUpheld => true
    case JuryRejected => true
    case Lapsed => now > MainClose(S)
    case EscalationUpheld => PastEscalation(S, log, now)
    case EscalationRejected => PastEscalation(S, log, now)
    case EscalationLapsed => PastEscalation(S, log, now)
    case _ => false
  }

  predicate PastEscalation(S: Setup, log: Log, now: int) {
    var esc := GoverningEscalation(S, log, now);
    esc.Some? && now > EscalationClose(S, esc.value.at)
  }

  lemma {:induction false} GoverningKept(S: Setup, log: Log, now: int, log': Log, now': int)
    requires Extends(log, log', now) && S.info.openedSeq <= |log| && now <= now' && Settings(S)
    requires GoverningEscalation(S, log, now).Some?
    ensures GoverningEscalation(S, log', now') == GoverningEscalation(S, log, now)
  {
    hide EscalationApplies;
    var esc := GoverningEscalation(S, log, now).value;
    EscalationKept(S, log, log');
    ApplicabilityKept(S, log, now, log', now', esc.reason, esc.at);
  }

  /** Ballots admitted after the close change nothing. */
  lemma {:induction false} EscalationTallyFinal(S: Setup, log: Log, now: int, log': Log, esc: Opened)
    requires Extends(log, log', now) && esc.position <= |log| && now > EscalationClose(S, esc.at)
    ensures EscalationTallyIn(S, log', esc) == EscalationTallyIn(S, log, esc)
  {
    ElectorateKept(S, log, log', esc);
    var pick := BallotPick(S.tx);
    assert log[..|log|] == log;
    BallotsLocal(log, log', pick, esc.position, |log|);
    BallotsGrow(log', pick, esc.position, |log|, |log'|, now);
    var close, electorate := EscalationClose(S, esc.at), EscalationElectorate(S, log, esc);
    var b, b' := EscalationBallots(S, log, esc), EscalationBallots(S, log', esc);
    assert CreditedVoters(b', electorate, esc.at, close, true) == CreditedVoters(b, electorate, esc.at, close, true);
    assert CreditedVoters(b', electorate, esc.at, close, false) == CreditedVoters(b, electorate, esc.at, close, false);
  }

  lemma {:induction false} RulingNeedsPool(S: Setup, log: Log, now: int)
    requires JuryOutcome(S, log, now).Some?
    ensures |EligiblePool(S, log)| >= Majority(S.params.panelSize)
  {
    hide Seats, Votes;
    var q := PanelQuery(S, log, now);
    PanelSize(q, S.info.openedAt, S.params.panelSize);
    BothSides(PanelAt(S, log, now));
    SortedWeighted(EligiblePool(S, log));
    KeySortedKeeps(EligiblePool(S, log));
  }

  /** After a ruling's appeal deadline no escalation can start to govern. */
  lemma {:induction false} NoLateEscalation(S: Setup, log: Log, now: int, log': Log, now': int)
    requires Extends(log, log', now) && S.info.openedSeq <= |log| && now <= now' && Settings(S)
    requires GoverningEscalation(S, log, now).None?
    requires JuryOutcome(S, log, now).Some? && JuryRuledAt(S, log, now).Some?
    requires now > AppealDeadline(S, JuryRuledAt(S, log, now).value)
    ensures GoverningEscalation(S, log', now').None?
  {
    hide JuryOutcome, JuryRuledAt, EligiblePool;
    JuryFinal(S, log, now, log', now');
    RulingNeedsPool(S, log, now);
    UptoPrefix(log, log', S.info.openedSeq);
    JuryPinned(S, log, log');
    if EscalationIn(log, S.tx, |log|).Some? {
      EscalationKept(S, log, log');
    } else {
      LaterEscalation(S, log, log', now);
    }
  }

  /** An escalation only `log'` has was admitted at or after `since`. */
  lemma {:induction false} LaterEscalation(S: Setup, log: Log, log': Log, since: int)
    requires Extends(log, log', since) && EscalationIn(log, S.tx, |log|).None?
    ensures EscalationIn(log', S.tx, |log'|).Some? ==> EscalationIn(log', S.tx, |log'|).value.at >= since
  {
    assert log[..|log|] == log;
    EscalationLocal(log, log', S.tx, |log|);
    if EscalationIn(log', S.tx, |log'|).Some? {
      EscalationSeen(log', S.tx, |log|, |log'|);
    }
  }

  /** Past the main window the gate admits no verdict, so a hung jury stays hung. */
  lemma {:induction false} HungStaysHung(S: Setup, log: Log, now: int, log': Log, now': int)
    requires Gated(S, log') && Extends(log, log', now) && S.info.openedSeq <= |log| && now <= now'
    requires Settings(S) && Sound(S.st) && now > MainClose(S)
    ensures JuryOutcome(S, log', now') == JuryOutcome(S, log, now)
  {
    hide Votes, Seats, JurorsFor, Jury, FirstBallots;
    GatedPrefix(S, log, log');
    var pick, after := VerdictPick(S.tx), S.info.openedSeq;
    assert log[..|log|] == log;
    BallotsLocal(log, log', pick, after, |log|);
    forall k | |log| <= k < |log'| ensures pick(log'[k]).None? {
      assert Admissible(S, log'[..k], log'[k]);
    }
    BallotsQuiet(log', pick, after, |log|, |log'|);
    VerdictsInTime(S, log');
    SameTally(S, log, now, log', now', true);
    SameTally(S, log, now, log', now', false);
    assert JuryOutcome(S, log', now') == Tally(PanelAt(S, log', now'), S.params.panelSize);
    assert JuryOutcome(S, log, now) == Tally(PanelAt(S, log, now), S.params.panelSize);
  }

  lemma {:induction false} SameTally(S: Setup, log: Log, now: int, log': Log, now': int, want: bool)
    requires Gated(S, log) && Gated(S, log') && Settings(S) && Sound(S.st) && now <= now'
    requires VerdictsIn(S, log') == VerdictsIn(S, log) && AllAdmittedBy(VerdictsIn(S, log), now)
    ensures Votes(PanelAt(S, log', now'), want) == Votes(PanelAt(S, log, now), want)
  {
    TallyCountsAdmitted(S, log, now, want);
    TallyCountsAdmitted(S, log', now', want);
  }

  lemma {:induction false} VerdictsInTime(S: Setup, log: Log)
    requires Gated(S, log)
    ensures AllAdmittedBy(VerdictsIn(S, log), MainClose(S))
  {
    hide MainClose;
    var pick, after := VerdictPick(S.tx), S.info.openedSeq;
    forall j | j in VerdictsIn(S, log) ensures VerdictsIn(S, log)[j].admittedAt <= MainClose(S) {
      BallotMeaning(log, pick, after, |log|, j);
      var i: nat :| FirstCastAt(log, pick, after, |log|, j, i)
                    && VerdictsIn(S, log)[j] == Ballot(pick(log[i]).value.uphold, log[i].at);
      assert Admissible(S, log[..i], log[i]);
    }
  }

  lemma {:induction false} LapseStays(S: Setup, log: Log, now: int, log': Log, now': int)
    requires Gated(S, log') && Extends(log, log', now) && S.info.openedSeq <= |log| && now <= now'
    requires Settings(S) && Sound(S.st) && now > MainClose(S)
    requires GoverningEscalation(S, log, now).None? && JuryOutcome(S, log, now).None?
    ensures GoverningEscalation(S, log', now').None? && JuryOutcome(S, log', now').None?
  {
    hide JuryOutcome, JuryRuledAt, EligiblePool, Gated;
    HungStaysHung(S, log, now, log', now');
    UptoPrefix(log, log', S.info.openedSeq);
    JuryPinned(S, log, log');
    if EscalationIn(log, S.tx, |log|).Some? {
      EscalationKept(S, log, log');
    } else {
      LaterEscalation(S, log, log', now);
    }
  }

  /** Finality: over every run of the gates, a terminal resolution read strictly after its governing
      deadline is the resolution at every later instant and on every later log. */
  lemma {:induction false} DisputeFinal(S: Setup, log: Log, now: int, log': Log, now': int)
    requires Gated(S, log') && Extends(log, log', now) && S.info.openedSeq <= |log| && now <= now'
    requires Settings(S) && Sound(S.st) && StrictlySettled(S, log, now)
    ensures Decide(S, log', now') == Decide(S, log, now)
  {
    hide JuryOutcome, JuryRuledAt, EscalationTallyIn, Gated, Sound, Extends;
    var esc := GoverningEscalation(S, log, now);
    if esc.Some? {
      GoverningKept(S, log, now, log', now');
      EscalationPositioned(log, S.tx);
      EscalationTallyFinal(S, log, now, log', esc.value);
    } else if JuryOutcome(S, log, now).Some? {
      JuryFinal(S, log, now, log', now');
      NoLateEscalation(S, log, now, log', now');
    } else {
      LapseStays(S, log, now, log', now');
    }
  }

  /** In particular every dispute is final from strictly past its main window on. */
  lemma {:induction false} FinalPastMainWindow(S: Setup, log: Log, now: int, log': Log, now': int)
    requires Gated(S, log') && Extends(log, log', now) && S.info.openedSeq <= |log| && now <= now'
    requires Settings(S) && Sound(S.st) && now > MainClose(S)
    ensures Terminal(Decide(S, log, now)) && Decide(S, log', now') == Decide(S, log, now)
  {
    hide JuryOutcome, JuryRuledAt, EscalationTallyIn, Gated, Sound, Extends, EscalationApplies;
    DecideTerminates(S, log, now);
    assert StrictlySettled(S, log, now);
    DisputeFinal(S, log, now, log', now');
  }

  /** And a reading the log itself has caught up with needs nothing of the clock: once an entry stamped
      past the main window is on the log, no later run changes the resolution. */
  lemma {:induction false} FinalOnceStamped(S: Setup, log: Log, now: int, log': Log, now': int)
    requires Gated(S, log') && IsPrefix(log, log') && S.info.openedSeq <= |log| && now <= now'
    requires Settings(S) && Sound(S.st) && log[|log| - 1].at >= now > MainClose(S)
    ensures Terminal(Decide(S, log, now)) && Decide(S, log', now') == Decide(S, log, now)
  {
    hide Decide, Sound, Admissible;
    PrefixAt(log, log', |log| - 1);
    assert Extends(log, log', now);
    FinalPastMainWindow(S, log, now, log', now');
  }
}
