/** What a dispute's resolution means, in the parameters' numbers and the log's own entries
    (crates/rrn-dispute/src/resolution.rs, crates/rrn-dispute/src/escalation.rs). */
module ResolutionMeaning {
  import opened Basics
  import opened Panel
  import opened PanelLockIn
  import opened Docket
  import opened Sortition
  import opened JuryPool
  import opened Resolution
  import opened DisputeFinality
  import opened DisputeDesk

  // --- The escalation vote ----------------------------------------------------

  /** `e` is a self-signed ballot on this dispute's escalation. */
  predicate IsBallot(S: Setup, e: Entry) {
    e.record.EscalationBallot? && e.record.tx == S.tx && e.signer == e.record.voter
  }

  /** The members who may vote: the electorate at the escalation's own position, without the parties. */
  function Entitled(S: Setup, log: Log, esc: Opened): set<Address> {
    set a | a in S.st.electorate(Seen(log, esc.position), esc.at) && a != S.info.sender && a != S.info.receiver
  }

  /** When the vote closes: its own window, never past the dispute's. */
  function VoteCloses(S: Setup, esc: Opened): int {
    if esc.at + S.params.escalationWindow <= S.info.openedAt + S.params.windowSeconds
    then esc.at + S.params.escalationWindow else S.info.openedAt + S.params.windowSeconds
  }

  /** The entitled members whose first ballot after the escalation takes this side, inside the window. */
  function Siding(S: Setup, log: Log, esc: Opened, uphold: bool): set<Address> {
    set k | esc.position <= k < |log| && IsBallot(S, log[k]) && log[k].record.uphold == uphold
            && (forall j :: esc.position <= j < k ==> !(IsBallot(S, log[j]) && log[j].signer == log[k].signer))
            && esc.at <= log[k].at <= VoteCloses(S, esc) && log[k].signer in Entitled(S, log, esc)
      :: log[k].signer
  }

  /** `who`'s first ballot after the escalation stands at index `k`. */
  predicate FirstBallotAt(S: Setup, log: Log, esc: Opened, who: Address, k: nat) {
    && esc.position <= k < |log| && IsBallot(S, log[k]) && log[k].signer == who
    && forall j :: esc.position <= j < k ==> !(IsBallot(S, log[j]) && log[j].signer == who)
  }

  lemma {:induction false} BallotBox(S: Setup, log: Log, esc: Opened, who: Address)
    ensures who in EscalationBallots(S, log, esc) ==>
              exists k: nat :: FirstBallotAt(S, log, esc, who, k)
                               && EscalationBallots(S, log, esc)[who] == Ballot(log[k].record.uphold, log[k].at)
    ensures who !in EscalationBallots(S, log, esc) ==>
              forall k :: esc.position <= k < |log| ==> !(IsBallot(S, log[k]) && log[k].signer == who)
  {
    hide FirstBallots;
    var pick := BallotPick(S.tx);
    BallotMeaning(log, pick, esc.position, |log|, who);
    forall k | esc.position <= k < |log|
      ensures (IsBallot(S, log[k]) && log[k].signer == who) <==> (pick(log[k]).Some? && pick(log[k]).value.who == who)
    {
    }
    if who in EscalationBallots(S, log, esc) {
      var k: nat :| FirstCastAt(log, pick, esc.position, |log|, who, k)
                    && EscalationBallots(S, log, esc)[who] == Ballot(pick(log[k]).value.uphold, log[k].at);
      assert FirstBallotAt(S, log, esc, who, k);
    }
  }

  lemma {:induction false} CreditedIsSiding(S: Setup, log: Log, esc: Opened, uphold: bool)
    ensures CreditedVoters(EscalationBallots(S, log, esc), EscalationElectorate(S, log, esc), esc.at,
                           EscalationClose(S, esc.at), uphold)
         == Siding(S, log, esc, uphold)
    ensures EscalationElectorate(S, log, esc) == Entitled(S, log, esc)
  {
    hide EscalationBallots, Electorate, Seen;
    ElectorateMeans(S.st, log, esc.position, esc.at);
    assert EscalationElectorate(S, log, esc) == Entitled(S, log, esc);
    hide EscalationElectorate, Entitled;
    var ballots := EscalationBallots(S, log, esc);
    var credited := CreditedVoters(ballots, Entitled(S, log, esc), esc.at, VoteCloses(S, esc), uphold);
    forall who ensures who in credited <==> who in Siding(S, log, esc, uphold) {
      BallotBox(S, log, esc, who);
      SidingAt(S, log, esc, uphold, who);
      if who in ballots {
        var k: nat :| FirstBallotAt(S, log, esc, who, k) && ballots[who] == Ballot(log[k].record.uphold, log[k].at);
      }
    }
    assert credited == Siding(S, log, esc, uphold);
  }

  lemma {:induction false} SidingAt(S: Setup, log: Log, esc: Opened, uphold: bool, who: Address)
    ensures who in Siding(S, log, esc, uphold) <==>
              exists k: nat :: FirstBallotAt(S, log, esc, who, k) && log[k].record.uphold == uphold
                               && esc.at <= log[k].at <= VoteCloses(S, esc) && who in Entitled(S, log, esc)
  {
    hide Entitled, VoteCloses;
    if k: nat :| FirstBallotAt(S, log, esc, who, k) && log[k].record.uphold == uphold
                 && esc.at <= log[k].at <= VoteCloses(S, esc) && who in Entitled(S, log, esc) {
      assert log[k].signer == who;
    }
  }

  /** A governing escalation is pending until its close. Then it is upheld when enough voted and enough of
      them to uphold, rejected when enough voted but not enough of them, and lapsed when too few voted. */
  lemma {:induction false} EscalationMeans(S: Setup, log: Log, now: int, esc: Opened)
    requires Settings(S) && GoverningEscalation(S, log, now) == Some(esc)
    ensures (var u, r, n := |Siding(S, log, esc, true)|, |Siding(S, log, esc, false)|, |Entitled(S, log, esc)|;
             var quorum := u + r > 0 && 100 * (u + r) >= S.params.quorumPct * n;
             var approved := 100 * u >= S.params.approvalPct * (u + r);
             var decision := Decide(S, log, now);
             && (decision == EscalationPending <==> now < VoteCloses(S, esc))
             && (decision == EscalationUpheld <==> now >= VoteCloses(S, esc) && quorum && approved)
             && (decision == EscalationRejected <==> now >= VoteCloses(S, esc) && quorum && !approved)
             && (decision == EscalationLapsed <==> now >= VoteCloses(S, esc) && !quorum))
  {
    hide GoverningEscalation, CreditedVoters, EscalationBallots, EscalationElectorate, Siding, Entitled, JuryOutcome, JuryRuledAt;
    CreditedIsSiding(S, log, esc, true);
    CreditedIsSiding(S, log, esc, false);
  }

  // --- Which escalation governs -----------------------------------------------

  /** `esc` is the first escalation of the dispute on the log. */
  predicate FirstEscalation(S: Setup, log: Log, esc: Opened) {
    && 1 <= esc.position <= |log|
    && log[esc.position - 1].record.Escalation? && log[esc.position - 1].record.tx == S.tx
    && log[esc.position - 1].record.initiator == esc.initiator && log[esc.position - 1].record.reason == esc.reason
    && log[esc.position - 1].at == esc.at
    && forall j :: 0 <= j < esc.position - 1 ==> !(log[j].record.Escalation? && log[j].record.tx == S.tx)
  }

  lemma {:induction false} FirstEscalationRead(S: Setup, log: Log, n: nat, esc: Opened)
    requires n <= |log|
    ensures EscalationIn(log, S.tx, n) == Some(esc) <==> FirstEscalation(S, log, esc) && esc.position <= n
    ensures EscalationIn(log, S.tx, n) == None ==> forall j :: 0 <= j < n ==> !(log[j].record.Escalation? && log[j].record.tx == S.tx)
  {
    if n > 0 {
      FirstEscalationRead(S, log, n - 1, esc);
      if EscalationIn(log, S.tx, n - 1).Some? {
        FirstEscalationRead(S, log, n - 1, EscalationIn(log, S.tx, n - 1).value);
      }
    }
  }

  /** The first escalation governs exactly when a party opened it and, as an appeal, it was admitted from the
      ruling on and inside both the appeal window and the dispute's, or, for want of jurors, inside the
      dispute's while the pool is no larger than half a panel. */
  lemma {:induction false} GoverningMeans(S: Setup, log: Log, now: int, esc: Opened)
    requires Settings(S)
    ensures (var closes := S.info.openedAt + S.params.windowSeconds;
             GoverningEscalation(S, log, now) == Some(esc)
             <==>
             && FirstEscalation(S, log, esc) && (esc.initiator == S.info.sender || esc.initiator == S.info.receiver)
             && match esc.reason
                case Appeal =>
                  && JuryOutcome(S, log, now).Some? && JuryRuledAt(S, log, now).Some?
                  && JuryRuledAt(S, log, now).value <= esc.at <= JuryRuledAt(S, log, now).value + S.params.appealWindow
                  && esc.at <= closes
                case CannotSeat =>
                  2 * |EligiblePool(S, log)| <= S.params.panelSize && S.info.openedAt <= esc.at <= closes)
  {
    hide JuryOutcome, JuryRuledAt, EligiblePool, FirstEscalation;
    FirstEscalationRead(S, log, |log|, esc);
    if FirstEscalation(S, log, esc) {
      assert esc.position <= |log| by { PositionFits(S, log, esc); }
    }
  }

  lemma {:induction false} PositionFits(S: Setup, log: Log, esc: Opened)
    requires FirstEscalation(S, log, esc)
    ensures esc.position <= |log|
  {
  }

  // --- The jury ---------------------------------------------------------------

  lemma {:induction false} OutcomeMeans(S: Setup, log: Log, now: int)
    ensures JuryOutcome(S, log, now) == Some(Upheld) <==> 2 * Votes(PanelAt(S, log, now), true) > S.params.panelSize
    ensures JuryOutcome(S, log, now) == Some(Rejected) <==> 2 * Votes(PanelAt(S, log, now), false) > S.params.panelSize
  {
    hide Seats, Votes;
    BothSides(PanelAt(S, log, now));
    PanelSize(PanelQuery(S, log, now), S.info.openedAt, S.params.panelSize);
  }

  /** With no escalation governing, a majority of the panel decides once its appeal window or the dispute's
      is over; without one the dispute lapses when its window is over. */
  lemma {:induction false} JuryMeans(S: Setup, log: Log, now: int)
    requires Settings(S) && GoverningEscalation(S, log, now).None?
    ensures (var up := 2 * Votes(PanelAt(S, log, now), true) > S.params.panelSize;
             var down := 2 * Votes(PanelAt(S, log, now), false) > S.params.panelSize;
             var closes, ruledAt := S.info.openedAt + S.params.windowSeconds, JuryRuledAt(S, log, now);
             var decision := Decide(S, log, now);
             && (up || down ==> ruledAt.Some?)
             && (decision == JuryUpheld <==> up && (now > ruledAt.value + S.params.appealWindow || now > closes))
             && (decision == JuryRejected <==> down && (now > ruledAt.value + S.params.appealWindow || now > closes))
             && (decision == AwaitingAppeal <==> (up || down) && now <= ruledAt.value + S.params.appealWindow && now <= closes)
             && (decision == Lapsed <==> !up && !down && now >= closes)
             && (decision == Pending <==> !up && !down && now < closes))
  {
    hide GoverningEscalation, JuryOutcome, JuryRuledAt, PanelAt;
    OutcomeMeans(S, log, now);
    if JuryOutcome(S, log, now).Some? {
      OutcomeInstant(S, log, now);
    }
    NotBoth(S, log, now);
  }

  lemma {:induction false} OutcomeInstant(S: Setup, log: Log, now: int)
    requires Settings(S) && JuryOutcome(S, log, now).Some?
    ensures JuryRuledAt(S, log, now).Some?
  {
    hide PanelQuery, Seats, RuledWhen, Ruling;
    assert PanelQuery(S, log, now).response >= 0 by { ResponseOf(S, log, now); }
    RulingHasInstant(PanelQuery(S, log, now), S.info.openedAt, S.params.panelSize);
  }

  lemma {:induction false} ResponseOf(S: Setup, log: Log, now: int)
    ensures PanelQuery(S, log, now).response == S.params.jurorResponse
  {
  }

  lemma {:induction false} NotBoth(S: Setup, log: Log, now: int)
    ensures JuryOutcome(S, log, now).Some? ==> JuryOutcome(S, log, now) == Some(Upheld) || JuryOutcome(S, log, now) == Some(Rejected)
  {
  }

  /** `e` is a self-signed verdict on this dispute. */
  predicate IsVerdict(S: Setup, e: Entry) {
    e.record.Verdict? && e.record.tx == S.tx && e.signer == e.record.juror
  }

  /** The jurors whose first verdict since the dispute was admitted takes this side. */
  function Finding(S: Setup, log: Log, uphold: bool): set<Address> {
    set k | S.info.openedSeq <= k < |log| && IsVerdict(S, log[k]) && log[k].record.uphold == uphold
            && (forall j :: S.info.openedSeq <= j < k ==> !(IsVerdict(S, log[j]) && log[j].signer == log[k].signer))
      :: log[k].signer
  }

  lemma {:induction false} VerdictsAreFindings(S: Setup, log: Log, uphold: bool)
    ensures JurorsFor(VerdictsIn(S, log), uphold) == Finding(S, log, uphold)
  {
    hide FirstBallots;
    var ballots, pick, after := VerdictsIn(S, log), VerdictPick(S.tx), S.info.openedSeq;
    forall who | who in JurorsFor(ballots, uphold) ensures who in Finding(S, log, uphold) {
      BallotMeaning(log, pick, after, |log|, who);
      var k: nat :| FirstCastAt(log, pick, after, |log|, who, k) && ballots[who] == Ballot(pick(log[k]).value.uphold, log[k].at);
      assert log[k].signer == who;
    }
    forall who | who in Finding(S, log, uphold) ensures who in JurorsFor(ballots, uphold) {
      var k :| after <= k < |log| && IsVerdict(S, log[k]) && log[k].record.uphold == uphold && log[k].signer == who
               && (forall j :: after <= j < k ==> !(IsVerdict(S, log[j]) && log[j].signer == log[k].signer));
      BallotMeaning(log, pick, after, |log|, who);
      assert pick(log[k]) == Some(Cast(who, uphold));
      var i: nat :| FirstCastAt(log, pick, after, |log|, who, i) && ballots[who] == Ballot(pick(log[i]).value.uphold, log[i].at);
      assert i == k;
    }
  }

  /** On a log of the gates, strictly past the dispute's window and with no escalation governing, the dispute is
      upheld exactly when the jurors who found so are more than half a panel, and rejected likewise. */
  lemma {:induction false} VerdictsDecide(S: Setup, log: Log, now: int)
    requires Settings(S) && Sound(S.st) && Gated(S, log) && GoverningEscalation(S, log, now).None?
    requires now > S.info.openedAt + S.params.windowSeconds
    ensures Decide(S, log, now) == JuryUpheld <==> 2 * |Finding(S, log, true)| > S.params.panelSize
    ensures Decide(S, log, now) == JuryRejected <==> 2 * |Finding(S, log, false)| > S.params.panelSize
  {
    hide GoverningEscalation, PanelAt, VerdictsIn, Gated, Decide, JuryRuledAt, Sound, Finding;
    VerdictsInTime(S, log);
    JuryMeans(S, log, now);
    TallyCountsAdmitted(S, log, now, true);
    TallyCountsAdmitted(S, log, now, false);
    VerdictsAreFindings(S, log, true);
    VerdictsAreFindings(S, log, false);
  }

  /** Enacting voids the transfer when the jury or the vote upheld the dispute, settles it on every other
      terminal resolution, and leaves it disputed otherwise. */
  lemma {:induction false} EnactedMeans(r: Resolution)
    ensures Enacted(r) == Voided <==> r == JuryUpheld || r == EscalationUpheld
    ensures Enacted(r) == Disputed <==> r == Pending || r == AwaitingAppeal || r == EscalationPending
    ensures Enacted(r) == Disputed <==> !Terminal(r)
  {
  }

  // --- Who may sit ------------------------------------------------------------

  /** The electorate at the dispute's opening, without the parties and everyone tied to either. */
  function Untied(S: Setup, log: Log): set<Address> {
    set a | a in S.st.electorate(Seen(log, S.info.openedSeq), S.info.openedAt)
            && a != S.info.sender && a != S.info.receiver
            && !Tied(log, a, S.info.sender, S.info.openedSeq) && !Tied(log, a, S.info.receiver, S.info.openedSeq)
  }

  /** Whoever holds a seat is of the electorate at the opening and no party, and is tied to a party by a
      vouch only when fewer members than a panel are not. */
  lemma {:induction false} SeatsMean(S: Setup, log: Log, now: int, s: Seat)
    requires Settings(S) && Sound(S.st) && s in PanelAt(S, log, now)
    ensures s.juror in S.st.electorate(Seen(log, S.info.openedSeq), S.info.openedAt)
    ensures s.juror != S.info.sender && s.juror != S.info.receiver
    ensures (Tied(log, s.juror, S.info.sender, S.info.openedSeq) || Tied(log, s.juror, S.info.receiver, S.info.openedSeq)) ==>
              |Untied(S, log)| < S.params.panelSize
  {
    hide Seats, Pool, Draw, Vouchers, Vouchees, Tied, Electorate, Sound;
    var n := S.info.openedSeq;
    ElectorateMeans(S.st, log, n, S.info.openedAt);
    PanelShape(PanelQuery(S, log, now), S.info.openedAt, S.params.panelSize);
    var c := InPool(S, log, s.juror);
    PoolRecuses(S.st, log, Parties(S.info), Recused(S, log), S.info.openedAt, n, S.params.panelSize, c);
    forall a ensures a in Recused(S, log) <==> Tied(log, a, S.info.sender, n) || Tied(log, a, S.info.receiver, n) {
      VouchesMean(log, a, S.info.sender, n);
      VouchesMean(log, a, S.info.receiver, n);
    }
    assert Free(Electorate(S.st, log, n, S.info.openedAt), Parties(S.info) + Recused(S, log)) == Untied(S, log);
  }

  lemma {:induction false} InPool(S: Setup, log: Log, j: Address) returns (c: Candidate)
    requires j in Jury(S, log)
    ensures c in EligiblePool(S, log) && c.who == j
  {
    hide EligiblePool, Draw;
    var pool := EligiblePool(S, log);
    DrawPermutes(pool, S.draw);
    assert j in multiset(Jury(S, log));
    assert j in multiset(Keys(pool));
    var i :| 0 <= i < |Keys(pool)| && Keys(pool)[i] == j;
    c := pool[i];
  }

  /** So the verdict door takes, while the dispute's window is open, the first verdict of a member of that
      electorate who is no party, dated at most five minutes ahead. */
  lemma {:induction false} VerdictMeans(S: Setup, log: Log, juror: Address, castAt: int, signer: Address, at: int)
    requires Settings(S) && Sound(S.st) && VerdictOk(S, log, juror, castAt, signer, at)
    ensures signer == juror && castAt <= at + 300 && at <= S.info.openedAt + S.params.windowSeconds
    ensures juror in S.st.electorate(Seen(log, S.info.openedSeq), S.info.openedAt)
    ensures juror != S.info.sender && juror != S.info.receiver
    ensures forall k :: S.info.openedSeq <= k < |log| ==>
              !(log[k].record.Verdict? && log[k].record.tx == S.tx && log[k].signer == juror && log[k].record.juror == juror)
  {
    hide Seats, Sound, FirstBallots, Seen, Jury;
    var s :| s in PanelAt(S, log, at) && s.juror == juror && s.verdict.None?;
    SeatsMean(S, log, at, s);
    BallotMeaning(log, VerdictPick(S.tx), S.info.openedSeq, |log|, juror);
    forall k | S.info.openedSeq <= k < |log|
      ensures !(log[k].record.Verdict? && log[k].record.tx == S.tx && log[k].signer == juror && log[k].record.juror == juror)
    {
      assert VerdictPick(S.tx)(log[k]).None? || VerdictPick(S.tx)(log[k]).value.who != juror;
    }
  }

  /** The escalation door takes the first escalation of the dispute, from a party, when its reason holds of the
      jury as of its own admission. */
  lemma {:induction false} EscalationDoorMeans(S: Setup, log: Log, initiator: Address, reason: Reason, signer: Address, at: int)
    requires Settings(S) && EscalationOk(S, log, initiator, reason, signer, at)
    ensures signer == initiator && (initiator == S.info.sender || initiator == S.info.receiver)
    ensures forall j :: 0 <= j < |log| ==> !(log[j].record.Escalation? && log[j].record.tx == S.tx)
    ensures at <= S.info.openedAt + S.params.windowSeconds
    ensures reason == Appeal ==>
              && (2 * Votes(PanelAt(S, log, at), true) > S.params.panelSize || 2 * Votes(PanelAt(S, log, at), false) > S.params.panelSize)
              && JuryRuledAt(S, log, at).Some?
              && JuryRuledAt(S, log, at).value <= at <= JuryRuledAt(S, log, at).value + S.params.appealWindow
    ensures reason == CannotSeat ==> 2 * |EligiblePool(S, log)| <= S.params.panelSize && S.info.openedAt <= at
  {
    hide JuryOutcome, JuryRuledAt, EligiblePool, PanelAt;
    FirstEscalationRead(S, log, |log|, Opened(initiator, reason, at, 0));
    OutcomeMeans(S, log, at);
    NotBoth(S, log, at);
  }

  /** Its ballot door takes, inside the vote's window, the first ballot of an entitled member, dated at most five
      minutes ahead. */
  lemma {:induction false} BallotDoorMeans(S: Setup, log: Log, voter: Address, castAt: int, signer: Address, at: int)
    requires BallotOk(S, log, voter, castAt, signer, at)
    ensures EscalationIn(log, S.tx, |log|).Some?
    ensures (var esc := EscalationIn(log, S.tx, |log|).value;
             && signer == voter && castAt <= at + 300 && voter in Entitled(S, log, esc)
             && esc.at <= at <= VoteCloses(S, esc)
             && forall k :: esc.position <= k < |log| ==> !(IsBallot(S, log[k]) && log[k].signer == voter))
  {
    hide FirstBallots, EscalationIn, Entitled, EscalationElectorate;
    var esc := EscalationIn(log, S.tx, |log|).value;
    CreditedIsSiding(S, log, esc, true);
    BallotMeaning(log, BallotPick(S.tx), esc.position, |log|, voter);
    forall k | esc.position <= k < |log| ensures !(IsBallot(S, log[k]) && log[k].signer == voter) {
      assert BallotPick(S.tx)(log[k]).None? || BallotPick(S.tx)(log[k]).value.who != voter;
    }
  }
}
