/** What an equivocation case's rounds, readings and rulings mean, in the log's own entries
    (crates/rrn-dispute/src/equivocation.rs). */
module RoundMeaning {
  import opened Basics
  import opened Panel
  import opened PanelLockIn
  import opened Docket
  import opened Sortition
  import opened JuryPool
  import opened Equivocation
  import opened RoundJury
  import opened EquivocationRulings

  // --- What the doors take ----------------------------------------------------

  /** So on a log of the gates nobody votes in their own case. */
  lemma {:induction false} NobodyJudgesThemselves(C: Court, kase: Case, log: Log, k: nat)
    requires Sound(C.st) && C.params.jurorResponse >= 0 && BallotsGated(C, kase, log)
    requires k < |log| && log[k].record.EquivocationBallot? && log[k].record.id in kase.attached
    requires log[k].signer == log[k].record.juror
    ensures log[k].signer != kase.subject && log[k].signer !in kase.payees
  {
    hide BallotOk, Rounds, Sound;
    var e := log[k];
    var r :| r in Rounds(C, kase, log[..k], e.at) && r.index == e.record.round
             && BallotOk(C, kase, log[..k], e.record.juror, r, e.record.castAt, e.signer, e.at);
    BallotMeans(C, kase, log[..k], e.record.juror, r, e.record.castAt, e.signer, e.at);
  }

  /** A fresh round is asked for by another member of the electorate, once the current one's window is over. */
  lemma {:induction false} ReseatMeans(C: Court, kase: Case, log: Log, requester: Address, round: nat, signer: Address, at: int)
    requires ReseatOk(C, kase, log, requester, round, signer, at)
    ensures signer == requester && requester != kase.subject
    ensures requester in C.st.electorate(Seen(log, |log| + 1), at)
    ensures at >= Current(C, kase, log, at).openedAt + C.params.windowSeconds
    ensures round == Current(C, kase, log, at).index + 1
  {
    hide RoundDecision, Rounds, TerminalOf, Electorate, Seen;
    ElectorateMeans(C.st, log, |log| + 1, at);
  }

  /** `e` is a self-signed ballot of this case in round `round`. */
  predicate IsBallotOf(kase: Case, e: Entry, round: nat) {
    e.record.EquivocationBallot? && e.record.id in kase.attached && e.record.round == round && e.signer == e.record.juror
  }

  predicate FirstBallotOf(kase: Case, log: Log, round: nat, j: Address, k: nat) {
    && k < |log| && IsBallotOf(kase, log[k], round) && log[k].signer == j
    && forall i :: 0 <= i < k ==> !(IsBallotOf(kase, log[i], round) && log[i].signer == j)
  }

  /** What a round's panel reads: each juror's first ballot naming that round, with its admission instant. */
  lemma {:induction false} RoundBallotsMean(kase: Case, log: Log, round: nat, j: Address, b: Ballot)
    ensures j in RoundBallots(kase, log, round) && RoundBallots(kase, log, round)[j] == b <==>
              exists k: nat :: FirstBallotOf(kase, log, round, j, k) && b == Ballot(log[k].record.overturn, log[k].at)
  {
    hide FirstBallots;
    var pick, ballots := RoundPick(kase, round), RoundBallots(kase, log, round);
    BallotMeaning(log, pick, 0, |log|, j);
    if j in ballots {
      var k: nat :| FirstCastAt(log, pick, 0, |log|, j, k) && ballots[j] == Ballot(pick(log[k]).value.uphold, log[k].at);
      assert FirstBallotOf(kase, log, round, j, k) by {
        forall i | 0 <= i < k ensures !(IsBallotOf(kase, log[i], round) && log[i].signer == j) {
          assert pick(log[i]).None? || pick(log[i]).value.who != j;
        }
      }
      forall i: nat | FirstBallotOf(kase, log, round, j, i) ensures i == k {
      }
    } else {
      forall k | 0 <= k < |log| ensures !(IsBallotOf(kase, log[k], round) && log[k].signer == j) {
        assert pick(log[k]).None? || pick(log[k]).value.who != j;
      }
    }
  }

  // --- What a reading means ---------------------------------------------------

  /** The station's ruling on record `id`. */
  predicate RuledOn(C: Court, e: Entry, id: nat) {
    e.record.TerminalRuling? && e.signer == C.station && e.record.id == id
  }

  predicate NoRuling(C: Court, kase: Case, log: Log) {
    forall k, id :: 0 <= k < |log| && id in kase.attached ==> !RuledOn(C, log[k], id)
  }

  lemma {:induction false} NoRulingRead(C: Court, kase: Case, log: Log)
    ensures TerminalOf(C, log, kase.attached).None? <==> NoRuling(C, kase, log)
  {
    hide TerminalOf, TerminalIn;
    TerminalOfMeaning(C, log, kase.attached);
    forall id ensures Terminal(C, log, id).None? <==> forall k :: 0 <= k < |log| ==> !RuledOn(C, log[k], id) {
      TerminalMeaning(C, log, id, |log|);
      assert forall k :: 0 <= k < |log| ==> (Rules(C.station, log[k], id) <==> RuledOn(C, log[k], id));
    }
  }

  /** Until a ruling is recorded the current round decides: more than half a panel to overturn or to confirm,
      else the case has lapsed once the round's window is over and is pending before. */
  lemma {:induction false} ReadingMeans(C: Court, kase: Case, log: Log, now: int)
    requires NoRuling(C, kase, log)
    ensures (var cur := Current(C, kase, log, now);
             var panel := RoundPanel(C, kase, log, cur, now);
             var overturn := 2 * Votes(panel, true) > C.params.panelSize;
             var confirm := 2 * Votes(panel, false) > C.params.panelSize;
             var reading := DecideEquivocation(C, kase, log, now);
             && (reading == Overturned <==> overturn) && (reading == Confirmed <==> confirm)
             && (reading == Lapsed <==> !overturn && !confirm && now >= cur.openedAt + C.params.windowSeconds)
             && (reading == Pending <==> !overturn && !confirm && now < cur.openedAt + C.params.windowSeconds))
  {
    hide RoundPanel, Rounds, TerminalOf, Votes, RoundDecision, NoRuling;
    NoRulingRead(C, kase, log);
    MajorityMeans(C, kase, log, Current(C, kase, log, now), now);
  }

  lemma {:induction false} MajorityMeans(C: Court, kase: Case, log: Log, r: Round, now: int)
    ensures (var panel := RoundPanel(C, kase, log, r, now);
             var decision := RoundDecision(C, kase, log, r, now);
             && (decision == Some(Upheld) <==> 2 * Votes(panel, true) > C.params.panelSize)
             && (decision == Some(Rejected) <==> 2 * Votes(panel, false) > C.params.panelSize))
  {
    hide Seats, Votes, RoundQuery;
    var q := RoundQuery(C, kase, log, r, now);
    BothSides(Seats(q, r.openedAt, C.params.panelSize));
    PanelSize(q, r.openedAt, C.params.panelSize);
  }

  /** `r` stands on a request by another member of the electorate at that very entry, self-signed, naming it,
      and made once the round before had closed with neither side past half a panel. */
  predicate OpenedProperly(C: Court, kase: Case, log: Log, before: Round, r: Round) {
    && 1 <= r.anchorSeq <= |log|
    && var e := log[r.anchorSeq - 1];
       && e.record.Reseat? && e.record.id in kase.attached && e.record.round == r.index == before.index + 1
       && e.signer == e.record.requester && e.signer != kase.subject
       && e.signer in C.st.electorate(Seen(log, r.anchorSeq), r.openedAt)
       && r.openedAt == e.at && e.at >= before.openedAt + C.params.windowSeconds
       && 2 * Votes(RoundPanel(C, kase, log, before, e.at), true) <= C.params.panelSize
       && 2 * Votes(RoundPanel(C, kase, log, before, e.at), false) <= C.params.panelSize
  }

  /** Every round but the first was opened properly. */
  lemma {:induction false} RoundsMean(C: Court, kase: Case, log: Log, now: int, n: nat)
    requires n <= |log|
    ensures (var rs := RoundsTo(C, kase, log, now, n);
             && rs[0] == Round(0, kase.anchorSeq0, kase.openedAt0)
             && forall i :: 0 < i < |rs| ==> OpenedProperly(C, kase, log, rs[i - 1], rs[i]))
  {
    hide OpenedProperly, Opens;
    if n > 0 {
      RoundsMean(C, kase, log, now, n - 1);
      var rs := RoundsTo(C, kase, log, now, n - 1);
      if Opens(C, kase, log, rs[|rs| - 1], n - 1, now) {
        OpeningMeans(C, kase, log, rs[|rs| - 1], n - 1, now);
      }
    }
  }

  lemma {:induction false} OpeningMeans(C: Court, kase: Case, log: Log, cur: Round, k: nat, now: int)
    requires k < |log| && Opens(C, kase, log, cur, k, now)
    ensures OpenedProperly(C, kase, log, cur, Round(cur.index + 1, k + 1, log[k].at))
  {
    hide RoundPanel, RoundDecision, Electorate, Votes, Seen;
    ElectorateMeans(C.st, log, k + 1, log[k].at);
    MajorityMeans(C, kase, log, cur, log[k].at);
  }

  /** A pass writes only rulings of the station that say what the case read as when it began, each on an attached
      record that had none. */
  lemma {:induction false} PassMeans(C: Court, kase: Case, log: Log, now: int, i: nat, k: nat)
    requires i <= |kase.attached| && |log| <= k < |RulingPass(C, kase, log, now, i)|
    ensures (var e, reading := RulingPass(C, kase, log, now, i)[k], DecideEquivocation(C, kase, log, now);
             && e.record.TerminalRuling? && e.signer == C.station && e.record.id in kase.attached
             && (reading == Overturned || reading == Confirmed) && (e.record.overturn <==> reading == Overturned)
             && forall j :: 0 <= j < |log| ==> !RuledOn(C, log[j], e.record.id))
  {
    hide DecideEquivocation, PassTo, Terminal;
    var overturn := DecideEquivocation(C, kase, log, now) == Overturned;
    PassWrites(C, kase, log, overturn, now, i, k);
    var e := RulingPass(C, kase, log, now, i)[k];
    assert e.record.id in kase.attached[..i];
    TerminalMeaning(C, log, e.record.id, |log|);
    assert Terminal(C, log, e.record.id) == TerminalIn(C.station, log, e.record.id, |log|) by {
      TerminalUnfolds(C, log, e.record.id);
    }
    forall j | 0 <= j < |log| ensures !RuledOn(C, log[j], e.record.id) {
      assert !Rules(C.station, log[j], e.record.id);
    }
  }

  lemma {:induction false} TerminalUnfolds(C: Court, log: Log, id: nat)
    ensures Terminal(C, log, id) == TerminalIn(C.station, log, id, |log|)
  {
  }
}
