/** What can still become of an equivocation round whose window has closed undecided: its jurors'
    late ballots are admitted (crates/rrn-dispute/src/equivocation.rs). */
module LateBallots {
  import opened Basics
  import opened Panel
  import opened PanelLockIn
  import opened PanelVacancies
  import opened Docket
  import opened Sortition
  import opened JuryPool
  import opened Equivocation
  import opened EquivocationRulings
  import opened RoundHistory
  import opened OneMember

  // --- Runs past the close -------------------------------------------------------

  /** The gates admit `e` on `log` and no fresh round is asked for: a ballot passes its gate, a ruling
      on the case is the decision of that moment. */
  predicate LateStep(C: Court, kase: Case, log: Log, e: Entry) {
    && (IsBallot(kase, e) ==> Admits(C, kase, log, e))
    && !(e.record.Reseat? && e.record.id in kase.attached)
    && (RulesOnCase(C, kase, e) ==> DecideEquivocation(C, kase, log, e.at) == Reading(e.record.overturn))
  }

  function Reading(overturn: bool): EquivResolution {
    if overturn then Overturned else Confirmed
  }

  /** `log'` continues `log` from `now` on by admitted entries, none of them a fresh round. */
  predicate LateRun(C: Court, kase: Case, log: Log, log': Log, now: int) {
    && Clocked(log') && Continues(log, now, log')
    && forall k :: |log| <= k < |log'| ==> LateStep(C, kase, log'[..k], log'[k])
  }

  /** A case on a log whose ballots came through the gate, read no earlier than its last entry. */
  ghost predicate GatedCase(C: Court, kase: Case, log: Log, now: int) {
    && Sound(C.st) && C.params.jurorResponse >= 0 && C.params.windowSeconds > 0
    && Anchored(kase, log) && log[|log| - 1].at <= now && BallotsGated(C, kase, log)
  }

  ghost predicate LapsedCase(C: Court, kase: Case, log: Log, now: int) {
    GatedCase(C, kase, log, now) && DecideEquivocation(C, kase, log, now) == Lapsed
  }

  function LapsedPanel(C: Court, kase: Case, log: Log, now: int): seq<Seat> {
    RoundPanel(C, kase, log, Current(C, kase, log, now), now)
  }

  // --- No round opens and none closes --------------------------------------------

  lemma {:induction false} NoNewRounds(C: Court, kase: Case, log: Log, log': Log, now': int, m: nat, n: nat)
    requires m <= n <= |log'|
    requires forall k :: m <= k < n ==> LateStep(C, kase, log'[..k], log'[k])
    ensures RoundsTo(C, kase, log', now', n) == RoundsTo(C, kase, log', now', m)
    decreases n
  {
    hide RoundDecision, Electorate, DecideEquivocation, Admits, IsBallot;
    if m < n {
      NoNewRounds(C, kase, log, log', now', m, n - 1);
    }
  }

  lemma {:induction false} RoundsStay(C: Court, kase: Case, log: Log, log': Log, now: int, now': int)
    requires LapsedCase(C, kase, log, now) && LateRun(C, kase, log, log', now) && now <= now'
    ensures Rounds(C, kase, log', now') == Rounds(C, kase, log, now)
  {
    hide RoundDecision, TerminalOf, Sound, BallotsGated, LateStep, Opens;
    var rs := Rounds(C, kase, log, now);
    PrefixAt(log, log', kase.anchorSeq0 - 1);
    RoundsSplit(C, kase, log, now, log', now', |log|);
    RoundsAscend(C, kase, log, now);
    NoNewRounds(C, kase, log, log', now', |log|, |log'|);
  }

  /** No round opened after the current one did. */
  lemma {:induction false} RoundsAscend(C: Court, kase: Case, log: Log, now: int)
    requires Anchored(kase, log) && C.params.windowSeconds > 0
    ensures forall r :: r in Rounds(C, kase, log, now) ==> r.openedAt <= Current(C, kase, log, now).openedAt
    ensures AnchorOn(log, Current(C, kase, log, now))
  {
    hide RoundsTo, RoundDecision;
    RoundsFollow(C, kase, log, now, |log|);
    var rs := Rounds(C, kase, log, now);
    forall i | 0 <= i < |rs| ensures rs[i].openedAt <= rs[|rs| - 1].openedAt {
      Ascends(C, kase, log, rs, i);
    }
  }

  lemma {:induction false} Ascends(C: Court, kase: Case, log: Log, rs: seq<Round>, i: nat)
    requires C.params.windowSeconds > 0 && i < |rs|
    requires forall j :: 0 < j < |rs| ==> Follows(C, kase, log, rs[j - 1], rs[j])
    ensures rs[i].openedAt <= rs[|rs| - 1].openedAt
    decreases |rs| - i
  {
    hide RoundDecision;
    if i + 1 < |rs| {
      assert Follows(C, kase, log, rs[i + 1 - 1], rs[i + 1]);
      Ascends(C, kase, log, rs, i + 1);
    }
  }

  // --- The bound -------------------------------------------------------------------

  /** Votes already concurring plus unanswered seats, against the majority. */
  predicate Reachable(C: Court, panel: seq<Seat>, want: bool) {
    Votes(panel, want) + Blank(panel) >= Majority(C.params.panelSize)
  }

  lemma {:induction false} RoundOutOfReach(
    C: Court, kase: Case, log: Log, log': Log, now: int, now': int, r: Round, overturn: bool)
    requires C.params.jurorResponse >= 0 && Continues(log, now, log') && now <= now' && r.anchorSeq <= |log|
    requires !Reachable(C, RoundPanel(C, kase, log, r, now), overturn)
    ensures RoundDecision(C, kase, log', r, now') != Some(if overturn then Upheld else Rejected)
  {
    hide RoundQuery, Seats, Votes, Blank, Continues;
    LaterQuery(C, kase, log, now, log', r, now, now');
    ResponseKept(C, kase, log, r, now);
    VotesCapped(RoundQuery(C, kase, log, r, now), RoundQuery(C, kase, log', r, now'),
                r.openedAt, C.params.panelSize, overturn);
  }

  lemma {:induction false} FirstRuling(C: Court, kase: Case, log: Log, log': Log, overturn: bool)
    requires IsPrefix(log, log') && TerminalOf(C, log, kase.attached).None?
    requires TerminalOf(C, log', kase.attached) == Some(overturn)
    ensures exists k :: |log| <= k < |log'| && RulesOnCase(C, kase, log'[k]) && log'[k].record.overturn == overturn
  {
    TerminalOfMeaning(C, log, kase.attached);
    TerminalOfMeaning(C, log', kase.attached);
    var id :| id in kase.attached && Terminal(C, log', id) == Some(overturn);
    TerminalMeaning(C, log, id, |log|);
    TerminalMeaning(C, log', id, |log'|);
    forall k | 0 <= k < |log| ensures log'[k] == log[k] {
      PrefixAt(log, log', k);
    }
    var k :| 0 <= k < |log'| && Rules(C.station, log'[k], id) && log'[k].record.overturn == overturn;
    assert RulesOnCase(C, kase, log'[k]);
  }

  /** What the case reads as, from its recorded ruling and its current round. */
  lemma {:induction false} ReadingOf(C: Court, kase: Case, log: Log, now: int, overturn: bool)
    ensures var ruling := TerminalOf(C, log, kase.attached);
            DecideEquivocation(C, kase, log, now) == Reading(overturn) <==>
            (if ruling.Some? then ruling == Some(overturn)
             else RoundDecision(C, kase, log, Current(C, kase, log, now), now)
                    == Some(if overturn then Upheld else Rejected))
  {
    hide RoundDecision, Rounds, TerminalOf;
  }

  /** A side the unanswered seats cannot carry to a majority is never read, on any later log. */
  lemma {:induction false} OutOfReach(
    C: Court, kase: Case, log: Log, log': Log, now: int, now': int, overturn: bool)
    requires LapsedCase(C, kase, log, now) && LateRun(C, kase, log, log', now) && now <= now'
    requires !Reachable(C, LapsedPanel(C, kase, log, now), overturn)
    ensures DecideEquivocation(C, kase, log', now') != Reading(overturn)
    decreases |log'|
  {
    hide RoundDecision, Rounds, TerminalOf, Sound, BallotsGated, Reachable, LateStep, RoundPanel;
    hide DecideEquivocation, Reading, Clocked;
    ReadingOf(C, kase, log', now', overturn);
    if TerminalOf(C, log', kase.attached) == Some(overturn) {
      NoRulingYet(C, kase, log, now);
      FirstRuling(C, kase, log, log', overturn);
      var k :| |log| <= k < |log'| && RulesOnCase(C, kase, log'[k]) && log'[k].record.overturn == overturn;
      ShorterRun(C, kase, log, log', now, k);
      OutOfReach(C, kase, log, log'[..k], now, log'[k].at, overturn);
    } else if TerminalOf(C, log', kase.attached).None? {
      RoundsStay(C, kase, log, log', now, now');
      RoundsAscend(C, kase, log, now);
      RoundOutOfReach(C, kase, log, log', now, now', Current(C, kase, log, now), overturn);
    }
  }

  lemma {:induction false} NoRulingYet(C: Court, kase: Case, log: Log, now: int)
    requires DecideEquivocation(C, kase, log, now) == Lapsed
    ensures TerminalOf(C, log, kase.attached).None?
  {
    hide RoundDecision, Rounds, TerminalOf;
  }

  lemma {:induction false} ShorterRun(C: Court, kase: Case, log: Log, log': Log, now: int, k: nat)
    requires LateRun(C, kase, log, log', now) && |log| <= k < |log'| && RulesOnCase(C, kase, log'[k])
    ensures LateRun(C, kase, log, log'[..k], now) && log'[k].at >= now
    ensures DecideEquivocation(C, kase, log'[..k], log'[k].at) == Reading(log'[k].record.overturn)
  {
    hide Admits, DecideEquivocation;
    var cut := log'[..k];
    assert cut[..|log|] == log'[..|log|];
    forall j | |log| <= j < |cut| ensures LateStep(C, kase, cut[..j], cut[j]) {
      assert cut[..j] == log'[..j];
    }
  }

  // --- A juror still without a verdict has cast no ballot ----------------------------

  lemma {:induction false} BallotOnLog(kase: Case, log: Log, round: nat, j: Address) returns (k: nat)
    requires j in RoundBallots(kase, log, round)
    ensures k < |log| && IsBallot(kase, log[k]) && log[k].record.juror == j && log[k].record.round == round
  {
    hide FirstBallots;
    BallotMeaning(log, RoundPick(kase, round), 0, |log|, j);
    var i: nat :| FirstCastAt(log, RoundPick(kase, round), 0, |log|, j, i);
    k := i;
  }

  /** The gate admitted it to the round that carries its index today. */
  lemma {:induction false} BallotOfRound(C: Court, kase: Case, log: Log, now: int, r: Round, k: nat)
    requires GatedCase(C, kase, log, now) && r in Rounds(C, kase, log, now)
    requires k < |log| && IsBallot(kase, log[k]) && log[k].record.round == r.index
    ensures var e := log[k];
            && r.anchorSeq <= k && r.openedAt <= e.at <= now
            && BallotOk(C, kase, log[..k], e.record.juror, r, e.record.castAt, e.signer, e.at)
  {
    hide RoundDecision, Rounds, BallotOk, Sound;
    var e, before := log[k], log[..k];
    assert Admits(C, kase, before, e);
    var r' :| r' in Rounds(C, kase, before, e.at) && r'.index == r.index
              && BallotOk(C, kase, before, e.record.juror, r', e.record.castAt, e.signer, e.at);
    assert Anchored(kase, before) && Continues(before, e.at, log);
    SameIndexSameRound(C, kase, before, e.at, log, now, r', r);
    RoundAnchored(C, kase, before, e.at, r');
  }

  lemma {:induction false} RoundAnchored(C: Court, kase: Case, log: Log, now: int, r: Round)
    requires Anchored(kase, log) && C.params.windowSeconds > 0 && r in Rounds(C, kase, log, now)
    ensures AnchorOn(log, r)
  {
    hide RoundDecision, RoundsTo;
    RoundsFollow(C, kase, log, now, |log|);
  }

  lemma {:induction false} UnansweredHasNoBallot(C: Court, kase: Case, log: Log, now: int, r: Round, j: Address)
    requires GatedCase(C, kase, log, now) && r in Rounds(C, kase, log, now)
    requires HoldsSeat(C, kase, log, r, j, now)
    ensures j !in RoundBallots(kase, log, r.index)
  {
    hide Rounds, RoundPool, Draw, Seats, FirstBallots, BallotsGated, BallotOk, Sound;
    if j in RoundBallots(kase, log, r.index) {
      var k := BallotOnLog(kase, log, r.index, j);
      BallotOfRound(C, kase, log, now, r, k);
      assert log[..k] + [log[k]] == log[..k + 1];
      AdmittedBallotCredited(C, kase, log[..k], log[k], r, log, now);
      VotedOrWaiting(C, kase, log, now, r, j);
    }
  }

  lemma {:induction false} VotedOrWaiting(C: Court, kase: Case, log: Log, now: int, r: Round, j: Address)
    requires Sound(C.st) && HoldsSeat(C, kase, log, r, j, now)
    ensures forall s :: s in RoundPanel(C, kase, log, r, now) && s.juror == j ==> s.verdict.None?
  {
    hide Seats, SeatsOf, Draw, RoundPool, FirstBallots, Sound;
    var q, panel := RoundQuery(C, kase, log, r, now), RoundPanel(C, kase, log, r, now);
    RoundJuryDistinct(C, kase, log, r);
    NoJurorSeatedTwice(q, r.openedAt, C.params.panelSize, j);
    var waiting :| waiting in panel && waiting.juror == j && waiting.verdict.None?;
    OnlySeat(panel, waiting);
    forall s | s in panel && s.juror == j ensures s == waiting {
      OnlySeat(panel, s);
    }
  }

  // --- The late ballots ------------------------------------------------------------

  function LateBallot(kase: Case, j: Address, r: Round, overturn: bool, now: int): Entry
    requires kase.attached != []
  {
    Entry(EquivocationBallot(kase.attached[0], j, r.index, overturn, now), j, now)
  }

  lemma {:induction false} LateBallotAdmitted(C: Court, kase: Case, log: Log, now: int, r: Round, j: Address, overturn: bool)
    requires GatedCase(C, kase, log, now) && kase.attached != [] && r == Current(C, kase, log, now)
    requires HoldsSeat(C, kase, log, r, j, now)
    ensures var e := LateBallot(kase, j, r, overturn, now); IsBallot(kase, e) && Admits(C, kase, log, e)
  {
    hide Rounds, RoundBallots, GatedCase, HoldsSeat;
    UnansweredHasNoBallot(C, kase, log, now, r, j);
    assert BallotOk(C, kase, log, j, r, now, j, now);
  }

  lemma {:induction false} LateBallotRuns(C: Court, kase: Case, log: Log, now: int, e: Entry)
    requires Clocked(log) && log != [] && log[|log| - 1].at <= now && e.at == now
    requires IsBallot(kase, e) && Admits(C, kase, log, e)
    ensures LateRun(C, kase, log, log + [e], now)
  {
    hide Admits, DecideEquivocation;
    ClockedAppend(log, e);
    assert (log + [e])[..|log|] == log;
  }

  lemma {:induction false} LateBallotFills(C: Court, kase: Case, log: Log, now: int, r: Round, j: Address, overturn: bool)
    requires GatedCase(C, kase, log, now) && kase.attached != [] && r == Current(C, kase, log, now)
    requires HoldsSeat(C, kase, log, r, j, now)
    ensures var before := RoundPanel(C, kase, log, r, now);
            var after := RoundPanel(C, kase, log + [LateBallot(kase, j, r, overturn, now)], r, now);
            && Votes(after, !overturn) == Votes(before, !overturn) && Blank(after) < Blank(before)
            && Votes(after, overturn) + Blank(after) == Votes(before, overturn) + Blank(before)
  {
    hide Rounds, RoundPool, Draw, Seats, FirstBallots, BallotsGated, Votes, Blank, Sound, BallotsGated;
    var e := LateBallot(kase, j, r, overturn, now);
    UnansweredHasNoBallot(C, kase, log, now, r, j);
    RoundAnchored(C, kase, log, now, r);
    BallotJoinsRound(kase, log, e, r.index);
    assert (log + [e])[..|log|] == log;
    RoundPoolPinned(C, kase, log, log + [e], r);
    BallotFillsSeat(RoundQuery(C, kase, log, r, now), RoundQuery(C, kase, log + [e], r, now),
                    r.openedAt, C.params.panelSize, j, overturn);
  }

  lemma {:induction false} GatedStays(C: Court, kase: Case, log: Log, now: int, e: Entry)
    requires GatedCase(C, kase, log, now) && e.at == now && IsBallot(kase, e) && Admits(C, kase, log, e)
    ensures GatedCase(C, kase, log + [e], now)
  {
    hide BallotsGated, Sound;
    ClockedAppend(log, e);
    GatedAppends(C, kase, log, e);
  }

  lemma {:induction false} RunsJoin(C: Court, kase: Case, log: Log, mid: Log, log': Log, now: int)
    requires LateRun(C, kase, log, mid, now) && LateRun(C, kase, mid, log', now)
    ensures LateRun(C, kase, log, log', now)
  {
    hide LateStep;
    PrefixUpto(mid, log', |log|);
    forall k | |log| <= k < |log'| ensures log'[k].at >= now && LateStep(C, kase, log'[..k], log'[k]) {
      if k < |mid| {
        PrefixAt(mid, log', k);
        PrefixUpto(mid, log', k);
      }
    }
  }

  lemma {:induction false} DecisionIsTally(C: Court, kase: Case, log: Log, r: Round, now: int)
    ensures var panel := RoundPanel(C, kase, log, r, now);
            RoundDecision(C, kase, log, r, now) == Tally(panel, C.params.panelSize)
  {
  }

  /** Undecided, with its window over. */
  lemma {:induction false} LapsedMeaning(C: Court, kase: Case, log: Log, now: int)
    ensures var cur := Current(C, kase, log, now);
            var panel := RoundPanel(C, kase, log, cur, now);
            DecideEquivocation(C, kase, log, now) == Lapsed <==>
              && TerminalOf(C, log, kase.attached).None? && now >= Closes(C, cur)
              && Votes(panel, true) < Majority(C.params.panelSize) && Votes(panel, false) < Majority(C.params.panelSize)
  {
    hide RoundDecision, RoundPanel, Rounds, TerminalOf, Votes;
    DecisionIsTally(C, kase, log, Current(C, kase, log, now), now);
  }

  /** If a side is within reach, its jurors' late ballots carry it: each is admitted, no fresh round
      is asked for, and the case that had lapsed reads as decided. */
  lemma {:induction false} LateBallotsDecide(C: Court, kase: Case, log: Log, now: int, overturn: bool) returns (log': Log)
    requires LapsedCase(C, kase, log, now) && kase.attached != []
    requires Reachable(C, LapsedPanel(C, kase, log, now), overturn)
    ensures LateRun(C, kase, log, log', now) && DecideEquivocation(C, kase, log', now) == Reading(overturn)
    decreases Blank(LapsedPanel(C, kase, log, now))
  {
    hide RoundDecision, RoundPanel, Rounds, TerminalOf, Votes, Blank, GatedCase, LateRun, Admits, DecideEquivocation;
    var r, panel := Current(C, kase, log, now), LapsedPanel(C, kase, log, now);
    LapsedMeaning(C, kase, log, now);
    SomeoneAwaits(panel);
    var s :| s in panel && s.verdict.None?;
    assert HoldsSeat(C, kase, log, r, s.juror, now);
    var e := LateBallot(kase, s.juror, r, overturn, now);
    var mid := log + [e];
    LateBallotAdmitted(C, kase, log, now, r, s.juror, overturn);
    LateBallotKeeps(C, kase, log, now, e);
    LateBallotFills(C, kase, log, now, r, s.juror, overturn);
    ReadingOf(C, kase, mid, now, overturn);
    if DecideEquivocation(C, kase, mid, now) == Reading(overturn) {
      return mid;
    }
    DecisionIsTally(C, kase, mid, r, now);
    LapsedMeaning(C, kase, mid, now);
    log' := LateBallotsDecide(C, kase, mid, now, overturn);
    RunsJoin(C, kase, log, mid, log', now);
  }

  lemma {:induction false} LateBallotKeeps(C: Court, kase: Case, log: Log, now: int, e: Entry)
    requires LapsedCase(C, kase, log, now) && e.at == now && IsBallot(kase, e) && Admits(C, kase, log, e)
    ensures var mid := log + [e];
            && LateRun(C, kase, log, mid, now) && GatedCase(C, kase, mid, now)
            && Rounds(C, kase, mid, now) == Rounds(C, kase, log, now)
            && TerminalOf(C, mid, kase.attached).None?
  {
    hide RoundDecision, Rounds, TerminalOf, Sound, BallotsGated, Admits, IsBallot;
    var mid := log + [e];
    NoRulingYet(C, kase, log, now);
    LateBallotRuns(C, kase, log, now, e);
    GatedStays(C, kase, log, now, e);
    RoundsStay(C, kase, log, mid, now, now);
    if TerminalOf(C, mid, kase.attached).Some? {
      FirstRuling(C, kase, log, mid, TerminalOf(C, mid, kase.attached).value);
    }
  }

  /** A case that has lapsed can still be read as `overturn`, with no fresh round, exactly when the
      votes already concurring and the seats still unanswered make a majority. */
  lemma {:induction false} LapsedCanDecideIff(C: Court, kase: Case, log: Log, now: int, overturn: bool)
    requires LapsedCase(C, kase, log, now) && kase.attached != []
    ensures (exists log', now' :: LateRun(C, kase, log, log', now) && now <= now'
                                  && DecideEquivocation(C, kase, log', now') == Reading(overturn))
            <==> Reachable(C, LapsedPanel(C, kase, log, now), overturn)
  {
    hide LapsedCase, LateRun, DecideEquivocation, LapsedPanel, Reachable;
    if Reachable(C, LapsedPanel(C, kase, log, now), overturn) {
      var log' := LateBallotsDecide(C, kase, log, now, overturn);
      assert LateRun(C, kase, log, log', now) && now <= now;
    } else {
      forall log', now' | LateRun(C, kase, log, log', now) && now <= now'
        ensures DecideEquivocation(C, kase, log', now') != Reading(overturn)
      {
        OutOfReach(C, kase, log, log', now, now', overturn);
      }
    }
  }

  // --- A worked case ---------------------------------------------------------------

  /** One eligible member, member 7; a window of ten seconds and twenty to answer. */
  function WorkedCourt(): Court {
    Court(OnlySeven(), Params(10, 20, 1, 0, 0, 0, 0), 1, (anchor: nat) => (turn: nat) => 0)
  }

  /** Member 2's offence, proved by record 5, admitted at time 0. */
  function WorkedCase(): Case {
    Case(2, [5], {}, 1, 0)
  }

  function WorkedLog(): Log {
    [Entry(Evidence(5), 3, 0)]
  }

  function FirstRound(): Round {
    Round(0, 1, 0)
  }

  lemma {:induction false} WorkedJury()
    ensures Draw(RoundPool(WorkedCourt(), WorkedCase(), WorkedLog(), FirstRound()), WorkedCourt().draw(1)) == [7]
  {
    var C, kase, log := WorkedCourt(), WorkedCase(), WorkedLog();
    var soft := Vouchers(log, 2, 1) + Vouchees(log, 2, 1);
    assert soft == {};
    SoleJury(log, HardExcluded(kase), soft, 0, 1, C.draw(1));
  }

  lemma {:induction false} WorkedPanel(log: Log, now: int)
    requires IsPrefix(WorkedLog(), log) && now <= 20
    ensures (var q := RoundQuery(WorkedCourt(), WorkedCase(), log, FirstRound(), now);
             RoundPanel(WorkedCourt(), WorkedCase(), log, FirstRound(), now)
             == [Seat(7, 0, if Timely(q, 7, 0) then Some(q.ballots[7].uphold) else None)])
  {
    hide Draw, Seats, RoundPool, FirstBallots;
    WorkedJury();
    RoundPoolPinned(WorkedCourt(), WorkedCase(), WorkedLog(), log, FirstRound());
    SoleSeat(RoundQuery(WorkedCourt(), WorkedCase(), log, FirstRound(), now), 0, 7);
  }

  lemma {:induction false} WorkedStart()
    ensures var C, kase, log := WorkedCourt(), WorkedCase(), WorkedLog();
            && GatedCase(C, kase, log, 15) && RoundBallots(kase, log, 0) == map[]
            && Rounds(C, kase, log, 15) == [FirstRound()] && TerminalOf(C, log, kase.attached).None?
  {
    hide RoundDecision;
    assert WorkedCase().attached[1..] == [];
  }

  lemma {:induction false} WorkedLapse()
    ensures var C, kase, log := WorkedCourt(), WorkedCase(), WorkedLog();
            && RoundPanel(C, kase, log, FirstRound(), 15) == [Seat(7, 0, None)]
            && DecideEquivocation(C, kase, log, 15) == Lapsed
  {
    hide RoundDecision, RoundPanel, Rounds, TerminalOf, DecideEquivocation, RoundBallots, GatedCase, RoundPool, Draw;
    var C, kase, log := WorkedCourt(), WorkedCase(), WorkedLog();
    WorkedStart();
    assert log[..1] == log;
    WorkedPanel(log, 15);
    assert [Seat(7, 0, None)][1..] == [];
    LapsedMeaning(C, kase, log, 15);
  }

  /** At 15 the window, which closed at 10, has lapsed; the one juror's ballot is admitted all the same,
      and the case reads as overturned without a fresh round. */
  lemma {:induction false} LateBallotOverturns()
    ensures var C, kase, log := WorkedCourt(), WorkedCase(), WorkedLog();
            var e := LateBallot(kase, 7, FirstRound(), true, 15);
            && DecideEquivocation(C, kase, log, 15) == Lapsed && 15 > Closes(C, FirstRound())
            && BallotOk(C, kase, log, 7, FirstRound(), 15, 7, 15)
            && DecideEquivocation(C, kase, log + [e], 15) == Overturned
            && Rounds(C, kase, log + [e], 15) == [FirstRound()]
  {
    hide RoundPanel, RoundDecision, Rounds, TerminalOf, GatedCase, DecideEquivocation, Admits;
    var C, kase, log, r := WorkedCourt(), WorkedCase(), WorkedLog(), FirstRound();
    WorkedStart();
    WorkedLapse();
    var e := LateBallot(kase, 7, r, true, 15);
    assert HoldsSeat(C, kase, log, r, 7, 15) by {
      assert Seat(7, 0, None) in RoundPanel(C, kase, log, r, 15);
    }
    LateBallotAdmitted(C, kase, log, 15, r, 7, true);
    LateBallotKeeps(C, kase, log, 15, e);
    BallotJoinsRound(kase, log, e, 0);
    assert (log + [e])[..1] == log;
    WorkedPanel(log + [e], 15);
    DecisionIsTally(C, kase, log + [e], r, 15);
    ReadingOf(C, kase, log + [e], 15, true);
  }

  function WorkedReseat(): Entry {
    Entry(Reseat(5, 7, 1), 7, 15)
  }

  lemma {:induction false} WorkedReseatOpens()
    ensures ReseatOk(WorkedCourt(), WorkedCase(), WorkedLog(), 7, 1, 7, 15)
    ensures Rounds(WorkedCourt(), WorkedCase(), WorkedLog() + [WorkedReseat()], 15) == [FirstRound(), Round(1, 2, 15)]
  {
    hide RoundDecision, Rounds, DecideEquivocation;
    var C, kase, log := WorkedCourt(), WorkedCase(), WorkedLog();
    WorkedStart();
    WorkedLapse();
    AdmittedReseatOpens(C, kase, log, WorkedReseat(), 15);
  }

  lemma {:induction false} BallotsBeforeReseat()
    ensures RoundBallots(WorkedCase(), WorkedLog() + [WorkedReseat()], 0) == map[]
  {
    var log := WorkedLog() + [WorkedReseat()];
    assert FirstBallots(log, RoundPick(WorkedCase(), 0), 0, 1) == map[];
  }

  lemma {:induction false} RoundsWithoutReseat()
    requires var log := WorkedLog() + [WorkedReseat(), LateBallot(WorkedCase(), 7, FirstRound(), true, 15)];
             RoundDecision(WorkedCourt(), WorkedCase(), log, FirstRound(), 15).Some?
    ensures var log := WorkedLog() + [WorkedReseat(), LateBallot(WorkedCase(), 7, FirstRound(), true, 15)];
            Rounds(WorkedCourt(), WorkedCase(), log, 15) == [FirstRound()]
  {
    hide RoundDecision, Electorate;
    var C, kase := WorkedCourt(), WorkedCase();
    var log := WorkedLog() + [WorkedReseat(), LateBallot(kase, 7, FirstRound(), true, 15)];
    assert RoundsTo(C, kase, log, 15, 1) == [FirstRound()];
    assert RoundsTo(C, kase, log, 15, 2) == [FirstRound()];
  }

  lemma {:induction false} BallotAfterReseat()
    ensures var C, kase, log := WorkedCourt(), WorkedCase(), WorkedLog() + [WorkedReseat()];
            && HoldsSeat(C, kase, log, FirstRound(), 7, 15)
            && RoundDecision(C, kase, log + [LateBallot(kase, 7, FirstRound(), true, 15)], FirstRound(), 15) == Some(Upheld)
  {
    hide RoundPanel, RoundDecision, RoundBallots, RoundPool, Draw;
    var C, kase, log := WorkedCourt(), WorkedCase(), WorkedLog() + [WorkedReseat()];
    var e := LateBallot(kase, 7, FirstRound(), true, 15);
    BallotsBeforeReseat();
    assert log[..1] == WorkedLog() && (log + [e])[..1] == WorkedLog();
    WorkedPanel(log, 15);
    assert Seat(7, 0, None) in RoundPanel(C, kase, log, FirstRound(), 15);
    BallotJoinsRound(kase, log, e, 0);
    WorkedPanel(log + [e], 15);
    DecisionIsTally(C, kase, log + [e], FirstRound(), 15);
    assert [Seat(7, 0, Some(true))][1..] == [];
  }

  /** In the second a re-seat is admitted, a late ballot on the round it replaces is admitted too: it
      decides that round, and the re-seat's round is gone. */
  lemma {:induction false} SameSecondCut()
    ensures var C, kase, log := WorkedCourt(), WorkedCase(), WorkedLog() + [WorkedReseat()];
            var e := LateBallot(kase, 7, FirstRound(), true, 15);
            && ReseatOk(C, kase, WorkedLog(), 7, 1, 7, 15)
            && Rounds(C, kase, log, 15) == [FirstRound(), Round(1, 2, 15)]
            && BallotOk(C, kase, log, 7, FirstRound(), 15, 7, 15)
            && Rounds(C, kase, log + [e], 15) == [FirstRound()]
  {
    hide RoundBallots, Rounds, RoundDecision, HoldsSeat, ReseatOk, WorkedCourt;
    WorkedReseatOpens();
    BallotsBeforeReseat();
    BallotAfterReseat();
    var log, e := WorkedLog() + [WorkedReseat()], LateBallot(WorkedCase(), 7, FirstRound(), true, 15);
    assert log + [e] == WorkedLog() + [WorkedReseat(), e];
    RoundsWithoutReseat();
  }
}
