/** Equivocation cases: rounds that open on re-seats, and the resumable terminal ruling
    (crates/rrn-dispute/src/equivocation.rs). */
module Equivocation {
  import opened Basics
  import opened Panel
  import opened PanelLockIn
  import opened Docket
  import opened Sortition
  import opened JuryPool

  const CLOCK_SKEW_TOLERANCE: int := 5 * 60

  /** One offence: every record proving it, the injured payees, and round 0's admission anchor. */
  datatype Case = Case(subject: Address, attached: seq<nat>, payees: set<Address>, anchorSeq0: nat, openedAt0: int)

  datatype Round = Round(index: nat, anchorSeq: nat, openedAt: int)

  /** The station, the parameters, the standing functions, and the hash-driven draw seeded by a
      round's anchoring position. */
  datatype Court = Court(st: Standing, params: Params, station: Address, draw: nat -> nat -> nat)

  datatype EquivResolution = Pending | Overturned | Confirmed | Lapsed

  // --- One round --------------------------------------------------------------

  function RoundPick(kase: Case, round: nat): Entry -> Option<Cast> {
    (e: Entry) =>
      if e.record.EquivocationBallot? && e.record.round == round && e.record.id in kase.attached
         && e.signer == e.record.juror
      then Some(Cast(e.record.juror, e.record.overturn)) else None
  }

  function RoundBallots(kase: Case, log: Log, round: nat): Ballots {
    FirstBallots(log, RoundPick(kase, round), 0, |log|)
  }

  function HardExcluded(kase: Case): set<Address> {
    kase.payees + {kase.subject}
  }

  function RoundPool(C: Court, kase: Case, log: Log, r: Round): (pool: seq<Candidate>)
    ensures Weighted(pool)
  {
    Pool(C.st, log, HardExcluded(kase),
         Vouchers(log, kase.subject, r.anchorSeq) + Vouchees(log, kase.subject, r.anchorSeq),
         r.openedAt, r.anchorSeq, C.params.panelSize)
  }

  function RoundQuery(C: Court, kase: Case, log: Log, r: Round, now: int): Query {
    Query(Draw(RoundPool(C, kase, log, r), C.draw(r.anchorSeq)), RoundBallots(kase, log, r.index),
          C.params.jurorResponse, now)
  }

  function RoundPanel(C: Court, kase: Case, log: Log, r: Round, now: int): seq<Seat> {
    Seats(RoundQuery(C, kase, log, r, now), r.openedAt, C.params.panelSize)
  }

  /** The majority of a round as of `now`: `Upheld` overturns, `Rejected` confirms. */
  function RoundDecision(C: Court, kase: Case, log: Log, r: Round, now: int): Option<Outcome> {
    Ruling(RoundQuery(C, kase, log, r, now), r.openedAt, C.params.panelSize)
  }

  // --- Rounds -----------------------------------------------------------------

  predicate ReseatEligible(C: Court, kase: Case, log: Log, requester: Address, at: int, position: nat) {
    requester != kase.subject && requester in Electorate(C.st, log, position, at)
  }

  function Closes(C: Court, r: Round): int {
    r.openedAt + C.params.windowSeconds
  }

  /** Whether the entry at index `k` opens the round after `cur`, as of `now`. */
  predicate Opens(C: Court, kase: Case, log: Log, cur: Round, k: nat, now: int)
    requires k < |log|
  {
    var e := log[k];
    && e.record.Reseat? && e.record.id in kase.attached
    && e.at <= now
    && e.signer == e.record.requester
    && e.record.round == cur.index + 1
    && e.at >= Closes(C, cur)
    && RoundDecision(C, kase, log, cur, e.at).None?
    && ReseatEligible(C, kase, log, e.record.requester, e.at, k + 1)
  }

  /** The rounds opened by the first `n` entries. */
  function RoundsTo(C: Court, kase: Case, log: Log, now: int, n: nat): (rs: seq<Round>)
    requires n <= |log|
    ensures |rs| > 0
  {
    if n == 0 then [Round(0, kase.anchorSeq0, kase.openedAt0)]
    else
      var rs := RoundsTo(C, kase, log, now, n - 1);
      var cur := rs[|rs| - 1];
      if Opens(C, kase, log, cur, n - 1, now) then rs + [Round(cur.index + 1, n, log[n - 1].at)] else rs
  }

  function Rounds(C: Court, kase: Case, log: Log, now: int): (rs: seq<Round>)
    ensures |rs| > 0
  {
    RoundsTo(C, kase, log, now, |log|)
  }

  function Current(C: Court, kase: Case, log: Log, now: int): Round {
    var rs := Rounds(C, kase, log, now);
    rs[|rs| - 1]
  }

  method RoundsOf(C: Court, kase: Case, log: Log, now: int) returns (rounds: seq<Round>)
    ensures rounds == Rounds(C, kase, log, now)
  {
    hide RoundDecision, Electorate;
    rounds := [Round(0, kase.anchorSeq0, kase.openedAt0)];
    for k := 0 to |log|
      invariant rounds == RoundsTo(C, kase, log, now, k)
    {
      var e := log[k];
      if !e.record.Reseat? || e.record.id !in kase.attached || e.at > now || e.signer != e.record.requester {
        continue;
      }
      var cur := rounds[|rounds| - 1];
      if e.record.round != cur.index + 1 || e.at < cur.openedAt + C.params.windowSeconds {
        continue;
      }
      if RoundDecision(C, kase, log, cur, e.at).Some? {
        continue;
      }
      if !ReseatEligible(C, kase, log, e.record.requester, e.at, k + 1) {
        continue;
      }
      rounds := rounds + [Round(e.record.round, k + 1, e.at)];
    }
  }

  /** The case's opening record sits at round 0's anchor of a clocked log. */
  predicate Anchored(kase: Case, log: Log) {
    Clocked(log) && 1 <= kase.anchorSeq0 <= |log| && log[kase.anchorSeq0 - 1].at == kase.openedAt0
  }

  predicate AnchorOn(log: Log, r: Round) {
    1 <= r.anchorSeq <= |log| && log[r.anchorSeq - 1].at == r.openedAt
  }

  /** `later` opened properly after `earlier`. */
  predicate Follows(C: Court, kase: Case, log: Log, earlier: Round, later: Round) {
    && later.index == earlier.index + 1
    && later.anchorSeq > earlier.anchorSeq
    && later.openedAt >= Closes(C, earlier)
    && RoundDecision(C, kase, log, earlier, later.openedAt).None?
  }

  /** Derived rounds have consecutive indices and increasing anchors, and each opens only after its
      predecessor's window closed with no majority. */
  lemma {:induction false} RoundsFollow(C: Court, kase: Case, log: Log, now: int, n: nat)
    requires Anchored(kase, log) && C.params.windowSeconds > 0 && n <= |log|
    ensures var rs := RoundsTo(C, kase, log, now, n);
      && rs[0] == Round(0, kase.anchorSeq0, kase.openedAt0)
      && (forall i :: 0 <= i < |rs| ==> rs[i].index == i && AnchorOn(log, rs[i]))
      && (forall i :: 0 < i < |rs| ==> Follows(C, kase, log, rs[i - 1], rs[i]))
  {
    hide RoundDecision, Electorate;
    if n > 0 {
      RoundsFollow(C, kase, log, now, n - 1);
      var rs := RoundsTo(C, kase, log, now, n - 1);
      var cur := rs[|rs| - 1];
      if Opens(C, kase, log, cur, n - 1, now) {
        assert n > cur.anchorSeq by {
          assert log[n - 1].at > log[cur.anchorSeq - 1].at;
        }
      }
    }
  }

  // --- Stability --------------------------------------------------------------

  /** Ballots admitted after a reading are invisible to it. */
  lemma {:induction false} LateBallotsUnseen(q: Query, q': Query, from: nat, upto: nat, g: int)
    requires q'.sequence == q.sequence && q'.response == q.response && q'.now == q.now
    requires forall j :: j in q.ballots ==> j in q'.ballots && q'.ballots[j] == q.ballots[j]
    requires forall j :: j in q'.ballots && j !in q.ballots ==> q'.ballots[j].admittedAt > q.now
    requires from <= upto <= |q.sequence|
    ensures Generations(q', from, upto, g) == Generations(q, from, upto, g)
    decreases |q.sequence| - from
  {
    hide Answered, Silent, Waiting;
    if from < upto {
      GenerationUnseen(q, q', q.sequence[from..upto], g);
      if q.now > g + q.response {
        LateBallotsUnseen(q, q', upto, NextEnd(q, from, upto, g), g + q.response);
      }
    }
  }

  lemma {:induction false} GenerationUnseen(q: Query, q': Query, jurors: seq<Address>, g: int)
    requires q'.sequence == q.sequence && q'.response == q.response && q'.now == q.now
    requires forall j :: j in q.ballots ==> j in q'.ballots && q'.ballots[j] == q.ballots[j]
    requires forall j :: j in q'.ballots && j !in q.ballots ==> q'.ballots[j].admittedAt > q.now
    ensures Silent(q', jurors, g) == Silent(q, jurors, g) && Answered(q', jurors, g) == Answered(q, jurors, g)
  {
    if jurors != [] {
      GenerationUnseen(q, q', jurors[1..], g);
    }
  }

  lemma {:induction false} RulingOfPanelists(q: Query, openedAt: int, size: nat)
    ensures Ruling(q, openedAt, size) == Tally(Panelists(q, openedAt, size), size)
  {
    hide Filter, Seats, Panelists;
    PanelRefinesGenerations(q, openedAt, size);
    FilterCountPermutation(Seats(q, openedAt, size), Panelists(q, openedAt, size), Concurs(true));
    FilterCountPermutation(Seats(q, openedAt, size), Panelists(q, openedAt, size), Concurs(false));
  }

  /** Everything `log'` adds to `log` comes strictly after `since`, or is no ballot of this case. */
  predicate AddsOnlyAfter(kase: Case, log: Log, log': Log, since: int) {
    && IsPrefix(log, log')
    && forall k :: |log| <= k < |log'| ==>
         log'[k].at > since || !log'[k].record.EquivocationBallot?
  }

  lemma {:induction false} BallotsAfter(log: Log, pick: Entry -> Option<Cast>, m: nat, n: nat, since: int)
    requires m <= n <= |log|
    requires forall k :: m <= k < n ==> log[k].at > since || pick(log[k]).None?
    ensures var old_, new_ := FirstBallots(log, pick, 0, m), FirstBallots(log, pick, 0, n);
      && (forall j :: j in old_ ==> j in new_ && new_[j] == old_[j])
      && (forall j :: j in new_ && j !in old_ ==> new_[j].admittedAt > since)
    decreases n
  {
    if m < n {
      BallotsAfter(log, pick, m, n - 1, since);
    }
  }

  lemma {:induction false} RoundPoolPinned(C: Court, kase: Case, log: Log, log': Log, r: Round)
    requires IsPrefix(log, log') && r.anchorSeq <= |log|
    ensures RoundPool(C, kase, log', r) == RoundPool(C, kase, log, r)
  {
    UptoPrefix(log, log', r.anchorSeq);
    RecusalPinned(log, log', kase.subject, r.anchorSeq);
    PoolPinned(C.st, log, log', HardExcluded(kase),
               Vouchers(log, kase.subject, r.anchorSeq) + Vouchees(log, kase.subject, r.anchorSeq),
               r.openedAt, r.anchorSeq, C.params.panelSize);
  }

  /** A round's decision as of an instant is the same on every log that adds only later ballots. */
  lemma {:induction false} DecisionStable(C: Court, kase: Case, log: Log, log': Log, r: Round, now: int)
    requires AddsOnlyAfter(kase, log, log', now) && r.anchorSeq <= |log|
    ensures RoundDecision(C, kase, log', r, now) == RoundDecision(C, kase, log, r, now)
  {
    hide Draw, RoundPool, Generations, Tally, FirstBallots, Ruling;
    var pick := RoundPick(kase, r.index);
    RoundPoolPinned(C, kase, log, log', r);
    assert log[..|log|] == log;
    BallotsLocal(log, log', pick, 0, |log|);
    BallotsAfter(log', pick, |log|, |log'|, now);
    var q, q' := RoundQuery(C, kase, log, r, now), RoundQuery(C, kase, log', r, now);
    LateBallotsUnseen(q, q', 0, Min(C.params.panelSize, |q.sequence|), r.openedAt);
    RulingOfPanelists(q, r.openedAt, C.params.panelSize);
    RulingOfPanelists(q', r.openedAt, C.params.panelSize);
  }

  lemma {:induction false} CurrentAnchor(C: Court, kase: Case, log: Log, now: int, n: nat)
    requires n <= |log| && kase.anchorSeq0 <= |log|
    ensures forall i :: 0 <= i < |RoundsTo(C, kase, log, now, n)| ==> RoundsTo(C, kase, log, now, n)[i].anchorSeq <= |log|
  {
    hide Opens;
    if n > 0 {
      CurrentAnchor(C, kase, log, now, n - 1);
    }
  }

  lemma {:induction false} RoundsSame(C: Court, kase: Case, log: Log, now: int, log': Log, now': int, n: nat)
    requires kase.anchorSeq0 <= |log| && n <= |log| && now <= now'
    requires forall k :: 0 <= k < n ==> log[k].at <= now && AddsOnlyAfter(kase, log, log', log[k].at)
    requires IsPrefix(log, log')
    ensures RoundsTo(C, kase, log', now', n) == RoundsTo(C, kase, log, now, n)
  {
    hide RoundDecision, Electorate, AddsOnlyAfter;
    if n > 0 {
      RoundsSame(C, kase, log, now, log', now', n - 1);
      var rs := RoundsTo(C, kase, log, now, n - 1);
      var cur := rs[|rs| - 1];
      CurrentAnchor(C, kase, log, now, n - 1);
      var e := log[n - 1];
      assert log'[n - 1] == e by { assert log'[..|log|][n - 1] == log'[n - 1]; }
      assert AddsOnlyAfter(kase, log, log', e.at);
      DecisionStable(C, kase, log, log', cur, e.at);
      ElectoratePinned(C.st, log, log', n, e.at);
      assert Opens(C, kase, log', cur, n - 1, now') == Opens(C, kase, log, cur, n - 1, now);
    }
  }

  lemma {:induction false} RoundsGrow(C: Court, kase: Case, log: Log, now: int, m: nat, n: nat)
    requires m <= n <= |log|
    ensures RoundsTo(C, kase, log, now, m) <= RoundsTo(C, kase, log, now, n)
    decreases n
  {
    hide Opens;
    if m < n {
      RoundsGrow(C, kase, log, now, m, n - 1);
    }
  }

  lemma {:induction false} RoundsSkip(C: Court, kase: Case, log: Log, now: int, m: nat, n: nat)
    requires m <= n <= |log| && forall k :: m <= k < n ==> log[k].at > now
    ensures RoundsTo(C, kase, log, now, n) == RoundsTo(C, kase, log, now, m)
    decreases n
  {
    hide RoundDecision, Electorate;
    if m < n {
      RoundsSkip(C, kase, log, now, m, n - 1);
    }
  }

  /** How many leading entries were admitted by `now`. */
  function AdmittedBy(log: Log, now: int): (m: nat)
    ensures m <= |log|
    ensures forall k :: 0 <= k < m ==> log[k].at <= now
    ensures m < |log| ==> log[m].at > now
  {
    if log == [] || log[0].at > now then 0 else 1 + AdmittedBy(log[1..], now)
  }

  /** Every entry `log'` adds was admitted strictly after all of `log`. */
  predicate StrictlyLater(log: Log, log': Log) {
    IsPrefix(log, log') && forall i, k :: 0 <= i < |log| <= k < |log'| ==> log[i].at < log'[k].at
  }

  /** Strictly later entries, or a later reading, only append rounds. */
  lemma {:induction false} RoundsOnlyAppend(C: Court, kase: Case, log: Log, now: int, log': Log, now': int)
    requires Anchored(kase, log) && StrictlyLater(log, log') && now <= now'
    ensures Rounds(C, kase, log, now) <= Rounds(C, kase, log', now')
  {
    hide RoundsTo;
    var m := AdmittedBy(log, now);
    RoundsSkip(C, kase, log, now, m, |log|);
    RoundsSame(C, kase, log, now, log', now', m);
    RoundsGrow(C, kase, log', now', m, |log'|);
  }

  // --- The decision and the gates ---------------------------------------------

  /** The first station-signed ruling on `id` among the first `n` entries. */
  function TerminalIn(station: Address, log: Log, id: nat, n: nat): Option<bool>
    requires n <= |log|
  {
    if n == 0 then None
    else
      var earlier := TerminalIn(station, log, id, n - 1);
      if earlier.Some? then earlier
      else if Rules(station, log[n - 1], id) then Some(log[n - 1].record.overturn)
      else None
  }

  predicate Rules(station: Address, e: Entry, id: nat) {
    e.record.TerminalRuling? && e.signer == station && e.record.id == id
  }

  function Terminal(C: Court, log: Log, id: nat): Option<bool> {
    TerminalIn(C.station, log, id, |log|)
  }

  /** The ruling recorded for any attached record, in attachment order. */
  function TerminalOf(C: Court, log: Log, attached: seq<nat>): Option<bool> {
    if attached == [] then None
    else if Terminal(C, log, attached[0]).Some? then Terminal(C, log, attached[0])
    else TerminalOf(C, log, attached[1..])
  }

  function DecideEquivocation(C: Court, kase: Case, log: Log, now: int): EquivResolution {
    match TerminalOf(C, log, kase.attached)
    case Some(overturn) => if overturn then Overturned else Confirmed
    case None =>
      var cur := Current(C, kase, log, now);
      match RoundDecision(C, kase, log, cur, now)
      case Some(Upheld) => Overturned
      case Some(Rejected) => Confirmed
      case None => if now >= Closes(C, cur) then Lapsed else Pending
  }

  predicate ReseatOk(C: Court, kase: Case, log: Log, requester: Address, round: nat, signer: Address, at: int) {
    && signer == requester
    && DecideEquivocation(C, kase, log, at) == Lapsed
    && round == Current(C, kase, log, at).index + 1
    && ReseatEligible(C, kase, log, requester, at, |log| + 1)
  }

  /** A re-seat the gate admits opens its round at its own admission position, in every reading
      from then on. */
  lemma {:induction false} AdmittedReseatOpens(C: Court, kase: Case, log: Log, e: Entry, now: int)
    requires Anchored(kase, log) && log[|log| - 1].at <= e.at <= now
    requires e.record.Reseat? && e.record.id in kase.attached
    requires ReseatOk(C, kase, log, e.record.requester, e.record.round, e.signer, e.at)
    ensures Rounds(C, kase, log + [e], now)
         == Rounds(C, kase, log, e.at) + [Round(e.record.round, |log| + 1, e.at)]
  {
    hide RoundDecision, Electorate, TerminalOf;
    var log' := log + [e];
    assert log'[..|log|] == log;
    forall k | 0 <= k < |log| ensures log[k].at <= e.at && AddsOnlyAfter(kase, log, log', log[k].at) {
      assert log[k].at <= log[|log| - 1].at;
    }
    RoundsSame(C, kase, log, e.at, log', now, |log|);
    CurrentAnchor(C, kase, log, e.at, |log|);
    var cur := Current(C, kase, log, e.at);
    DecisionStable(C, kase, log, log', cur, e.at);
    ElectorateAtOwnPosition(C.st, log, e, e.at);
    assert log'[|log|] == e;
    assert Opens(C, kase, log', cur, |log|, now);
  }

  /** And strictly later entries never close it again. */
  lemma {:induction false} AdmittedReseatStays(C: Court, kase: Case, log: Log, e: Entry, log': Log, now: int)
    requires Anchored(kase, log) && log[|log| - 1].at <= e.at <= now && StrictlyLater(log + [e], log')
    requires e.record.Reseat? && e.record.id in kase.attached
    requires ReseatOk(C, kase, log, e.record.requester, e.record.round, e.signer, e.at)
    ensures Rounds(C, kase, log, e.at) + [Round(e.record.round, |log| + 1, e.at)] <= Rounds(C, kase, log', now)
  {
    hide ReseatOk, Rounds;
    ClockedAppend(log, e);
    AdmittedReseatOpens(C, kase, log, e, e.at);
    RoundsOnlyAppend(C, kase, log + [e], e.at, log', now);
  }

  lemma {:induction false} RoundJuryDistinct(C: Court, kase: Case, log: Log, r: Round)
    requires Sound(C.st)
    ensures Distinct(Draw(RoundPool(C, kase, log, r), C.draw(r.anchorSeq)))
  {
    PoolDistinct(C.st, log, HardExcluded(kase),
                 Vouchers(log, kase.subject, r.anchorSeq) + Vouchees(log, kase.subject, r.anchorSeq),
                 r.openedAt, r.anchorSeq, C.params.panelSize);
    DrawDistinct(RoundPool(C, kase, log, r), C.draw(r.anchorSeq));
  }

  predicate HoldsSeat(C: Court, kase: Case, log: Log, r: Round, juror: Address, at: int) {
    Awaiting(RoundPanel(C, kase, log, r, at), juror)
  }

  predicate BallotOk(C: Court, kase: Case, log: Log, juror: Address, r: Round, castAt: int, signer: Address, at: int) {
    && signer == juror && castAt <= at + CLOCK_SKEW_TOLERANCE
    && r in Rounds(C, kase, log, at)
    && juror !in RoundBallots(kase, log, r.index)
    && HoldsSeat(C, kase, log, r, juror, at)
  }

  /** A ballot the gate admits is credited in its juror's seat of that round at every later reading,
      whatever is admitted after it. */
  lemma {:induction false} AdmittedBallotCredited(
    C: Court, kase: Case, log: Log, e: Entry, r: Round, log': Log, now: int)
    requires C.params.jurorResponse >= 0 && r.anchorSeq <= |log| && r.openedAt <= e.at <= now
    requires e.record.EquivocationBallot? && e.record.id in kase.attached && e.record.round == r.index
    requires BallotOk(C, kase, log, e.record.juror, r, e.record.castAt, e.signer, e.at)
    requires IsPrefix(log + [e], log') && forall k :: |log| < k < |log'| ==> log'[k].at >= e.at
    ensures exists s :: s in RoundPanel(C, kase, log', r, now)
                        && s.juror == e.record.juror && s.verdict == Some(e.record.overturn)
  {
    hide Seats, FirstBallots, Draw, Rounds, RoundPool;
    var mid, pick := log + [e], RoundPick(kase, r.index);
    var s :| s in RoundPanel(C, kase, log, r, e.at) && s.juror == e.record.juror && s.verdict.None?;
    assert mid[..|log|] == log;
    assert IsPrefix(log, mid);
    RoundPoolPinned(C, kase, log, mid, r);
    RoundPoolPinned(C, kase, mid, log', r);
    BallotJoinsRound(kase, log, e, r.index);
    assert mid[..|mid|] == mid;
    BallotsLocal(mid, log', pick, 0, |mid|);
    BallotsGrow(log', pick, 0, |mid|, |log'|, e.at);
    var q, q' := RoundQuery(C, kase, log, r, e.at), RoundQuery(C, kase, log', r, now);
    AdmittedVerdictCredited(q, q', r.openedAt, C.params.panelSize, s, e.record.overturn);
    assert s.(verdict := Some(e.record.overturn)) in RoundPanel(C, kase, log', r, now);
  }

  lemma {:induction false} BallotJoinsRound(kase: Case, log: Log, e: Entry, round: nat)
    requires RoundPick(kase, round)(e).Some? && e.record.juror !in RoundBallots(kase, log, round)
    ensures RoundBallots(kase, log + [e], round)
         == RoundBallots(kase, log, round)[e.record.juror := Ballot(e.record.overturn, e.at)]
  {
    var log' := log + [e];
    assert log'[..|log|] == log && log[..|log|] == log && log'[|log|] == e;
    BallotsLocal(log, log', RoundPick(kase, round), 0, |log|);
  }
}
