/** The terminal write of an equivocation case, resumable after a pass cut short at any point, and
    the case's front doors (crates/rrn-dispute/src/equivocation.rs). */
module EquivocationRulings {
  import opened Basics
  import opened Panel
  import opened PanelLockIn
  import opened Docket
  import opened Sortition
  import opened JuryPool
  import opened Equivocation
  import opened RoundJury

  // --- Passes -----------------------------------------------------------------

  /** The log after a pass with `overturn` has handled the first `i` attached records: one ruling
      for each that had none when the pass began. */
  function PassTo(C: Court, kase: Case, log: Log, overturn: bool, now: int, i: nat): (r: Log)
    requires i <= |kase.attached|
    ensures IsPrefix(log, r)
  {
    if i == 0 then log
    else
      var before := PassTo(C, kase, log, overturn, now, i - 1);
      if Terminal(C, log, kase.attached[i - 1]).Some? then before
      else before + [Entry(TerminalRuling(kase.attached[i - 1], overturn), C.station, AdmissionInstant(before, now))]
  }

  /** A pass cut short once it has handled `i` attached records. */
  function RulingPass(C: Court, kase: Case, log: Log, now: int, i: nat): Log
    requires i <= |kase.attached|
  {
    match DecideEquivocation(C, kase, log, now)
    case Overturned => PassTo(C, kase, log, true, now, i)
    case Confirmed => PassTo(C, kase, log, false, now, i)
    case _ => log
  }

  predicate RulesOnCase(C: Court, kase: Case, e: Entry) {
    e.record.TerminalRuling? && e.signer == C.station && e.record.id in kase.attached
  }

  /** All rulings on the case carry `overturn`, and no record has two. */
  predicate OneRuling(C: Court, kase: Case, log: Log, overturn: bool) {
    && (forall k :: 0 <= k < |log| && RulesOnCase(C, kase, log[k]) ==> log[k].record.overturn == overturn)
    && (forall k, l :: 0 <= k < l < |log| && RulesOnCase(C, kase, log[k]) && RulesOnCase(C, kase, log[l]) ==>
          log[k].record.id != log[l].record.id)
  }

  predicate Consistent(C: Court, kase: Case, log: Log) {
    OneRuling(C, kase, log, true) || OneRuling(C, kase, log, false)
  }

  // --- What the readers see ---------------------------------------------------

  lemma {:induction false} TerminalMeaning(C: Court, log: Log, id: nat, n: nat)
    requires n <= |log|
    ensures TerminalIn(C.station, log, id, n).None? <==> forall k :: 0 <= k < n ==> !Rules(C.station, log[k], id)
    ensures TerminalIn(C.station, log, id, n).Some? ==>
      exists k :: 0 <= k < n && Rules(C.station, log[k], id)
                  && log[k].record.overturn == TerminalIn(C.station, log, id, n).value
  {
    if n > 0 {
      TerminalMeaning(C, log, id, n - 1);
    }
  }

  lemma {:induction false} TerminalOfMeaning(C: Court, log: Log, attached: seq<nat>)
    ensures TerminalOf(C, log, attached).Some? ==>
      exists id :: id in attached && Terminal(C, log, id) == TerminalOf(C, log, attached)
    ensures TerminalOf(C, log, attached).None? <==> forall id :: id in attached ==> Terminal(C, log, id).None?
  {
    if attached != [] {
      TerminalOfMeaning(C, log, attached[1..]);
      assert attached == [attached[0]] + attached[1..];
    }
  }

  /** Once any ruling is recorded, the case reads as that ruling for good. */
  lemma {:induction false} RecordedRulingDecides(C: Court, kase: Case, log: Log, overturn: bool, now: int)
    requires OneRuling(C, kase, log, overturn)
    requires exists k :: 0 <= k < |log| && RulesOnCase(C, kase, log[k])
    ensures DecideEquivocation(C, kase, log, now) == if overturn then Overturned else Confirmed
  {
    hide RoundDecision, Rounds;
    TerminalOfMeaning(C, log, kase.attached);
    var k :| 0 <= k < |log| && RulesOnCase(C, kase, log[k]);
    TerminalMeaning(C, log, log[k].record.id, |log|);
    assert Rules(C.station, log[k], log[k].record.id);
    assert TerminalOf(C, log, kase.attached).Some?;
    var id :| id in kase.attached && Terminal(C, log, id) == TerminalOf(C, log, kase.attached);
    TerminalMeaning(C, log, id, |log|);
    var l :| 0 <= l < |log| && Rules(C.station, log[l], id) && log[l].record.overturn == Terminal(C, log, id).value;
    assert RulesOnCase(C, kase, log[l]);
  }

  // --- One pass keeps the record consistent -----------------------------------

  /** An entry a pass with `overturn` may write by its `i`-th record: a ruling on a record it has
      handled that had none. */
  predicate WrittenBy(C: Court, kase: Case, log: Log, overturn: bool, i: nat, e: Entry)
    requires i <= |kase.attached|
  {
    && e.record.TerminalRuling? && e.signer == C.station && e.record.overturn == overturn
    && e.record.id in kase.attached[..i] && Terminal(C, log, e.record.id).None?
  }

  lemma {:induction false} PassWrites(C: Court, kase: Case, log: Log, overturn: bool, now: int, i: nat, k: nat)
    requires i <= |kase.attached| && |log| <= k < |PassTo(C, kase, log, overturn, now, i)|
    ensures WrittenBy(C, kase, log, overturn, i, PassTo(C, kase, log, overturn, now, i)[k])
  {
    if i > 0 {
      assert kase.attached[..i] == kase.attached[..i - 1] + [kase.attached[i - 1]];
      if k < |PassTo(C, kase, log, overturn, now, i - 1)| {
        PassWrites(C, kase, log, overturn, now, i - 1, k);
      }
    }
  }

  lemma {:induction false} PassConsistent(C: Court, kase: Case, log: Log, overturn: bool, now: int, i: nat)
    requires Distinct(kase.attached) && i <= |kase.attached| && OneRuling(C, kase, log, overturn)
    ensures OneRuling(C, kase, PassTo(C, kase, log, overturn, now, i), overturn)
  {
    if i > 0 {
      hide AdmissionInstant;
      PassConsistent(C, kase, log, overturn, now, i - 1);
      var before, id := PassTo(C, kase, log, overturn, now, i - 1), kase.attached[i - 1];
      if Terminal(C, log, id).None? {
        TerminalMeaning(C, log, id, |log|);
        var after := PassTo(C, kase, log, overturn, now, i);
        assert after == before + [after[|before|]];
        forall k | 0 <= k < |before| && RulesOnCase(C, kase, before[k]) ensures before[k].record.id != id {
          if k < |log| {
            assert before[k] == log[k] by { assert before[..|log|][k] == before[k]; }
            assert !Rules(C.station, log[k], id);
          } else {
            PassWrites(C, kase, log, overturn, now, i - 1, k);
            assert before[k].record.id in kase.attached[..i - 1];
          }
        }
        OneRulingAppends(C, kase, before, after[|before|], overturn);
      }
    }
  }

  lemma {:induction false} OneRulingAppends(C: Court, kase: Case, log: Log, e: Entry, overturn: bool)
    requires OneRuling(C, kase, log, overturn) && e.record.TerminalRuling? && e.record.overturn == overturn
    requires forall k :: 0 <= k < |log| && RulesOnCase(C, kase, log[k]) ==> log[k].record.id != e.record.id
    ensures OneRuling(C, kase, log + [e], overturn)
  {
  }

  predicate Ruled(C: Court, log: Log, id: nat) {
    exists k :: 0 <= k < |log| && Rules(C.station, log[k], id)
  }

  /** A complete pass leaves no attached record unruled. */
  lemma {:induction false} PassCompletes(C: Court, kase: Case, log: Log, overturn: bool, now: int, i: nat, j: nat)
    requires j < i <= |kase.attached|
    ensures Ruled(C, PassTo(C, kase, log, overturn, now, i), kase.attached[j])
  {
    hide AdmissionInstant;
    var r, id := PassTo(C, kase, log, overturn, now, i), kase.attached[j];
    if j < i - 1 {
      PassCompletes(C, kase, log, overturn, now, i - 1, j);
      RuledStays(C, PassTo(C, kase, log, overturn, now, i - 1), r, id);
    } else if Terminal(C, log, id).Some? {
      TerminalMeaning(C, log, id, |log|);
      RuledStays(C, log, r, id);
    } else {
      assert Rules(C.station, r[|r| - 1], id);
    }
  }

  lemma {:induction false} RuledStays(C: Court, log: Log, log': Log, id: nat)
    requires IsPrefix(log, log') && Ruled(C, log, id)
    ensures Ruled(C, log', id)
  {
    var k :| 0 <= k < |log| && Rules(C.station, log[k], id);
    assert log'[k] == log[k] by { assert log'[..|log|][k] == log'[k]; }
  }

  /** With every attached record ruled on, a pass appends nothing. */
  lemma {:induction false} CompletePassIsQuiet(C: Court, kase: Case, log: Log, overturn: bool, now: int, i: nat)
    requires i <= |kase.attached|
    requires forall j :: 0 <= j < |kase.attached| ==> Terminal(C, log, kase.attached[j]).Some?
    ensures PassTo(C, kase, log, overturn, now, i) == log
  {
    if i > 0 {
      CompletePassIsQuiet(C, kase, log, overturn, now, i - 1);
    }
  }

  // --- Runs of passes ---------------------------------------------------------

  /** A pass cut short after handling some records, or an entry that is no ruling on the case. */
  datatype Step = PassStep(now: int, cut: nat) | OtherStep(e: Entry)

  predicate StepFits(C: Court, kase: Case, s: Step) {
    match s
    case PassStep(_, cut) => cut <= |kase.attached|
    case OtherStep(e) => !RulesOnCase(C, kase, e)
  }

  function Apply(C: Court, kase: Case, log: Log, s: Step): Log
    requires StepFits(C, kase, s)
  {
    match s
    case PassStep(now, cut) => RulingPass(C, kase, log, now, cut)
    case OtherStep(e) => log + [e]
  }

  function Run(C: Court, kase: Case, log: Log, steps: seq<Step>): Log
    requires forall i :: 0 <= i < |steps| ==> StepFits(C, kase, steps[i])
    decreases |steps|
  {
    if steps == [] then log
    else Apply(C, kase, Run(C, kase, log, steps[..|steps| - 1]), steps[|steps| - 1])
  }

  lemma {:induction false} StepConsistent(C: Court, kase: Case, log: Log, s: Step)
    requires Distinct(kase.attached) && Consistent(C, kase, log) && StepFits(C, kase, s)
    ensures Consistent(C, kase, Apply(C, kase, log, s))
  {
    hide RoundDecision, Rounds, TerminalOf, PassTo, OneRuling;
    match s {
      case OtherStep(e) =>
        if OneRuling(C, kase, log, true) {
          OtherKeeps(C, kase, log, e, true);
        } else {
          OtherKeeps(C, kase, log, e, false);
        }
      case PassStep(now, cut) =>
        if exists k :: 0 <= k < |log| && RulesOnCase(C, kase, log[k]) {
          if OneRuling(C, kase, log, true) {
            RecordedRulingDecides(C, kase, log, true, now);
            PassConsistent(C, kase, log, true, now, cut);
          } else {
            RecordedRulingDecides(C, kase, log, false, now);
            PassConsistent(C, kase, log, false, now, cut);
          }
        } else {
          NoRulings(C, kase, log);
          PassConsistent(C, kase, log, true, now, cut);
          PassConsistent(C, kase, log, false, now, cut);
        }
    }
  }

  lemma {:induction false} OtherKeeps(C: Court, kase: Case, log: Log, e: Entry, overturn: bool)
    requires OneRuling(C, kase, log, overturn) && !RulesOnCase(C, kase, e)
    ensures OneRuling(C, kase, log + [e], overturn)
  {
  }

  lemma {:induction false} NoRulings(C: Court, kase: Case, log: Log)
    requires !exists k :: 0 <= k < |log| && RulesOnCase(C, kase, log[k])
    ensures OneRuling(C, kase, log, true) && OneRuling(C, kase, log, false)
  {
  }

  /** Over every run of passes, each possibly cut short anywhere, every attached record gets at most
      one ruling and all of the case's rulings agree. */
  lemma {:induction false} RunConsistent(C: Court, kase: Case, log: Log, steps: seq<Step>)
    requires Distinct(kase.attached) && Consistent(C, kase, log)
    requires forall i :: 0 <= i < |steps| ==> StepFits(C, kase, steps[i])
    ensures Consistent(C, kase, Run(C, kase, log, steps))
    decreases |steps|
  {
    hide Consistent;
    if steps != [] {
      var rest := steps[..|steps| - 1];
      RunConsistent(C, kase, log, rest);
      StepConsistent(C, kase, Run(C, kase, log, rest), steps[|steps| - 1]);
    }
  }

  lemma {:induction false} TerminalStays(C: Court, log: Log, log': Log, id: nat)
    requires IsPrefix(log, log') && Terminal(C, log, id).Some?
    ensures Terminal(C, log', id).Some?
  {
    TerminalMeaning(C, log, id, |log|);
    TerminalMeaning(C, log', id, |log'|);
    RuledStays(C, log, log', id);
  }

  /** After a terminal pass ran to its end, later passes append nothing, whatever came between. */
  lemma {:induction false} QuietAfterCompletion(C: Court, kase: Case, log: Log, now: int, log': Log, now': int, i: nat)
    requires DecideEquivocation(C, kase, log, now).Overturned? || DecideEquivocation(C, kase, log, now).Confirmed?
    requires IsPrefix(RulingPass(C, kase, log, now, |kase.attached|), log') && i <= |kase.attached|
    ensures RulingPass(C, kase, log', now', i) == log'
  {
    hide RoundDecision, Rounds, TerminalOf, PassTo;
    var done := RulingPass(C, kase, log, now, |kase.attached|);
    var overturn := DecideEquivocation(C, kase, log, now).Overturned?;
    forall j | 0 <= j < |kase.attached| ensures Terminal(C, log', kase.attached[j]).Some? {
      PassCompletes(C, kase, log, overturn, now, |kase.attached|, j);
      TerminalMeaning(C, done, kase.attached[j], |done|);
      TerminalStays(C, done, log', kase.attached[j]);
    }
    CompletePassIsQuiet(C, kase, log', true, now', i);
    CompletePassIsQuiet(C, kase, log', false, now', i);
  }

  // --- Front doors ------------------------------------------------------------

  predicate InSomeRound(
    C: Court, kase: Case, log: Log, juror: Address, round: nat, castAt: int, signer: Address, at: int)
  {
    exists r :: r in Rounds(C, kase, log, at) && r.index == round && BallotOk(C, kase, log, juror, r, castAt, signer, at)
  }

  predicate IsBallot(kase: Case, e: Entry) {
    e.record.EquivocationBallot? && e.record.id in kase.attached && e.signer == e.record.juror
  }

  /** The ballot gate admits `e` on `log`. */
  predicate Admits(C: Court, kase: Case, log: Log, e: Entry)
    requires IsBallot(kase, e)
  {
    InSomeRound(C, kase, log, e.record.juror, e.record.round, e.record.castAt, e.signer, e.at)
  }

  /** Every ballot of the case was admitted by the gate, after the case was opened. */
  predicate BallotsGated(C: Court, kase: Case, log: Log) {
    forall k :: 0 <= k < |log| && IsBallot(kase, log[k]) ==> kase.anchorSeq0 <= k && Admits(C, kase, log[..k], log[k])
  }

  lemma {:induction false} GatedAppends(C: Court, kase: Case, log: Log, e: Entry)
    requires BallotsGated(C, kase, log) && kase.anchorSeq0 <= |log| && (IsBallot(kase, e) ==> Admits(C, kase, log, e))
    ensures BallotsGated(C, kase, log + [e])
  {
    hide Admits, IsBallot;
    var log' := log + [e];
    forall k | 0 <= k < |log'| && IsBallot(kase, log'[k])
      ensures kase.anchorSeq0 <= k && Admits(C, kase, log'[..k], log'[k])
    {
      assert log'[..k] == if k < |log| then log[..k] else log;
    }
  }

  /** A pass writes no ballot, and stamps on in clock order. */
  lemma {:induction false} PassGated(C: Court, kase: Case, log: Log, overturn: bool, now: int, i: nat)
    requires Anchored(kase, log) && BallotsGated(C, kase, log) && i <= |kase.attached|
    ensures Anchored(kase, PassTo(C, kase, log, overturn, now, i))
    ensures BallotsGated(C, kase, PassTo(C, kase, log, overturn, now, i))
  {
    hide BallotsGated, Terminal, AdmissionInstant, Admits;
    if i > 0 {
      PassGated(C, kase, log, overturn, now, i - 1);
      var before := PassTo(C, kase, log, overturn, now, i - 1);
      var e := Entry(TerminalRuling(kase.attached[i - 1], overturn), C.station, AdmissionInstant(before, now));
      ClockedAppend(before, e);
      GatedAppends(C, kase, before, e);
    }
  }

  datatype Refusal = BadBallot | BadReseat | NotSeated | AlreadyVoted | NotReseatable

  class Tribunal {
    const C: Court
    const kase: Case
    var log: Log

    ghost predicate Valid()
      reads this
    {
      && C.params.jurorResponse >= 0 && Distinct(kase.attached) && Anchored(kase, log) && Consistent(C, kase, log)
      && BallotsGated(C, kase, log)
    }

    constructor (C: Court, kase: Case, log: Log)
      requires C.params.jurorResponse >= 0 && Distinct(kase.attached) && Anchored(kase, log)
      requires forall k :: 0 <= k < |log| ==> !RulesOnCase(C, kase, log[k]) && !IsBallot(kase, log[k])
      ensures Valid() && this.C == C && this.kase == kase && this.log == log
    {
      this.C, this.kase, this.log := C, kase, log;
    }

    method Decision(now: int) returns (r: EquivResolution)
      ensures r == DecideEquivocation(C, kase, log, now)
    {
      hide RoundDecision, Rounds, TerminalOf;
      var terminal := TerminalOf(C, log, kase.attached);
      if terminal.Some? {
        return if terminal.value then Overturned else Confirmed;
      }
      var rounds := RoundsOf(C, kase, log, now);
      var cur := rounds[|rounds| - 1];
      match RoundDecision(C, kase, log, cur, now) {
        case Some(Upheld) => return Overturned;
        case Some(Rejected) => return Confirmed;
        case None => return if now >= cur.openedAt + C.params.windowSeconds then Lapsed else Pending;
      }
    }

    /** Appends one ruling for each attached record that has none, if the case is decided. */
    method ResolveEquivocation(now: int) returns (r: EquivResolution)
      requires Valid()
      modifies this`log
      ensures Valid()
      ensures r == DecideEquivocation(C, kase, old(log), now)
      ensures log == RulingPass(C, kase, old(log), now, |kase.attached|)
    {
      hide RoundDecision, Rounds, TerminalOf, Consistent, BallotsGated, Anchored, Terminal;
      StepConsistent(C, kase, log, PassStep(now, |kase.attached|));
      r := Decision(now);
      if r.Pending? || r.Lapsed? {
        return;
      }
      var overturn := r.Overturned?;
      ghost var before := log;
      var snapshot := log;
      PassGated(C, kase, log, overturn, now, |kase.attached|);
      for i := 0 to |kase.attached|
        invariant log == PassTo(C, kase, before, overturn, now, i)
      {
        var id := kase.attached[i];
        if Terminal(C, snapshot, id).None? {
          log := log + [Entry(TerminalRuling(id, overturn), C.station, AdmissionInstant(log, now))];
        }
      }
    }

    /** Admits a re-seat exactly when the case has lapsed, it opens the very next round, and its
        requester is an established non-subject member. */
    method AppendReseat(id: nat, requester: Address, round: nat, signer: Address, genuine: bool, now: int)
      returns (refusal: Option<Refusal>)
      requires Valid() && id in kase.attached
      modifies this`log
      ensures Valid()
      ensures refusal.None? <==>
        genuine && ReseatOk(C, kase, old(log), requester, round, signer, AdmissionInstant(old(log), now))
      ensures refusal.None? ==>
        log == old(log) + [Entry(Reseat(id, requester, round), signer, AdmissionInstant(old(log), now))]
      ensures refusal.Some? ==> log == old(log)
    {
      hide Consistent, BallotsGated, Admits, RoundsTo, Electorate, DecideEquivocation;
      if !genuine || signer != requester {
        return Some(BadReseat);
      }
      var at := AdmissionInstant(log, now);
      var decision := Decision(at);
      if decision != Lapsed {
        return Some(NotReseatable);
      }
      var rounds := RoundsOf(C, kase, log, at);
      if round != rounds[|rounds| - 1].index + 1 {
        return Some(NotReseatable);
      }
      if !ReseatEligible(C, kase, log, requester, at, |log| + 1) {
        return Some(NotReseatable);
      }
      Admit(Entry(Reseat(id, requester, round), signer, at));
      return None;
    }

    /** Whether `juror` holds an unanswered seat of round `r` at `at`. */
    method LiveSeat(r: Round, existing: Ballots, juror: Address, at: int) returns (live: bool)
      requires Sound(C.st) && C.params.jurorResponse >= 0 && existing == RoundBallots(kase, log, r.index)
      ensures live == HoldsSeat(C, kase, log, r, juror, at)
    {
      hide Seats, DrawFrom, FirstBallots, Sound;
      var sequence := DrawSequence(RoundPool(C, kase, log, r), C.draw(r.anchorSeq));
      var panel := ResolvePanel(sequence, existing, r.openedAt, C.params, at);
      var seat := SeatOf(panel, juror);
      RoundJuryDistinct(C, kase, log, r);
      SeatLookup(RoundQuery(C, kase, log, r, at), r.openedAt, C.params.panelSize, juror);
      live := seat.Some? && seat.value.verdict.None?;
    }

    /** Admits a ballot exactly when its juror holds an unanswered seat of the named round; so never from the
        accused or an injured payee. */
    method AppendBallot(
      id: nat, juror: Address, round: nat, overturn: bool, castAt: int, signer: Address, genuine: bool, now: int)
      returns (refusal: Option<Refusal>)
      requires Valid() && id in kase.attached && Sound(C.st) && C.params.windowSeconds > 0
      modifies this`log
      ensures Valid()
      ensures refusal.None? <==>
        genuine && InSomeRound(C, kase, old(log), juror, round, castAt, signer, AdmissionInstant(old(log), now))
      ensures refusal.None? ==> juror != kase.subject && juror !in kase.payees
      ensures refusal.None? ==>
        log == old(log) + [Entry(EquivocationBallot(id, juror, round, overturn, castAt), signer,
                                 AdmissionInstant(old(log), now))]
      ensures refusal.Some? ==> log == old(log)
    {
      hide HoldsSeat, RoundsTo, FirstBallots, Consistent, Sound, BallotsGated;
      if !genuine || signer != juror {
        return Some(BadBallot);
      }
      var at := AdmissionInstant(log, now);
      if castAt > at + CLOCK_SKEW_TOLERANCE {
        return Some(NotSeated);
      }
      var rounds := RoundsOf(C, kase, log, at);
      RoundsFollow(C, kase, log, at, |log|);
      if round >= |rounds| {
        return Some(NotSeated);
      }
      var r := rounds[round];
      var existing := CollectBallots(log, RoundPick(kase, round), 0);
      if juror in existing {
        return Some(AlreadyVoted);
      }
      var live := LiveSeat(r, existing, juror, at);
      if !live {
        return Some(NotSeated);
      }
      assert BallotOk(C, kase, log, juror, r, castAt, signer, at);
      BallotMeans(C, kase, log, juror, r, castAt, signer, at);
      Admit(Entry(EquivocationBallot(id, juror, round, overturn, castAt), signer, at));
      return None;
    }

    method Admit(e: Entry)
      requires Valid() && !RulesOnCase(C, kase, e) && log[|log| - 1].at <= e.at
      requires IsBallot(kase, e) ==> Admits(C, kase, log, e)
      modifies this`log
      ensures Valid() && log == old(log) + [e]
    {
      hide Consistent, BallotsGated, Admits;
      StepConsistent(C, kase, log, OtherStep(e));
      ClockedAppend(log, e);
      GatedAppends(C, kase, log, e);
      log := log + [e];
    }
  }
}
