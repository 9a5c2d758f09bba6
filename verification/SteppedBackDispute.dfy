/** A worked dispute: a reading ahead of the log says lapsed, the clock steps back, and a verdict
    admitted in time decides it (crates/rrn-dispute/src/resolution.rs). */
module SteppedBackDispute {
  import opened Basics
  import opened Panel
  import opened Docket
  import opened Sortition
  import opened JuryPool
  import opened Resolution
  import opened DisputeFinality
  import opened OneMember

  /** Members 1 and 2 dispute; member 7 is the jury; ten seconds to rule, twenty to answer. */
  function Worked(): Setup {
    Setup(OnlySeven(), Params(10, 20, 1, 1, 1, 50, 50), Info(1, 2, 0, 1), 3, (turn: nat) => 0)
  }

  function Opening(): Log {
    [Entry(Evidence(3), 1, 0)]
  }

  function InTime(): Entry {
    Entry(Verdict(3, 7, true, 5), 7, 5)
  }

  function Ruled(): Log {
    Opening() + [InTime()]
  }

  lemma {:induction false} WorkedJury(log: Log)
    requires IsPrefix(Opening(), log)
    ensures Jury(Worked(), log) == [7]
  {
    hide Draw, EligiblePool;
    var S := Worked();
    assert Recused(S, Opening()) == {};
    assert Jury(S, Opening()) == [7] by {
      SoleJury(Opening(), Parties(S.info), {}, 0, 1, S.draw);
      assert EligiblePool(S, Opening()) == Pool(OnlySeven(), Opening(), Parties(S.info), {}, 0, 1, 1) by { PoolOfParties(); }
    }
    UptoPrefix(Opening(), log, 1);
    JuryPinned(S, Opening(), log);
  }

  lemma {:induction false} PoolOfParties()
    ensures EligiblePool(Worked(), Opening()) == Pool(OnlySeven(), Opening(), Parties(Worked().info), {}, 0, 1, 1)
  {
    hide Pool;
    assert Recused(Worked(), Opening()) == {};
  }

  lemma {:induction false} WorkedPanel(log: Log, now: int)
    requires IsPrefix(Opening(), log) && now <= 20
    ensures (var q := PanelQuery(Worked(), log, now);
             PanelAt(Worked(), log, now) == [Seat(7, 0, if Timely(q, 7, 0) then Some(q.ballots[7].uphold) else None)])
  {
    hide Jury, Seats, VerdictsIn;
    WorkedJury(log);
    SoleSeat(PanelQuery(Worked(), log, now), 0, 7);
  }

  lemma {:induction false} Unruled(now: int)
    requires now <= 20
    ensures VerdictsIn(Worked(), Opening()) == map[] && PanelAt(Worked(), Opening(), now) == [Seat(7, 0, None)]
    ensures JuryOutcome(Worked(), Opening(), now).None? && EscalationIn(Opening(), 3, 1).None?
  {
    hide Jury, Seats;
    assert Opening()[..1] == Opening();
    WorkedPanel(Opening(), now);
    assert [Seat(7, 0, None)][1..] == [];
  }

  lemma {:induction false} RuledInTime(now: int)
    requires 5 <= now <= 20
    ensures JuryOutcome(Worked(), Ruled(), now) == Some(Upheld) && EscalationIn(Ruled(), 3, 2).None?
  {
    hide Jury, Seats, Tally;
    assert Ruled()[..1] == Opening();
    Unruled(5);
    VerdictJoins(Worked(), Opening(), InTime());
    WorkedPanel(Ruled(), now);
    OneVote();
    assert EscalationIn(Ruled(), 3, 1).None? by { assert EscalationIn(Ruled(), 3, 0).None?; }
  }

  lemma {:induction false} OneVote()
    ensures Tally([Seat(7, 0, Some(true))], 1) == Some(Upheld)
  {
    assert [Seat(7, 0, Some(true))][1..] == [];
  }

  /** Read at 11 with nothing on the log since the dispute opened at 0, its main window, which closed at
      10, has lapsed. The clock steps back to 5; the gate admits the juror's verdict; from then on the
      dispute reads as upheld. So finality needs later entries stamped no earlier than the reading. */
  lemma {:induction false} ClockSteppedBack()
    ensures Gated(Worked(), Opening()) && Gated(Worked(), Ruled()) && IsPrefix(Opening(), Ruled())
    ensures MainClose(Worked()) == 10 && StrictlySettled(Worked(), Opening(), 11)
    ensures VerdictOk(Worked(), Opening(), 7, 5, 7, AdmissionInstant(Opening(), 5))
    ensures Decide(Worked(), Opening(), 11) == Lapsed && Decide(Worked(), Ruled(), 12) == JuryUpheld
  {
    hide JuryOutcome, JuryRuledAt, VerdictsIn, PanelAt, EligiblePool;
    var S, log := Worked(), Opening();
    Unruled(5);
    Unruled(11);
    RuledInTime(12);
    assert HoldsLiveSeat(S, log, 7, 5) by {
      assert Seat(7, 0, None) in PanelAt(S, log, 5);
    }
    GatedStep(S, log, InTime());
    assert Ruled()[..1] == log;
  }
}
