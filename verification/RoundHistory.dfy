/** How a case's rounds change as the log grows, entries of the same second included
    (crates/rrn-dispute/src/equivocation.rs). */
module RoundHistory {
  import opened Basics
  import opened Panel
  import opened PanelLockIn
  import opened Docket
  import opened Sortition
  import opened JuryPool
  import opened Equivocation

  /** `log'` extends `log`, read at `now`, by entries admitted no earlier than that reading. */
  predicate Continues(log: Log, now: int, log': Log) {
    && IsPrefix(log, log')
    && (forall k :: 0 <= k < |log| ==> log[k].at <= now)
    && (forall k :: |log| <= k < |log'| ==> log'[k].at >= now)
  }

  lemma {:induction false} LaterQuery(C: Court, kase: Case, log: Log, now: int, log': Log, r: Round, t: int, t': int)
    requires Continues(log, now, log') && r.anchorSeq <= |log| && t <= now && t <= t'
    ensures Later(RoundQuery(C, kase, log, r, t), RoundQuery(C, kase, log', r, t'))
  {
    hide FirstBallots, Draw, RoundPool, RoundPick;
    RoundPoolPinned(C, kase, log, log', r);
    assert log[..|log|] == log;
    BallotsLocal(log, log', RoundPick(kase, r.index), 0, |log|);
    BallotsGrow(log', RoundPick(kase, r.index), 0, |log|, |log'|, now);
  }

  /** A reached decision stays reached. */
  lemma {:induction false} DecisionStays(C: Court, kase: Case, log: Log, now: int, log': Log, r: Round, t: int, t': int)
    requires C.params.jurorResponse >= 0
    requires Continues(log, now, log') && r.anchorSeq <= |log| && t <= now && t <= t'
    requires RoundDecision(C, kase, log, r, t).Some?
    ensures RoundDecision(C, kase, log', r, t') == RoundDecision(C, kase, log, r, t)
  {
    hide RoundQuery, Ruling;
    LaterQuery(C, kase, log, now, log', r, t, t');
    ResponseKept(C, kase, log, r, t);
    TallyLockIn(RoundQuery(C, kase, log, r, t), RoundQuery(C, kase, log', r, t'), r.openedAt, C.params.panelSize);
  }

  lemma {:induction false} ResponseKept(C: Court, kase: Case, log: Log, r: Round, t: int)
    ensures RoundQuery(C, kase, log, r, t).response == C.params.jurorResponse
    ensures RoundQuery(C, kase, log, r, t).now == t
  {
  }

  lemma {:induction false} LastRound(C: Court, kase: Case, log: Log, now: int, n: nat)
    requires Anchored(kase, log) && C.params.windowSeconds > 0 && n <= |log|
    ensures var rs := RoundsTo(C, kase, log, now, n);
            var cur := rs[|rs| - 1];
            AnchorOn(log, cur) && cur.index == |rs| - 1
  {
    hide RoundDecision, Opens;
    RoundsFollow(C, kase, log, now, n);
  }

  /** A round opened at the very instant `now` is gone, because ballots of that same second decided
      the round before it. */
  predicate CutShort(C: Court, kase: Case, log': Log, now: int, rs: seq<Round>, rs': seq<Round>) {
    && 0 < |rs'| < |rs| && rs[..|rs'|] == rs'
    && rs[|rs'|].openedAt == now
    && RoundDecision(C, kase, log', rs'[|rs'| - 1], now).Some?
  }

  lemma {:induction false} SameOpening(
    C: Court, kase: Case, log: Log, now: int, log': Log, now': int, cur: Round, k: nat)
    requires C.params.jurorResponse >= 0
    requires Continues(log, now, log') && now <= now' && k < |log| && cur.anchorSeq <= |log|
    ensures log'[k] == log[k]
    ensures Opens(C, kase, log', cur, k, now') ==> Opens(C, kase, log, cur, k, now)
    ensures Opens(C, kase, log, cur, k, now) && !Opens(C, kase, log', cur, k, now') ==>
              log[k].at == now && RoundDecision(C, kase, log', cur, now).Some?
  {
    hide RoundDecision, Electorate;
    var e := log[k];
    PrefixAt(log, log', k);
    ElectoratePinned(C.st, log, log', k + 1, e.at);
    if e.at < now {
      DecisionStable(C, kase, log, log', cur, e.at);
    } else if RoundDecision(C, kase, log, cur, e.at).Some? {
      DecisionStays(C, kase, log, now, log', cur, e.at, e.at);
    }
  }

  lemma {:induction false} RoundsSplit(C: Court, kase: Case, log: Log, now: int, log': Log, now': int, n: nat)
    requires C.params.jurorResponse >= 0 && C.params.windowSeconds > 0
    requires Anchored(kase, log) && Anchored(kase, log') && Continues(log, now, log') && now <= now' && n <= |log|
    ensures var rs, rs' := RoundsTo(C, kase, log, now, n), RoundsTo(C, kase, log', now', n);
            rs' == rs || CutShort(C, kase, log', now, rs, rs')
  {
    assert |log| <= |log'|;
    hide RoundDecision, Opens, Continues;
    if n > 0 {
      RoundsSplit(C, kase, log, now, log', now', n - 1);
      var rs, rs' := RoundsTo(C, kase, log, now, n - 1), RoundsTo(C, kase, log', now', n - 1);
      if rs' == rs {
        SplitHere(C, kase, log, now, log', now', n);
      } else {
        CutStays(C, kase, log, now, log', now', n, rs, rs');
      }
    }
  }

  lemma {:induction false} SplitHere(C: Court, kase: Case, log: Log, now: int, log': Log, now': int, n: nat)
    requires C.params.jurorResponse >= 0 && C.params.windowSeconds > 0
    requires Anchored(kase, log) && Continues(log, now, log') && now <= now' && 0 < n <= |log| <= |log'|
    requires RoundsTo(C, kase, log', now', n - 1) == RoundsTo(C, kase, log, now, n - 1)
    ensures var rs, rs' := RoundsTo(C, kase, log, now, n), RoundsTo(C, kase, log', now', n);
            rs' == rs || CutShort(C, kase, log', now, rs, rs')
  {
    hide RoundDecision, Opens, Continues;
    var rs := RoundsTo(C, kase, log, now, n - 1);
    assert AnchorOn(log, rs[|rs| - 1]) by {
      LastRound(C, kase, log, now, n - 1);
    }
    SameOpening(C, kase, log, now, log', now', rs[|rs| - 1], n - 1);
    assert RoundsTo(C, kase, log, now, n)[..|rs|] == rs;
  }

  lemma {:induction false} CutStays(
    C: Court, kase: Case, log: Log, now: int, log': Log, now': int, n: nat, rs: seq<Round>, rs': seq<Round>)
    requires C.params.jurorResponse >= 0 && C.params.windowSeconds > 0
    requires Anchored(kase, log) && Anchored(kase, log') && Continues(log, now, log') && now <= now' && 0 < n <= |log|
    requires rs == RoundsTo(C, kase, log, now, n - 1) && rs' == RoundsTo(C, kase, log', now', n - 1)
    requires CutShort(C, kase, log', now, rs, rs')
    ensures CutShort(C, kase, log', now, RoundsTo(C, kase, log, now, n), RoundsTo(C, kase, log', now', n))
  {
    hide RoundDecision, Opens;
    var cut := rs[|rs'|];
    assert AnchorOn(log, cut) by {
      RoundsFollow(C, kase, log, now, n - 1);
    }
    OpenedBefore(C, kase, log, now, n - 1);
    PrefixAt(log, log', n - 1);
    assert log[cut.anchorSeq - 1].at <= log[n - 1].at;
    NotReopened(C, kase, log', rs'[|rs'| - 1], n - 1, now, now');
    assert RoundsTo(C, kase, log, now, n)[..|rs'|] == rs[..|rs'|];
  }

  lemma {:induction false} NotReopened(C: Court, kase: Case, log: Log, cur: Round, k: nat, now: int, now': int)
    requires k < |log| && log[k].at == now && RoundDecision(C, kase, log, cur, now).Some?
    ensures !Opens(C, kase, log, cur, k, now')
  {
    hide RoundDecision, Electorate;
  }

  /** A round opened among the first `n` entries is the first or sits at one of them. */
  lemma {:induction false} OpenedBefore(C: Court, kase: Case, log: Log, now: int, n: nat)
    requires n <= |log|
    ensures forall i :: 0 < i < |RoundsTo(C, kase, log, now, n)| ==> RoundsTo(C, kase, log, now, n)[i].anchorSeq <= n
  {
    hide Opens;
    if n > 0 {
      OpenedBefore(C, kase, log, now, n - 1);
    }
  }

  lemma {:induction false} CutForGood(C: Court, kase: Case, log: Log, now: int, log': Log, now': int, n: nat)
    requires C.params.jurorResponse >= 0 && C.params.windowSeconds > 0
    requires Anchored(kase, log) && Anchored(kase, log') && Continues(log, now, log') && now <= now'
    requires |log| <= n <= |log'|
    requires CutShort(C, kase, log', now, Rounds(C, kase, log, now), RoundsTo(C, kase, log', now', |log|))
    ensures RoundsTo(C, kase, log', now', n) == RoundsTo(C, kase, log', now', |log|)
    decreases n
  {
    hide RoundDecision, Electorate;
    if n > |log| {
      CutForGood(C, kase, log, now, log', now', n - 1);
      var rs' := RoundsTo(C, kase, log', now', |log|);
      var cur := rs'[|rs'| - 1];
      LastRound(C, kase, log', now', |log|);
      assert Continues(log', Max(now, log'[|log'| - 1].at), log');
      DecisionStays(C, kase, log', Max(now, log'[|log'| - 1].at), log', cur, now, log'[n - 1].at);
    }
  }

  /** Later entries only append rounds, except that ballots admitted in the same second as a
      re-seat may still decide the round it replaced and so undo it. */
  lemma {:induction false} RoundsAppendOrCut(C: Court, kase: Case, log: Log, now: int, log': Log, now': int)
    requires C.params.jurorResponse >= 0 && C.params.windowSeconds > 0
    requires Anchored(kase, log) && Anchored(kase, log') && Continues(log, now, log') && now <= now'
    ensures var rs, rs' := Rounds(C, kase, log, now), Rounds(C, kase, log', now');
            rs <= rs' || CutShort(C, kase, log', now, rs, rs')
  {
    assert |log| <= |log'|;
    hide RoundsTo, RoundDecision, Continues, CutShort, Anchored;
    RoundsSplit(C, kase, log, now, log', now', |log|);
    if RoundsTo(C, kase, log', now', |log|) == Rounds(C, kase, log, now) {
      RoundsGrow(C, kase, log', now', |log|, |log'|);
    } else {
      CutForGood(C, kase, log, now, log', now', |log'|);
    }
  }

  /** So a round's index names one round for good. */
  lemma {:induction false} SameIndexSameRound(
    C: Court, kase: Case, log: Log, now: int, log': Log, now': int, r: Round, r': Round)
    requires C.params.jurorResponse >= 0 && C.params.windowSeconds > 0
    requires Anchored(kase, log) && Anchored(kase, log') && Continues(log, now, log') && now <= now'
    requires r in Rounds(C, kase, log, now) && r' in Rounds(C, kase, log', now') && r.index == r'.index
    ensures r == r'
  {
    hide RoundsTo, RoundDecision, Continues, Anchored;
    RoundsAppendOrCut(C, kase, log, now, log', now');
    RoundsFollow(C, kase, log, now, |log|);
    RoundsFollow(C, kase, log', now', |log'|);
  }
}
