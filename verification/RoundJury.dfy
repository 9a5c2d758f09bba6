/** Who may sit on an equivocation case, in the log's own entries
    (crates/rrn-dispute/src/equivocation.rs). */
module RoundJury {
  import opened Basics
  import opened Panel
  import opened PanelLockIn
  import opened Docket
  import opened Sortition
  import opened JuryPool
  import opened Equivocation

  /** The electorate where the round is anchored. */
  function Members(C: Court, log: Log, r: Round): seq<Address> {
    C.st.electorate(Seen(log, r.anchorSeq), r.openedAt)
  }

  /** Those of it who are neither the accused, nor injured, nor tied to the accused by a vouch. */
  function Impartial(C: Court, kase: Case, log: Log, r: Round): set<Address> {
    set a | a in Members(C, log, r) && a != kase.subject && a !in kase.payees
            && !Tied(log, a, kase.subject, r.anchorSeq)
  }

  /** The round's pool holds a member exactly when they are neither the accused nor injured, and not tied to
      the accused by a vouch unless the impartial members are fewer than a panel. */
  lemma {:induction false} RoundPoolMeans(C: Court, kase: Case, log: Log, r: Round, a: Address)
    requires Sound(C.st)
    ensures a in Keys(RoundPool(C, kase, log, r)) <==>
              && a in Members(C, log, r) && a != kase.subject && a !in kase.payees
              && (Tied(log, a, kase.subject, r.anchorSeq) ==> |Impartial(C, kase, log, r)| < C.params.panelSize)
  {
    hide Pool, Electorate, Tied, Vouchers, Vouchees, Sound, Seen;
    var soft := Vouchers(log, kase.subject, r.anchorSeq) + Vouchees(log, kase.subject, r.anchorSeq);
    PoolHolds(C.st, log, HardExcluded(kase), soft, r.openedAt, r.anchorSeq, C.params.panelSize, a);
    ElectorateMeans(C.st, log, r.anchorSeq, r.openedAt);
    forall b ensures b in soft <==> Tied(log, b, kase.subject, r.anchorSeq) {
      VouchesMean(log, b, kase.subject, r.anchorSeq);
    }
    assert Free(Electorate(C.st, log, r.anchorSeq, r.openedAt), HardExcluded(kase) + soft) == Impartial(C, kase, log, r);
  }

  lemma {:induction false} DrawnFromPool(C: Court, kase: Case, log: Log, r: Round, j: Address)
    ensures j in Draw(RoundPool(C, kase, log, r), C.draw(r.anchorSeq)) <==> j in Keys(RoundPool(C, kase, log, r))
  {
    hide Draw, RoundPool;
    var pool := RoundPool(C, kase, log, r);
    var order := Draw(pool, C.draw(r.anchorSeq));
    DrawPermutes(pool, C.draw(r.anchorSeq));
    assert j in order <==> j in multiset(order);
    assert j in Keys(pool) <==> j in multiset(Keys(pool));
  }

  /** No seat of any round, at any reading, is held by the accused or an injured payee, and one is held by a
      member tied to the accused only when the impartial members are fewer than a panel. */
  lemma {:induction false} RoundSeatsMean(C: Court, kase: Case, log: Log, r: Round, now: int, s: Seat)
    requires Sound(C.st) && C.params.jurorResponse >= 0 && s in RoundPanel(C, kase, log, r, now)
    ensures s.juror != kase.subject && s.juror !in kase.payees && s.juror in Members(C, log, r)
    ensures Tied(log, s.juror, kase.subject, r.anchorSeq) ==> |Impartial(C, kase, log, r)| < C.params.panelSize
  {
    hide Seats, Draw, RoundPool, RoundBallots, Tied, Members, Impartial, Sound;
    PanelShape(RoundQuery(C, kase, log, r, now), r.openedAt, C.params.panelSize);
    DrawnFromPool(C, kase, log, r, s.juror);
    RoundPoolMeans(C, kase, log, r, s.juror);
  }

  /** The ballot door takes a first ballot of the round from a member who is neither the accused nor
      injured, dated at most five minutes ahead. */
  lemma {:induction false} BallotMeans(
    C: Court, kase: Case, log: Log, juror: Address, r: Round, castAt: int, signer: Address, at: int)
    requires Sound(C.st) && C.params.jurorResponse >= 0 && BallotOk(C, kase, log, juror, r, castAt, signer, at)
    ensures signer == juror && castAt <= at + 300
    ensures juror != kase.subject && juror !in kase.payees && juror in Members(C, log, r)
    ensures forall k :: 0 <= k < |log| && log[k].record.EquivocationBallot? ==>
              !(log[k].record.id in kase.attached && log[k].record.round == r.index
                && log[k].signer == juror && log[k].record.juror == juror)
  {
    hide RoundPanel, Rounds, Members, Sound, FirstBallots;
    var s :| s in RoundPanel(C, kase, log, r, at) && s.juror == juror && s.verdict.None?;
    RoundSeatsMean(C, kase, log, r, at, s);
    BallotMeaning(log, RoundPick(kase, r.index), 0, |log|, juror);
    forall k | 0 <= k < |log| && log[k].record.EquivocationBallot?
      ensures !(log[k].record.id in kase.attached && log[k].record.round == r.index
                && log[k].signer == juror && log[k].record.juror == juror)
    {
      assert RoundPick(kase, r.index)(log[k]).None? || RoundPick(kase, r.index)(log[k]).value.who != juror;
    }
  }
}
