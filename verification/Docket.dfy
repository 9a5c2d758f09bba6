/** The log as the dispute layer reads it: admitted entries, and first-ballot boxes
    (crates/rrn-dispute/src/verdict.rs, crates/rrn-dispute/src/escalation.rs). */
module Docket {
  import opened Basics
  import opened Panel

  datatype Reason = Appeal | CannotSeat

  /** The records this layer reads. `Evidence` is anything else standing may be scored from. */
  datatype Record =
    | Vouch(subject: Address)
    | Verdict(tx: nat, juror: Address, uphold: bool, castAt: int)
    | Escalation(tx: nat, initiator: Address, reason: Reason, openedAt: int)
    | EscalationBallot(tx: nat, voter: Address, uphold: bool, castAt: int)
    | EquivocationBallot(id: nat, juror: Address, round: nat, overturn: bool, castAt: int)
    | Reseat(id: nat, requester: Address, round: nat)
    | TerminalRuling(id: nat, overturn: bool)
    | Evidence(tag: nat)

  /** An admitted entry: its record, its envelope signer, and the admission instant. The entry
      at index `i` has seq `i + 1`. */
  datatype Entry = Entry(record: Record, signer: Address, at: int)

  type Log = seq<Entry>

  predicate Clocked(log: Log) {
    forall i, j :: 0 <= i <= j < |log| ==> log[i].at <= log[j].at
  }

  /** The instant an entry appended at `now` is stamped with. */
  function AdmissionInstant(log: Log, now: int): (at: int)
    ensures at >= now
    ensures Clocked(log) ==> forall i :: 0 <= i < |log| ==> log[i].at <= at
    ensures at == now || (log != [] && at == log[|log| - 1].at)
  {
    if log == [] then now else Max(now, log[|log| - 1].at)
  }

  lemma {:induction false} ClockedAppend(log: Log, e: Entry)
    requires Clocked(log) && (log == [] || log[|log| - 1].at <= e.at)
    ensures Clocked(log + [e])
  {
  }

  // --- First ballot per caster ------------------------------------------------

  datatype Cast = Cast(who: Address, uphold: bool)

  /** The ballots picked from the entries at indices `[after, n)`: the first one of each caster,
      with its admission instant. */
  function FirstBallots(log: Log, pick: Entry -> Option<Cast>, after: nat, n: nat): Ballots
    requires n <= |log|
  {
    if n <= after then map[]
    else
      var box := FirstBallots(log, pick, after, n - 1);
      match pick(log[n - 1])
      case None => box
      case Some(cast) =>
        if cast.who in box then box else box[cast.who := Ballot(cast.uphold, log[n - 1].at)]
  }

  method CollectBallots(log: Log, pick: Entry -> Option<Cast>, after: nat) returns (out: Ballots)
    ensures out == FirstBallots(log, pick, after, |log|)
  {
    out := map[];
    var n := after;
    while n < |log|
      invariant out == (if n <= |log| then FirstBallots(log, pick, after, n) else map[])
      invariant after <= n && (n <= |log| || n == after)
    {
      match pick(log[n]) {
        case None =>
        case Some(cast) =>
          if cast.who !in out {
            out := out[cast.who := Ballot(cast.uphold, log[n].at)];
          }
      }
      n := n + 1;
    }
    if after > |log| {
      assert FirstBallots(log, pick, after, |log|) == map[];
    }
  }

  /** `i` is the first entry in `[after, n)` cast by `who`. */
  predicate FirstCastAt(log: Log, pick: Entry -> Option<Cast>, after: nat, n: nat, who: Address, i: nat) {
    && after <= i < n <= |log| && pick(log[i]).Some? && pick(log[i]).value.who == who
    && forall k :: after <= k < i ==> pick(log[k]).None? || pick(log[k]).value.who != who
  }

  /** A caster's ballot is the one in their first entry, stamped with its admission instant. */
  lemma {:induction false} BallotMeaning(log: Log, pick: Entry -> Option<Cast>, after: nat, n: nat, who: Address)
    requires n <= |log|
    ensures var box := FirstBallots(log, pick, after, n);
      && (who in box ==> exists i: nat :: FirstCastAt(log, pick, after, n, who, i)
                                     && box[who] == Ballot(pick(log[i]).value.uphold, log[i].at))
      && (who !in box ==> forall k :: after <= k < n ==> pick(log[k]).None? || pick(log[k]).value.who != who)
  {
    if n > after {
      BallotMeaning(log, pick, after, n - 1, who);
      var box := FirstBallots(log, pick, after, n - 1);
      if who in box {
        var i: nat :| FirstCastAt(log, pick, after, n - 1, who, i)
                 && box[who] == Ballot(pick(log[i]).value.uphold, log[i].at);
        assert FirstCastAt(log, pick, after, n, who, i);
      } else if pick(log[n - 1]).Some? && pick(log[n - 1]).value.who == who {
        assert FirstCastAt(log, pick, after, n, who, n - 1);
      }
    }
  }

  lemma {:induction false} BallotsLocal(log: Log, log': Log, pick: Entry -> Option<Cast>, after: nat, n: nat)
    requires n <= |log| && n <= |log'| && log'[..n] == log[..n]
    ensures FirstBallots(log', pick, after, n) == FirstBallots(log, pick, after, n)
  {
    if n > after {
      assert log'[..n - 1] == log'[..n][..n - 1] && log[..n - 1] == log[..n][..n - 1];
      assert log'[n - 1] == log'[..n][n - 1] && log[n - 1] == log[..n][n - 1];
      BallotsLocal(log, log', pick, after, n - 1);
    }
  }

  /** Reading further keeps every ballot and only adds ones admitted in the part read. */
  lemma {:induction false} BallotsGrow(log: Log, pick: Entry -> Option<Cast>, after: nat, m: nat, n: nat, since: int)
    requires m <= n <= |log|
    requires forall k :: m <= k < n ==> log[k].at >= since
    ensures var old_, new_ := FirstBallots(log, pick, after, m), FirstBallots(log, pick, after, n);
      && (forall j :: j in old_ ==> j in new_ && new_[j] == old_[j])
      && (forall j :: j in new_ && j !in old_ ==> new_[j].admittedAt >= since)
    decreases n
  {
    if m < n {
      BallotsGrow(log, pick, after, m, n - 1, since);
    }
  }

  /** Entries the picker skips add nothing. */
  lemma {:induction false} BallotsQuiet(log: Log, pick: Entry -> Option<Cast>, after: nat, m: nat, n: nat)
    requires m <= n <= |log|
    requires forall k :: m <= k < n ==> pick(log[k]).None?
    ensures FirstBallots(log, pick, after, n) == FirstBallots(log, pick, after, m)
    decreases n
  {
    if m < n {
      BallotsQuiet(log, pick, after, m, n - 1);
    }
  }

  /** Every ballot was admitted no later than the last entry read. */
  lemma {:induction false} BallotsBounded(log: Log, pick: Entry -> Option<Cast>, after: nat, n: nat, bound: int)
    requires n <= |log|
    requires forall k :: after <= k < n ==> log[k].at <= bound
    ensures forall j :: j in FirstBallots(log, pick, after, n) ==> FirstBallots(log, pick, after, n)[j].admittedAt <= bound
    decreases n
  {
    if n > after {
      BallotsBounded(log, pick, after, n - 1, bound);
    }
  }
}
