/** Seating the drawn jury, redrawing around jurors who go silent, and tallying
    (crates/rrn-dispute/src/panel.rs). */
module Panel {
  import opened Basics
  import opened Sorting

  datatype Seat = Seat(juror: Address, seatedAt: int, verdict: Option<bool>)

  /** A ballot with the admission instant the log stamped it with. */
  datatype Ballot = Ballot(uphold: bool, admittedAt: int)

  type Ballots = map<Address, Ballot>

  datatype Params = Params(
    windowSeconds: int,
    jurorResponse: int,
    panelSize: nat,
    appealWindow: int,
    escalationWindow: int,
    quorumPct: nat,
    approvalPct: nat)

  datatype Outcome = Upheld | Rejected

  /** The inputs of one panel derivation. */
  datatype Query = Query(sequence: seq<Address>, ballots: Ballots, response: int, now: int)

  type Slots = seq<Option<Seat>>

  /** Whether `juror`, seated at `seatedAt`, has a ballot that counts as of `q.now`. */
  predicate Timely(q: Query, juror: Address, seatedAt: int) {
    && juror in q.ballots
    && seatedAt <= q.ballots[juror].admittedAt <= seatedAt + q.response
    && q.ballots[juror].admittedAt <= q.now
  }

  // --- The seating loop -------------------------------------------------------

  /** What one visit does to a slot, given the next unused candidate. */
  function Visit(q: Query, slot: Option<Seat>, cursor: nat): (Option<Seat>, nat) {
    match slot
    case None => (None, cursor)
    case Some(o) =>
      if o.verdict.Some? then (slot, cursor)
      else if Timely(q, o.juror, o.seatedAt) then
        (Some(o.(verdict := Some(q.ballots[o.juror].uphold))), cursor)
      else if q.now > o.seatedAt + q.response then
        if cursor < |q.sequence|
        then (Some(Seat(q.sequence[cursor], o.seatedAt + q.response, None)), cursor + 1)
        else (None, cursor)
      else (slot, cursor)
  }

  /** One pass over the slots in index order, threading the redraw cursor. */
  function Pass(q: Query, slots: Slots, cursor: nat): (r: (Slots, nat))
    ensures |r.0| == |slots|
  {
    if slots == [] then ([], cursor)
    else
      var (h, c) := Visit(q, slots[0], cursor);
      var (t, c') := Pass(q, slots[1..], c);
      ([h] + t, c')
  }

  predicate Unanswered(slot: Option<Seat>) {
    slot.Some? && slot.value.verdict.None?
  }

  /** Slots that are occupied and still without a verdict, as jurors in slot order. */
  function Pending(slots: Slots): seq<Address> {
    if slots == [] then []
    else if Unanswered(slots[0]) then [slots[0].value.juror] + Pending(slots[1..])
    else Pending(slots[1..])
  }

  /** Unused candidates plus unanswered seats: every change uses one of them up. */
  function Fuel(q: Query, slots: Slots, cursor: nat): int {
    |q.sequence| - cursor + |Pending(slots)|
  }

  /** A pass never adds to the fuel, and leaves it alone only when it changed nothing. */
  lemma {:induction false} PassBurnsFuel(q: Query, slots: Slots, cursor: nat)
    requires cursor <= |q.sequence|
    ensures var (s, c) := Pass(q, slots, cursor);
            cursor <= c <= |q.sequence| && Fuel(q, s, c) <= Fuel(q, slots, cursor)
            && (Fuel(q, s, c) == Fuel(q, slots, cursor) ==> s == slots && c == cursor)
  {
    if slots != [] {
      var (h, c) := Visit(q, slots[0], cursor);
      PassBurnsFuel(q, slots[1..], c);
      var (t, c') := Pass(q, slots[1..], c);
      assert ([h] + t)[1..] == t;
      assert slots == [slots[0]] + slots[1..];
    }
  }

  /** The panel once passes no longer change it. */
  function Settled(q: Query, slots: Slots, cursor: nat): Slots
    requires cursor <= |q.sequence|
    decreases Fuel(q, slots, cursor)
  {
    PassBurnsFuel(q, slots, cursor);
    var (s, c) := Pass(q, slots, cursor);
    if s == slots && c == cursor then slots else Settled(q, s, c)
  }

  /** The initial panel: the first `size` candidates, all seated at `openedAt`. */
  function InitialSlots(sequence: seq<Address>, openedAt: int, size: nat): (r: Slots)
    ensures |r| == size
  {
    seq(size, i requires 0 <= i =>
      if i < |sequence| then Some(Seat(sequence[i], openedAt, None)) else None)
  }

  function Occupied(slots: Slots): seq<Seat> {
    if slots == [] then []
    else if slots[0].Some? then [slots[0].value] + Occupied(slots[1..])
    else Occupied(slots[1..])
  }

  /** The seats the derivation reports. */
  function Seats(q: Query, openedAt: int, size: nat): seq<Seat> {
    Occupied(Settled(q, InitialSlots(q.sequence, openedAt, size), Min(size, |q.sequence|)))
  }

  method ResolvePanel(sequence: seq<Address>, ballots: Ballots, openedAt: int, params: Params, now: int)
    returns (panel: seq<Seat>)
    ensures panel == Seats(Query(sequence, ballots, params.jurorResponse, now), openedAt, params.panelSize)
  {
    ghost var q := Query(sequence, ballots, params.jurorResponse, now);
    var seats: Slots := [];
    var cursor: nat := 0;
    for i := 0 to params.panelSize
      invariant |seats| == i
      invariant cursor == Min(i, |sequence|)
      invariant seats == InitialSlots(sequence, openedAt, i)
    {
      if cursor < |sequence| {
        seats := seats + [Some(Seat(sequence[cursor], openedAt, None))];
        cursor := cursor + 1;
      } else {
        seats := seats + [None];
      }
    }
    ghost var goal := Settled(q, seats, cursor);
    var changed := true;
    while changed
      invariant cursor <= |sequence|
      invariant Settled(q, seats, cursor) == goal
      invariant !changed ==> seats == goal
      decreases Fuel(q, seats, cursor), changed
    {
      ghost var before, start := seats, cursor;
      PassBurnsFuel(q, seats, cursor);
      changed, seats, cursor := OnePass(sequence, ballots, params.jurorResponse, now, seats, cursor);
      if !changed {
        assert seats == before && cursor == start;
      }
    }
    panel := [];
    ghost var settled := seats;
    for s := 0 to |seats|
      invariant panel + Occupied(seats[s..]) == Occupied(seats)
    {
      assert seats[s..][1..] == seats[s + 1..];
      if seats[s].Some? {
        panel := panel + [seats[s].value];
      }
    }
  }

  method OnePass(sequence: seq<Address>, ballots: Ballots, response: int, now: int, slots: Slots, from: nat)
    returns (changed: bool, seats: Slots, cursor: nat)
    requires from <= |sequence|
    ensures (seats, cursor) == Pass(Query(sequence, ballots, response, now), slots, from)
    ensures changed <==> seats != slots || cursor != from
  {
    ghost var q := Query(sequence, ballots, response, now);
    changed, seats, cursor := false, slots, from;
    assert slots[0..] == slots;
    for s := 0 to |seats|
      invariant |seats| == |slots|
      invariant from <= cursor <= |sequence|
      invariant forall i :: s <= i < |slots| ==> seats[i] == slots[i]
      invariant Pass(q, slots, from).0 == seats[..s] + Pass(q, slots[s..], cursor).0
      invariant Pass(q, slots, from).1 == Pass(q, slots[s..], cursor).1
      invariant changed <==> seats != slots || cursor != from
    {
      PassStep(q, slots, s, cursor);
      var slot, next := VisitSlot(sequence, ballots, response, now, seats[s], cursor);
      if slot != seats[s] || next != cursor {
        changed := true;
      }
      Placing(seats, s, slot, Pass(q, slots[s + 1..], next).0);
      seats, cursor := seats[s := slot], next;
    }
    assert slots[|slots|..] == [];
    assert seats[..|seats|] + [] == seats;
  }

  lemma {:induction false} Placing(seats: Slots, s: nat, slot: Option<Seat>, rest: Slots)
    requires s < |seats|
    ensures seats[..s] + ([slot] + rest) == seats[s := slot][..s + 1] + rest
  {
    assert seats[s := slot][..s + 1] == seats[..s] + [slot];
  }

  lemma {:induction false} PassStep(q: Query, slots: Slots, s: nat, cursor: nat)
    requires s < |slots|
    ensures var (h, c) := Visit(q, slots[s], cursor);
            && Pass(q, slots[s..], cursor).0 == [h] + Pass(q, slots[s + 1..], c).0
            && Pass(q, slots[s..], cursor).1 == Pass(q, slots[s + 1..], c).1
  {
    assert slots[s..][0] == slots[s] && slots[s..][1..] == slots[s + 1..];
  }

  method VisitSlot(sequence: seq<Address>, ballots: Ballots, response: int, now: int, slot: Option<Seat>, from: nat)
    returns (seat: Option<Seat>, cursor: nat)
    ensures (seat, cursor) == Visit(Query(sequence, ballots, response, now), slot, from)
    ensures from <= |sequence| ==> from <= cursor <= |sequence|
  {
    seat, cursor := slot, from;
    if slot.None? || slot.value.verdict.Some? {
      return;
    }
    var occ := slot.value;
    if occ.juror in ballots {
      var ballot := ballots[occ.juror];
      if ballot.admittedAt >= occ.seatedAt && ballot.admittedAt <= occ.seatedAt + response && ballot.admittedAt <= now {
        seat := Some(occ.(verdict := Some(ballot.uphold)));
        return;
      }
    }
    var deadline := occ.seatedAt + response;
    if now > deadline {
      if cursor < |sequence| {
        seat := Some(Seat(sequence[cursor], deadline, None));
        cursor := cursor + 1;
      } else {
        seat := None;
      }
    }
  }

  // --- The reference: seating generation by generation ------------------------

  /** The jurors of a generation who let their window close in silence, in order. */
  function Silent(q: Query, jurors: seq<Address>, seatedAt: int): (r: seq<Address>)
    ensures |r| <= |jurors|
  {
    if jurors == [] then []
    else if Timely(q, jurors[0], seatedAt) then Silent(q, jurors[1..], seatedAt)
    else [jurors[0]] + Silent(q, jurors[1..], seatedAt)
  }

  /** The seats of a generation whose jurors answered in time. */
  function Answered(q: Query, jurors: seq<Address>, seatedAt: int): (r: seq<Seat>)
    ensures |r| + |Silent(q, jurors, seatedAt)| == |jurors|
  {
    if jurors == [] then []
    else if Timely(q, jurors[0], seatedAt) then
      [Seat(jurors[0], seatedAt, Some(q.ballots[jurors[0]].uphold))] + Answered(q, jurors[1..], seatedAt)
    else Answered(q, jurors[1..], seatedAt)
  }

  function Waiting(jurors: seq<Address>, seatedAt: int): (r: seq<Seat>)
    ensures |r| == |jurors|
  {
    seq(|jurors|, i requires 0 <= i < |jurors| => Seat(jurors[i], seatedAt, None))
  }

  /** Where the candidates replacing the silent jurors of `[from, upto)` end. */
  function NextEnd(q: Query, from: nat, upto: nat, g: int): (next: nat)
    requires from <= upto <= |q.sequence|
    ensures upto <= next <= |q.sequence|
  {
    Min(upto + |Silent(q, q.sequence[from..upto], g)|, |q.sequence|)
  }

  /** Candidates `[from, upto)` are seated together at `seatedAt`. While their window is open
      they all keep their seats. Once it has closed the silent ones are replaced, as far as
      candidates remain, by the next generation, seated at the missed deadline. */
  function Generations(q: Query, from: nat, upto: nat, seatedAt: int): seq<Seat>
    requires from <= upto <= |q.sequence|
    decreases |q.sequence| - from
  {
    var jurors := q.sequence[from..upto];
    if from == upto then []
    else if q.now > seatedAt + q.response then
      Answered(q, jurors, seatedAt)
      + Generations(q, upto, NextEnd(q, from, upto, seatedAt), seatedAt + q.response)
    else
      Answered(q, jurors, seatedAt) + Waiting(Silent(q, jurors, seatedAt), seatedAt)
  }

  /** The reference panel. */
  function Panelists(q: Query, openedAt: int, size: nat): seq<Seat> {
    Generations(q, 0, Min(size, |q.sequence|), openedAt)
  }

  // --- The loop refines the reference -----------------------------------------

  /** The answered seats, by slot. */
  function Locked(slots: Slots): multiset<Seat> {
    if slots == [] then multiset{}
    else if slots[0].Some? && slots[0].value.verdict.Some? then multiset{slots[0].value} + Locked(slots[1..])
    else Locked(slots[1..])
  }

  /** All unanswered seats share one seating instant. */
  predicate PendingAt(slots: Slots, g: int) {
    forall i :: 0 <= i < |slots| && Unanswered(slots[i]) ==> slots[i].value.seatedAt == g
  }

  lemma {:induction false} OccupiedSplits(slots: Slots, g: int)
    requires PendingAt(slots, g)
    ensures multiset(Occupied(slots)) == Locked(slots) + multiset(Waiting(Pending(slots), g))
  {
    if slots != [] {
      var rest := slots[1..];
      OccupiedSplits(rest, g);
      if Unanswered(slots[0]) {
        assert Waiting(Pending(slots), g) == [slots[0].value] + Waiting(Pending(rest), g);
      } else {
        assert Pending(slots) == Pending(rest);
      }
    }
  }

  /** A pass after the generation's deadline: the silent seats go to the next candidates. */
  lemma {:induction false} LatePass(q: Query, slots: Slots, cursor: nat, g: int)
    requires cursor <= |q.sequence| && PendingAt(slots, g) && q.now > g + q.response
    ensures var (s, c) := Pass(q, slots, cursor);
            && c == Min(cursor + |Silent(q, Pending(slots), g)|, |q.sequence|)
            && Pending(s) == q.sequence[cursor..c]
            && PendingAt(s, g + q.response)
  {
    hide Timely, Visit;
    if slots != [] {
      var (h, c1) := Visit(q, slots[0], cursor);
      var rest := slots[1..];
      VisitLate(q, slots[0], cursor, g);
      LatePass(q, rest, c1, g);
      PendingStep(slots);
      var (t, c) := Pass(q, rest, c1);
      PendingStep([h] + t);
      assert ([h] + t)[1..] == t;
    }
  }

  /** One slot visited after its generation's deadline. */
  lemma {:induction false} VisitLate(q: Query, slot: Option<Seat>, cursor: nat, g: int)
    requires cursor <= |q.sequence| && q.now > g + q.response
    requires Unanswered(slot) ==> slot.value.seatedAt == g
    ensures var (h, c) := Visit(q, slot, cursor);
            if !Unanswered(slot) then h == slot && c == cursor
            else if Timely(q, slot.value.juror, g) then h.Some? && h.value.verdict.Some? && c == cursor
            else if cursor < |q.sequence|
            then h == Some(Seat(q.sequence[cursor], g + q.response, None)) && c == cursor + 1
            else h == None && c == cursor
  {
  }

  lemma {:induction false} PendingStep(slots: Slots)
    requires slots != []
    ensures var p, r := Pending(slots), Pending(slots[1..]);
            if !Unanswered(slots[0]) then p == r
            else p != [] && p[0] == slots[0].value.juror && p[1..] == r
  {
  }

  /** A pass while the generation's window is open. */
  lemma {:induction false} LivePass(q: Query, slots: Slots, cursor: nat, g: int)
    requires cursor <= |q.sequence| && PendingAt(slots, g) && q.now <= g + q.response
    ensures var (s, c) := Pass(q, slots, cursor);
            && c == cursor && Pending(s) == Silent(q, Pending(slots), g) && PendingAt(s, g)
            && Pass(q, s, c) == (s, c)
  {
    if slots != [] {
      var (h, c1) := Visit(q, slots[0], cursor);
      var rest := slots[1..];
      LivePass(q, rest, c1, g);
      PendingStep(slots);
      var (t, c) := Pass(q, rest, c1);
      assert ([h] + t)[1..] == t;
    }
  }

  function LockedSeat(slot: Option<Seat>): multiset<Seat> {
    if slot.Some? && slot.value.verdict.Some? then multiset{slot.value} else multiset{}
  }

  lemma {:induction false} LockedStep(slots: Slots)
    requires slots != []
    ensures Locked(slots) == LockedSeat(slots[0]) + Locked(slots[1..])
  {
  }

  /** A visit locks its seat in exactly when the juror answered in time. */
  lemma {:induction false} VisitLocks(q: Query, slot: Option<Seat>, cursor: nat, g: int)
    requires Unanswered(slot) ==> slot.value.seatedAt == g
    ensures LockedSeat(Visit(q, slot, cursor).0)
         == LockedSeat(slot)
            + (if Unanswered(slot) && Timely(q, slot.value.juror, g)
               then multiset{Seat(slot.value.juror, g, Some(q.ballots[slot.value.juror].uphold))} else multiset{})
  {
  }

  lemma {:induction false} AnsweredStep(q: Query, jurors: seq<Address>, g: int)
    requires jurors != []
    ensures multiset(Answered(q, jurors, g))
         == (if Timely(q, jurors[0], g) then multiset{Seat(jurors[0], g, Some(q.ballots[jurors[0]].uphold))} else multiset{})
            + multiset(Answered(q, jurors[1..], g))
  {
    hide Timely;
  }

  /** Either way the seats answered in time are locked in, and no locked seat is lost. */
  lemma {:induction false} PassLocks(q: Query, slots: Slots, cursor: nat, g: int)
    requires PendingAt(slots, g)
    ensures Locked(Pass(q, slots, cursor).0) == Locked(slots) + multiset(Answered(q, Pending(slots), g))
  {
    hide Visit, Timely, Locked, Answered, LockedSeat;
    if slots == [] {
      NothingLocked(q, g);
    } else {
      var (h, c1) := Visit(q, slots[0], cursor);
      var rest := slots[1..];
      PassLocks(q, rest, c1, g);
      PendingStep(slots);
      var (t, c) := Pass(q, rest, c1);
      assert ([h] + t)[1..] == t;
      LockedStep([h] + t);
      LockedStep(slots);
      VisitLocks(q, slots[0], cursor, g);
      if Unanswered(slots[0]) {
        AnsweredStep(q, Pending(slots), g);
      }
    }
  }

  lemma {:induction false} NothingLocked(q: Query, g: int)
    ensures Locked([]) == multiset{} && Answered(q, [], g) == [] && Pending([]) == []
  {
  }

  lemma {:induction false} NothingPending(q: Query, slots: Slots, cursor: nat)
    requires Pending(slots) == []
    ensures Pass(q, slots, cursor) == (slots, cursor)
    ensures cursor <= |q.sequence| ==> Settled(q, slots, cursor) == slots
    ensures multiset(Occupied(slots)) == Locked(slots)
  {
    if slots != [] {
      NothingPending(q, slots[1..], cursor);
      assert slots == [slots[0]] + slots[1..];
    }
  }

  lemma {:induction false} SettledGenerations(q: Query, slots: Slots, from: nat, cursor: nat, g: int)
    requires from <= cursor <= |q.sequence| && PendingAt(slots, g)
    requires Pending(slots) == q.sequence[from..cursor]
    ensures multiset(Occupied(Settled(q, slots, cursor)))
         == Locked(slots) + multiset(Generations(q, from, cursor, g))
    decreases |q.sequence| - from
  {
    hide *;
    if from == cursor {
      NothingPending(q, slots, cursor);
      NobodySeated(q, from, g);
    } else if q.now > g + q.response {
      SettledLate(q, slots, from, cursor, g);
      LateUnfolds(q, from, cursor, g);
      var next := NextEnd(q, from, cursor, g);
      SettledGenerations(q, Pass(q, slots, cursor).0, cursor, next, g + q.response);
      Regroup(Locked(slots), multiset(Answered(q, Pending(slots), g)),
              multiset(Generations(q, cursor, next, g + q.response)));
    } else {
      SettledLive(q, slots, cursor, g);
      LiveUnfolds(q, from, cursor, g);
      Regroup(Locked(slots), multiset(Answered(q, Pending(slots), g)),
              multiset(Waiting(Silent(q, Pending(slots), g), g)));
    }
  }

  lemma {:induction false} NobodySeated(q: Query, from: nat, g: int)
    requires from <= |q.sequence|
    ensures multiset(Generations(q, from, from, g)) == multiset{}
  {
  }

  lemma {:induction false} Regroup(a: multiset<Seat>, b: multiset<Seat>, c: multiset<Seat>)
    ensures (a + b) + c == a + (b + c)
  {
  }

  lemma {:induction false} LateUnfolds(q: Query, from: nat, upto: nat, g: int)
    requires from < upto <= |q.sequence| && q.now > g + q.response
    ensures multiset(Generations(q, from, upto, g))
         == multiset(Answered(q, q.sequence[from..upto], g))
            + multiset(Generations(q, upto, NextEnd(q, from, upto, g), g + q.response))
  {
    hide Answered, Silent;
    assert Generations(q, from, upto, g)
        == Answered(q, q.sequence[from..upto], g)
           + Generations(q, upto, NextEnd(q, from, upto, g), g + q.response);
  }

  lemma {:induction false} LiveUnfolds(q: Query, from: nat, upto: nat, g: int)
    requires from < upto <= |q.sequence| && q.now <= g + q.response
    ensures multiset(Generations(q, from, upto, g))
         == multiset(Answered(q, q.sequence[from..upto], g))
            + multiset(Waiting(Silent(q, q.sequence[from..upto], g), g))
  {
  }

  lemma {:induction false} SettledLate(q: Query, slots: Slots, from: nat, cursor: nat, g: int)
    requires from < cursor <= |q.sequence| && PendingAt(slots, g) && q.now > g + q.response
    requires Pending(slots) == q.sequence[from..cursor]
    ensures Pass(q, slots, cursor).1 == NextEnd(q, from, cursor, g)
    ensures Pending(Pass(q, slots, cursor).0) == q.sequence[cursor..NextEnd(q, from, cursor, g)]
    ensures PendingAt(Pass(q, slots, cursor).0, g + q.response)
    ensures Locked(Pass(q, slots, cursor).0) == Locked(slots) + multiset(Answered(q, Pending(slots), g))
    ensures Settled(q, slots, cursor) == Settled(q, Pass(q, slots, cursor).0, NextEnd(q, from, cursor, g))
  {
    LatePass(q, slots, cursor, g);
    PassLocks(q, slots, cursor, g);
  }

  lemma {:induction false} SettledLive(q: Query, slots: Slots, cursor: nat, g: int)
    requires cursor <= |q.sequence| && PendingAt(slots, g) && q.now <= g + q.response
    ensures multiset(Occupied(Settled(q, slots, cursor)))
         == Locked(slots) + multiset(Answered(q, Pending(slots), g))
            + multiset(Waiting(Silent(q, Pending(slots), g), g))
  {
    LivePass(q, slots, cursor, g);
    PassLocks(q, slots, cursor, g);
    var (s, c) := Pass(q, slots, cursor);
    assert Settled(q, slots, cursor) == s;
    OccupiedSplits(s, g);
  }

  lemma {:induction false} InitialPending(sequence: seq<Address>, openedAt: int, size: nat)
    ensures Pending(InitialSlots(sequence, openedAt, size)) == sequence[..Min(size, |sequence|)]
    ensures Locked(InitialSlots(sequence, openedAt, size)) == multiset{}
    decreases size
  {
    var slots := InitialSlots(sequence, openedAt, size);
    if size > 0 {
      var tail := if sequence == [] then [] else sequence[1..];
      InitialPending(tail, openedAt, size - 1);
      assert slots[1..] == InitialSlots(tail, openedAt, size - 1);
    }
  }

  /** The fixpoint loop seats exactly the generation-by-generation panel. */
  lemma {:induction false} PanelRefinesGenerations(q: Query, openedAt: int, size: nat)
    ensures multiset(Seats(q, openedAt, size)) == multiset(Panelists(q, openedAt, size))
  {
    var n := Min(size, |q.sequence|);
    var slots := InitialSlots(q.sequence, openedAt, size);
    InitialPending(q.sequence, openedAt, size);
    assert q.sequence[..n] == q.sequence[0..n];
    SettledGenerations(q, slots, 0, n, openedAt);
  }

  /** The seat `j` occupies, if any. */
  function SeatOf(seats: seq<Seat>, j: Address): Option<Seat> {
    if seats == [] then None
    else if seats[0].juror == j then Some(seats[0])
    else SeatOf(seats[1..], j)
  }

  /** `j` occupies a seat still without a verdict. */
  predicate Awaiting(seats: seq<Seat>, j: Address) {
    exists s :: s in seats && s.juror == j && s.verdict.None?
  }

  // --- Tally and the instant a ruling was reached -----------------------------

  function Concurs(want: bool): Seat -> bool {
    (s: Seat) => s.verdict == Some(want)
  }

  function ConcursBy(ballots: Ballots, want: bool, t: int): Seat -> bool {
    (s: Seat) => s.verdict == Some(want) && s.juror in ballots && ballots[s.juror].admittedAt <= t
  }

  /** Seats whose verdict is `want`. */
  function Votes(seats: seq<Seat>, want: bool): nat {
    |Filter(seats, Concurs(want))|
  }

  /** Seats whose verdict is `want` and was admitted no later than `t`. */
  function VotesBy(seats: seq<Seat>, ballots: Ballots, want: bool, t: int): nat {
    |Filter(seats, ConcursBy(ballots, want, t))|
  }

  function Majority(size: nat): nat {
    size / 2 + 1
  }

  function Tally(seats: seq<Seat>, size: nat): Option<Outcome> {
    if Votes(seats, true) >= Majority(size) then Some(Upheld)
    else if Votes(seats, false) >= Majority(size) then Some(Rejected)
    else None
  }

  /** Admission instants of the concurring verdicts, in seat order. */
  function Times(seats: seq<Seat>, ballots: Ballots, want: bool): seq<int> {
    if seats == [] then []
    else if seats[0].verdict == Some(want) && seats[0].juror in ballots then
      [ballots[seats[0].juror].admittedAt] + Times(seats[1..], ballots, want)
    else Times(seats[1..], ballots, want)
  }

  function Instant(): int -> int {
    (t: int) => t
  }

  function Sorted(times: seq<int>): seq<int> {
    SortBy(times, Instant())
  }

  /** The admission instant of the majority-th concurring verdict, earliest first. */
  function RulingTime(seats: seq<Seat>, ballots: Ballots, size: nat): Option<int> {
    match Tally(seats, size)
    case None => None
    case Some(outcome) =>
      var times := Sorted(Times(seats, ballots, outcome == Upheld));
      if size / 2 < |times| then Some(times[size / 2]) else None
  }

  method RulingReachedAt(seats: seq<Seat>, ballots: Ballots, params: Params) returns (r: Option<int>)
    ensures r == RulingTime(seats, ballots, params.panelSize)
  {
    var outcome := Tally(seats, params.panelSize);
    if outcome.None? {
      return None;
    }
    var want := outcome.value == Upheld;
    var times: seq<int> := [];
    for i := 0 to |seats|
      invariant times + Times(seats[i..], ballots, want) == Times(seats, ballots, want)
    {
      assert seats[i..][1..] == seats[i + 1..];
      if seats[i].verdict == Some(want) && seats[i].juror in ballots {
        times := times + [ballots[seats[i].juror].admittedAt];
      }
    }
    assert seats[|seats|..] == [];
    assert times == Times(seats, ballots, want);
    times := Sorted(times);
    var k := params.panelSize / 2;
    r := if k < |times| then Some(times[k]) else None;
  }

  /** `t` is the first instant by which a majority of concurring verdicts had been admitted. */
  predicate RuledAt(seats: seq<Seat>, ballots: Ballots, size: nat, t: int) {
    var outcome := Tally(seats, size);
    outcome.Some?
    && VotesBy(seats, ballots, outcome.value == Upheld, t) >= Majority(size)
    && VotesBy(seats, ballots, outcome.value == Upheld, t - 1) < Majority(size)
  }

  function NoLater(t: int): int -> bool {
    (x: int) => x <= t
  }

  function AtMost(s: seq<int>, t: int): nat {
    |Filter(s, NoLater(t))|
  }

  lemma {:induction false} SortedCounts(s: seq<int>, t: int)
    ensures AtMost(Sorted(s), t) == AtMost(s, t) && |Sorted(s)| == |s|
  {
    SortKeeps(s, Instant());
    FilterCountPermutation(Sorted(s), s, NoLater(t));
    assert |multiset(Sorted(s))| == |Sorted(s)| && |multiset(s)| == |s|;
  }

  predicate Ascending(s: seq<int>) {
    forall i, j :: 0 <= i <= j < |s| ==> s[i] <= s[j]
  }

  lemma {:induction false} SortedAscends(s: seq<int>)
    ensures Ascending(Sorted(s))
  {
    SortKeeps(s, Instant());
    var r := Sorted(s);
    forall i, j | 0 <= i <= j < |r| ensures r[i] <= r[j] {
      if i < j {
        assert Instant()(r[i]) <= Instant()(r[j]);
      }
    }
  }

  /** In an ascending sequence the element at `k` is at most `t` exactly when more than `k` are. */
  lemma {:induction false} RankCounts(s: seq<int>, k: nat, t: int)
    requires Ascending(s)
    ensures AtMost(s, t) <= |s|
    ensures k < |s| ==> (s[k] <= t <==> AtMost(s, t) > k)
  {
    if s != [] {
      RankCounts(s[1..], if k > 0 then k - 1 else 0, t);
      if s[0] > t {
        NoneAtMost(s, t);
      } else if k == 0 {
      }
    }
  }

  lemma {:induction false} NoneAtMost(s: seq<int>, t: int)
    requires forall i :: 0 <= i < |s| ==> s[i] > t
    ensures AtMost(s, t) == 0
  {
    if s != [] {
      NoneAtMost(s[1..], t);
    }
  }

  lemma {:induction false} TimesCount(seats: seq<Seat>, ballots: Ballots, want: bool, t: int)
    ensures AtMost(Times(seats, ballots, want), t) == VotesBy(seats, ballots, want, t)
  {
    if seats != [] {
      TimesCount(seats[1..], ballots, want, t);
    }
  }

  /** The sort-and-index computation finds exactly the instant the majority formed. */
  lemma {:induction false} RulingTimeMeaning(seats: seq<Seat>, ballots: Ballots, size: nat, t: int)
    ensures RulingTime(seats, ballots, size) == Some(t) <==> RuledAt(seats, ballots, size, t)
  {
    var outcome := Tally(seats, size);
    if outcome.Some? {
      var want, k := outcome.value == Upheld, size / 2;
      var times := Times(seats, ballots, want);
      SortedAscends(times);
      SortedCounts(times, t);
      SortedCounts(times, t - 1);
      RankCounts(Sorted(times), k, t);
      RankCounts(Sorted(times), k, t - 1);
      TimesCount(seats, ballots, want, t);
      TimesCount(seats, ballots, want, t - 1);
    }
  }
}
