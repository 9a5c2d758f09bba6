/** What a derived panel keeps: who can sit, and that a reached ruling is final. */
module PanelLockIn {
  import opened Basics
  import opened Panel

  /** `q'` is read no earlier than `q`, over ballots extended only by admissions at or
      after the instant `q` was read. */
  predicate Later(q: Query, q': Query) {
    && q'.sequence == q.sequence && q'.response == q.response && q.now <= q'.now
    && (forall j :: j in q.ballots ==> j in q'.ballots && q'.ballots[j] == q.ballots[j])
    && (forall j :: j in q'.ballots && j !in q.ballots ==> q'.ballots[j].admittedAt >= q.now)
  }

  // --- Shape of the panel -----------------------------------------------------

  lemma {:induction false} AnsweredShape(q: Query, jurors: seq<Address>, g: int, s: Seat)
    ensures s in Answered(q, jurors, g) <==>
              s.juror in jurors && Timely(q, s.juror, g) && s == Seat(s.juror, g, Some(q.ballots[s.juror].uphold))
  {
    if jurors != [] {
      AnsweredShape(q, jurors[1..], g, s);
    }
  }

  lemma {:induction false} SilentShape(q: Query, jurors: seq<Address>, g: int, j: Address)
    ensures j in Silent(q, jurors, g) <==> j in jurors && !Timely(q, j, g)
  {
    if jurors != [] {
      SilentShape(q, jurors[1..], g, j);
    }
  }

  /** Every seat of a generation sequence: either a timely answer, or a juror of the one
      generation still inside its window. */
  predicate WellSeated(q: Query, g: int, live: int, s: Seat) {
    if s.verdict.Some?
    then s.seatedAt >= g && Timely(q, s.juror, s.seatedAt) && s.verdict == Some(q.ballots[s.juror].uphold)
    else s.seatedAt == live && !Timely(q, s.juror, live) && q.now <= live + q.response
  }

  /** The seating instant of the generation whose window is still open, if any seat is unanswered. */
  function LiveInstant(q: Query, from: nat, upto: nat, g: int): (live: int)
    requires from <= upto <= |q.sequence|
    decreases |q.sequence| - from
  {
    var jurors := q.sequence[from..upto];
    if from == upto || q.now <= g + q.response then g
    else LiveInstant(q, upto, NextEnd(q, from, upto, g), g + q.response)
  }

  lemma {:induction false} LiveInstantBounds(q: Query, from: nat, upto: nat, g: int)
    requires from <= upto <= |q.sequence| && q.response >= 0
    ensures g <= LiveInstant(q, from, upto, g)
    ensures g <= q.now ==> LiveInstant(q, from, upto, g) <= q.now
    decreases |q.sequence| - from
  {
    if from < upto && q.now > g + q.response {
      LiveInstantBounds(q, upto, NextEnd(q, from, upto, g), g + q.response);
    }
  }

  lemma {:induction false} SeatShape(q: Query, from: nat, upto: nat, g: int, s: Seat)
    requires from <= upto <= |q.sequence| && q.response >= 0
    requires s in Generations(q, from, upto, g)
    ensures s.juror in q.sequence && WellSeated(q, g, LiveInstant(q, from, upto, g), s)
    decreases |q.sequence| - from
  {
    var jurors := q.sequence[from..upto];
    if s in Answered(q, jurors, g) {
      AnsweredShape(q, jurors, g, s);
      assert s.juror in q.sequence;
    } else if q.now > g + q.response {
      SeatShape(q, upto, NextEnd(q, from, upto, g), g + q.response, s);
    } else {
      SilentShape(q, jurors, g, s.juror);
      assert s.juror in q.sequence;
    }
  }

  lemma {:induction false} GenerationsSize(q: Query, from: nat, upto: nat, g: int)
    requires from <= upto <= |q.sequence|
    ensures |Generations(q, from, upto, g)| <= upto - from
    decreases |q.sequence| - from
  {
    if from < upto && q.now > g + q.response {
      GenerationsSize(q, upto, NextEnd(q, from, upto, g), g + q.response);
    }
  }

  lemma {:induction false} SeatMembers(q: Query, openedAt: int, size: nat, s: Seat)
    ensures s in Seats(q, openedAt, size) <==> s in Panelists(q, openedAt, size)
  {
    PanelRefinesGenerations(q, openedAt, size);
    var a, b := Seats(q, openedAt, size), Panelists(q, openedAt, size);
    assert s in a <==> s in multiset(a);
    assert s in b <==> s in multiset(b);
  }

  function Live(q: Query, openedAt: int, size: nat): int {
    LiveInstant(q, 0, Min(size, |q.sequence|), openedAt)
  }

  /** With a nonnegative response window all unanswered seats share one seating instant, and
      every answered seat holds a ballot admitted inside its window. */
  lemma {:induction false} PanelShape(q: Query, openedAt: int, size: nat)
    requires q.response >= 0
    ensures forall s :: s in Seats(q, openedAt, size) ==>
              s.juror in q.sequence && WellSeated(q, openedAt, Live(q, openedAt, size), s)
  {
    forall s | s in Seats(q, openedAt, size)
      ensures s.juror in q.sequence && WellSeated(q, openedAt, Live(q, openedAt, size), s)
    {
      SeatMembers(q, openedAt, size, s);
      SeatShape(q, 0, Min(size, |q.sequence|), openedAt, s);
    }
  }

  /** A seat in plain terms: answered by a ballot admitted inside its juror's window and by the reading, or
      still inside that window and without one. */
  lemma {:induction false} SeatMeans(q: Query, openedAt: int, size: nat, s: Seat)
    requires q.response >= 0 && s in Seats(q, openedAt, size)
    ensures s.juror in q.sequence && (openedAt <= q.now ==> s.seatedAt <= q.now)
    ensures s.verdict.Some? ==>
              && s.juror in q.ballots && q.ballots[s.juror].uphold == s.verdict.value && openedAt <= s.seatedAt
              && s.seatedAt <= q.ballots[s.juror].admittedAt <= s.seatedAt + q.response
              && q.ballots[s.juror].admittedAt <= q.now
    ensures s.verdict.None? ==>
              && openedAt <= s.seatedAt && q.now <= s.seatedAt + q.response
              && (s.juror in q.ballots ==>
                    q.ballots[s.juror].admittedAt < s.seatedAt || q.ballots[s.juror].admittedAt > s.seatedAt + q.response
                    || q.ballots[s.juror].admittedAt > q.now)
  {
    hide Seats, LiveInstant;
    PanelShape(q, openedAt, size);
    LiveInstantBounds(q, 0, Min(size, |q.sequence|), openedAt);
  }

  /** Seats are taken at the opening or at a deadline missed by everyone seated there in turn. */
  ghost predicate WholeWindows(openedAt: int, response: int, at: int) {
    exists k: nat :: at == openedAt + k * response
  }

  lemma {:induction false} GenerationInstants(q: Query, from: nat, upto: nat, g: int, s: Seat, openedAt: int)
    requires from <= upto <= |q.sequence| && s in Generations(q, from, upto, g) && WholeWindows(openedAt, q.response, g)
    ensures WholeWindows(openedAt, q.response, s.seatedAt)
    decreases |q.sequence| - from
  {
    var jurors := q.sequence[from..upto];
    if s in Answered(q, jurors, g) {
      AnsweredShape(q, jurors, g, s);
    } else if q.now > g + q.response {
      var k: nat :| g == openedAt + k * q.response;
      assert g + q.response == openedAt + (k + 1) * q.response;
      GenerationInstants(q, upto, NextEnd(q, from, upto, g), g + q.response, s, openedAt);
    }
  }

  /** Every seat was taken a whole number of response windows after the opening. */
  lemma {:induction false} SeatInstants(q: Query, openedAt: int, size: nat, s: Seat)
    requires s in Seats(q, openedAt, size)
    ensures WholeWindows(openedAt, q.response, s.seatedAt)
  {
    SeatMembers(q, openedAt, size, s);
    assert openedAt == openedAt + 0 * q.response;
    GenerationInstants(q, 0, Min(size, |q.sequence|), openedAt, s, openedAt);
  }

  /** The panel is never larger than its size or its pool. */
  lemma {:induction false} PanelSize(q: Query, openedAt: int, size: nat)
    ensures |Seats(q, openedAt, size)| <= Min(size, |q.sequence|)
  {
    GenerationsSize(q, 0, Min(size, |q.sequence|), openedAt);
    PanelRefinesGenerations(q, openedAt, size);
    var a, b := Seats(q, openedAt, size), Panelists(q, openedAt, size);
    assert |multiset(a)| == |a| && |multiset(b)| == |b|;
  }

  // --- No juror is seated twice -----------------------------------------------

  function SatBy(j: Address): Seat -> bool {
    (s: Seat) => s.juror == j
  }

  /** How many seats `j` occupies. */
  function SeatsOf(seats: seq<Seat>, j: Address): nat {
    |Filter(seats, SatBy(j))|
  }

  function Occurs(s: seq<Address>, j: Address): nat {
    if s == [] then 0 else Occurs(s[1..], j) + (if s[0] == j then 1 else 0)
  }

  lemma {:induction false} OccursConcat(a: seq<Address>, b: seq<Address>, j: Address)
    ensures Occurs(a + b, j) == Occurs(a, j) + Occurs(b, j)
  {
    if a == [] {
      assert a + b == b;
    } else {
      OccursConcat(a[1..], b, j);
      assert (a + b)[1..] == a[1..] + b;
    }
  }

  lemma {:induction false} OccursAbsent(s: seq<Address>, j: Address)
    requires j !in s
    ensures Occurs(s, j) == 0
  {
    if s != [] {
      OccursAbsent(s[1..], j);
    }
  }

  lemma {:induction false} OccursOnce(s: seq<Address>, j: Address)
    requires Distinct(s)
    ensures Occurs(s, j) <= 1
  {
    if s != [] {
      OccursOnce(s[1..], j);
      if s[0] == j {
        OccursAbsent(s[1..], j);
      }
    }
  }

  lemma {:induction false} GenerationOnce(q: Query, jurors: seq<Address>, g: int, j: Address)
    ensures SeatsOf(Answered(q, jurors, g), j) + Occurs(Silent(q, jurors, g), j) == Occurs(jurors, j)
  {
    if jurors != [] {
      GenerationOnce(q, jurors[1..], g, j);
      var a, r := Answered(q, jurors[1..], g), Silent(q, jurors[1..], g);
      if Timely(q, jurors[0], g) {
        assert Answered(q, jurors, g)[1..] == a;
      } else {
        assert Silent(q, jurors, g)[1..] == r;
      }
    }
  }

  lemma {:induction false} WaitingOnce(jurors: seq<Address>, g: int, j: Address)
    ensures SeatsOf(Waiting(jurors, g), j) == Occurs(jurors, j)
  {
    if jurors != [] {
      WaitingOnce(jurors[1..], g, j);
      assert Waiting(jurors, g)[1..] == Waiting(jurors[1..], g);
    }
  }

  lemma {:induction false} GenerationsOnce(q: Query, from: nat, upto: nat, g: int, j: Address)
    requires from <= upto <= |q.sequence|
    ensures SeatsOf(Generations(q, from, upto, g), j) <= Occurs(q.sequence[from..], j)
    decreases |q.sequence| - from
  {
    hide SeatsOf, Occurs, Filter, Answered, Silent, Waiting;
    if from == upto {
      NobodySits(j);
    } else {
      var jurors := q.sequence[from..upto];
      assert q.sequence[from..] == jurors + q.sequence[upto..];
      OccursConcat(jurors, q.sequence[upto..], j);
      GenerationOnce(q, jurors, g, j);
      if q.now > g + q.response {
        var next := NextEnd(q, from, upto, g);
        GenerationsOnce(q, upto, next, g + q.response, j);
        SeatsOfConcat(Answered(q, jurors, g), Generations(q, upto, next, g + q.response), j);
      } else {
        WaitingOnce(Silent(q, jurors, g), g, j);
        SeatsOfConcat(Answered(q, jurors, g), Waiting(Silent(q, jurors, g), g), j);
      }
    }
  }

  lemma {:induction false} NobodySits(j: Address)
    ensures SeatsOf([], j) == 0
  {
  }

  lemma {:induction false} SeatsOfConcat(a: seq<Seat>, b: seq<Seat>, j: Address)
    ensures SeatsOf(a + b, j) == SeatsOf(a, j) + SeatsOf(b, j)
  {
    FilterConcat(a, b, SatBy(j));
  }

  /** Drawn from a sequence without repeats, no juror ever occupies two seats. */
  lemma {:induction false} NoJurorSeatedTwice(q: Query, openedAt: int, size: nat, j: Address)
    requires Distinct(q.sequence)
    ensures SeatsOf(Seats(q, openedAt, size), j) <= 1
  {
    PanelRefinesGenerations(q, openedAt, size);
    FilterCountPermutation(Seats(q, openedAt, size), Panelists(q, openedAt, size), SatBy(j));
    GenerationsOnce(q, 0, Min(size, |q.sequence|), openedAt, j);
    assert q.sequence[0..] == q.sequence;
    OccursOnce(q.sequence, j);
  }

  lemma {:induction false} SeatedOnce(seats: seq<Seat>, s: Seat)
    requires s in seats
    ensures SeatsOf(seats, s.juror) >= 1
  {
    if seats[0] != s {
      SeatedOnce(seats[1..], s);
    }
  }

  lemma {:induction false} SeatStep(seats: seq<Seat>, j: Address, want: bool)
    requires seats != []
    ensures SeatsOf(seats, j) == SeatsOf(seats[1..], j) + (if seats[0].juror == j then 1 else 0)
    ensures Votes(seats, want) == Votes(seats[1..], want) + (if seats[0].verdict == Some(want) then 1 else 0)
  {
  }

  lemma {:induction false} OnlySeat(seats: seq<Seat>, s: Seat)
    requires s in seats && SeatsOf(seats, s.juror) <= 1
    ensures SeatOf(seats, s.juror) == Some(s)
  {
    SeatStep(seats, s.juror, true);
    if seats[0] != s {
      SeatedOnce(seats[1..], s);
      OnlySeat(seats[1..], s);
    }
  }

  lemma {:induction false} SeatOfMember(seats: seq<Seat>, j: Address)
    ensures SeatOf(seats, j).Some? ==> SeatOf(seats, j).value in seats && SeatOf(seats, j).value.juror == j
  {
    if seats != [] && seats[0].juror != j {
      SeatOfMember(seats[1..], j);
    }
  }

  /** Looking up a juror's seat finds an unanswered one exactly when there is one. */
  lemma {:induction false} SeatLookup(q: Query, openedAt: int, size: nat, j: Address)
    requires Distinct(q.sequence)
    ensures var seats := Seats(q, openedAt, size);
            Awaiting(seats, j) <==> (SeatOf(seats, j).Some? && SeatOf(seats, j).value.verdict.None?)
  {
    hide Seats, SeatsOf, SeatOf;
    var seats := Seats(q, openedAt, size);
    SeatOfMember(seats, j);
    if Awaiting(seats, j) {
      var s :| s in seats && s.juror == j && s.verdict.None?;
      NoJurorSeatedTwice(q, openedAt, size, j);
      OnlySeat(seats, s);
    }
  }

  // --- Lock-in ----------------------------------------------------------------

  lemma {:induction false} ClosedGenerationAgrees(q: Query, q': Query, jurors: seq<Address>, g: int)
    requires Later(q, q') && q.now > g + q.response
    ensures Silent(q', jurors, g) == Silent(q, jurors, g)
    ensures Answered(q', jurors, g) == Answered(q, jurors, g)
  {
    if jurors != [] {
      ClosedGenerationAgrees(q, q', jurors[1..], g);
    }
  }

  lemma {:induction false} AnswersKeep(q: Query, q': Query, jurors: seq<Address>, g: int, want: bool, t: int)
    requires Later(q, q')
    ensures VotesBy(Answered(q, jurors, g), q.ballots, want, t) <= VotesBy(Answered(q', jurors, g), q'.ballots, want, t)
    ensures t < q.now ==>
      VotesBy(Answered(q, jurors, g), q.ballots, want, t) == VotesBy(Answered(q', jurors, g), q'.ballots, want, t)
  {
    if jurors != [] {
      AnswersKeep(q, q', jurors[1..], g, want, t);
      AnswersHead(q, jurors, g, want, t);
      AnswersHead(q', jurors, g, want, t);
    }
  }

  lemma {:induction false} AnswersHead(q: Query, jurors: seq<Address>, g: int, want: bool, t: int)
    requires jurors != []
    ensures VotesBy(Answered(q, jurors, g), q.ballots, want, t)
         == VotesBy(Answered(q, jurors[1..], g), q.ballots, want, t)
            + (if Timely(q, jurors[0], g) && q.ballots[jurors[0]].uphold == want
                  && q.ballots[jurors[0]].admittedAt <= t then 1 else 0)
  {
    if Timely(q, jurors[0], g) {
      assert Answered(q, jurors, g)[1..] == Answered(q, jurors[1..], g);
    }
  }

  lemma {:induction false} WaitingCastNothing(jurors: seq<Address>, g: int, ballots: Ballots, want: bool, t: int)
    ensures VotesBy(Waiting(jurors, g), ballots, want, t) == 0
  {
    if jurors != [] {
      WaitingCastNothing(jurors[1..], g, ballots, want, t);
      assert Waiting(jurors, g)[1..] == Waiting(jurors[1..], g);
    }
  }

  lemma {:induction false} NobodyVotes(ballots: Ballots, want: bool, t: int)
    ensures VotesBy([], ballots, want, t) == 0
  {
  }

  /** The votes of a generation sequence, generation by generation. */
  lemma {:induction false} VotesUnfold(q: Query, from: nat, upto: nat, g: int, want: bool, t: int)
    requires from < upto <= |q.sequence|
    ensures VotesBy(Generations(q, from, upto, g), q.ballots, want, t)
         == VotesBy(Answered(q, q.sequence[from..upto], g), q.ballots, want, t)
            + (if q.now > g + q.response
               then VotesBy(Generations(q, upto, NextEnd(q, from, upto, g), g + q.response), q.ballots, want, t)
               else 0)
  {
    hide VotesBy, Answered, Silent, Waiting;
    var jurors := q.sequence[from..upto];
    if q.now > g + q.response {
      var next := NextEnd(q, from, upto, g);
      VotesByConcat(Answered(q, jurors, g), Generations(q, upto, next, g + q.response), q.ballots, want, t);
    } else {
      var silent := Silent(q, jurors, g);
      VotesByConcat(Answered(q, jurors, g), Waiting(silent, g), q.ballots, want, t);
      WaitingCastNothing(silent, g, q.ballots, want, t);
    }
  }

  lemma {:induction false} VotesByConcat(a: seq<Seat>, b: seq<Seat>, ballots: Ballots, want: bool, t: int)
    ensures VotesBy(a + b, ballots, want, t) == VotesBy(a, ballots, want, t) + VotesBy(b, ballots, want, t)
  {
    FilterConcat(a, b, ConcursBy(ballots, want, t));
  }

  /** No verdict counts before its seat was taken. */
  lemma {:induction false} NoEarlyVotes(q: Query, from: nat, upto: nat, g: int, want: bool, t: int)
    requires from <= upto <= |q.sequence| && q.response >= 0 && t < g
    ensures VotesBy(Generations(q, from, upto, g), q.ballots, want, t) == 0
    decreases |q.sequence| - from
  {
    if from < upto {
      var jurors := q.sequence[from..upto];
      VotesUnfold(q, from, upto, g, want, t);
      NoEarlyAnswers(q, jurors, g, want, t);
      if q.now > g + q.response {
        NoEarlyVotes(q, upto, NextEnd(q, from, upto, g), g + q.response, want, t);
      }
    }
  }

  lemma {:induction false} NoEarlyAnswers(q: Query, jurors: seq<Address>, g: int, want: bool, t: int)
    requires t < g
    ensures VotesBy(Answered(q, jurors, g), q.ballots, want, t) == 0
  {
    if jurors != [] {
      NoEarlyAnswers(q, jurors[1..], g, want, t);
      AnswersHead(q, jurors, g, want, t);
    }
  }

  /** Votes reached by `t` never shrink, and those before the first reading never change. */
  lemma {:induction false} VotesKeep(q: Query, q': Query, from: nat, upto: nat, g: int, want: bool, t: int)
    requires Later(q, q') && from <= upto <= |q.sequence| && q.response >= 0
    ensures Keeps(q, VotesBy(Generations(q, from, upto, g), q.ballots, want, t),
                  VotesBy(Generations(q', from, upto, g), q'.ballots, want, t), t)
    decreases |q.sequence| - from
  {
    hide VotesBy, Answered, Silent;
    if from < upto {
      AnswersKeep(q, q', q.sequence[from..upto], g, want, t);
      VotesUnfold(q, from, upto, g, want, t);
      VotesUnfold(q', from, upto, g, want, t);
      var next := NextEnd(q, from, upto, g);
      if q.now > g + q.response {
        assert NextEnd(q', from, upto, g) == next by {
          ClosedGenerationAgrees(q, q', q.sequence[from..upto], g);
        }
        VotesKeep(q, q', upto, next, g + q.response, want, t);
      } else if q'.now > g + q.response && t < q.now {
        NoEarlyVotes(q', upto, NextEnd(q', from, upto, g), g + q.response, want, t);
      }
    } else {
      NobodyVotes(q.ballots, want, t);
      NobodyVotes(q'.ballots, want, t);
    }
  }

  predicate Keeps(q: Query, before: nat, after: nat, t: int) {
    before <= after && (t < q.now ==> before == after)
  }

  // --- Finality of a reached ruling -------------------------------------------

  function PanelVotesBy(q: Query, openedAt: int, size: nat, want: bool, t: int): nat {
    VotesBy(Seats(q, openedAt, size), q.ballots, want, t)
  }

  /** The same at the level of the derived panel. */
  lemma {:induction false} PanelVotesKeep(q: Query, q': Query, openedAt: int, size: nat, want: bool, t: int)
    requires Later(q, q') && q.response >= 0
    ensures Keeps(q, PanelVotesBy(q, openedAt, size, want, t), PanelVotesBy(q', openedAt, size, want, t), t)
  {
    hide VotesBy, Seats, Generations;
    VotesKeep(q, q', 0, Min(size, |q.sequence|), openedAt, want, t);
    VotesOfPanel(q, openedAt, size, want, t);
    VotesOfPanel(q', openedAt, size, want, t);
  }

  lemma {:induction false} VotesOfPanel(q: Query, openedAt: int, size: nat, want: bool, t: int)
    ensures VotesBy(Seats(q, openedAt, size), q.ballots, want, t)
         == VotesBy(Panelists(q, openedAt, size), q.ballots, want, t)
  {
    hide Filter, Seats, Panelists;
    PanelRefinesGenerations(q, openedAt, size);
    FilterCountPermutation(Seats(q, openedAt, size), Panelists(q, openedAt, size), ConcursBy(q.ballots, want, t));
  }

  /** From the instant of the reading on, every verdict on the panel has been admitted. */
  lemma {:induction false} AllVotesIn(q: Query, openedAt: int, size: nat, want: bool, t: int)
    requires q.response >= 0 && q.now <= t
    ensures PanelVotesBy(q, openedAt, size, want, t) == Votes(Seats(q, openedAt, size), want)
  {
    hide Seats;
    PanelShape(q, openedAt, size);
    FilterSame(Seats(q, openedAt, size), ConcursBy(q.ballots, want, t), Concurs(want));
  }

  lemma {:induction false} FilterSame(seats: seq<Seat>, p: Seat -> bool, p': Seat -> bool)
    requires forall s :: s in seats ==> p(s) == p'(s)
    ensures Filter(seats, p) == Filter(seats, p')
  {
    if seats != [] {
      FilterSame(seats[1..], p, p');
    }
  }

  lemma {:induction false} BothSides(seats: seq<Seat>)
    ensures Votes(seats, true) + Votes(seats, false) <= |seats|
  {
    if seats != [] {
      BothSides(seats[1..]);
    }
  }

  function Ruling(q: Query, openedAt: int, size: nat): Option<Outcome> {
    Tally(Seats(q, openedAt, size), size)
  }

  function RuledWhen(q: Query, openedAt: int, size: nat): Option<int> {
    RulingTime(Seats(q, openedAt, size), q.ballots, size)
  }

  /** A reached tally never changes: not by reading later, not by admitting more ballots. */
  lemma {:induction false} TallyLockIn(q: Query, q': Query, openedAt: int, size: nat)
    requires Later(q, q') && q.response >= 0
    requires Ruling(q, openedAt, size).Some?
    ensures Ruling(q', openedAt, size) == Ruling(q, openedAt, size)
  {
    hide Seats, VotesBy, Votes;
    var want := Ruling(q, openedAt, size) == Some(Upheld);
    AllVotesIn(q, openedAt, size, want, q'.now);
    AllVotesIn(q', openedAt, size, want, q'.now);
    PanelVotesKeep(q, q', openedAt, size, want, q'.now);
    BothSides(Seats(q', openedAt, size));
    PanelSize(q', openedAt, size);
  }

  /** A terminal tally always has a ruling instant: the first instant by which a majority of the
      concurring verdicts had been admitted, no later than the reading. */
  lemma {:induction false} RulingHasInstant(q: Query, openedAt: int, size: nat)
    requires q.response >= 0 && Ruling(q, openedAt, size).Some?
    ensures RuledWhen(q, openedAt, size).Some?
    ensures openedAt <= RuledWhen(q, openedAt, size).value <= q.now
    ensures RuledAt(Seats(q, openedAt, size), q.ballots, size, RuledWhen(q, openedAt, size).value)
  {
    hide Seats, VotesBy, Votes, Times, Sorted, AtMost, Generations;
    var seats := Seats(q, openedAt, size);
    var want := Tally(seats, size) == Some(Upheld);
    var times := Times(seats, q.ballots, want);
    AllVotesIn(q, openedAt, size, want, q.now);
    TimesCount(seats, q.ballots, want, q.now);
    SortedAscends(times);
    SortedCounts(times, q.now);
    RankCounts(Sorted(times), size / 2, q.now);
    var t := RuledWhen(q, openedAt, size).value;
    RulingTimeMeaning(seats, q.ballots, size, t);
    if t < openedAt {
      VotesOfPanel(q, openedAt, size, want, t);
      NoEarlyVotes(q, 0, Min(size, |q.sequence|), openedAt, want, t);
    }
  }

  /** Nor does the instant it was reached. */
  lemma {:induction false} RulingInstantLockIn(q: Query, q': Query, openedAt: int, size: nat)
    requires Later(q, q') && q.response >= 0
    requires Ruling(q, openedAt, size).Some?
    ensures RuledWhen(q', openedAt, size) == RuledWhen(q, openedAt, size)
  {
    hide Seats, VotesBy, Votes, RulingTime;
    RulingHasInstant(q, openedAt, size);
    TallyLockIn(q, q', openedAt, size);
    var want := Ruling(q, openedAt, size) == Some(Upheld);
    var t := RuledWhen(q, openedAt, size).value;
    PanelVotesKeep(q, q', openedAt, size, want, t);
    PanelVotesKeep(q, q', openedAt, size, want, t - 1);
    RulingTimeMeaning(Seats(q', openedAt, size), q'.ballots, size, t);
  }

  // --- An admitted verdict is credited ----------------------------------------

  /** The ballots after `j`'s has been admitted at `at`. */
  function WithBallot(q: Query, j: Address, uphold: bool, at: int): Ballots {
    q.ballots[j := Ballot(uphold, at)]
  }

  lemma {:induction false} CreditedInGenerations(
    q: Query, q': Query, from: nat, upto: nat, g: int, s: Seat, uphold: bool)
    requires from <= upto <= |q.sequence| && q.response >= 0 && g <= q.now
    requires Later(q.(ballots := WithBallot(q, s.juror, uphold, q.now)), q')
    requires s.juror !in q.ballots && s.verdict.None? && s in Generations(q, from, upto, g)
    ensures s.(verdict := Some(uphold)) in Generations(q', from, upto, g)
    decreases |q.sequence| - from
  {
    hide Silent, Answered;
    var jurors := q.sequence[from..upto];
    AnsweredShape(q, jurors, g, s);
    if q.now > g + q.response {
      ClosedGenerationAgrees(q, q', jurors, g);
      CreditedInGenerations(q, q', upto, NextEnd(q, from, upto, g), g + q.response, s, uphold);
    } else {
      SilentShape(q, jurors, g, s.juror);
      AnsweredShape(q', jurors, g, s.(verdict := Some(uphold)));
    }
  }

  /** A verdict from a juror holding an unanswered seat, admitted at the instant the seat was
      judged, is credited in that seat by every later panel, whatever is admitted after it. */
  lemma {:induction false} AdmittedVerdictCredited(
    q: Query, q': Query, openedAt: int, size: nat, s: Seat, uphold: bool)
    requires q.response >= 0 && openedAt <= q.now
    requires Later(q.(ballots := WithBallot(q, s.juror, uphold, q.now)), q')
    requires s.juror !in q.ballots && s.verdict.None? && s in Seats(q, openedAt, size)
    ensures s.(verdict := Some(uphold)) in Seats(q', openedAt, size)
  {
    hide Seats, Generations;
    SeatMembers(q, openedAt, size, s);
    CreditedInGenerations(q, q', 0, Min(size, |q.sequence|), openedAt, s, uphold);
    SeatMembers(q', openedAt, size, s.(verdict := Some(uphold)));
  }
}
