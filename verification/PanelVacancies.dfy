/** What a panel's unanswered seats are still worth (crates/rrn-dispute/src/panel.rs). */
module PanelVacancies {
  import opened Basics
  import opened Panel
  import opened PanelLockIn

  function IsBlank(): Seat -> bool {
    (s: Seat) => s.verdict.None?
  }

  /** Seats still without a verdict. */
  function Blank(seats: seq<Seat>): nat {
    |Filter(seats, IsBlank())|
  }

  lemma {:induction false} EverySeat(seats: seq<Seat>, want: bool)
    ensures Votes(seats, want) + Votes(seats, !want) + Blank(seats) == |seats|
  {
    if seats != [] {
      EverySeat(seats[1..], want);
      if seats[0].verdict.Some? && seats[0].verdict.value != want {
        assert seats[0].verdict == Some(!want);
      }
    }
  }

  // --- Reading on never adds a seat --------------------------------------------

  lemma {:induction false} GenerationsShrink(q: Query, q': Query, from: nat, upto: nat, g: int)
    requires Later(q, q') && from <= upto <= |q.sequence| && q.response >= 0
    ensures |Generations(q', from, upto, g)| <= |Generations(q, from, upto, g)|
    ensures q'.now == q.now ==> |Generations(q', from, upto, g)| == |Generations(q, from, upto, g)|
    decreases |q.sequence| - from
  {
    hide Answered, Silent, Waiting, Timely;
    if from < upto {
      var jurors := q.sequence[from..upto];
      if q.now > g + q.response {
        ClosedGenerationAgrees(q, q', jurors, g);
        GenerationsShrink(q, q', upto, NextEnd(q, from, upto, g), g + q.response);
      } else {
        GenerationsSize(q', from, upto, g);
      }
    }
  }

  lemma {:induction false} SeatsCounted(q: Query, openedAt: int, size: nat)
    ensures |Seats(q, openedAt, size)| == |Panelists(q, openedAt, size)|
    ensures forall want :: Votes(Seats(q, openedAt, size), want) == Votes(Panelists(q, openedAt, size), want)
  {
    hide Filter, Seats, Panelists;
    PanelRefinesGenerations(q, openedAt, size);
    var a, b := Seats(q, openedAt, size), Panelists(q, openedAt, size);
    assert |multiset(a)| == |a| && |multiset(b)| == |b|;
    forall want ensures Votes(a, want) == Votes(b, want) {
      FilterCountPermutation(a, b, Concurs(want));
    }
  }

  lemma {:induction false} VotesOnlyGrow(q: Query, q': Query, openedAt: int, size: nat, want: bool)
    requires Later(q, q') && q.response >= 0
    ensures Votes(Seats(q, openedAt, size), want) <= Votes(Seats(q', openedAt, size), want)
  {
    hide Seats, VotesBy, Votes;
    AllVotesIn(q, openedAt, size, want, q'.now);
    AllVotesIn(q', openedAt, size, want, q'.now);
    PanelVotesKeep(q, q', openedAt, size, want, q'.now);
  }

  /** However long the reading waits, whatever is admitted and whoever is redrawn, a side can only
      gain the seats that were still unanswered. */
  lemma {:induction false} VotesCapped(q: Query, q': Query, openedAt: int, size: nat, want: bool)
    requires Later(q, q') && q.response >= 0
    ensures Votes(Seats(q', openedAt, size), want)
         <= Votes(Seats(q, openedAt, size), want) + Blank(Seats(q, openedAt, size))
  {
    hide Seats, Votes, Blank;
    VotesOnlyGrow(q, q', openedAt, size, !want);
    EverySeat(Seats(q, openedAt, size), want);
    EverySeat(Seats(q', openedAt, size), want);
    SeatsCounted(q, openedAt, size);
    SeatsCounted(q', openedAt, size);
    GenerationsShrink(q, q', 0, Min(size, |q.sequence|), openedAt);
  }

  // --- A ballot from an unanswered seat fills it -------------------------------

  /** `q` once `j`, who had no ballot, has cast one at the instant of the reading. */
  predicate Casts(q: Query, q': Query, j: Address, uphold: bool) {
    j !in q.ballots && q' == q.(ballots := WithBallot(q, j, uphold, q.now))
  }

  lemma {:induction false} NotAnswered(q: Query, jurors: seq<Address>, g: int, j: Address)
    requires j !in q.ballots
    ensures SeatsOf(Answered(q, jurors, g), j) == 0
  {
    if jurors != [] {
      NotAnswered(q, jurors[1..], g, j);
    }
  }

  lemma {:induction false} VotesConcat(a: seq<Seat>, b: seq<Seat>, want: bool)
    ensures Votes(a + b, want) == Votes(a, want) + Votes(b, want)
  {
    FilterConcat(a, b, Concurs(want));
  }

  lemma {:induction false} WaitingVotesNothing(jurors: seq<Address>, g: int, want: bool)
    ensures Votes(Waiting(jurors, g), want) == 0
  {
    if jurors != [] {
      WaitingVotesNothing(jurors[1..], g, want);
      assert Waiting(jurors, g)[1..] == Waiting(jurors[1..], g);
    }
  }

  lemma {:induction false} LiveAnswers(q: Query, q': Query, jurors: seq<Address>, g: int, j: Address, uphold: bool, want: bool)
    requires Casts(q, q', j, uphold) && g <= q.now <= g + q.response
    ensures Votes(Answered(q', jurors, g), want)
         == Votes(Answered(q, jurors, g), want) + (if want == uphold then Occurs(jurors, j) else 0)
  {
    if jurors != [] {
      LiveAnswers(q, q', jurors[1..], g, j, uphold, want);
      AnsweredVotes(q, jurors, g, want);
      AnsweredVotes(q', jurors, g, want);
    }
  }

  lemma {:induction false} AnsweredVotes(q: Query, jurors: seq<Address>, g: int, want: bool)
    requires jurors != []
    ensures Votes(Answered(q, jurors, g), want)
         == Votes(Answered(q, jurors[1..], g), want)
            + (if Timely(q, jurors[0], g) && q.ballots[jurors[0]].uphold == want then 1 else 0)
  {
    if Timely(q, jurors[0], g) {
      assert Answered(q, jurors, g)[1..] == Answered(q, jurors[1..], g);
    }
  }

  lemma {:induction false} GenerationVotes(q: Query, from: nat, upto: nat, g: int, j: Address, want: bool)
    requires from < upto <= |q.sequence|
    ensures var jurors, seats := q.sequence[from..upto], Generations(q, from, upto, g);
            if q.now > g + q.response then
              var rest := Generations(q, upto, NextEnd(q, from, upto, g), g + q.response);
              && Votes(seats, want) == Votes(Answered(q, jurors, g), want) + Votes(rest, want)
              && SeatsOf(seats, j) == SeatsOf(Answered(q, jurors, g), j) + SeatsOf(rest, j)
            else
              && Votes(seats, want) == Votes(Answered(q, jurors, g), want)
              && SeatsOf(seats, j) == Occurs(jurors, j)
  {
    hide Votes, SeatsOf, Answered, Silent, Waiting;
    var jurors := q.sequence[from..upto];
    var answered := Answered(q, jurors, g);
    if q.now > g + q.response {
      var rest := Generations(q, upto, NextEnd(q, from, upto, g), g + q.response);
      VotesConcat(answered, rest, want);
      SeatsOfConcat(answered, rest, j);
    } else {
      var waiting := Waiting(Silent(q, jurors, g), g);
      VotesConcat(answered, waiting, want);
      SeatsOfConcat(answered, waiting, j);
      WaitingVotesNothing(Silent(q, jurors, g), g, want);
      WaitingOnce(Silent(q, jurors, g), g, j);
      GenerationOnce(q, jurors, g, j);
    }
  }

  lemma {:induction false} FillsGeneration(
    q: Query, q': Query, from: nat, upto: nat, g: int, j: Address, uphold: bool, want: bool)
    requires Casts(q, q', j, uphold) && from <= upto <= |q.sequence| && q.response >= 0 && g <= q.now
    ensures Votes(Generations(q', from, upto, g), want)
         == Votes(Generations(q, from, upto, g), want)
            + (if want == uphold then SeatsOf(Generations(q, from, upto, g), j) else 0)
    decreases |q.sequence| - from
  {
    hide Votes, SeatsOf, Answered, Silent, Occurs;
    if from < upto {
      var jurors := q.sequence[from..upto];
      GenerationVotes(q, from, upto, g, j, want);
      GenerationVotes(q', from, upto, g, j, want);
      if q.now > g + q.response {
        ClosedGenerationAgrees(q, q', jurors, g);
        NotAnswered(q, jurors, g, j);
        FillsGeneration(q, q', upto, NextEnd(q, from, upto, g), g + q.response, j, uphold, want);
      } else {
        LiveAnswers(q, q', jurors, g, j, uphold, want);
      }
    } else {
      NoSeats(j, want);
    }
  }

  lemma {:induction false} NoSeats(j: Address, want: bool)
    ensures Votes([], want) == 0 && SeatsOf([], j) == 0
  {
  }

  /** The seat of a juror with no ballot yet turns into a vote: one unanswered seat fewer, and what
      the side could reach is unchanged. */
  lemma {:induction false} BallotFillsSeat(q: Query, q': Query, openedAt: int, size: nat, j: Address, uphold: bool)
    requires Casts(q, q', j, uphold) && q.response >= 0 && openedAt <= q.now
    requires Awaiting(Seats(q, openedAt, size), j)
    ensures var before, after := Seats(q, openedAt, size), Seats(q', openedAt, size);
            && |after| == |before|
            && Votes(after, uphold) > Votes(before, uphold)
            && Votes(after, !uphold) == Votes(before, !uphold)
            && Blank(after) < Blank(before)
            && Votes(after, uphold) + Blank(after) == Votes(before, uphold) + Blank(before)
  {
    hide Seats, Votes, Blank, SeatsOf, Generations;
    var before, after := Seats(q, openedAt, size), Seats(q', openedAt, size);
    var n := Min(size, |q.sequence|);
    var s :| s in before && s.juror == j && s.verdict.None?;
    SeatMembers(q, openedAt, size, s);
    SeatedOnce(Panelists(q, openedAt, size), s);
    SeatsCounted(q, openedAt, size);
    SeatsCounted(q', openedAt, size);
    FillsGeneration(q, q', 0, n, openedAt, j, uphold, uphold);
    FillsGeneration(q, q', 0, n, openedAt, j, uphold, !uphold);
    GenerationsShrink(q, q', 0, n, openedAt);
    EverySeat(before, uphold);
    EverySeat(after, uphold);
  }

  /** Short of a majority, a side that could still reach one has an unanswered seat to win. */
  lemma {:induction false} SomeoneAwaits(seats: seq<Seat>)
    requires Blank(seats) > 0
    ensures exists s :: s in seats && s.verdict.None?
  {
    if seats[0].verdict.Some? {
      SomeoneAwaits(seats[1..]);
    }
  }
}
