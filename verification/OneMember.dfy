/** The smallest jury: a community of one eligible member, for the worked runs. */
module OneMember {
  import opened Basics
  import opened Panel
  import opened Docket
  import opened Sortition
  import opened JuryPool

  /** Member 7 is the whole electorate. */
  function OnlySeven(): Standing {
    Standing((evidence: seq<Entry>, at: int) => [7], (evidence: seq<Entry>, who: Address, at: int) => 1)
  }

  lemma {:induction false} SoleCandidate(log: Log, excluded: set<Address>, at: int, position: nat)
    requires 7 !in excluded
    ensures Weigh(OnlySeven(), log, [7], excluded, at, position) == [Candidate(7, 1)]
  {
    WeighNobody(OnlySeven(), log, excluded, at, position);
    assert [7][1..] == [];
  }

  /** Unless recused, the member is the pool of a one-seat panel, and so its jury. */
  lemma {:induction false} SoleJury(log: Log, hard: set<Address>, soft: set<Address>, at: int, position: nat, draw: nat -> nat)
    requires 7 !in hard + soft
    ensures Pool(OnlySeven(), log, hard, soft, at, position, 1) == [Candidate(7, 1)]
    ensures Draw(Pool(OnlySeven(), log, hard, soft, at, position, 1), draw) == [7]
  {
    SoleCandidate(log, hard + soft, at, position);
    var pool := Pool(OnlySeven(), log, hard, soft, at, position, 1);
    var order := Draw(pool, draw);
    DrawPermutes(pool, draw);
    assert Keys(pool) == [7];
    assert |order| == |multiset(order)|;
    assert order[0] in multiset(order);
  }

  /** While the first window is open the only candidate of a one-seat panel holds its seat. */
  lemma {:induction false} SoleSeat(q: Query, openedAt: int, j: Address)
    requires q.sequence == [j] && q.response >= 0 && q.now <= openedAt + q.response
    ensures Seats(q, openedAt, 1)
         == [Seat(j, openedAt, if Timely(q, j, openedAt) then Some(q.ballots[j].uphold) else None)]
  {
    hide Seats;
    var seat := Seat(j, openedAt, if Timely(q, j, openedAt) then Some(q.ballots[j].uphold) else None);
    PanelRefinesGenerations(q, openedAt, 1);
    assert q.sequence[0..1] == [j];
    assert [j][1..] == [];
    assert Panelists(q, openedAt, 1) == [seat];
    var seats := Seats(q, openedAt, 1);
    assert multiset(seats) == multiset{seat};
    assert |seats| == |multiset(seats)|;
    assert seats[0] in multiset(seats);
  }
}
