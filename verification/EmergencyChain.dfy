/** Renewal chains: the caps, the cooldown, and the duty cycle they enforce
    (crates/rrn-governance/src/emergency.rs). */
module EmergencyChain {
  import opened Basics

  const DAY: int := 86_400
  const DURATION_FLOOR: int := 24 * 3600
  const DURATION_CEILING: int := 7 * DAY
  const CHAIN_MAX: int := 14 * DAY
  const COOLDOWN: int := 14 * DAY

  /** An activation: `[start, end)` in seconds. */
  datatype Span = Span(start: int, end: int)

  datatype ChainState = ChainState(end: int, consecutive: nat, totalActive: int)

  predicate Continues(cur: ChainState, start: int) {
    start < cur.end + COOLDOWN
  }

  /** The chain state after one more activation. */
  function Extend(chain: Option<ChainState>, s: Span): ChainState {
    if chain.Some? && Continues(chain.value, s.start) then
      ChainState(Max(chain.value.end, s.end), chain.value.consecutive + 1, chain.value.totalActive + (s.end - s.start))
    else ChainState(s.end, 0, s.end - s.start)
  }

  /** The state of the chain the last activation belongs to. */
  function Fold(spans: seq<Span>): (r: Option<ChainState>)
    ensures r.None? <==> spans == []
  {
    if spans == [] then None
    else Some(Extend(Fold(spans[..|spans| - 1]), spans[|spans| - 1]))
  }

  method FoldChain(spans: seq<Span>) returns (chain: Option<ChainState>)
    ensures chain == Fold(spans)
  {
    chain := None;
    for i := 0 to |spans|
      invariant chain == Fold(spans[..i])
    {
      assert spans[..i + 1][..i] == spans[..i];
      var s := spans[i];
      var active := s.end - s.start;
      if chain.Some? && s.start < chain.value.end + COOLDOWN {
        chain := Some(ChainState(Max(chain.value.end, s.end), chain.value.consecutive + 1,
                                 chain.value.totalActive + active));
      } else {
        chain := Some(ChainState(s.end, 0, active));
      }
    }
    assert spans[..|spans|] == spans;
  }

  /** The renewal count a new activation would take, or `None` if the caps refuse it. */
  function ChainDecision(spans: seq<Span>, s: Span, maxRenewals: nat): Option<nat> {
    match Fold(spans)
    case None => Some(0)
    case Some(cur) =>
      if Continues(cur, s.start) then
        if cur.consecutive + 1 > maxRenewals || cur.totalActive + (s.end - s.start) > CHAIN_MAX then None
        else Some(cur.consecutive + 1)
      else Some(0)
  }

  function ClampDuration(requested: int): (d: int)
    ensures DURATION_FLOOR <= d <= DURATION_CEILING
    ensures DURATION_FLOOR <= requested <= DURATION_CEILING ==> d == requested
    ensures requested < DURATION_FLOOR ==> d == DURATION_FLOOR
    ensures requested > DURATION_CEILING ==> d == DURATION_CEILING
  {
    Min(Max(requested, DURATION_FLOOR), DURATION_CEILING)
  }

  // --- Accepted timelines -----------------------------------------------------

  predicate Clamped(s: Span) {
    DURATION_FLOOR <= s.end - s.start <= DURATION_CEILING
  }

  /** Activations in nondecreasing order, of clamped length, each admitted by the caps. */
  predicate Accepted(spans: seq<Span>, maxRenewals: nat) {
    && (forall i :: 0 <= i < |spans| ==> Clamped(spans[i]))
    && (forall i, j :: 0 <= i <= j < |spans| ==> spans[i].start <= spans[j].start)
    && (forall i :: 0 <= i < |spans| ==> ChainDecision(spans[..i], spans[i], maxRenewals).Some?)
  }

  lemma {:induction false} AcceptedPrefix(spans: seq<Span>, maxRenewals: nat, n: nat)
    requires Accepted(spans, maxRenewals) && n <= |spans|
    ensures Accepted(spans[..n], maxRenewals)
  {
    forall i | 0 <= i < n ensures spans[..n][i] == spans[i] && spans[..n][..i] == spans[..i] {
    }
  }

  /** Index of the first activation of the chain the last one belongs to. */
  function ChainHead(spans: seq<Span>): (f: nat)
    requires spans != []
    ensures f < |spans|
  {
    var init := spans[..|spans| - 1];
    if init != [] && Continues(Fold(init).value, spans[|spans| - 1].start) then ChainHead(init) else |spans| - 1
  }

  function Sum(spans: seq<Span>): int {
    if spans == [] then 0 else Sum(spans[..|spans| - 1]) + (spans[|spans| - 1].end - spans[|spans| - 1].start)
  }

  /** What the folded state says: how many activations follow the chain's first, their summed
      length, and that the chain started past its predecessor's cooldown. */
  lemma {:induction false} FoldMeaning(spans: seq<Span>)
    requires spans != []
    ensures Fold(spans).value.consecutive == |spans| - 1 - ChainHead(spans)
    ensures Fold(spans).value.totalActive == Sum(spans[ChainHead(spans)..])
    ensures ChainHead(spans) > 0 ==>
      !Continues(Fold(spans[..ChainHead(spans)]).value, spans[ChainHead(spans)].start)
  {
    hide Sum;
    var last := |spans| - 1;
    var init, f := spans[..last], ChainHead(spans);
    SumStep(spans, f);
    if f < last {
      FoldMeaning(init);
      assert init[..f] == spans[..f];
    } else {
      SumEmpty();
      assert init[f..] == [];
    }
  }

  lemma {:induction false} SumStep(spans: seq<Span>, f: nat)
    requires f < |spans|
    ensures var last := |spans| - 1;
            Sum(spans[f..]) == Sum(spans[..last][f..]) + (spans[last].end - spans[last].start)
  {
    assert spans[f..][..|spans[f..]| - 1] == spans[..|spans| - 1][f..];
  }

  lemma {:induction false} SumEmpty()
    ensures Sum([]) == 0
  {
  }

  lemma {:induction false} FirstEnd(spans: seq<Span>)
    requires spans != [] && ChainHead(spans) == |spans| - 1
    ensures Fold(spans).value.end == spans[|spans| - 1].end
  {
  }

  lemma {:induction false} FoldEndStep(spans: seq<Span>)
    requires spans != [] && ChainHead(spans) < |spans| - 1
    requires (var init := spans[..|spans| - 1];
              && (forall i :: ChainHead(init) <= i < |init| ==> init[i].end <= Fold(init).value.end)
              && (exists i :: ChainHead(init) <= i < |init| && init[i].end == Fold(init).value.end))
    ensures forall i :: ChainHead(spans) <= i < |spans| ==> spans[i].end <= Fold(spans).value.end
    ensures exists i :: ChainHead(spans) <= i < |spans| && spans[i].end == Fold(spans).value.end
  {
    var last, init := |spans| - 1, spans[..|spans| - 1];
    var i :| ChainHead(init) <= i < |init| && init[i].end == Fold(init).value.end;
    assert spans[i].end == Fold(init).value.end && spans[last].end <= Fold(spans).value.end;
    assert Fold(spans).value.end == Max(Fold(init).value.end, spans[last].end);
  }

  /** And the latest of its ends. */
  lemma {:induction false} FoldEnd(spans: seq<Span>)
    requires spans != []
    ensures forall i :: ChainHead(spans) <= i < |spans| ==> spans[i].end <= Fold(spans).value.end
    ensures exists i :: ChainHead(spans) <= i < |spans| && spans[i].end == Fold(spans).value.end
  {
    var last := |spans| - 1;
    var init, f := spans[..last], ChainHead(spans);
    if f < last {
      FoldEnd(init);
      FoldEndStep(spans);
    } else {
      FirstEnd(spans);
    }
  }

  lemma {:induction false} HeadStep(spans: seq<Span>)
    requires |spans| > 1
    ensures (var last := |spans| - 1;
             if spans[last].start < Fold(spans[..last]).value.end + 1_209_600
             then ChainHead(spans) == ChainHead(spans[..last]) else ChainHead(spans) == last)
  {
    hide Fold;
  }

  /** Within 14 days of the end of an earlier activation from index `f` on. */
  predicate Follows(spans: seq<Span>, f: nat, i: nat) {
    i < |spans| && exists j :: f <= j < i && spans[i].start < spans[j].end + 1_209_600
  }

  /** A chain is a run of activations each within 14 days of the end of some earlier one of it; it starts
      at least 14 days past every end of the chain before. */
  lemma {:induction false} ChainHeadMeans(spans: seq<Span>)
    requires spans != []
    ensures forall i :: ChainHead(spans) < i < |spans| ==> Follows(spans, ChainHead(spans), i)
    ensures ChainHead(spans) > 0 ==>
              forall j :: ChainHead(spans[..ChainHead(spans)]) <= j < ChainHead(spans) ==>
                spans[ChainHead(spans)].start >= spans[j].end + 1_209_600
  {
    hide Fold, ChainHead, Follows;
    if |spans| > 1 {
      var last, f := |spans| - 1, ChainHead(spans);
      var init := spans[..last];
      HeadStep(spans);
      FoldEnd(init);
      if f < last {
        ChainHeadMeans(init);
        assert init[..f] == spans[..f];
        FollowsLast(spans, f);
        forall i | f < i < last ensures Follows(spans, f, i) {
          FollowsMore(spans, f, i);
        }
      }
    }
  }

  lemma {:induction false} FollowsLast(spans: seq<Span>, f: nat)
    requires |spans| > 1 && f == ChainHead(spans[..|spans| - 1])
    requires spans[|spans| - 1].start < Fold(spans[..|spans| - 1]).value.end + 1_209_600
    ensures Follows(spans, f, |spans| - 1)
  {
    hide Fold, ChainHead;
    var init := spans[..|spans| - 1];
    FoldEnd(init);
    var j :| f <= j < |init| && init[j].end == Fold(init).value.end;
    assert spans[j].end == init[j].end;
  }

  lemma {:induction false} FollowsMore(spans: seq<Span>, f: nat, i: nat)
    requires spans != [] && Follows(spans[..|spans| - 1], f, i)
    ensures Follows(spans, f, i)
  {
    var init := spans[..|spans| - 1];
    var j :| f <= j < i && init[i].start < init[j].end + 1_209_600;
    assert spans[i].start < spans[j].end + 1_209_600;
  }

  /** What the caps decide: a new activation takes as its renewal count how many precede it in the chain it
      would join, and is refused exactly when that exceeds the cap or the chain would cover more than 14
      days. The first of a chain is always taken. */
  lemma {:induction false} DecisionMeans(spans: seq<Span>, s: Span, maxRenewals: nat)
    ensures (var all := spans + [s];
             var f := ChainHead(all);
             ChainDecision(spans, s, maxRenewals)
             == if f < |spans| && (|spans| - f > maxRenewals || Sum(all[f..]) > 1_209_600) then None
                else Some(|spans| - f))
  {
    hide Sum;
    var all := spans + [s];
    assert all[..|spans|] == spans;
    if spans != [] {
      FoldMeaning(spans);
      SumStep(all, ChainHead(all));
    }
  }

  /** Each chain has at most the renewal cap plus one activations and at most 14 days of summed
      activity. Every prefix of an accepted timeline is accepted, so this bounds every chain. */
  lemma {:induction false} ChainCaps(spans: seq<Span>, maxRenewals: nat)
    requires Accepted(spans, maxRenewals) && spans != []
    ensures |spans| - ChainHead(spans) <= maxRenewals + 1
    ensures Sum(spans[ChainHead(spans)..]) <= CHAIN_MAX
  {
    var last := |spans| - 1;
    FoldMeaning(spans);
    assert ChainDecision(spans[..last], spans[last], maxRenewals).Some?;
  }

  // --- The duty cycle ---------------------------------------------------------

  /** The seconds covered by some activation. */
  function Covered(spans: seq<Span>): set<int> {
    if spans == [] then {}
    else Covered(spans[..|spans| - 1]) + Interval(spans[|spans| - 1].start, spans[|spans| - 1].end)
  }

  lemma {:induction false} CoveredMeaning(spans: seq<Span>, t: int)
    ensures t in Covered(spans) <==> exists i :: 0 <= i < |spans| && Within(spans[i].start, t, spans[i].end)
  {
    if spans != [] {
      var init, last := spans[..|spans| - 1], |spans| - 1;
      CoveredMeaning(init, t);
      if t in Covered(init) {
        var i :| 0 <= i < |init| && Within(init[i].start, t, init[i].end);
        assert Within(spans[i].start, t, spans[i].end);
      }
      if exists i :: 0 <= i < |spans| && Within(spans[i].start, t, spans[i].end) {
        var i :| 0 <= i < |spans| && Within(spans[i].start, t, spans[i].end);
        if i < last {
          assert Within(init[i].start, t, init[i].end);
        }
      }
    }
  }

  lemma {:induction false} UnionSize(a: set<int>, b: set<int>)
    ensures |a + b| <= |a| + |b|
  {
    assert |a + b| == |a| + |b - a| by { assert a + b == a + (b - a); }
    assert b == (b - a) + (a * b);
  }

  lemma {:induction false} SubsetSize(a: set<int>, b: set<int>)
    requires a <= b
    ensures |a| <= |b|
  {
    assert b == a + (b - a);
  }

  lemma {:induction false} CoveredAtMostSum(spans: seq<Span>)
    requires forall i :: 0 <= i < |spans| ==> Clamped(spans[i])
    ensures |Covered(spans)| <= Sum(spans)
  {
    if spans != [] {
      var init, s := spans[..|spans| - 1], spans[|spans| - 1];
      CoveredAtMostSum(init);
      IntervalSize(s.start, s.end);
      UnionSize(Covered(init), Interval(s.start, s.end));
    }
  }

  lemma {:induction false} CoveredInside(spans: seq<Span>, lo: int, hi: int)
    requires forall i :: 0 <= i < |spans| ==> lo <= spans[i].start && spans[i].end <= hi
    ensures Covered(spans) <= Interval(lo, hi)
  {
    if spans != [] {
      CoveredInside(spans[..|spans| - 1], lo, hi);
    }
  }

  lemma {:induction false} CoveredSplit(spans: seq<Span>, f: nat)
    requires f <= |spans|
    ensures Covered(spans) == Covered(spans[..f]) + Covered(spans[f..])
    decreases |spans|
  {
    if f == |spans| {
      assert spans[..f] == spans && spans[f..] == [];
    } else {
      var init := spans[..|spans| - 1];
      CoveredSplit(init, f);
      assert init[..f] == spans[..f];
      assert spans[f..][..|spans[f..]| - 1] == init[f..];
    }
  }

  /** One chain: its covered seconds are at most half the time from its start to any instant past
      its cooldown. */
  lemma {:induction false} ChainHalf(spans: seq<Span>, maxRenewals: nat, t: int)
    requires Accepted(spans, maxRenewals) && spans != []
    requires t >= Fold(spans).value.end + COOLDOWN
    ensures 2 * |Covered(spans[ChainHead(spans)..])| <= t - spans[ChainHead(spans)].start
  {
    hide Covered, Fold, Sum, ChainDecision, ChainHead;
    var f, end := ChainHead(spans), Fold(spans).value.end;
    var chain := spans[f..];
    FoldEnd(spans);
    ChainCaps(spans, maxRenewals);
    CoveredAtMostSum(chain);
    CoveredInside(chain, spans[f].start, end);
    SubsetSize(Covered(chain), Interval(spans[f].start, end));
    IntervalSize(spans[f].start, end);
  }

  /** Whenever a new chain starts, the seconds covered by some activation since the first one are at
      most half the elapsed time. */
  lemma {:induction false} DutyCycle(spans: seq<Span>, maxRenewals: nat, t: int)
    requires Accepted(spans, maxRenewals) && spans != []
    requires !Continues(Fold(spans).value, t)
    ensures 2 * |Covered(spans)| <= t - spans[0].start
    ensures Covered(spans) <= Interval(spans[0].start, t)
    decreases |spans|
  {
    hide Covered, Fold, Sum, ChainDecision, ChainHead;
    var f := ChainHead(spans);
    FoldMeaning(spans);
    FoldEnd(spans);
    ChainHalf(spans, maxRenewals, t);
    CoveredSplit(spans, f);
    CoveredInside(spans[f..], spans[0].start, t);
    if f == 0 {
      assert spans[0..] == spans && spans[..0] == [];
    } else {
      AcceptedPrefix(spans, maxRenewals, f);
      assert spans[..f][0] == spans[0];
      DutyCycle(spans[..f], maxRenewals, spans[f].start);
      UnionSize(Covered(spans[..f]), Covered(spans[f..]));
      assert Interval(spans[0].start, spans[f].start) <= Interval(spans[0].start, t);
    }
  }
}
