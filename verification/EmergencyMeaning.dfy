/** What an emergency in force means, in the charter's numbers and the log's own entries
    (crates/rrn-governance/src/emergency.rs). */
module EmergencyMeaning {
  import opened Basics
  import opened GovLog
  import opened EmergencyChain
  import opened EmergencyTimeline
  import opened Crossing
  import opened FrontDoors
  import opened EmergencyAgreement
  import opened EmergencyRuns
  import opened EmergencyActivation

  // --- The bar in the charter's own number -----------------------------------

  function FoundersOf(charter: Option<Charter>): seq<Address> {
    if charter.Some? then charter.value.founders else []
  }

  /** Whether `k` signatures of an electorate of `n` declare or lift: two-thirds of it, or the share a
      stricter charter asks for, and never none. */
  predicate Carried(k: nat, n: nat, charter: Option<Charter>) {
    k >= 1 && if charter.Some? && charter.value.declarationPct > 67 then 100 * k >= charter.value.declarationPct * n
              else 3 * k >= 2 * n
  }

  lemma {:induction false} CarriedIff(k: nat, n: nat, charter: Option<Charter>)
    ensures Carried(k, n, charter) <==> k >= Max(DeclarationThreshold(n, RootOf(charter).declarationPct), 1)
  {
    if charter.Some? && charter.value.declarationPct > 67 {
      var bar := n * charter.value.declarationPct;
      assert bar == charter.value.declarationPct * n;
      assert RootOf(charter).declarationPct == charter.value.declarationPct;
    }
  }

  // --- Standing where it is pinned --------------------------------------------

  function NotMarker(): Entry -> bool {
    (e: Entry) => !e.record.Admitted? && !e.record.Refused? && !e.record.Activated?
  }

  /** What standing may be scored from: the first `position` entries without the station's markers. */
  function Seen(log: Log, position: nat): Log {
    Filter(log[..Min(position, |log|)], NotMarker())
  }

  lemma {:induction false} EvidenceIsSeen(log: Log)
    ensures EvidenceOf(log) == Filter(log, NotMarker())
  {
    if log != [] {
      var last := |log| - 1;
      EvidenceIsSeen(log[..last]);
      FilterConcat(log[..last], [log[last]], NotMarker());
      assert log == log[..last] + [log[last]];
      assert [log[last]][1..] == [];
    }
  }

  /** A pin sees exactly the evidence of the entries before it, and keeps its instant. */
  lemma {:induction false} PinMeaning(log: Log, position: nat, at: int)
    ensures PinAt(log, position, at) == Pin(at, Seen(log, position))
  {
    EvidenceIsSeen(log[..Min(position, |log|)]);
  }

  /** `who` is eligible as standing stood at `position` and instant `at`, by the charter's founders. */
  predicate May(G: Gov, charter: Option<Charter>, log: Log, position: nat, at: int, who: Address) {
    G.st.eligible(Seen(log, position), FoundersOf(charter), at, who)
  }

  function Size(G: Gov, charter: Option<Charter>, log: Log, position: nat, at: int): nat {
    G.st.electorateSize(Seen(log, position), FoundersOf(charter), at)
  }

  lemma {:induction false} PinReads(G: Gov, charter: Option<Charter>, log: Log, position: nat, at: int)
    ensures (var pin := PinAt(log, position, at);
             && (forall who :: Eligible(G, RootOf(charter), pin, who) == May(G, charter, log, position, at, who))
             && ThresholdAt(G, RootOf(charter), pin)
                == DeclarationThreshold(Size(G, charter, log, position, at), RootOf(charter).declarationPct))
  {
    PinMeaning(log, position, at);
    FoundersRead(charter);
  }

  lemma {:induction false} FoundersRead(charter: Option<Charter>)
    ensures RootOf(charter).founders == FoundersOf(charter)
  {
  }

  // --- Who is behind a declaration, and who moves to lift it ------------------

  /** `e` declares `h`, self-signed. */
  predicate DeclaresIt(e: Entry, h: Hash) {
    e.record.Declare? && OfDeclaration(e.record.d) == h && e.signer == e.record.d.author
  }

  /** `e` co-signs `h`, self-signed. */
  predicate CosignsIt(e: Entry, h: Hash) {
    e.record.Cosign? && e.record.target == h && e.signer == e.record.who
  }

  /** The members eligible at a pin who declared or co-signed `h` among the first `p` entries. */
  function Behind(G: Gov, charter: Option<Charter>, log: Log, position: nat, at: int, h: Hash, p: nat): set<Address> {
    (set k | 0 <= k < |log| && k < p && DeclaresIt(log[k], h) && May(G, charter, log, position, at, log[k].signer) :: log[k].signer)
    + (set k | 0 <= k < |log| && k < p && CosignsIt(log[k], h) && May(G, charter, log, position, at, log[k].signer) :: log[k].signer)
  }

  /** `e` moves to lift the emergency declared by `h`, self-signed. */
  predicate MovesIt(e: Entry, h: Hash) {
    e.record.Lapse? && e.record.m.target == h && e.signer == e.record.m.author
  }

  /** `e` co-signs some motion of `log` to lift `h`, self-signed. */
  predicate JoinsMotion(log: Log, e: Entry, h: Hash) {
    e.record.Cosign? && e.signer == e.record.who
    && exists j :: 0 <= j < |log| && MovesIt(log[j], h) && OfMotion(log[j].record.m) == e.record.target
  }

  /** The members eligible at a pin who among the first `p` entries moved to lift `h` or joined a motion to. */
  function Lifting(G: Gov, charter: Option<Charter>, log: Log, position: nat, at: int, h: Hash, p: nat): set<Address> {
    (set k | 0 <= k < |log| && k < p && MovesIt(log[k], h) && May(G, charter, log, position, at, log[k].signer) :: log[k].signer)
    + (set k | 0 <= k < |log| && k < p && JoinsMotion(log, log[k], h) && May(G, charter, log, position, at, log[k].signer) :: log[k].signer)
  }

  lemma {:induction false} BackersAreBehind(
    G: Gov, charter: Option<Charter>, log: Log, position: nat, at: int, h: Hash, declared: nat, p: nat)
    requires FindDeclaration(log, h) == Some(declared) && declared <= p
    ensures (var author := log[declared - 1].record.d.author;
             Backers(G, RootOf(charter), PinAt(log, position, at), log, h, author, declared, p)
             == Behind(G, charter, log, position, at, h, p))
  {
    hide Eligible, May, PinAt, RootOf;
    PinReads(G, charter, log, position, at);
    FirstDeclared(log, h, |log|);
    forall k | 0 <= k < |log| && DeclaresIt(log[k], h)
      ensures log[k].signer == log[declared - 1].record.d.author && declared - 1 <= k
    {
    }
    assert DeclaresIt(log[declared - 1], h) && log[declared - 1].signer == log[declared - 1].record.d.author;
    var pin, author := PinAt(log, position, at), log[declared - 1].record.d.author;
    forall k | 0 <= k < |log| ensures CosignsIt(log[k], h) <==> Signs(log[k], h) {
    }
    forall who | who in Behind(G, charter, log, position, at, h, p)
      ensures who in Backers(G, RootOf(charter), pin, log, h, author, declared, p)
    {
    }
    forall who | who in Backers(G, RootOf(charter), pin, log, h, author, declared, p)
      ensures who in Behind(G, charter, log, position, at, h, p)
    {
    }
  }

  /** The declaration found is the first. */
  lemma {:induction false} FirstDeclared(log: Log, h: Hash, n: nat)
    requires n <= |log|
    ensures DeclarationTo(log, h, n).Some? ==>
      forall k :: 0 <= k < DeclarationTo(log, h, n).value - 1 ==> !DeclaresIt(log[k], h)
    ensures DeclarationTo(log, h, n).None? ==> forall k :: 0 <= k < n ==> !DeclaresIt(log[k], h)
  {
    if n > 0 {
      FirstDeclared(log, h, n - 1);
    }
  }

  /** The replay's two kinds of signature toward a lift are these. */
  lemma {:induction false} KindsMatch(log: Log, h: Hash, k: nat)
    requires k < |log|
    ensures MovesToLapse(log[k], h) <==> MovesIt(log[k], h)
    ensures SignsLapse(log[k], LapseTargets(log, h)) <==> JoinsMotion(log, log[k], h)
    ensures MovesIt(log[k], h) ==> log[k].record.Lapse? && log[k].record.m.author == log[k].signer
    ensures JoinsMotion(log, log[k], h) ==> log[k].record.Cosign? && log[k].record.who == log[k].signer
  {
    if JoinsMotion(log, log[k], h) {
      var j :| 0 <= j < |log| && MovesIt(log[j], h) && OfMotion(log[j].record.m) == log[k].record.target;
      assert MovesToLapse(log[j], h);
    }
  }

  /** `who` is of the set for an entry of theirs of either kind before position `p`. */
  predicate Lifts(G: Gov, charter: Option<Charter>, log: Log, position: nat, at: int, h: Hash, p: nat, who: Address, k: nat) {
    && k < |log| && k < p && log[k].signer == who && (MovesIt(log[k], h) || JoinsMotion(log, log[k], h))
    && May(G, charter, log, position, at, who)
  }

  lemma {:induction false} LiftingBy(
    G: Gov, charter: Option<Charter>, log: Log, position: nat, at: int, h: Hash, p: nat, who: Address)
    ensures who in Lifting(G, charter, log, position, at, h, p) <==>
              exists k: nat :: Lifts(G, charter, log, position, at, h, p, who, k)
  {
    hide May, MovesIt, JoinsMotion;
    if who in Lifting(G, charter, log, position, at, h, p) {
      var k :| 0 <= k < |log| && k < p && log[k].signer == who && (MovesIt(log[k], h) || JoinsMotion(log, log[k], h))
               && May(G, charter, log, position, at, who);
      assert Lifts(G, charter, log, position, at, h, p, who, k);
    }
    if k: nat :| Lifts(G, charter, log, position, at, h, p, who, k) {
      assert log[k].signer == who;
    }
  }

  lemma {:induction false} LiftersBy(
    G: Gov, charter: Option<Charter>, log: Log, position: nat, at: int, h: Hash, p: nat, who: Address)
    ensures who in Lifters(G, RootOf(charter), PinAt(log, position, at), log, h, p) <==>
              exists k: nat :: Lifts(G, charter, log, position, at, h, p, who, k)
  {
    hide Eligible, May, PinAt, RootOf, MovesToLapse, SignsLapse, MovesIt, JoinsMotion, LapseTargets;
    PinReads(G, charter, log, position, at);
    forall k: nat | k < |log|
      ensures MovesToLapse(log[k], h) <==> MovesIt(log[k], h)
      ensures SignsLapse(log[k], LapseTargets(log, h)) <==> JoinsMotion(log, log[k], h)
      ensures MovesIt(log[k], h) ==> log[k].record.Lapse? && log[k].record.m.author == log[k].signer
      ensures JoinsMotion(log, log[k], h) ==> log[k].record.Cosign? && log[k].record.who == log[k].signer
    {
      KindsMatch(log, h, k);
    }
    if who in Lifters(G, RootOf(charter), PinAt(log, position, at), log, h, p) {
      var k :| 0 <= k < |log| && k < p && log[k].signer == who && (MovesIt(log[k], h) || JoinsMotion(log, log[k], h))
               && May(G, charter, log, position, at, who);
      assert Lifts(G, charter, log, position, at, h, p, who, k);
    }
    if k: nat :| Lifts(G, charter, log, position, at, h, p, who, k) {
      assert log[k].signer == who;
    }
  }

  lemma {:induction false} LiftersAreLifting(G: Gov, charter: Option<Charter>, log: Log, position: nat, at: int, h: Hash, p: nat)
    ensures Lifters(G, RootOf(charter), PinAt(log, position, at), log, h, p) == Lifting(G, charter, log, position, at, h, p)
  {
    hide Lifters, Lifting, RootOf, PinAt, Lifts;
    forall who
      ensures who in Lifters(G, RootOf(charter), PinAt(log, position, at), log, h, p)
         <==> who in Lifting(G, charter, log, position, at, h, p)
    {
      LiftersBy(G, charter, log, position, at, h, p, who);
      LiftingBy(G, charter, log, position, at, h, p, who);
    }
  }

  // --- What a crossing means in those terms -----------------------------------

  /** A threshold of none crosses where a threshold of one does. */
  lemma {:induction false} NoneIsOne(sigs: seq<Sig>, threshold: nat)
    ensures CrossingSeq(sigs, threshold) == CrossingSeq(sigs, Max(threshold, 1))
  {
  }

  /** What the replay saw when it accepted an emergency. */
  predicate AcceptedOn(G: Gov, root: Root, log: Log, e: ActiveEmergency) {
    var declared := FindDeclaration(log, e.hash);
    && 1 <= e.position <= |log| && declared.Some? && SameCommunity(root, log[declared.value - 1].record.d)
    && IsDecision(G, log[e.position - 1]) && log[e.position - 1].record.target == e.hash
    && log[e.position - 1].record.instant == e.start && AnchorTo(G, log, e.hash, |log|).Some? && e.start - AnchorTo(G, log, e.hash, |log|).value <= DECLARATION_TTL
    && CrossingReached(G, root, log, declared.value, e.start, e.position)
    && e.expiry == Scheduled(log[declared.value - 1].record.d, e.start)
    && e.reason == log[declared.value - 1].record.d.reason && e.scope == log[declared.value - 1].record.d.scope
    && e.lapsed == LapseBoundary(G, root, PinAt(log, e.position, e.start), log, e.hash,
                                 ThresholdAt(G, root, PinAt(log, e.position, e.start)))
  }

  lemma {:induction false} TimelineAccepted(G: Gov, root: Root, log: Log, n: nat)
    requires n <= |log|
    ensures forall e :: e in DeriveTo(G, root, log, n).timeline ==> AcceptedOn(G, root, log, e)
  {
    hide AcceptedOn, Replay;
    if n > 0 {
      TimelineAccepted(G, root, log, n - 1);
      ReplayAccepted(G, root, log, DeriveTo(G, root, log, n - 1), n - 1);
    }
  }

  lemma {:induction false} ReplayAccepted(G: Gov, root: Root, log: Log, D: Derivation, k: nat)
    requires k < |log| && D == DeriveTo(G, root, log, k)
    ensures forall e :: e in Replay(G, root, log, D, k).timeline ==> e in D.timeline || AcceptedOn(G, root, log, e)
  {
    hide CrossingReached, LapseBoundary, FindDeclaration, ThresholdAt, ChainDecision, Scheduled, Took, DeriveTo, PinAt, RefusalStands;
    if log[k].signer == G.station && log[k].record.Activated? {
      var r := log[k].record;
      if ActivationStands(G, root, log, D, k, r.target, r.instant, r.expiry) {
        AnchorsRead(G, root, log, r.target, k);
        AnchorKept(G, log, r.target, k, |log|);
      }
    }
  }

  lemma {:induction false} AnchorKept(G: Gov, log: Log, h: Hash, m: nat, n: nat)
    requires m <= n <= |log| && AnchorTo(G, log, h, m).Some?
    ensures AnchorTo(G, log, h, n) == AnchorTo(G, log, h, m)
    decreases n
  {
    if m < n {
      AnchorKept(G, log, h, m, n - 1);
    }
  }

  /** The lifetime granted for one requested: a day at least, seven at most. */
  function Granted(requested: int): int {
    if requested < 86_400 then 86_400 else if requested > 604_800 then 604_800 else requested
  }

  predicate AnchoredInTime(G: Gov, log: Log, h: Hash, start: int) {
    exists k :: 0 <= k < |log| && log[k].signer == G.station && log[k].record.Admitted? && log[k].record.target == h
                && start - log[k].record.admittedAt <= 604_800
  }

  lemma {:induction false} AnchorMeans(G: Gov, log: Log, h: Hash, n: nat)
    requires n <= |log| && AnchorTo(G, log, h, n).Some?
    ensures exists k :: 0 <= k < n && log[k].signer == G.station && log[k].record.Admitted? && log[k].record.target == h
                        && log[k].record.admittedAt == AnchorTo(G, log, h, n).value
  {
    if AnchorTo(G, log, h, n - 1).Some? {
      AnchorMeans(G, log, h, n - 1);
    }
  }

  lemma {:induction false} CrossingCarried(
    G: Gov, charter: Option<Charter>, log: Log, h: Hash, declared: nat, at: int, position: nat)
    requires FindDeclaration(log, h) == Some(declared) && declared <= position <= |log|
    requires CrossingReached(G, RootOf(charter), log, declared, at, position)
    ensures Carried(|Behind(G, charter, log, position, at, h, position)|, Size(G, charter, log, position, at), charter)
  {
    hide EligibleSigs, Backers, Behind, ThresholdAt, PinAt, RootOf, Carried, Size, DeclarationThreshold, CrossingSeq;
    var root, pin, prefix := RootOf(charter), PinAt(log, position, at), log[..position];
    var author := log[declared - 1].record.d.author;
    var sigs := EligibleSigs(G, root, pin, prefix, h, author, declared);
    var threshold := Max(ThresholdAt(G, root, pin), 1);
    NoneIsOne(sigs, ThresholdAt(G, root, pin));
    var p := CrossingSeq(sigs, threshold).value;
    DeclarationCrosses(G, root, pin, prefix, h, author, declared, threshold, p);
    BackersUpto(G, root, pin, log, h, author, declared, p, position);
    BackersAreBehind(G, charter, log, position, at, h, declared, position);
    PinReads(G, charter, log, position, at);
    CarriedIff(|Behind(G, charter, log, position, at, h, position)|, Size(G, charter, log, position, at), charter);
  }

  lemma {:induction false} BackersUpto(
    G: Gov, root: Root, pin: Pin, log: Log, h: Hash, author: Address, authorSeq: nat, p: nat, position: nat)
    requires authorSeq <= position <= |log|
    ensures |Backers(G, root, pin, log[..position], h, author, authorSeq, p)|
         <= |Backers(G, root, pin, log, h, author, authorSeq, position)|
  {
    hide Eligible, Signs;
    assert forall k :: 0 <= k < position ==> log[..position][k] == log[k];
    SubsetSize(Backers(G, root, pin, log[..position], h, author, authorSeq, p),
               Backers(G, root, pin, log, h, author, authorSeq, position));
  }

  /** Every emergency in force was declared for this community, was carried by the electorate pinned at
      its activation, took force within seven days of its declaration's admission, and runs from the
      activation's own instant for the lifetime its declaration asked for, within a day and seven. */
  lemma {:induction false} InForceMeans(G: Gov, charter: Option<Charter>, log: Log, e: ActiveEmergency)
    requires Placed(G, log) && e in Derive(G, RootOf(charter), log).timeline
    ensures 1 <= e.position <= |log| && e.start == log[e.position - 1].at
    ensures exists k :: 0 <= k < e.position && DeclaresIt(log[k], e.hash)
              && (charter.Some? ==> log[k].record.d.community == charter.value.community)
              && e.reason == log[k].record.d.reason && e.scope == log[k].record.d.scope
              && e.expiry == e.start + Granted(log[k].record.d.duration)
    ensures AnchoredInTime(G, log, e.hash, e.start)
    ensures Carried(|Behind(G, charter, log, e.position, e.start, e.hash, e.position)|,
                    Size(G, charter, log, e.position, e.start), charter)
  {
    hide DeriveTo, CrossingReached, LapseBoundary, ThresholdAt, Carried, Behind, Size, FindDeclaration, PinAt;
    var root := RootOf(charter);
    TimelineAccepted(G, root, log, |log|);
    DeclaredBefore(G, log, e.position - 1);
    var declared := FindDeclaration(log, e.hash).value;
    AnchorMeans(G, log, e.hash, |log|);
    CrossingCarried(G, charter, log, e.hash, declared, e.start, e.position);
    assert DeclaresIt(log[declared - 1], e.hash);
    assert PlacedAt(G, log, e.position - 1);
  }

  /** And it is lifted exactly where the same electorate, by the same bar, had carried a lift. */
  lemma {:induction false} LiftedMeans(G: Gov, charter: Option<Charter>, log: Log, e: ActiveEmergency, p: nat)
    requires e in Derive(G, RootOf(charter), log).timeline
    ensures (var n := Size(G, charter, log, e.position, e.start);
             && (e.lapsed == Some(p) ==>
                   Carried(|Lifting(G, charter, log, e.position, e.start, e.hash, p)|, n, charter)
                   && forall q: nat :: q < p ==> !Carried(|Lifting(G, charter, log, e.position, e.start, e.hash, q)|, n, charter))
             && (e.lapsed.None? ==> !Carried(|Lifting(G, charter, log, e.position, e.start, e.hash, p)|, n, charter)))
  {
    hide DeriveTo, CrossingReached, LapseSigs, ThresholdAt, Carried, Lifting, Lifters, Size, FindDeclaration, PinAt, RootOf, CrossingSeq;
    hide DeclarationThreshold;
    var root, pin := RootOf(charter), PinAt(log, e.position, e.start);
    var n := Size(G, charter, log, e.position, e.start);
    TimelineAccepted(G, root, log, |log|);
    var threshold := Max(ThresholdAt(G, root, pin), 1);
    NoneIsOne(LapseSigs(G, root, pin, log, e.hash), ThresholdAt(G, root, pin));
    LapseCrosses(G, root, pin, log, e.hash, threshold, p);
    PinReads(G, charter, log, e.position, e.start);
    forall q: nat
      ensures Carried(|Lifting(G, charter, log, e.position, e.start, e.hash, q)|, n, charter)
         <==> |Lifters(G, root, pin, log, e.hash, q)| >= threshold
    {
      LiftersAreLifting(G, charter, log, e.position, e.start, e.hash, q);
      CarriedIff(|Lifting(G, charter, log, e.position, e.start, e.hash, q)|, n, charter);
    }
  }

  // --- Caps and status -----------------------------------------------------------

  /** The renewals a root read from `charter` allows: two, or fewer if the charter says fewer. */
  function RenewalCap(charter: Option<Charter>): nat {
    if charter.Some? && charter.value.maxRenewals < 2 then charter.value.maxRenewals else 2
  }

  /** An emergency's renewal count is how many precede it in its chain. */
  lemma {:induction false} RenewalsMean(G: Gov, charter: Option<Charter>, log: Log, i: nat)
    requires i < |Derive(G, RootOf(charter), log).timeline|
    ensures (var timeline := Derive(G, RootOf(charter), log).timeline;
             var renewals := i - ChainHead(Spans(timeline)[..i + 1]);
             timeline[i].renewals == renewals && renewals <= RenewalCap(charter))
  {
    hide DeriveTo, ChainHead, ChainDecision, Sum;
    var root := RootOf(charter);
    var timeline := Derive(G, root, log).timeline;
    var spans := Spans(timeline);
    DeriveDecides(G, root, log, |log|);
    assert Genuine(G, root, log, timeline, i);
    DecisionMeans(spans[..i], spans[i], root.maxRenewals);
    assert spans[..i] + [spans[i]] == spans[..i + 1];
  }

  /** Adding `s` to these activations would break a cap. */
  predicate Overruns(spans: seq<Span>, s: Span, charter: Option<Charter>) {
    var all := spans + [s];
    var f := ChainHead(all);
    f < |spans| && (|spans| - f > RenewalCap(charter) || Sum(all[f..]) > 1_209_600)
  }

  /** The station refused `h` at index `k`, carried, when the emergencies so far left no room for it. */
  predicate RefusedFor(G: Gov, charter: Option<Charter>, log: Log, h: Hash, k: nat)
    requires k < |log|
  {
    && log[k].signer == G.station && log[k].record == Refused(h, log[k].at)
    && Carried(|Behind(G, charter, log, k + 1, log[k].at, h, k + 1)|, Size(G, charter, log, k + 1, log[k].at), charter)
    && exists j :: 0 <= j < k && DeclaresIt(log[j], h)
                   && Overruns(Spans(DeriveTo(G, RootOf(charter), log, k).timeline),
                               Span(log[k].at, log[k].at + Granted(log[j].record.d.duration)), charter)
  }

  /** A dead declaration was carried too, and refused only because it would have broken a cap. */
  lemma {:induction false} DeadMeans(G: Gov, charter: Option<Charter>, log: Log, n: nat, h: Hash)
    requires Placed(G, log) && n <= |log| && h in DeriveTo(G, RootOf(charter), log, n).dead
    ensures exists k: nat :: k < |log| && RefusedFor(G, charter, log, h, k)
  {
    hide Replay, RefusedFor, PlacedAt;
    var root := RootOf(charter);
    var D := DeriveTo(G, root, log, n - 1);
    if h in D.dead {
      DeadMeans(G, charter, log, n - 1, h);
    } else {
      JustDead(G, charter, log, D, n - 1, h);
    }
  }

  lemma {:induction false} JustDead(G: Gov, charter: Option<Charter>, log: Log, D: Derivation, k: nat, h: Hash)
    requires Placed(G, log) && k < |log| && D == DeriveTo(G, RootOf(charter), log, k)
    requires h !in D.dead && h in Replay(G, RootOf(charter), log, D, k).dead
    ensures RefusedFor(G, charter, log, h, k)
  {
    hide CrossingReached, FindDeclaration, ChainHead, Sum, Spans, DeriveTo, Took, Carried, Behind, Size, NewEmergency, ActivationStands, PlacedAt;
    hide ChainDecision;
    var root := RootOf(charter);
    assert IsDecision(G, log[k]) && log[k].record.target == h && PlacedAt(G, log, k);
    DeclaredBefore(G, log, k);
    PlacedInstant(G, log, k);
    var declared := FindDeclaration(log, h).value;
    var at, d := log[k].at, log[declared - 1].record.d;
    CrossingCarried(G, charter, log, h, declared, at, k + 1);
    DecisionMeans(Spans(D.timeline), Span(at, Scheduled(d, at)), root.maxRenewals);
    assert DeclaresIt(log[declared - 1], h);
  }

  lemma {:induction false} PlacedInstant(G: Gov, log: Log, k: nat)
    requires k < |log| && PlacedAt(G, log, k) && IsDecision(G, log[k])
    ensures log[k].record.instant == log[k].at
  {
  }

  /** An undecided declaration is expired exactly when its first anchor is more than seven days old. */
  lemma {:induction false} ExpiredMeans(G: Gov, root: Root, log: Log, h: Hash, probe: int)
    ensures (var D := Derive(G, root, log);
             var anchor := AnchorTo(G, log, h, |log|);
             DeclarationStatus(D, h, probe) == StatusExpired
             <==> !Decided(D, h) && anchor.Some? && probe > anchor.value + 604_800)
  {
    hide DeriveTo, AnchorTo;
    AnchorsRead(G, root, log, h, |log|);
  }

  // --- With a fixed electorate ---------------------------------------------------

  /** Who is eligible, and the electorate's size `n`, never change under the charter's founders. */
  ghost predicate Fixed(G: Gov, charter: Option<Charter>, n: nat) {
    && n > 0
    && (forall evidence, at :: G.st.electorateSize(evidence, FoundersOf(charter), at) == n)
    && forall evidence, at, evidence', at', who ::
         G.st.eligible(evidence, FoundersOf(charter), at, who) == G.st.eligible(evidence', FoundersOf(charter), at', who)
  }

  lemma {:induction false} FixedIsSteady(G: Gov, charter: Option<Charter>, n: nat)
    requires Fixed(G, charter, n)
    ensures Steady(G, RootOf(charter), Max(DeclarationThreshold(n, RootOf(charter).declarationPct), 1))
  {
    var pct := RootOf(charter).declarationPct;
    ProductAtLeast(n, pct);
    FoundersRead(charter);
  }

  lemma {:induction false} ProductAtLeast(n: nat, pct: nat)
    requires n > 0 && pct >= 67
    ensures DeclarationThreshold(n, pct) >= 1
  {
    assert n * pct >= pct;
  }

  /** Over every run from a founding log judged by one charter, with a fixed electorate of `n`, a
      declaration has taken force or died exactly when the members who declared or co-signed it are
      two-thirds of `n`, or the share a stricter charter asks for. */
  lemma {:induction false} DecidedIffCarried(
    G: Gov, charter: Option<Charter>, n: nat, log: Log, acts: seq<Timed>, h: Hash)
    requires Clocked(log) && forall k :: 0 <= k < |log| ==> Plain(log[k].record) && !log[k].record.Admitted?
    requires RootHeld(G, RootOf(charter), log, acts) && Fixed(G, charter, n)
    requires exists k :: 0 <= k < |Run(G, log, acts)| && DeclaresIt(Run(G, log, acts)[k], h)
    ensures (var log' := Run(G, log, acts);
             var D := Derive(G, RootOf(charter), log');
             (h in D.dead || exists e :: e in D.timeline && e.hash == h)
             <==> Carried(|Behind(G, charter, log', 0, 0, h, |log'|)|, n, charter))
  {
    hide Run, RootHeld, Fixed, Steady, Faithful, Settled, Derive, RootOf, Carried, Behind, Backers, DeclarationThreshold;
    var root, threshold := RootOf(charter), Max(DeclarationThreshold(n, RootOf(charter).declarationPct), 1);
    var log' := Run(G, log, acts);
    FixedIsSteady(G, charter, n);
    FoundingFaithful(G, root, log);
    FoundingSettled(G, root, log, threshold, h);
    FirstDeclared(log', h, |log'|);
    DecidedIffSupported(G, root, threshold, log, acts, h);
    BackersAreBehind(G, charter, log', 0, 0, h, FindDeclaration(log', h).value, |log'|);
    assert PinAt(log', 0, 0) == ANY_PIN;
    CarriedIff(|Behind(G, charter, log', 0, 0, h, |log'|)|, n, charter);
    TookMember(Derive(G, root, log').timeline, h);
  }

  lemma {:induction false} TookMember(timeline: seq<ActiveEmergency>, h: Hash)
    ensures Took(timeline, h) <==> exists e :: e in timeline && e.hash == h
  {
    if exists e :: e in timeline && e.hash == h {
      var e :| e in timeline && e.hash == h;
      var i :| 0 <= i < |timeline| && timeline[i] == e;
      assert timeline[i].hash == h;
    }
  }

  // --- What the emergency doors take --------------------------------------------

  /** An emergency declared by `h` covers a record admitted now at the next position, and `who` is of the
      electorate pinned at its activation. */
  predicate MayEnd(G: Gov, log: Log, now: int, h: Hash, who: Address) {
    exists e :: e in Derive(G, RootOf(FounderCharter(log)), log).timeline
                && Covers(e, AdmissionInstant(log, now), Some(|log| + 1)) && e.hash == h
                && May(G, FounderCharter(log), log, e.position, e.start, who)
  }

  lemma {:induction false} MayLiftMeans(G: Gov, log: Log, now: int, h: Hash, who: Address)
    requires MayLift(G, log, now, h, who)
    ensures MayEnd(G, log, now, h, who)
  {
    hide Derive, FounderCharter, Eligible, May, PinAt;
    var e := Lapsable(G, log, now, h).value;
    PinReads(G, FounderCharter(log), log, e.position, e.start);
  }

  /** The declaration door takes a new declaration for this community by its own eligible author. */
  lemma {:induction false} RaiseMeans(G: Gov, log: Log, d: Declaration, signer: Address, now: int)
    requires RefusalOf(G, log, Raise(d, signer), now).None?
    ensures signer == d.author && forall k :: 0 <= k < |log| ==> !DeclaresIt(log[k], OfDeclaration(d))
    ensures FounderCharter(log).Some? ==> d.community == FounderCharter(log).value.community
    ensures May(G, FounderCharter(log), log, |log| + 1, AdmissionInstant(log, now), d.author)
  {
    hide FounderCharter, Eligible, May, PinAt, DeclarationTo;
    RaiseAllowed(G, log, d, signer, now);
    PinReads(G, FounderCharter(log), log, |log| + 1, AdmissionInstant(log, now));
  }

  /** The co-signature door takes a member's first signature: on a declaration undecided and at most seven days
      past its anchor, from the electorate of now, or on a motion to lift the emergency in force, from that
      emergency's. */
  lemma {:induction false} SupportMeans(G: Gov, log: Log, target: Hash, who: Address, signer: Address, now: int)
    requires RefusalOf(G, log, Support(target, who, signer), now).None?
    ensures signer == who && forall k :: 0 <= k < |log| ==> !(CosignsIt(log[k], target) && log[k].signer == who)
    ensures (exists k :: 0 <= k < |log| && DeclaresIt(log[k], target)) ==>
              && May(G, FounderCharter(log), log, |log| + 1, AdmissionInstant(log, now), who)
              && !Decided(Derive(G, RootOf(FounderCharter(log)), log), target)
              && (AnchorTo(G, log, target, |log|).Some? ==>
                    AdmissionInstant(log, now) <= AnchorTo(G, log, target, |log|).value + 604_800)
    ensures (forall k :: 0 <= k < |log| ==> !DeclaresIt(log[k], target)) ==>
              && target.OfMotion? && MayEnd(G, log, now, target.m.target, who)
              && exists k :: 0 <= k < |log| && MovesIt(log[k], target.m.target) && log[k].record.m == target.m
  {
    hide FounderCharter, Eligible, May, PinAt, Derive, MayLift, MayEnd, AnchorTo;
    SupportAllowed(G, log, target, who, signer, now);
    PinReads(G, FounderCharter(log), log, |log| + 1, AdmissionInstant(log, now));
    ExpiredMeans(G, RootOf(FounderCharter(log)), log, target, AdmissionInstant(log, now));
    forall k | 0 <= k < |log| ensures !(CosignsIt(log[k], target) && log[k].signer == who) {
      assert !(Signs(log[k], target) && log[k].record.who == who);
    }
    forall k | 0 <= k < |log| ensures DeclaresIt(log[k], target) <==> Declares(log[k], target) {
    }
    if forall k :: 0 <= k < |log| ==> !DeclaresIt(log[k], target) {
      MayLiftMeans(G, log, now, target.m.target, who);
      var k :| 0 <= k < |log| && Moves(log[k], target);
      assert MovesIt(log[k], target.m.target);
    }
  }

  /** The motion door takes a new motion against the emergency in force, from its own electorate. */
  lemma {:induction false} LiftMeans(G: Gov, log: Log, m: Motion, signer: Address, now: int)
    requires RefusalOf(G, log, Lift(m, signer), now).None?
    ensures signer == m.author && MayEnd(G, log, now, m.target, m.author)
    ensures forall k :: 0 <= k < |log| ==> !(log[k].record == Lapse(m) && log[k].signer == m.author)
  {
    hide FounderCharter, Eligible, May, PinAt, Derive, MayLift, MayEnd;
    LiftAllowed(G, log, m, signer, now);
    MayLiftMeans(G, log, now, m.target, m.author);
    forall k | 0 <= k < |log| ensures !(log[k].record == Lapse(m) && log[k].signer == m.author) {
      assert !Moves(log[k], OfMotion(m));
    }
  }
}
