/** The front doors of governance: what the station admits, and what it writes when it does
    (crates/rrn-governance/src/emergency.rs, charter.rs, proposal.rs, vote.rs and statute.rs). */
module FrontDoors {
  import opened Basics
  import opened GovLog
  import opened EmergencyChain
  import opened EmergencyTimeline
  import opened Proposals
  import opened CharterFold

  const MEASURE_GRACE: int := 7 * DAY
  const UNDECLARED_MEASURE_GRACE: int := 30 * DAY
  const WINDOW_FLOOR: int := 24 * 3600

  datatype Refusal =
    | SignerMismatch | WrongCommunity | AlreadyPresent | NotEligible | UnknownTarget | NotActive | AlreadyCosigned
    | AlreadyActivated | DeclarationDead | DeclarationExpired | BelowThreshold | FrozenByEmergency | Malformed
    | AlreadyProposed | MeasureTooLong | UnknownProposal | AuthorCannotEndorse | AlreadyEndorsed | NotPublished
    | OutsideVotingWindow | AlreadyVoted | AlreadyImplemented | NoCharter | NotPassed | NotYetDue

  /** What may be brought to the station. `signer` is the envelope's. */
  datatype Act =
    | Raise(d: Declaration, signer: Address)
    | Support(target: Hash, who: Address, signer: Address)
    | Lift(m: Motion, signer: Address)
    | Publish(charter: Charter, signers: set<Address>, pending: bool)
    | Put(p: Proposal, signer: Address, rules: Rules)
    | Second(p: Proposal, who: Address, signer: Address)
    | Cast(p: Proposal, who: Address, choice: Choice, signer: Address)
    | Enact(p: Proposal)
    | Other(tag: nat, signer: Address)

  /** The root every door reads. */
  function RootNow(log: Log): Root {
    RootOf(FounderCharter(log))
  }

  /** The pin at the position and instant the next append receives. */
  function NextPin(log: Log, now: int): Pin {
    PinAt(log, |log| + 1, AdmissionInstant(log, now))
  }

  // --- The station marker -----------------------------------------------------

  /** The marker the station writes after the record at `crossing`, if that record is the first
      threshold crossing of `h` inside its time to live. */
  function Marker(G: Gov, root: Root, log: Log, h: Hash, crossing: nat, now: int): Option<Record> {
    var D, declared := Derive(G, root, log), FindDeclaration(log, h);
    if Decided(D, h) || declared.None? then None
    else
      var d, at, pin := log[declared.value - 1].record.d, AdmissionInstant(log, now), NextPin(log, now);
      var sigs := EligibleSigs(G, root, pin, log, h, d.author, declared.value);
      var anchor := AnchorTo(G, log, h, |log|);
      if CrossingSeq(sigs, ThresholdAt(G, root, pin)) != Some(crossing) then None
      else if anchor.None? || at - anchor.value > DECLARATION_TTL then None
      else
        match ChainDecision(Spans(D.timeline), Span(at, Scheduled(d, at)), root.maxRenewals)
        case Some(renewals) => Some(Activated(h, at, Scheduled(d, at), renewals))
        case None => Some(Refused(h, at))
  }

  function WithMarker(G: Gov, log: Log, h: Hash, crossing: nat, now: int): Log {
    match Marker(G, RootNow(log), log, h, crossing, now)
    case None => log
    case Some(marker) => log + [Stamp(log, marker, G.station, now)]
  }

  // --- Refusals ---------------------------------------------------------------

  function ActiveNow(G: Gov, log: Log, now: int, position: Option<nat>): Option<ActiveEmergency> {
    ActiveAt(Derive(G, RootNow(log), log).timeline, AdmissionInstant(log, now), position)
  }

  /** The emergency a lapse of `h` would end, if it is the one in force. */
  function Lapsable(G: Gov, log: Log, now: int, h: Hash): Option<ActiveEmergency> {
    match ActiveNow(G, log, now, Some(|log| + 1))
    case Some(e) => if e.hash == h then Some(e) else None
    case None => None
  }

  predicate Cosigned(log: Log, target: Hash, who: Address) {
    exists k | 0 <= k < |log| :: Signs(log[k], target) && log[k].record.who == who
  }

  function SupportRefusal(G: Gov, log: Log, target: Hash, who: Address, signer: Address, now: int): Option<Refusal> {
    var root, declared, motion := RootNow(log), FindDeclaration(log, target), FindMotion(log, target);
    if signer != who then Some(SignerMismatch)
    else if declared.Some? then
      if !Eligible(G, root, NextPin(log, now), who) then Some(NotEligible)
      else if Cosigned(log, target, who) then Some(AlreadyCosigned)
      else
        match DeclarationStatus(Derive(G, root, log), target, AdmissionInstant(log, now))
        case StatusActivated => Some(AlreadyActivated)
        case StatusDead => Some(DeclarationDead)
        case StatusExpired => Some(DeclarationExpired)
        case StatusPending => None
    else if motion.Some? then
      match Lapsable(G, log, now, log[motion.value - 1].record.m.target)
      case None => Some(NotActive)
      case Some(e) =>
        if !Eligible(G, root, PinAt(log, e.position, e.start), who) then Some(NotEligible)
        else if Cosigned(log, target, who) then Some(AlreadyCosigned)
        else None
    else Some(UnknownTarget)
  }

  /** A founder charter may not land on an existing root while an emergency holds. */
  predicate CharterFrozen(G: Gov, log: Log, now: int) {
    FounderCharter(log).Some? && ActiveNow(G, log, now, None).Some?
  }

  /** When voting ends, and when a passed proposal is due, for one admitted at `at`. */
  function WindowFor(rules: Rules, kind: Kind, at: int): (int, int) {
    match kind
    case Ordinary => (at + rules.deliberationDays * DAY, at + rules.deliberationDays * DAY + rules.delayDays * DAY)
    case Amendment(_) => (at + rules.amendmentDays * DAY, at + rules.amendmentDays * DAY + rules.delayDays * DAY)
    case EmergencyMeasure(_) => (at + rules.deliberationDays * DAY, at + rules.deliberationDays * DAY)
  }

  function CompressedWindow(rules: Rules): int {
    Min(Max(rules.emergencyWindowSecs, WINDOW_FLOOR), Max(rules.deliberationDays * DAY, WINDOW_FLOOR))
  }

  /** The window attested for a proposal put under `active`. */
  function AttestedWindow(p: Proposal, rules: Rules, active: Option<ActiveEmergency>, at: int): Record {
    var (ends, due) := if p.kind.EmergencyMeasure? && active.Some?
                       then (at + CompressedWindow(rules), at + CompressedWindow(rules))
                       else WindowFor(rules, p.kind, at);
    Window(p, at, ends, due)
  }

  /** The attested window opens at the admission. Voting on a statute lasts the charter's deliberation days, on
      an amendment its own, and what passes is due after the implementation delay. A measure is due as its
      vote ends: after the deliberation days, or under an emergency after the charter's emergency window,
      never less than a day and never more than deliberation unless that is shorter than a day. */
  lemma {:induction false} AttestedMeans(p: Proposal, rules: Rules, active: Option<ActiveEmergency>, at: int)
    ensures (var w := AttestedWindow(p, rules, active, at);
             && w.Window? && w.proposal == p && w.openedAt == at
             && (p.kind.Ordinary? ==> w.votingEndsAt == at + 86_400 * rules.deliberationDays)
             && (p.kind.Amendment? ==> w.votingEndsAt == at + 86_400 * rules.amendmentDays)
             && (!p.kind.EmergencyMeasure? ==> w.implementationAt == w.votingEndsAt + 86_400 * rules.delayDays)
             && (p.kind.EmergencyMeasure? ==> w.implementationAt == w.votingEndsAt)
             && (p.kind.EmergencyMeasure? && active.None? ==> w.votingEndsAt == at + 86_400 * rules.deliberationDays)
             && (p.kind.EmergencyMeasure? && active.Some? ==>
                   var days := 86_400 * rules.deliberationDays;
                   && at + 86_400 <= w.votingEndsAt
                   && (w.votingEndsAt <= at + days || w.votingEndsAt == at + 86_400)
                   && (86_400 <= rules.emergencyWindowSecs <= days ==> w.votingEndsAt == at + rules.emergencyWindowSecs)
                   && (rules.emergencyWindowSecs > days >= 86_400 ==> w.votingEndsAt == at + days)))
  {
  }

  /** A measure may outlive the emergency it is put under by seven days, and one put under none its own vote
      by thirty. */
  lemma {:induction false} LimitMeans(p: Proposal, rules: Rules, active: Option<ActiveEmergency>, at: int)
    requires p.kind.EmergencyMeasure?
    ensures active.Some? ==> MeasureLimit(p, rules, active, at) == active.value.expiry + 7 * 86_400
    ensures active.None? ==> MeasureLimit(p, rules, active, at) == at + 86_400 * rules.deliberationDays + 30 * 86_400
  {
  }

  /** The latest an emergency measure may expire. */
  function MeasureLimit(p: Proposal, rules: Rules, active: Option<ActiveEmergency>, at: int): int {
    match active
    case Some(e) => e.expiry + MEASURE_GRACE
    case None => WindowFor(rules, p.kind, at).0 + UNDECLARED_MEASURE_GRACE
  }

  function PutRefusal(G: Gov, log: Log, p: Proposal, signer: Address, rules: Rules, now: int): Option<Refusal> {
    var root, active := RootNow(log), ActiveNow(G, log, now, Some(|log| + 1));
    if signer != p.author then Some(SignerMismatch)
    else if !p.wellFormed then Some(Malformed)
    else if !Eligible(G, root, NextPin(log, now), p.author) then Some(NotEligible)
    else if Authorized(G, root, log, p).Some? then Some(AlreadyProposed)
    else if p.kind.Amendment? && active.Some? then Some(FrozenByEmergency)
    else if p.kind.EmergencyMeasure? && p.kind.expiresAt > MeasureLimit(p, rules, active, AdmissionInstant(log, now))
      then Some(MeasureTooLong)
    else None
  }

  function SecondRefusal(G: Gov, log: Log, p: Proposal, who: Address, signer: Address): Option<Refusal> {
    var root := RootNow(log);
    var w := Authorized(G, root, log, p);
    if signer != who then Some(SignerMismatch)
    else if w.None? then Some(UnknownProposal)
    else if who == p.author then Some(AuthorCannotEndorse)
    else if !Eligible(G, root, OpenPin(log, w.value), who) then Some(NotEligible)
    else if who in Endorsers(G, root, log, p, OpenPin(log, w.value), |log|) then Some(AlreadyEndorsed)
    else None
  }

  function CastRefusal(G: Gov, log: Log, p: Proposal, who: Address, signer: Address, now: int): Option<Refusal> {
    var root := RootNow(log);
    var w := Authorized(G, root, log, p);
    if signer != who then Some(SignerMismatch)
    else if w.None? then Some(UnknownProposal)
    else if !Published(G, root, log, p, w.value) then Some(NotPublished)
    else if AdmissionInstant(log, now) > w.value.votingEndsAt then Some(OutsideVotingWindow)
    else if !Eligible(G, root, ElectoratePin(G, root, log, p, w.value), who) then Some(NotEligible)
    else if who in Votes(G, root, log, p) then Some(AlreadyVoted)
    else None
  }

  function EnactRefusal(G: Gov, log: Log, p: Proposal, now: int): Option<Refusal> {
    var root, charter := RootNow(log), EffectiveCharter(G, log);
    var w := Authorized(G, root, log, p);
    if EnactedBy(G, log, p, |log|) then Some(AlreadyImplemented)
    else if p.kind.Amendment? && ActiveNow(G, log, now, None).Some? then Some(FrozenByEmergency)
    else if charter.None? then Some(NoCharter)
    else if w.None? then Some(UnknownProposal)
    else if !Passed(G, root, log, p, now, charter.value) then Some(NotPassed)
    else if now < w.value.implementationAt then Some(NotYetDue)
    else None
  }

  function RefusalOf(G: Gov, log: Log, act: Act, now: int): Option<Refusal> {
    var root := RootNow(log);
    match act
    case Raise(d, signer) =>
      if signer != d.author then Some(SignerMismatch)
      else if !SameCommunity(root, d) then Some(WrongCommunity)
      else if FindDeclaration(log, OfDeclaration(d)).Some? then Some(AlreadyPresent)
      else if !Eligible(G, root, NextPin(log, now), d.author) then Some(NotEligible)
      else None
    case Support(target, who, signer) => SupportRefusal(G, log, target, who, signer, now)
    case Lift(m, signer) =>
      if signer != m.author then Some(SignerMismatch)
      else (
        match Lapsable(G, log, now, m.target)
        case None => Some(NotActive)
        case Some(e) =>
          if !Eligible(G, root, PinAt(log, e.position, e.start), m.author) then Some(NotEligible)
          else if FindMotion(log, OfMotion(m)).Some? then Some(AlreadyPresent)
          else None)
    case Publish(charter, signers, pending) =>
      if !pending && !FounderAuthorized(charter, signers) then Some(BelowThreshold)
      else if CharterFrozen(G, log, now) then Some(FrozenByEmergency)
      else None
    case Put(p, signer, rules) => PutRefusal(G, log, p, signer, rules, now)
    case Second(p, who, signer) => SecondRefusal(G, log, p, who, signer)
    case Cast(p, who, _, signer) => CastRefusal(G, log, p, who, signer, now)
    case Enact(p) => EnactRefusal(G, log, p, now)
    case Other(_, _) => None
  }

  // --- What each door asks ----------------------------------------------------

  /** Some emergency of the log covers a record admitted now. */
  predicate UnderEmergencyNow(G: Gov, log: Log, now: int, position: Option<nat>) {
    exists e :: e in Derive(G, RootNow(log), log).timeline && Governs(e, AdmissionInstant(log, now), position)
  }

  /** `who` is of the electorate pinned by the emergency in force, which declaration `h` activated. */
  predicate MayLift(G: Gov, log: Log, now: int, h: Hash, who: Address) {
    var e := Lapsable(G, log, now, h);
    e.Some? && Eligible(G, RootNow(log), PinAt(log, e.value.position, e.value.start), who)
  }

  predicate HasEndorsed(log: Log, p: Proposal, who: Address) {
    exists k :: 0 <= k < |log| && Endorses(log[k], p) && log[k].record.who == who
  }

  /** `who` voted on `p` among the entries at indices `[after, n)`. */
  predicate HasVoted(log: Log, p: Proposal, who: Address, after: nat, n: nat) {
    exists k :: after <= k < n <= |log| && Casts(log[k], p) && log[k].record.who == who
  }

  /** What an act must meet to be admitted, in terms of what the log holds. */
  predicate Allowed(G: Gov, log: Log, act: Act, now: int) {
    var root, at, next := RootNow(log), AdmissionInstant(log, now), NextPin(log, now);
    match act
    case Raise(d, signer) =>
      && signer == d.author && SameCommunity(root, d) && Eligible(G, root, next, d.author)
      && (forall k :: 0 <= k < |log| ==> !Declares(log[k], OfDeclaration(d)))
    case Support(target, who, signer) =>
      && signer == who && !Cosigned(log, target, who)
      && (if exists k :: 0 <= k < |log| && Declares(log[k], target)
          then Eligible(G, root, next, who) && DeclarationStatus(Derive(G, root, log), target, at) == StatusPending
          else target.OfMotion? && (exists k :: 0 <= k < |log| && Moves(log[k], target))
               && MayLift(G, log, now, target.m.target, who))
    case Lift(m, signer) =>
      && signer == m.author && MayLift(G, log, now, m.target, m.author)
      && (forall k :: 0 <= k < |log| ==> !Moves(log[k], OfMotion(m)))
    case Publish(charter, signers, pending) =>
      && (pending || FounderAuthorized(charter, signers))
      && ((forall k :: 0 <= k < |log| ==> !PublishesRoot(log[k])) || !UnderEmergencyNow(G, log, now, None))
    case Put(p, signer, rules) =>
      && signer == p.author && p.wellFormed && Eligible(G, root, next, p.author) && Authorized(G, root, log, p).None?
      && (p.kind.Amendment? ==> !UnderEmergencyNow(G, log, now, Some(|log| + 1)))
      && (p.kind.EmergencyMeasure? ==>
            p.kind.expiresAt <= MeasureLimit(p, rules, ActiveNow(G, log, now, Some(|log| + 1)), at))
    case Second(p, who, signer) =>
      && signer == who && who != p.author && !HasEndorsed(log, p, who)
      && (var w := Authorized(G, root, log, p); w.Some? && Eligible(G, root, OpenPin(log, w.value), who))
    case Cast(p, who, _, signer) =>
      && signer == who
      && (var w := Authorized(G, root, log, p);
          && w.Some? && Published(G, root, log, p, w.value) && at <= w.value.votingEndsAt
          && Eligible(G, root, ElectoratePin(G, root, log, p, w.value), who)
          && !HasVoted(log, p, who, w.value.position, |log|))
    case Enact(p) =>
      && (forall k :: 0 <= k < |log| ==> !Enacts(G, log[k], p))
      && (p.kind.Amendment? ==> !UnderEmergencyNow(G, log, now, None))
      && EffectiveCharter(G, log).Some? && Authorized(G, root, log, p).Some?
      && Passed(G, root, log, p, now, EffectiveCharter(G, log).value)
      && now >= Authorized(G, root, log, p).value.implementationAt
    case Other(_, _) => true
  }

  lemma {:induction false} Undeclared(log: Log, h: Hash, n: nat)
    requires n <= |log|
    ensures DeclarationTo(log, h, n).None? <==> forall k :: 0 <= k < n ==> !Declares(log[k], h)
    ensures MotionTo(log, h, n).None? <==> forall k :: 0 <= k < n ==> !Moves(log[k], h)
  {
    if n > 0 {
      Undeclared(log, h, n - 1);
    }
  }

  lemma {:induction false} ActiveIff(G: Gov, log: Log, now: int, position: Option<nat>)
    ensures ActiveNow(G, log, now, position).Some? <==> UnderEmergencyNow(G, log, now, position)
  {
    hide Derive, FounderCharter, Governs;
  }

  lemma {:induction false} Endorsed(G: Gov, root: Root, log: Log, p: Proposal, pin: Pin, who: Address)
    requires Eligible(G, root, pin, who)
    ensures who in Endorsers(G, root, log, p, pin, |log|) <==> HasEndorsed(log, p, who)
  {
  }

  lemma {:induction false} Voted(G: Gov, root: Root, log: Log, p: Proposal, pin: Pin, after: nat, n: nat, who: Address)
    requires Eligible(G, root, pin, who) && n <= |log|
    ensures who in VotesTo(G, root, log, p, pin, after, n) <==> HasVoted(log, p, who, after, n)
  {
    if n > after {
      Voted(G, root, log, p, pin, after, n - 1, who);
      assert HasVoted(log, p, who, after, n) <==>
             HasVoted(log, p, who, after, n - 1) || (Casts(log[n - 1], p) && log[n - 1].record.who == who);
    }
  }

  lemma {:induction false} RaiseAllowed(G: Gov, log: Log, d: Declaration, signer: Address, now: int)
    ensures RefusalOf(G, log, Raise(d, signer), now).None? <==> Allowed(G, log, Raise(d, signer), now)
  {
    hide FounderCharter, Eligible, DeclarationTo;
    Undeclared(log, OfDeclaration(d), |log|);
  }

  lemma {:induction false} SupportAllowed(G: Gov, log: Log, target: Hash, who: Address, signer: Address, now: int)
    ensures RefusalOf(G, log, Support(target, who, signer), now).None? <==> Allowed(G, log, Support(target, who, signer), now)
  {
    hide FounderCharter, Eligible, DeclarationTo, MotionTo, Derive, Cosigned, DeclarationStatus, ActiveNow, PinAt;
    Undeclared(log, target, |log|);
  }

  lemma {:induction false} LiftAllowed(G: Gov, log: Log, m: Motion, signer: Address, now: int)
    ensures RefusalOf(G, log, Lift(m, signer), now).None? <==> Allowed(G, log, Lift(m, signer), now)
  {
    hide FounderCharter, Eligible, MotionTo, ActiveNow, PinAt;
    Undeclared(log, OfMotion(m), |log|);
  }

  lemma {:induction false} PublishAllowed(G: Gov, log: Log, charter: Charter, signers: set<Address>, pending: bool, now: int)
    ensures RefusalOf(G, log, Publish(charter, signers, pending), now).None?
       <==> Allowed(G, log, Publish(charter, signers, pending), now)
  {
    hide FounderAuthorized, ActiveNow, UnderEmergencyNow, RootOf;
    ActiveIff(G, log, now, None);
    FounderCharterMeaning(log, |log|);
  }

  lemma {:induction false} PutAllowed(G: Gov, log: Log, p: Proposal, signer: Address, rules: Rules, now: int)
    ensures RefusalOf(G, log, Put(p, signer, rules), now).None? <==> Allowed(G, log, Put(p, signer, rules), now)
  {
    hide FounderCharter, Eligible, ActiveNow, UnderEmergencyNow, Authorized, PinAt, MeasureLimit;
    ActiveIff(G, log, now, Some(|log| + 1));
  }

  lemma {:induction false} SecondAllowed(G: Gov, log: Log, p: Proposal, who: Address, signer: Address, now: int)
    ensures RefusalOf(G, log, Second(p, who, signer), now).None? <==> Allowed(G, log, Second(p, who, signer), now)
  {
    hide FounderCharter, Eligible, Authorized, PinAt, Endorsers, HasEndorsed;
    var root := RootNow(log);
    var w := Authorized(G, root, log, p);
    if w.Some? && Eligible(G, root, OpenPin(log, w.value), who) {
      Endorsed(G, root, log, p, OpenPin(log, w.value), who);
    }
  }

  lemma {:induction false} CastAllowed(G: Gov, log: Log, p: Proposal, who: Address, choice: Choice, signer: Address, now: int)
    ensures RefusalOf(G, log, Cast(p, who, choice, signer), now).None? <==> Allowed(G, log, Cast(p, who, choice, signer), now)
  {
    hide FounderCharter, Eligible, Authorized, PinAt, VotesTo, HasVoted, Published, ElectoratePin;
    var root := RootNow(log);
    var w := Authorized(G, root, log, p);
    if w.Some? && Eligible(G, root, ElectoratePin(G, root, log, p, w.value), who) {
      Voted(G, root, log, p, ElectoratePin(G, root, log, p, w.value), w.value.position, |log|, who);
    }
  }

  lemma {:induction false} EnactAllowed(G: Gov, log: Log, p: Proposal, now: int)
    ensures RefusalOf(G, log, Enact(p), now).None? <==> Allowed(G, log, Enact(p), now)
  {
    hide FounderCharter, ActiveNow, UnderEmergencyNow, Authorized, Passed, EffectiveCharter;
    ActiveIff(G, log, now, None);
  }

  /** Every door admits exactly the acts that meet its conditions. */
  lemma {:induction false} AllowedIff(G: Gov, log: Log, act: Act, now: int)
    ensures RefusalOf(G, log, act, now).None? <==> Allowed(G, log, act, now)
  {
    hide RefusalOf, Allowed;
    match act {
      case Raise(d, signer) => RaiseAllowed(G, log, d, signer, now);
      case Support(target, who, signer) => SupportAllowed(G, log, target, who, signer, now);
      case Lift(m, signer) => LiftAllowed(G, log, m, signer, now);
      case Publish(charter, signers, pending) => PublishAllowed(G, log, charter, signers, pending, now);
      case Put(p, signer, rules) => PutAllowed(G, log, p, signer, rules, now);
      case Second(p, who, signer) => SecondAllowed(G, log, p, who, signer, now);
      case Cast(p, who, choice, signer) => CastAllowed(G, log, p, who, choice, signer, now);
      case Enact(p) => EnactAllowed(G, log, p, now);
      case Other(tag, signer) => OtherAllowed(G, log, tag, signer, now);
    }
  }

  lemma {:induction false} OtherAllowed(G: Gov, log: Log, tag: nat, signer: Address, now: int)
    ensures RefusalOf(G, log, Other(tag, signer), now).None? && Allowed(G, log, Other(tag, signer), now)
  {
  }

  // --- What is written --------------------------------------------------------

  function Append(log: Log, record: Record, signer: Address, now: int): Log {
    log + [Stamp(log, record, signer, now)]
  }

  /** A declaration and its admission anchor. */
  function Anchored(G: Gov, log: Log, d: Declaration, signer: Address, now: int): Log {
    Append(Append(log, Declare(d), signer, now), Admitted(OfDeclaration(d), AdmissionInstant(log, now)), G.station, now)
  }

  /** The log after an admitted act. */
  function Written(G: Gov, log: Log, act: Act, now: int): Log {
    match act
    case Raise(d, signer) =>
      WithMarker(G, Anchored(G, log, d, signer, now), OfDeclaration(d), |log| + 1, now)
    case Support(target, who, signer) =>
      var signed := Append(log, Cosign(target, who), signer, now);
      if FindDeclaration(log, target).Some? then WithMarker(G, signed, target, |log| + 1, now) else signed
    case Lift(m, signer) => Append(log, Lapse(m), signer, now)
    case Publish(charter, signers, _) => Append(log, PublishCharter(charter, signers), G.station, now)
    case Put(p, signer, rules) =>
      var active := ActiveNow(G, log, now, Some(|log| + 1));
      Append(Append(log, Propose(p), signer, now), AttestedWindow(p, rules, active, AdmissionInstant(log, now)), G.station, now)
    case Second(p, who, signer) => Append(log, Endorse(p, who), signer, now)
    case Cast(p, who, choice, signer) => Append(log, Vote(p, who, choice), signer, now)
    case Enact(p) => Append(log, Implemented(p, now), G.station, now)
    case Other(tag, signer) => Append(log, Evidence(tag), signer, now)
  }

  /** One step at the front door: the log grows exactly when the act is not refused. */
  function Step(G: Gov, log: Log, act: Act, now: int): Log {
    if RefusalOf(G, log, act, now).Some? then log else Written(G, log, act, now)
  }

  // --- The station ------------------------------------------------------------

  class Station {
    const G: Gov
    var log: Log

    constructor (G: Gov)
      ensures this.G == G && log == []
    {
      this.G, log := G, [];
    }

    method CurrentRoot() returns (root: Root)
      ensures root == RootNow(log)
    {
      var charter := FindFounderCharter(log);
      root := RootOf(charter);
    }

    method ActiveEmergencyAt(at: int, position: Option<nat>) returns (r: Option<ActiveEmergency>)
      ensures r == ActiveAt(Derive(G, RootNow(log), log).timeline, at, position)
    {
      var root := CurrentRoot();
      var derived := DeriveEmergencies(G, root, log);
      r := ActiveAt(derived.timeline, at, position);
    }

    /** Writes the station marker when the record at `crossing` is the first crossing of `h`. */
    method TryActivate(h: Hash, crossing: nat, now: int)
      modifies this`log
      ensures log == WithMarker(G, old(log), h, crossing, now)
      ensures IsPrefix(old(log), log) && |log| <= |old(log)| + 1
    {
      hide Derive, FindDeclaration, ChainDecision, EligibleSigs;
      assert log[..|log|] == log;
      var root := CurrentRoot();
      var derived := DeriveEmergencies(G, root, log);
      if h in derived.dead || Took(derived.timeline, h) {
        return;
      }
      var declared := FindDeclaration(log, h);
      if declared.None? {
        return;
      }
      var d, at, pin := log[declared.value - 1].record.d, AdmissionInstant(log, now), NextPin(log, now);
      var sigs := EligibleSignatures(G, root, pin, log, h, d.author, declared.value, |log|);
      if CrossingSeq(sigs, ThresholdAt(G, root, pin)) != Some(crossing) {
        return;
      }
      var anchor := AnchorTo(G, log, h, |log|);
      if anchor.None? || at - anchor.value > DECLARATION_TTL {
        return;
      }
      var scheduled := Scheduled(d, at);
      match ChainDecision(Spans(derived.timeline), Span(at, scheduled), root.maxRenewals) {
        case Some(renewals) => log := log + [Stamp(log, Activated(h, at, scheduled, renewals), G.station, now)];
        case None => log := log + [Stamp(log, Refused(h, at), G.station, now)];
      }
    }

    method AppendDeclaration(d: Declaration, signer: Address, now: int) returns (refusal: Option<Refusal>)
      modifies this`log
      ensures refusal.None? <==> Allowed(G, old(log), Raise(d, signer), now)
      ensures refusal.Some? ==> log == old(log)
      ensures refusal.None? ==>
        IsPrefix(Anchored(G, old(log), d, signer, now), log) && |log| <= |old(log)| + 3
      ensures refusal == RefusalOf(G, old(log), Raise(d, signer), now)
      ensures log == Step(G, old(log), Raise(d, signer), now)
    {
      hide FindDeclaration, WithMarker, FounderCharter, Allowed;
      RaiseAllowed(G, log, d, signer, now);
      if signer != d.author {
        return Some(SignerMismatch);
      }
      var root := CurrentRoot();
      if !SameCommunity(root, d) {
        return Some(WrongCommunity);
      }
      var h := OfDeclaration(d);
      if FindDeclaration(log, h).Some? {
        return Some(AlreadyPresent);
      }
      if !Eligible(G, root, NextPin(log, now), d.author) {
        return Some(NotEligible);
      }
      var entry := Stamp(log, Declare(d), signer, now);
      var crossing := |log| + 1;
      log := log + [entry];
      log := log + [Stamp(log, Admitted(h, entry.at), G.station, now)];
      TryActivate(h, crossing, now);
      return None;
    }

    method AppendCosign(target: Hash, who: Address, signer: Address, now: int) returns (refusal: Option<Refusal>)
      modifies this`log
      ensures refusal.None? <==> Allowed(G, old(log), Support(target, who, signer), now)
      ensures refusal.Some? ==> log == old(log)
      ensures refusal.None? ==>
        IsPrefix(old(log) + [Entry(Cosign(target, who), signer, AdmissionInstant(old(log), now))], log) && |log| <= |old(log)| + 2
      ensures refusal == RefusalOf(G, old(log), Support(target, who, signer), now)
      ensures log == Step(G, old(log), Support(target, who, signer), now)
    {
      hide FindDeclaration, FindMotion, WithMarker, FounderCharter, Derive, Cosigned, Allowed;
      SupportAllowed(G, log, target, who, signer, now);
      if signer != who {
        return Some(SignerMismatch);
      }
      var root := CurrentRoot();
      var at := AdmissionInstant(log, now);
      var declared, motion := FindDeclaration(log, target), FindMotion(log, target);
      var pin;
      if declared.Some? {
        pin := NextPin(log, now);
      } else if motion.Some? {
        var active := ActiveEmergencyAt(at, Some(|log| + 1));
        if active.None? || active.value.hash != log[motion.value - 1].record.m.target {
          return Some(NotActive);
        }
        pin := PinAt(log, active.value.position, active.value.start);
      } else {
        return Some(UnknownTarget);
      }
      if !Eligible(G, root, pin, who) {
        return Some(NotEligible);
      }
      if Cosigned(log, target, who) {
        return Some(AlreadyCosigned);
      }
      if declared.Some? {
        var derived := DeriveEmergencies(G, root, log);
        match DeclarationStatus(derived, target, at) {
          case StatusActivated => return Some(AlreadyActivated);
          case StatusDead => return Some(DeclarationDead);
          case StatusExpired => return Some(DeclarationExpired);
          case StatusPending =>
        }
      }
      var crossing := |log| + 1;
      log := log + [Stamp(log, Cosign(target, who), signer, now)];
      if declared.Some? {
        TryActivate(target, crossing, now);
      }
      return None;
    }

    method AppendLapse(m: Motion, signer: Address, now: int) returns (refusal: Option<Refusal>)
      modifies this`log
      ensures refusal.None? <==> Allowed(G, old(log), Lift(m, signer), now)
      ensures refusal.Some? ==> log == old(log)
      ensures refusal.None? ==>
        log == old(log) + [Entry(Lapse(m), signer, AdmissionInstant(old(log), now))]
      ensures refusal == RefusalOf(G, old(log), Lift(m, signer), now)
      ensures log == Step(G, old(log), Lift(m, signer), now)
    {
      hide FindMotion, FounderCharter, Derive, Allowed;
      LiftAllowed(G, log, m, signer, now);
      if signer != m.author {
        return Some(SignerMismatch);
      }
      var active := ActiveEmergencyAt(AdmissionInstant(log, now), Some(|log| + 1));
      if active.None? || active.value.hash != m.target {
        return Some(NotActive);
      }
      var root := CurrentRoot();
      if !Eligible(G, root, PinAt(log, active.value.position, active.value.start), m.author) {
        return Some(NotEligible);
      }
      if FindMotion(log, OfMotion(m)).Some? {
        return Some(AlreadyPresent);
      }
      log := log + [Stamp(log, Lapse(m), signer, now)];
      return None;
    }

    /** Both charter doors: `pending` is the founding ceremony's, which takes under-signed charters. */
    method StoreCharter(charter: Charter, signers: set<Address>, pending: bool, now: int) returns (refusal: Option<Refusal>)
      modifies this`log
      ensures refusal.None? <==> Allowed(G, old(log), Publish(charter, signers, pending), now)
      ensures refusal.Some? ==> log == old(log)
      ensures refusal.None? ==>
        log == old(log) + [Entry(PublishCharter(charter, signers), G.station, AdmissionInstant(old(log), now))]
      ensures refusal == RefusalOf(G, old(log), Publish(charter, signers, pending), now)
      ensures log == Step(G, old(log), Publish(charter, signers, pending), now)
    {
      hide FounderAuthorized, Derive, Allowed;
      PublishAllowed(G, log, charter, signers, pending, now);
      if !pending && !FounderAuthorized(charter, signers) {
        return Some(BelowThreshold);
      }
      var founded := FindFounderCharter(log);
      if founded.Some? {
        var active := ActiveEmergencyAt(AdmissionInstant(log, now), None);
        if active.Some? {
          return Some(FrozenByEmergency);
        }
      }
      log := log + [Stamp(log, PublishCharter(charter, signers), G.station, now)];
      return None;
    }

    method AppendProposal(p: Proposal, signer: Address, rules: Rules, now: int) returns (refusal: Option<Refusal>)
      modifies this`log
      ensures refusal.None? <==> Allowed(G, old(log), Put(p, signer, rules), now)
      ensures refusal.Some? ==> log == old(log)
      ensures refusal.None? ==>
        |log| == |old(log)| + 2 && log[..|old(log)| + 1] == old(log) + [Entry(Propose(p), signer, AdmissionInstant(old(log), now))]
        && Windows(G, log[|old(log)| + 1], p) && log[|old(log)| + 1].record.openedAt == AdmissionInstant(old(log), now)
      ensures refusal == RefusalOf(G, old(log), Put(p, signer, rules), now)
      ensures log == Step(G, old(log), Put(p, signer, rules), now)
    {
      hide FounderCharter, Derive, Authorized, WindowFor, CompressedWindow, NextPin, Allowed;
      PutAllowed(G, log, p, signer, rules, now);
      if signer != p.author {
        return Some(SignerMismatch);
      }
      if !p.wellFormed {
        return Some(Malformed);
      }
      var root := CurrentRoot();
      var at := AdmissionInstant(log, now);
      if !Eligible(G, root, NextPin(log, now), p.author) {
        return Some(NotEligible);
      }
      var known := FindProposal(G, root, log, p);
      if known.Some? {
        return Some(AlreadyProposed);
      }
      var active := ActiveEmergencyAt(at, Some(|log| + 1));
      if p.kind.Amendment? && active.Some? {
        return Some(FrozenByEmergency);
      }
      if p.kind.EmergencyMeasure? {
        var limit := if active.Some? then active.value.expiry + MEASURE_GRACE
                     else WindowFor(rules, p.kind, at).0 + UNDECLARED_MEASURE_GRACE;
        if p.kind.expiresAt > limit {
          return Some(MeasureTooLong);
        }
      }
      var entry := Stamp(log, Propose(p), signer, now);
      log := log + [entry];
      log := log + [Stamp(log, AttestedWindow(p, rules, active, entry.at), G.station, now)];
      return None;
    }

    method AppendEndorsement(p: Proposal, who: Address, signer: Address, now: int) returns (refusal: Option<Refusal>)
      modifies this`log
      ensures refusal.None? <==> Allowed(G, old(log), Second(p, who, signer), now)
      ensures refusal.Some? ==> log == old(log)
      ensures refusal.None? ==>
        log == old(log) + [Entry(Endorse(p, who), signer, AdmissionInstant(old(log), now))]
      ensures refusal == RefusalOf(G, old(log), Second(p, who, signer), now)
      ensures log == Step(G, old(log), Second(p, who, signer), now)
    {
      hide FounderCharter, Authorized, Endorsers, EvidenceOf, Allowed;
      SecondAllowed(G, log, p, who, signer, now);
      if signer != who {
        return Some(SignerMismatch);
      }
      var root := CurrentRoot();
      var w := FindProposal(G, root, log, p);
      if w.None? {
        return Some(UnknownProposal);
      }
      if who == p.author {
        return Some(AuthorCannotEndorse);
      }
      if !Eligible(G, root, OpenPin(log, w.value), who) {
        return Some(NotEligible);
      }
      var endorsers := EndorsersOf(G, root, log, p, OpenPin(log, w.value));
      if who in endorsers {
        return Some(AlreadyEndorsed);
      }
      log := log + [Stamp(log, Endorse(p, who), signer, now)];
      return None;
    }

    method AppendVote(p: Proposal, who: Address, choice: Choice, signer: Address, now: int) returns (refusal: Option<Refusal>)
      modifies this`log
      ensures refusal.None? <==> Allowed(G, old(log), Cast(p, who, choice, signer), now)
      ensures refusal.Some? ==> log == old(log)
      ensures refusal.None? ==>
        log == old(log) + [Entry(Vote(p, who, choice), signer, AdmissionInstant(old(log), now))]
      ensures refusal == RefusalOf(G, old(log), Cast(p, who, choice, signer), now)
      ensures log == Step(G, old(log), Cast(p, who, choice, signer), now)
    {
      hide FounderCharter, Authorized, Endorsers, EvidenceOf, Votes, ElectoratePin, Allowed;
      CastAllowed(G, log, p, who, choice, signer, now);
      if signer != who {
        return Some(SignerMismatch);
      }
      var root := CurrentRoot();
      var w := FindProposal(G, root, log, p);
      if w.None? {
        return Some(UnknownProposal);
      }
      var pin := OpenPin(log, w.value);
      var endorsers := EndorsersOf(G, root, log, p, pin);
      if |endorsers| < G.st.endorsements(pin.evidence, root.founders, pin.at) {
        return Some(NotPublished);
      }
      if AdmissionInstant(log, now) > w.value.votingEndsAt {
        return Some(OutsideVotingWindow);
      }
      if !Eligible(G, root, ElectoratePin(G, root, log, p, w.value), who) {
        return Some(NotEligible);
      }
      var ballots := CollectVotes(G, root, log, p);
      if who in ballots {
        return Some(AlreadyVoted);
      }
      log := log + [Stamp(log, Vote(p, who, choice), signer, now)];
      return None;
    }

    method RecordImplementation(p: Proposal, now: int) returns (refusal: Option<Refusal>)
      modifies this`log
      ensures refusal.None? <==> Allowed(G, old(log), Enact(p), now)
      ensures refusal.Some? ==> log == old(log)
      ensures refusal.None? ==>
        log == old(log) + [Entry(Implemented(p, now), G.station, AdmissionInstant(old(log), now))]
      ensures refusal == RefusalOf(G, old(log), Enact(p), now)
      ensures log == Step(G, old(log), Enact(p), now)
    {
      hide FounderCharter, Authorized, EvidenceOf, Passed, EnactedBy, EffectiveCharter, Derive, Allowed;
      EnactAllowed(G, log, p, now);
      if EnactedBy(G, log, p, |log|) {
        return Some(AlreadyImplemented);
      }
      if p.kind.Amendment? {
        var active := ActiveEmergencyAt(AdmissionInstant(log, now), None);
        if active.Some? {
          return Some(FrozenByEmergency);
        }
      }
      var root := CurrentRoot();
      var charter := ResolveCharter(G, log);
      if charter.None? {
        return Some(NoCharter);
      }
      var w := FindProposal(G, root, log, p);
      if w.None? {
        return Some(UnknownProposal);
      }
      var passed := HasPassed(G, root, log, p, now, charter.value);
      if !passed {
        return Some(NotPassed);
      }
      if now < w.value.implementationAt {
        return Some(NotYetDue);
      }
      log := log + [Stamp(log, Implemented(p, now), G.station, now)];
      return None;
    }

    /** Records this module does not read are admitted at any time. */
    method AppendOther(tag: nat, signer: Address, now: int)
      modifies this`log
      ensures log == Step(G, old(log), Other(tag, signer), now)
    {
      log := log + [Stamp(log, Evidence(tag), signer, now)];
    }
  }
}
