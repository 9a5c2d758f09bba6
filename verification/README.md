# A model of the station's governance, disputes and carriage

RRN is a community ledger kept by one station. Everything a community decides is re-derived from one
append-only log whose admission clock never goes backwards: front doors judge a record once, when it
arrives, and every reader judges the log again from scratch. The hard facts about such a design are that
doors and readers agree, and that what has been derived never changes once it is final. This project
models that code in Dafny and proves those facts, over every run of the doors.

## The parts

- **Emergencies and the constitution.** `GovLog` is the log of governance and the founder root.
  `EmergencyTimeline` replays it into the emergencies that took force, `Crossing` says what a threshold
  crossing means, and `EmergencyChain` holds the renewal caps and the duty cycle. `Proposals` and
  `CharterFold` tally votes and fold enacted amendments. `FrontDoors` is the station: a class whose methods
  admit or refuse each kind of record. `EmergencyAgreement` and `EmergencyRuns` prove that gates and replay
  agree over whole runs, `EmergencyActivation` that enough support decides a declaration; `EmergencyMeaning`
  says what an emergency in force and its lift mean in the charter's numbers and the log's own entries, and
  `Passage` what it takes to pass and to reach the effective charter. `Freeze` and `FrozenCharter` prove that
  the constitution is frozen under an emergency; `Enactment` says when an enacted amendment takes effect.
  `RootlessEmergency` and `ZeroDelay` are worked runs of the exceptions.
- **Disputes.** `Sortition` draws a jury by weight from the pool of `JuryPool`. `Panel` seats it and redraws
  around silent jurors; `PanelLockIn` proves what a later reading cannot change. `Docket` and `Resolution`
  are the log and the decision of one dispute, `DisputeDesk` its front doors, `DisputeFinality` the main
  results. `ResolutionMeaning` says what each resolution means in votes, windows and ties;
  `SteppedBackDispute` is a worked run of the limit of finality (its one-member jury is `OneMember`).
- **Equivocation.** `Equivocation` derives rounds, each depending on the outcome of the one before;
  `EquivocationRulings` is the terminal write that resumes after a partial pass. `RoundJury` says who may sit,
  `RoundMeaning` what rounds and readings mean, `RoundHistory` how rounds change as the log grows,
  `PanelVacancies` what unanswered seats are worth, and `LateBallots` what can still become of a lapsed round.
- **Carriage.** `DepthGuard` is the scan that bounds nesting before a recursive decoder runs and `CborDepth`
  what it says of encoded data items, `Wallet` the member wallet's re-anchoring, `Civil` date arithmetic,
  `Paper` the stored-DEFLATE and PNG writer.
- `Basics` and `Sorting` are shared vocabulary.

Code that changes state is modelled as classes and loops and proved against functions; the laws are lemmas
about those functions. Addresses are numbers in key-byte order. Hashing is injective, so a content address
is modelled by its content. A record's signature is the `signer` of its entry. The station's key is a
parameter, as are the draw's pseudo-random residues.

Standing (who is eligible, how many are, how much weight a candidate has, how many endorsements publish a
proposal) is scored by code outside this model. It enters as arbitrary functions of the evidence admitted up
to a position, the founders, and an instant; the station's emergency markers are not evidence.

## Where the code and what is said of it differ

The model follows the code. For each difference a member shows the input at which what is said fails, and
another the exact condition under which it holds.

- The charter freeze is said to be safe before a root exists because a declaration needs a charter. The
  declaration door asks for none, so a rootless community can be under an emergency while its first charter
  is admitted: `RootlessEmergency.RootlessNotFrozen`, and `Freeze.CharterDoorFrozenIff` for the condition.
- No charter is said to slip past the freeze when the clock steps back. In the second of activation itself
  one does: `RootlessEmergency.SameSecondNotFrozen`, with `Freeze.CharterDoorFrozenExactly` and
  `Freeze.SteppedBackClock` for the condition.
- An enacted amendment is said to supersede the charter it amends. The fold counts it as of its due date,
  and a count concludes only strictly after voting ends, so with a charter whose implementation delay is
  zero days an amendment is recorded as enacted and never takes effect: `ZeroDelay.EnactedWithoutEffect`,
  with `Enactment.EnactmentTakesEffectIff`, `Enactment.AttestedDelayIff` and `Enactment.WithoutDelayNever`.
- The equivocation ballot door is said to refuse ballots outside the round's window. It asks only for an
  unanswered seat: `LateBallots.LateBallotOverturns`, with `LateBallots.LapsedCanDecideIff`.
- A wallet sync is said to find matching hashes when the station is at or behind the local head. Hashes are
  compared only at equal positions, an answer with a position and no hash stops the sync without blocking a
  fresh wallet, and a later answer lower than an earlier one lifts a block: `Wallet.HashlessAnswer` with
  `Wallet.AboveTheAnswerIff`, and `Wallet.LaggingReplica` with `Wallet.AlwaysAboveIff`.
- A typed date is checked against 31 days whatever its month: `Civil.ThirtiethOfFebruary`, with
  `Civil.ReadsBackIff`.
- A PNG chunk's length field keeps the low 32 bits: `Paper.TooLarge`, with `Paper.PngRoundTripIff`.

## Model

| member | source | states |
|---|---|---|
| EmergencyRuns.GateReplayAgreement | crates/rrn-governance/src/emergency.rs:966-1196 | over every run of front-door steps judged by one founder root, every activation or refusal marker the station wrote is believed by the replay, with the instants, expiry and renewal count it states, and no declaration has two markers |
| EmergencyMeaning.InForceMeans | crates/rrn-governance/src/emergency.rs:966-1196 | what replay believes, in the charter’s and the log’s own terms: on every log whose records are in place, as every run’s are, an emergency in force was declared for this community, carried at its activation by two-thirds of the electorate pinned there (or the share a stricter charter asks for), anchored at most seven days before, and runs from its own instant for the lifetime asked, within a day and seven |
| EmergencyMeaning.LiftedMeans | crates/rrn-governance/src/emergency.rs:1198-1276 | it is lifted exactly at the first position by which the same electorate, by the same bar, had signed motions to lift it |
| EmergencyMeaning.DecidedIffCarried | crates/rrn-governance/src/emergency.rs:611-635 | over every run from a founding log under one charter, with a fixed electorate of n, a declaration is decided if and only if its signers are at least two-thirds of n, or the share a stricter charter asks for |
| EmergencyMeaning.RenewalsMean | crates/rrn-governance/src/emergency.rs:898-919 | an emergency’s renewal count is how many precede it in its chain, at most two or what a stricter charter allows |
| EmergencyMeaning.DeadMeans | crates/rrn-governance/src/emergency.rs:1074-1104 | a dead declaration was carried too, and refused only because it would have broken a cap |
| EmergencyMeaning.ExpiredMeans | crates/rrn-governance/src/emergency.rs:1328-1347 | an undecided declaration is expired exactly when its first anchor is more than seven days old |
| EmergencyMeaning.PinMeaning | crates/rrn-governance/src/emergency.rs:802-856 | standing pinned at a position sees exactly the entries before it but the station’s markers |
| EmergencyMeaning.RaiseMeans | crates/rrn-governance/src/emergency.rs:1593-1659 | an admitted declaration is new, for this community, and its author’s own, eligible there and then |
| EmergencyMeaning.SupportMeans | crates/rrn-governance/src/emergency.rs:1667-1765 | an admitted co-signature is its member’s first, on an undecided declaration at most seven days past its anchor, or on a motion against the emergency covering that moment and by its electorate |
| EmergencyMeaning.LiftMeans | crates/rrn-governance/src/emergency.rs:1774-1811 | an admitted motion is new, against the emergency covering that moment, by its electorate |
| EmergencyRuns.FoundedAgreement | crates/rrn-governance/src/emergency.rs:966-1196 | in particular from any log of charters and other evidence: such a log agrees under every root |
| EmergencyActivation.DecidedIffSupported | crates/rrn-governance/src/emergency.rs:1861-1971 | the converse for a standing electorate: over every run by one root, if later evidence and time change neither who is eligible nor the threshold, a declaration is decided (took force or was refused) if and only if the supporters on the log, whom the door takes only inside its time to live, reach the threshold |
| EmergencyActivation.StepSettles | crates/rrn-governance/src/emergency.rs:1593-1765 | and no step of any door leaves a sufficiently supported declaration undecided |
| EmergencyActivation.FoundingSettled | crates/rrn-governance/src/emergency.rs:966-1196 | a log of charters and other evidence starts such a run |
| EmergencyRuns.StepFaithful | crates/rrn-governance/src/emergency.rs:1593-1811 | each single step of each door keeps that agreement |
| EmergencyRuns.MarkerStands | crates/rrn-governance/src/emergency.rs:1861-1971 | the marker `try_activate` writes passes every check the replay makes of it at its own position: declaration, community, anchor, time to live, crossing, expiry, caps |
| EmergencyRuns.CrossingAtMarker | crates/rrn-governance/src/emergency.rs:1014-1039 | the supermajority the gate counted at the next position is the one the replay counts at the marker, since markers are not evidence |
| EmergencyRuns.DecisionsStand | crates/rrn-governance/src/emergency.rs:1067-1190 | a declaration took force if and only if the station activated it, is dead if and only if the station refused it, and never both |
| EmergencyRuns.RunKeeps | crates/rrn-governance/src/emergency.rs:966-1196 | over every run, deriving again keeps every timeline entry, refusal and anchor; a lapse may go once from absent to a position past the shorter log |
| EmergencyAgreement.DerivationKeeps | crates/rrn-governance/src/emergency.rs:966-1196 | the same for any extension at all of a log whose records are in place |
| EmergencyAgreement.LapseExtends | crates/rrn-governance/src/emergency.rs:1214-1276 | a lift that crossed stays where it crossed on every longer log, and one that had not may cross only later |
| EmergencyRuns.StatusFinal | crates/rrn-governance/src/emergency.rs:1328-1347 | an activated or dead declaration has that status at every later probe of every run: dead declarations never revive |
| EmergencyRuns.DeriveDecides | crates/rrn-governance/src/emergency.rs:1059-1190 | every derived emergency stands on a station marker of its own, positions increase, no declaration is decided twice |
| EmergencyRuns.OtherRootForgets | crates/rrn-governance/src/emergency.rs:973-989 | why the root is held fixed: under a root of another community the same log derives no emergency and no refusal |
| EmergencyTimeline.DeriveEmergencies | crates/rrn-governance/src/emergency.rs:966-1196 | the one-pass replay with its running chain, decided set and anchors computes the recursive derivation |
| EmergencyTimeline.EligibleSignatures | crates/rrn-governance/src/emergency.rs:802-847 | the signature scan with its seen-set and final sort is the first-eligible list of the prefix |
| EmergencyTimeline.LapseBoundaryOf | crates/rrn-governance/src/emergency.rs:1214-1276 | collecting motions and co-signatures in two passes and sorting gives the candidates in log order |
| Crossing.DeclarationCrosses | crates/rrn-governance/src/emergency.rs:802-856 | a declaration crosses at the first position by which as many distinct eligible members as the threshold were behind it, and does not cross if there is none |
| Crossing.LapseCrosses | crates/rrn-governance/src/emergency.rs:1198-1276 | a lift crosses at the first position by which that many distinct eligible members had signed any motion to lift, however split over motions |
| Crossing.SignaturesMeaning | crates/rrn-governance/src/emergency.rs:802-847 | the signature list holds each eligible backer once, in log order, the author at the declaration |
| EmergencyTimeline.ActiveAt | crates/rrn-governance/src/emergency.rs:1285-1294 | an emergency is reported exactly when one governs the record, and it is the earliest of the timeline that does |
| EmergencyChain.FoldChain | crates/rrn-governance/src/emergency.rs:869-893 | the loop over activations folds the chain the last one belongs to |
| EmergencyChain.FoldMeaning | crates/rrn-governance/src/emergency.rs:862-893 | the folded state is the number of renewals since the chain began and their summed length, and the chain began past its predecessor’s cooldown |
| EmergencyChain.FoldEnd | crates/rrn-governance/src/emergency.rs:876-882 | the chain ends at the latest of its ends, which never moves back |
| EmergencyChain.ChainHeadMeans | crates/rrn-governance/src/emergency.rs:869-893 | a chain is a run of activations each within 14 days of an earlier end of it, and starts at least 14 days past every end of the one before |
| EmergencyChain.DecisionMeans | crates/rrn-governance/src/emergency.rs:898-919 | a new activation is refused exactly when it would pass the renewal cap or 14 days of activity in its chain, and otherwise takes as its count how many precede it there |
| EmergencyChain.ChainCaps | crates/rrn-governance/src/emergency.rs:898-919 | in every accepted timeline a chain has at most the renewal cap plus one activations and 14 days of summed activity |
| EmergencyChain.DutyCycle | crates/rrn-governance/src/emergency.rs:869-919 | when a new chain starts, the seconds covered by some activation since the first are at most half the elapsed time |
| EmergencyChain.CoveredMeaning | crates/rrn-governance/src/emergency.rs:869-893 | a second is covered exactly when it lies in some activation |
| EmergencyChain.ClampDuration | crates/rrn-governance/src/emergency.rs:923-925 | a requested lifetime inside the limits is granted as asked, and one outside is moved to the nearer limit |
| EmergencyRuns.SpansAccepted | crates/rrn-governance/src/emergency.rs:1118-1190 | on every log whose records are in place the derived activations are nondecreasing, of clamped length, and each admitted by the caps |
| EmergencyRuns.RunCaps | crates/rrn-governance/src/emergency.rs:898-919 | over every run from the empty log, every chain keeps the renewal cap and the 14 days |
| EmergencyRuns.RunDutyCycle | crates/rrn-governance/src/emergency.rs:869-919 | over every run from the empty log, the duty cycle is at most one half whenever a new chain starts |
| EmergencyRuns.StepPlaced | crates/rrn-governance/src/emergency.rs:1593-1971 | whatever becomes of the root, every step keeps the clock monotone, co-signatures after their targets, and decisions after their declarations with their own admission instant |
| FrontDoors.Station.TryActivate | crates/rrn-governance/src/emergency.rs:1861-1971 | writes the marker of the first crossing, or nothing: decided, unknown, crossed elsewhere, unanchored and expired declarations stay silent |
| FrontDoors.Station.AppendDeclaration | crates/rrn-governance/src/emergency.rs:1593-1659 | admits exactly a new declaration of this community by an eligible author; writes declaration, anchor and any marker in one step |
| FrontDoors.Station.AppendCosign | crates/rrn-governance/src/emergency.rs:1667-1765 | admits exactly a first co-signature by a member of the target’s pin, on a pending declaration or a lapse of the emergency in force; writes it and any marker |
| FrontDoors.Station.AppendLapse | crates/rrn-governance/src/emergency.rs:1774-1811 | admits exactly a new motion against the emergency in force by a member of its pinned electorate, and writes it alone |
| Proposals.MeasureMatchesDeclaration | crates/rrn-governance/src/emergency.rs:611-660 | with all voting, the yes votes that carry an emergency measure are exactly the signatures that declare the emergency |
| Proposals.NeverBelowTwoThirds | crates/rrn-governance/src/emergency.rs:611-635 | no charter lowers the declaration bar below two-thirds, and raising the percentage never lowers it |
| GovLog.PinIgnoresMarker | crates/rrn-governance/src/emergency.rs:1861-1971 | standing pinned at the position of the marker about to be written is what a replay sees there |
| FrozenCharter.ConstitutionFrozen | crates/rrn-governance/src/tally.rs:127-172 | starting from settled enacted amendments, no run of steps admitted after an activation, up to its expiry and before its lapse, changes the effective charter |
| FrozenCharter.RootFrozen | crates/rrn-governance/src/charter.rs:472-494 | from any log with a root, no such run changes the founder root or the set of enacted amendments |
| Freeze.DoorsFrozen | crates/rrn-governance/src/charter.rs:472-494 | while an emergency holds and a root exists, both charter doors, amendment proposals and amendment enactments are refused |
| Freeze.CharterDoorFrozenIff | crates/rrn-governance/src/charter.rs:449-494 | an authorized charter is refused under an emergency if and only if a root exists |
| RootlessEmergency.RootlessNotFrozen | crates/rrn-governance/src/charter.rs:461-464 | a run that shows the freeze needs a root: one declaration on the empty log takes force, and then any charter with enough founder signatures is admitted during it and becomes the root |
| RootlessEmergency.SameSecondNotFrozen | crates/rrn-governance/src/charter.rs:461-494 | a run with a root: in the very second an emergency takes force the next founder charter is admitted and replaces the root; one second later it is refused |
| Freeze.CharterDoorFrozenExactly | crates/rrn-governance/src/charter.rs:472-494 | with a root, an authorized charter is refused if and only if an unlifted emergency covers the instant it would be stamped with, strictly after the activation and up to the expiry |
| Freeze.SteppedBackClock | crates/rrn-governance/src/charter.rs:466-469 | a clock that steps back cannot be stamped before an activation on the log, so an unexpired emergency covers the stamp unless it is the very second of activation |
| Freeze.FrozenStep | crates/rrn-governance/src/statute.rs:139-151 | one step under an emergency leaves root and enacted amendments as they were |
| Freeze.StepWrites | crates/rrn-governance/src/proposal.rs:732-757 | a step only extends the log, writes nothing when refused, and writes only the records of its own act |
| FrozenCharter.CountStays | crates/rrn-governance/src/tally.rs:190-270 | a published amendment with no further ballot counts the same against every charter on every longer log |
| FrozenCharter.BallotsClosed | crates/rrn-governance/src/vote.rs:232-241 | once the log is past the window attested for a proposal of any kind, no step adds a ballot to it, under any root |
| FrozenCharter.NoMoreBallots | crates/rrn-governance/src/vote.rs:232-241 | and no run does, whatever becomes of the root |
| FrozenCharter.EnactmentSettles | crates/rrn-governance/src/statute.rs:152-162 | the enactment door admits only amendments that are published with their voting over |
| FrozenCharter.RunSettled | crates/rrn-governance/src/statute.rs:125-168 | over every run judged by one root, every enacted amendment stays so settled |
| FrozenCharter.EnactedAmendmentFolds | crates/rrn-governance/src/tally.rs:154-161 | an admitted enactment linked to the charter in force folds onto it if and only if its window left a delay between the end of voting and the due date |
| Enactment.EnactmentTakesEffectIff | crates/rrn-governance/src/tally.rs:127-172 | on a log whose enacted amendments are settled, such an enactment raises the effective charter if and only if the window left a delay; without one the effective charter is the one it was |
| Enactment.WithoutDelayNever | crates/rrn-governance/src/tally.rs:154-161 | and without a delay the effective charter of every longer log, under every root, is reached without that amendment |
| Enactment.AttestedDelayIff | crates/rrn-governance/src/window.rs:49-72 | the window attested for an amendment leaves a delay if and only if the charter it is put under has an implementation delay of at least a day |
| ZeroDelay.EnactedWithoutEffect | crates/rrn-governance/src/tally.rs:127-172 | a run at the failing input: founder charter with no delay, amendment, vote and enactment are each admitted, and the effective charter stays the founder charter |
| CharterFold.EffectiveCharterMeaning | crates/rrn-governance/src/tally.rs:127-172 | the effective charter is the end of a chain from the founder root of enacted amendments, each one version up, linked and passing against its predecessor, and no further one applies |
| Passage.EffectiveCharterEarned | crates/rrn-governance/src/tally.rs:127-172 | and each step of that chain was published, enacted by the station, voted on before it fell due, and met the amendment bars of the charter it replaced |
| CharterFold.ResolveCharter | crates/rrn-governance/src/tally.rs:127-172 | the restart-on-advance loop terminates and computes that fold |
| CharterFold.AllProposals | crates/rrn-governance/src/proposal.rs:595-641 | the scan lists each authorized proposal once, in log order |
| CharterFold.ProposalsToMeaning | crates/rrn-governance/src/proposal.rs:595-641 | a proposal is listed exactly when it was put and is authorized, and only once |
| GovLog.FounderCharterMeaning | crates/rrn-governance/src/charter.rs:555-576 | the root is an authorized charter of the log, none is of a higher version, none of its version is later |
| GovLog.FindFounderCharter | crates/rrn-governance/src/charter.rs:555-576 | the scan keeping a best entry finds it |
| GovLog.RootOf | crates/rrn-governance/src/charter.rs:139-169 | a charter can only raise the declaration bar and lower the renewal cap, and a stricter charter’s own numbers, its community and its founders are kept |
| GovLog.ThreeQuarters | crates/rrn-governance/src/charter.rs:317-321 | a charter is authorized exactly when three quarters of its declared founders signed, each counted once |
| FrontDoors.Station.StoreCharter | crates/rrn-governance/src/charter.rs:472-605 | both doors: admits exactly a charter with enough founder signatures (or a pending one) on a rootless log or outside every emergency, and writes it alone |
| Passage.PublishMeans | crates/rrn-governance/src/charter.rs:472-605 | admission as an if-and-only-if: three quarters of the founders (or pending), and no root or no covering emergency |
| FrontDoors.AllowedIff | crates/rrn-governance/src/emergency.rs:1593-1811 | for every act, none of the ordered refusals applies if and only if the act meets the conditions of its door, stated by what the log holds |
| FrontDoors.Station.AppendProposal | crates/rrn-governance/src/proposal.rs:653-757 | admits exactly a new well-formed proposal of an eligible author, no amendment under an emergency, no measure past its cap; writes it and its window |
| FrontDoors.AttestedMeans | crates/rrn-governance/src/window.rs:49-72 | the attested window in days and seconds of the charter, kind by kind, with the bounds on an emergency window |
| FrontDoors.LimitMeans | crates/rrn-governance/src/proposal.rs:711-729 | the latest a measure may expire: seven days past its emergency, or thirty past its own vote |
| Passage.PutMeans | crates/rrn-governance/src/proposal.rs:653-757 | an admitted proposal is its eligible author’s own, new, no amendment under an emergency, and a measure that expires in time |
| FrontDoors.Station.AppendEndorsement | crates/rrn-governance/src/proposal.rs:766-811 | admits exactly a first endorsement by an eligible member other than the author, and writes it alone |
| FrontDoors.Station.AppendVote | crates/rrn-governance/src/vote.rs:203-276 | admits exactly a first ballot on a published proposal inside its window by a member of its pinned electorate, and writes it alone |
| Passage.CastMeans | crates/rrn-governance/src/vote.rs:203-276 | an admitted ballot is a first one, on a published proposal while its vote is open, by the electorate where it opened |
| FrontDoors.Station.RecordImplementation | crates/rrn-governance/src/statute.rs:125-168 | admits exactly the first enactment of a proposal that has passed and is due, no amendment under an emergency, and writes it alone |
| Passage.EnactMeans | crates/rrn-governance/src/statute.rs:125-168 | an amendment is enacted once, under no emergency, when it is due and its ballots met the amendment bars of the charter in force |
| Proposals.FindProposal | crates/rrn-governance/src/proposal.rs:472-525 | the scan returns the opening of an authorized proposal, or nothing |
| Proposals.CollectVotes | crates/rrn-governance/src/vote.rs:127-195 | the scan keeps each eligible voter’s first ballot after the opening |
| Proposals.Count | crates/rrn-governance/src/tally.rs:218-225 | the counters are the numbers of voters per choice, whatever the order visited |
| Proposals.HasPassed | crates/rrn-governance/src/tally.rs:190-270 | voting over, quorum met and approval met, in integers, with the bars of the kind |
| Passage.AmendmentPasses | crates/rrn-governance/src/tally.rs:190-290 | an amendment passes exactly when it is authorized and published, its vote is over, and the first ballots of the electorate where it opened meet the charter’s amendment quorum and approval |
| Passage.StatutePasses | crates/rrn-governance/src/tally.rs:190-290 | a statute likewise, by the statute quorum and approval |
| Passage.MeasurePasses | crates/rrn-governance/src/tally.rs:190-310 | an emergency measure is counted in the activation’s electorate and needs half of it (or a stricter charter’s share) to take part, outside an emergency the statute quorum; either way two-thirds of those who decide, or a stricter charter’s share |
| Passage.AuthorizedMeans | crates/rrn-governance/src/proposal.rs:472-525 | a record is authorized exactly when well formed, put by its author, windowed first by the station, and its author was eligible where that window opened |
| Passage.PublishedMeans | crates/rrn-governance/src/proposal.rs:536-585 | it is published exactly when as many eligible members other than its author endorsed it as standing asks for |
| DisputeFinality.DisputeFinal | crates/rrn-dispute/src/resolution.rs:309-363 | a terminal resolution read strictly after its governing deadline is the resolution at every later instant on every longer log of the gates whose further entries are admitted no earlier than the reading |
| DisputeFinality.DecideTerminates | crates/rrn-dispute/src/resolution.rs:340-363 | strictly past the main window every dispute has a terminal resolution |
| ResolutionMeaning.EscalationMeans | crates/rrn-dispute/src/escalation.rs:294-350 | which way a vote decides: pending until its close, then upheld exactly when turnout meets the quorum and the upholders the approval, rejected when only the quorum is met, lapsed when it is not; the voters counted by their first ballot inside the window |
| ResolutionMeaning.GoverningMeans | crates/rrn-dispute/src/resolution.rs:415-443 | an escalation governs exactly when it is the dispute’s first, a party’s, and admitted in time: as an appeal from the ruling on inside both windows, for want of jurors while the pool is at most half a panel |
| ResolutionMeaning.JuryMeans | crates/rrn-dispute/src/resolution.rs:340-363 | with none governing, a majority of the panel decides once its appeal window or the dispute’s is over; without one the dispute lapses at its close and is pending before |
| ResolutionMeaning.VerdictsDecide | crates/rrn-dispute/src/resolution.rs:340-363 | past the close that majority is of the jurors whose first verdict was admitted |
| ResolutionMeaning.EnactedMeans | crates/rrn-dispute/src/resolution.rs:270-290 | enacting voids the transfer exactly when jury or vote upheld the dispute, and leaves it disputed exactly while nothing is terminal |
| DisputeFinality.FinalPastMainWindow | crates/rrn-dispute/src/resolution.rs:309-363 | and strictly past the main window the resolution is terminal, so final in that sense |
| DisputeFinality.FinalOnceStamped | crates/rrn-dispute/src/resolution.rs:309-363 | and once an entry stamped past the main window is on the log, it is final on every longer log of the gates, whatever the clock does |
| SteppedBackDispute.ClockSteppedBack | crates/rrn-dispute/src/resolution.rs:83-145 | why a reading ahead of the log is not: read as lapsed at 11, a verdict admitted at 5 after the clock steps back, and the dispute reads as upheld |
| DisputeFinality.AdmittedVerdictCounts | crates/rrn-dispute/src/resolution.rs:83-145 | a verdict the gate admits is credited in its juror’s seat by the panel derived at every later time, whatever is admitted after |
| DisputeFinality.TallyCountsAdmitted | crates/rrn-dispute/src/panel.rs:182-201 | once every admitted verdict’s instant has passed, the votes seated are exactly the verdicts admitted |
| DisputeFinality.AdmittedEscalationGoverns | crates/rrn-dispute/src/resolution.rs:158-207 | an escalation the gate admits is applicable at every later decision |
| DisputeFinality.AdmittedBallotCounts | crates/rrn-dispute/src/resolution.rs:221-261 | a ballot the gate admits is credited on its side at every tally once the window closes |
| DisputeFinality.EscalationTallyFinal | crates/rrn-dispute/src/escalation.rs:294-334 | ballots admitted after the close change no count |
| DisputeFinality.JuryFinal | crates/rrn-dispute/src/resolution.rs:381-409 | a jury ruling once reached, and its instant, are the same in every later reading |
| DisputeFinality.NoLateEscalation | crates/rrn-dispute/src/resolution.rs:415-443 | after a ruling’s appeal deadline no escalation can start to govern |
| DisputeFinality.HungStaysHung | crates/rrn-dispute/src/resolution.rs:100-118 | past the main window a hung jury stays hung |
| DisputeFinality.JuryPinned | crates/rrn-dispute/src/sortition.rs:84-121 | logs that agree up to the dispute’s position give the same pool and seating order |
| DisputeFinality.JuryRecuses | crates/rrn-dispute/src/sortition.rs:236-302 | no party is ever in the pool, and a party’s voucher or vouchee only when the strict pool cannot fill a panel |
| ResolutionMeaning.SeatsMean | crates/rrn-dispute/src/sortition.rs:236-302 | no seat is a party’s, and one is held by a member who vouched for either party, or whom either vouched for, only when the members free of such ties are fewer than a panel |
| Resolution.CountEscalation | crates/rrn-dispute/src/escalation.rs:294-334 | the count over an unordered map is by sets of credited voters, so order cannot matter |
| Resolution.EscalationOf | crates/rrn-dispute/src/escalation.rs:193-208 | the first escalation of the transaction in log order |
| DisputeDesk.Desk.AppendVerdict | crates/rrn-dispute/src/resolution.rs:83-145 | admits exactly the genuine verdict of a juror with a live seat while the dispute is open, and says what is written |
| ResolutionMeaning.VerdictMeans | crates/rrn-dispute/src/resolution.rs:83-145 | an admitted verdict is a first one, in time, by a member of the pinned electorate who is no party |
| DisputeDesk.Desk.OpenEscalation | crates/rrn-dispute/src/resolution.rs:158-207 | admits exactly a party’s first applicable escalation |
| ResolutionMeaning.EscalationDoorMeans | crates/rrn-dispute/src/resolution.rs:158-207 | an admitted escalation is the first, a party’s, and its reason holds of the jury as of its admission |
| DisputeDesk.Desk.AppendEscalationBallot | crates/rrn-dispute/src/resolution.rs:221-261 | admits exactly an unspent ballot of the pinned electorate inside the window |
| ResolutionMeaning.BallotDoorMeans | crates/rrn-dispute/src/resolution.rs:221-261 | an admitted ballot is an entitled member’s first, inside the vote’s window |
| DisputeDesk.Desk.Resolve | crates/rrn-dispute/src/resolution.rs:270-290 | enacts the recomputed resolution: voided exactly when jury or vote upheld, still disputed exactly while nothing is terminal, and nothing once the dispute has left its disputed state |
| DisputeDesk.Desk.DecideNow | crates/rrn-dispute/src/resolution.rs:309-363 | the branching decision computes the decision function |
| Docket.BallotMeaning | crates/rrn-dispute/src/verdict.rs:98-121 | a caster’s ballot is the one in their first entry, stamped with its admission instant |
| Docket.CollectBallots | crates/rrn-dispute/src/verdict.rs:98-121 | the scan inserting into a map computes the first ballots |
| Docket.AdmissionInstant | crates/rrn-dispute/src/lib.rs:230-234 | never before the clock reading nor before anything admitted |
| Panel.ResolvePanel | crates/rrn-dispute/src/panel.rs:69-149 | the seat-and-redraw fixpoint loop terminates and computes the settled seats |
| Panel.PanelRefinesGenerations | crates/rrn-dispute/src/panel.rs:69-149 | the fixpoint seats exactly the panel built generation by generation |
| Panel.PassBurnsFuel | crates/rrn-dispute/src/panel.rs:104-144 | every pass that changes anything uses up an unused candidate or an unanswered seat |
| PanelLockIn.PanelShape | crates/rrn-dispute/src/panel.rs:104-144 | all unanswered seats share one seating instant, and every answered seat holds a ballot admitted inside its window |
| PanelLockIn.SeatMeans | crates/rrn-dispute/src/panel.rs:95-144 | a seat in plain terms: answered by a ballot admitted inside its juror’s window and by the reading, or still inside that window and without one |
| PanelLockIn.SeatInstants | crates/rrn-dispute/src/panel.rs:118-140 | every seat was taken a whole number of response windows after the opening |
| PanelLockIn.NoJurorSeatedTwice | crates/rrn-dispute/src/panel.rs:69-149 | no juror occupies two seats |
| PanelLockIn.PanelSize | crates/rrn-dispute/src/panel.rs:69-149 | the panel is never larger than its size or its pool |
| PanelLockIn.TallyLockIn | crates/rrn-dispute/src/panel.rs:182-201 | a reached tally is the same at every later time and under every later admission |
| PanelLockIn.RulingInstantLockIn | crates/rrn-dispute/src/panel.rs:156-174 | and so is the instant it was reached |
| PanelLockIn.RulingHasInstant | crates/rrn-dispute/src/panel.rs:156-174 | a terminal tally has a ruling instant, no later than the reading |
| Panel.RulingTimeMeaning | crates/rrn-dispute/src/panel.rs:156-174 | the sort-and-index computation finds the first instant by which a majority of concurring verdicts had been admitted |
| Panel.RulingReachedAt | crates/rrn-dispute/src/panel.rs:156-174 | the in-place sort and index compute it |
| PanelLockIn.AdmittedVerdictCredited | crates/rrn-dispute/src/panel.rs:95-144 | a verdict from a live seat is credited there by every later panel |
| PanelLockIn.SeatLookup | crates/rrn-dispute/src/panel.rs:41-43 | looking up a juror finds an unanswered seat exactly when there is one |
| Sortition.DrawSequence | crates/rrn-dispute/src/sortition.rs:312-341 | the loop removing drawn candidates computes the seating order |
| Sortition.DrawPermutes | crates/rrn-dispute/src/sortition.rs:312-341 | the seating order is a permutation of the pool |
| Sortition.DrawIgnoresAssembly | crates/rrn-dispute/src/sortition.rs:313-318 | with distinct keys it does not depend on the pool’s initial order |
| Sortition.DrawIsProportional | crates/rrn-dispute/src/sortition.rs:319-341 | at each round exactly w of the residues select a candidate of weight w |
| Sortition.DrawMeans | crates/rrn-dispute/src/sortition.rs:312-341 | round by round, of those not drawn before and in key order, the one whose stretch of the summed weights holds that round’s own number reduced by their total |
| Sortition.DrawDistinct | crates/rrn-dispute/src/sortition.rs:312-341 | no key is drawn twice |
| JuryPool.EligiblePoolExcluding | crates/rrn-dispute/src/sortition.rs:260-302 | the two-tier scan computes the pool |
| JuryPool.PoolRecuses | crates/rrn-dispute/src/sortition.rs:236-302 | hard recusal is absolute; soft recusal yields only when the strict pool is smaller than a panel |
| JuryPool.PoolHolds | crates/rrn-dispute/src/sortition.rs:236-302 | as an if-and-only-if: everybody else of the electorate is in the pool |
| JuryPool.WeighMeans | crates/rrn-dispute/src/sortition.rs:260-302 | a tier is the electorate in order without the excluded, each with the weight the pinned evidence gives, at least one |
| JuryPool.ElectorateMeans | crates/rrn-dispute/src/sortition.rs:260-302 | the electorate pinned at a position and an instant is scored from the entries before it but requests for a fresh round |
| JuryPool.PoolPinned | crates/rrn-dispute/src/sortition.rs:260-302 | everything the pool reads lies at or before the pinned position |
| JuryPool.RecusalPinned | crates/rrn-dispute/src/sortition.rs:142-188 | vouchers and vouchees up to a position do not see later entries |
| JuryPool.VouchersOfUntil | crates/rrn-dispute/src/sortition.rs:142-161 | the scan collects exactly the vouchers of the prefix |
| JuryPool.VoucheesOfUntil | crates/rrn-dispute/src/sortition.rs:168-188 | the scan collects exactly the vouchees of the prefix |
| Equivocation.RoundsFollow | crates/rrn-dispute/src/equivocation.rs:430-509 | rounds have consecutive indices and increasing anchors, and each opens only after its predecessor’s window closed with no majority |
| RoundMeaning.RoundsMean | crates/rrn-dispute/src/equivocation.rs:430-509 | each stands on a self-signed request for it, by another member of the electorate at that entry, made once the round before had closed with neither side past half a panel |
| RoundJury.RoundSeatsMean | crates/rrn-dispute/src/equivocation.rs:269-277 | no seat of any round is held by the accused or an injured payee, and one by a member tied to the accused by a vouch only when the impartial members are fewer than a panel |
| RoundJury.RoundPoolMeans | crates/rrn-dispute/src/equivocation.rs:533-562 | the pool as an if-and-only-if of those conditions |
| RoundMeaning.ReadingMeans | crates/rrn-dispute/src/equivocation.rs:655-686 | until a ruling is recorded the case is overturned or confirmed exactly when more than half a panel say so, lapsed otherwise once the round’s window is over, pending before |
| RoundMeaning.RoundBallotsMean | crates/rrn-dispute/src/equivocation.rs:600-632 | a round reads each juror’s first self-signed ballot naming it, with its admission instant |
| RoundMeaning.PassMeans | crates/rrn-dispute/src/equivocation.rs:695-728 | a pass writes only the station’s rulings, saying what the case read as, on attached records that had none |
| Equivocation.RoundsOnlyAppend | crates/rrn-dispute/src/equivocation.rs:430-509 | strictly later entries, or a later reading, only append rounds |
| RoundHistory.RoundsAppendOrCut | crates/rrn-dispute/src/equivocation.rs:430-509 | entries admitted from the reading on, the same second included, only append rounds, except that a round opened in that very second is undone when ballots of the same second decide the round before it |
| RoundHistory.SameIndexSameRound | crates/rrn-dispute/src/equivocation.rs:430-509 | so an index names one round in every reading of a growing log |
| LateBallots.SameSecondCut | crates/rrn-dispute/src/equivocation.rs:430-509 | a run of that exception: re-seat and late ballot in one second, each admitted, and the round is gone |
| Equivocation.RoundsOf | crates/rrn-dispute/src/equivocation.rs:430-509 | the loop building the rounds computes them |
| Equivocation.AdmittedReseatOpens | crates/rrn-dispute/src/equivocation.rs:812-870 | a re-seat the gate admits opens its round on replay, at its own position |
| Equivocation.AdmittedReseatStays | crates/rrn-dispute/src/equivocation.rs:812-870 | and strictly later entries never close it again |
| Equivocation.AdmittedBallotCredited | crates/rrn-dispute/src/equivocation.rs:740-802 | a ballot the gate admits is credited in its juror’s seat of that round at every later reading |
| Equivocation.DecisionStable | crates/rrn-dispute/src/equivocation.rs:582-597 | a round’s decision as of an instant does not change when only later ballots are added |
| EquivocationRulings.RunConsistent | crates/rrn-dispute/src/equivocation.rs:695-728 | over every run of passes, each possibly cut short after any append, a record gets at most one ruling and all of a case’s rulings agree |
| EquivocationRulings.QuietAfterCompletion | crates/rrn-dispute/src/equivocation.rs:695-728 | after a pass ran to its end, later passes append nothing |
| EquivocationRulings.PassCompletes | crates/rrn-dispute/src/equivocation.rs:710-726 | a complete pass leaves no attached record unruled |
| EquivocationRulings.RecordedRulingDecides | crates/rrn-dispute/src/equivocation.rs:651-686 | once a ruling is recorded the case reads as that ruling for good |
| EquivocationRulings.Tribunal.ResolveEquivocation | crates/rrn-dispute/src/equivocation.rs:695-728 | one ruling for each attached record that has none, when the case is decided; otherwise nothing |
| EquivocationRulings.Tribunal.AppendReseat | crates/rrn-dispute/src/equivocation.rs:812-870 | admits exactly the next round’s re-seat of a lapsed case by an eligible member |
| RoundMeaning.ReseatMeans | crates/rrn-dispute/src/equivocation.rs:812-870 | an admitted re-seat is another electorate member’s, for the next round, once the current window is over |
| EquivocationRulings.Tribunal.AppendBallot | crates/rrn-dispute/src/equivocation.rs:740-802 | admits exactly the ballot of a juror with an unanswered seat in the named round, its window over or not; never the accused’s or an injured payee’s |
| RoundJury.BallotMeans | crates/rrn-dispute/src/equivocation.rs:740-802 | an admitted ballot is its juror’s first in the round, of the round’s electorate, by neither the accused nor an injured payee |
| RoundMeaning.NobodyJudgesThemselves | crates/rrn-dispute/src/equivocation.rs:269-277 | so on a log of the gates nobody votes in their own case |
| LateBallots.LapsedCanDecideIff | crates/rrn-dispute/src/equivocation.rs:735-802 | a lapsed case can still be read as overturned (or confirmed) on some later log of the gates with no fresh round, if and only if the concurring votes and the unanswered seats of the panel make a majority |
| LateBallots.LateBallotOverturns | crates/rrn-dispute/src/equivocation.rs:735-802 | a run at the failing input: a ballot admitted after its round’s window closed decides the lapsed case, with no re-seat |
| PanelVacancies.VotesCapped | crates/rrn-dispute/src/panel.rs:69-149 | however late the reading, whatever is admitted and whoever is redrawn, a side gains at most the seats that were unanswered |
| PanelVacancies.BallotFillsSeat | crates/rrn-dispute/src/panel.rs:95-144 | a ballot from an unanswered seat turns it into a vote and leaves what the side can reach unchanged |
| DepthGuard.EnsureDepthWithinLimit | crates/rrn-crypto/src/serialize.rs:210-291 | for every byte string the explicit-stack scan answers what a recursive reading of the same items answers |
| CborDepth.ScanMeasuresDepth | crates/rrn-crypto/src/serialize.rs:210-291 | against CBOR itself: for every data item encoded by section 3 of RFC 8949, whatever bytes follow, the scan says too deep if and only if the item nests more than 128 arrays, maps and tags |
| DepthGuard.TooDeepExactly | crates/rrn-crypto/src/serialize.rs:210-291 | too-deep is reported only for input that takes an unlimited decoder past 128 levels, and on a 64-bit word for all of it |
| DepthGuard.OkBoundsEveryDecoder | crates/rrn-crypto/src/serialize.rs:205-291 | when the scan says Ok no recursive decoder of the bytes opens more than 128 levels, wherever it may stop early |
| DepthGuard.SaturationUnseen | crates/rrn-crypto/src/serialize.rs:262-276 | the saturated pair count of a map is never observable, since every item takes a byte |
| DepthGuard.ReadItemHeader | crates/rrn-crypto/src/serialize.rs:172-203 | the byte-accumulating loops read the header of section 3 of RFC 8949 |
| Wallet.NeverBehindTheStation | crates/rrn-cli/src/wallet.rs:956-1049 | over every run of signing, restoring and syncing with answers that carry their hashes, the next entry of a signable wallet is above the latest answer’s position |
| Wallet.LinkedStays | crates/rrn-cli/src/wallet.rs:887-924 | over every run, whatever the answers, the chain stays contiguous and hash-linked |
| Wallet.SignsAbove | crates/rrn-cli/src/wallet.rs:887-924 | a signing step adds one linked entry, above the latest answer and every earlier row |
| Wallet.RestoredWaits | crates/rrn-cli/src/wallet.rs:872-880 | a restored wallet signs nothing until a sync finds a head to anchor onto |
| Wallet.RestoredAnchors | crates/rrn-cli/src/wallet.rs:985-991 | and its first entry then follows exactly that head |
| Wallet.AboveTheAnswerIff | crates/rrn-cli/src/wallet.rs:985-991 | a wallet left signable by a sync is above the answer if and only if the sync did not stop on a position without its hash |
| Wallet.BlockedIff | crates/rrn-cli/src/wallet.rs:1015-1037 | with local rows an answer blocks exactly when it is past the head, or at it without the head’s own hash |
| Wallet.ForkBlocks | crates/rrn-cli/src/wallet.rs:1017-1030 | the station’s holding any other entry at the head blocks the device from signing |
| Wallet.NeverTwice | crates/rrn-cli/src/wallet.rs:887-924 | over every run no record is signed twice |
| Wallet.HashlessAnswer | crates/rrn-cli/src/wallet.rs:985-991 | the failing input: a fresh wallet answered with a position and no hash stays signable at position 0 |
| Wallet.AboveEveryAnswer | crates/rrn-cli/src/wallet.rs:1015-1037 | with answers that carry their hashes and never regress, a wallet allowed to sign signs above every answer it ever got |
| Wallet.AlwaysAboveIff | crates/rrn-cli/src/wallet.rs:1015-1037 | and only then: given hashed answers, every wallet signs above all of them, however signing and restoring fall between, if and only if no answer is lower than an earlier one |
| Wallet.LaggingReplica | crates/rrn-cli/src/wallet.rs:1015-1037 | a concrete run in which a regressing answer makes a blocked wallet sign below an earlier one |
| Wallet.MemberWallet.Sign | crates/rrn-cli/src/wallet.rs:872-924 | refuses an unknown chain and a record held already, else appends the linked entry |
| Wallet.MemberWallet.Sync | crates/rrn-cli/src/wallet.rs:956-1049 | every case of local head and station answer, and the state each leaves |
| Civil.NextDayIsOneLater | crates/rrn-cli/src/main.rs:2584-2592 | the next Gregorian day is one day later, for every year |
| Civil.StrictlyIncreasing | crates/rrn-cli/src/main.rs:2584-2592 | later dates have strictly more days |
| Civil.Injective | crates/rrn-cli/src/main.rs:2584-2592 | two dates that exist with the same count are the same date |
| Civil.DaysOfCivil | crates/rrn-cli/src/main.rs:2584-2592 | every count is the count of the date computed for it: with injectivity, a two-sided inverse |
| Civil.DaysForm | crates/rrn-cli/src/main.rs:2584-2592 | the era arithmetic counts March years, truncating division included |
| Civil.ReadsBackIff | crates/rrn-cli/src/main.rs:2546-2577 | an accepted date reads back as itself if and only if it exists |
| Civil.AcceptedIff | crates/rrn-cli/src/main.rs:2567-2573 | every existing date is accepted, and beyond them only the 29th to 31st of shorter months |
| Civil.ThirtiethOfFebruary | crates/rrn-cli/src/main.rs:2546-2577 | the failing input: February 30 is accepted and means March 2 |
| Civil.EndOfDay | crates/rrn-cli/src/main.rs:2571-2573 | the moment taken is one second before the next day |
| Paper.ZlibRoundTrip | crates/rrn-cli/src/paper.rs:1473-1492 | a stored-block reader recovers every byte string, checksum included |
| Paper.InflateBlocks | crates/rrn-cli/src/paper.rs:1473-1492 | exactly one block is final, and it is the last |
| Paper.PngRoundTripIff | crates/rrn-cli/src/paper.rs:1505-1522 | a chunk reader recovers size and pixels if the compressed data’s length fits 32 bits, and reads no image at all if it does not |
| Paper.TooLarge | crates/rrn-cli/src/paper.rs:1494-1522 | the failing input: one column of 2^31 pixels yields bytes in which no image is read |
| Paper.ZlibStored | crates/rrn-cli/src/paper.rs:1473-1492 | the block loop writes that stream |
| Paper.Adler32 | crates/rrn-cli/src/paper.rs:1461-1468 | reducing at every step gives the checksum of the whole sums |
| Paper.Crc32 | crates/rrn-cli/src/paper.rs:1448-1458 | the branch-free bit loop is division by the reflected polynomial |
| Paper.CrcKnown | crates/rrn-cli/src/paper.rs:1447-1458 | known values: nothing, four bytes of ones, and those with a top bit after them |
| Paper.AdlerKnown | crates/rrn-cli/src/paper.rs:1461-1468 | known values: nothing, and 257 bytes of ones, past the base |
| Paper.OneByteDetected | crates/rrn-cli/src/paper.rs:1447-1458 | two inputs that differ in exactly one byte have different checksums |
| Paper.PngChunk | crates/rrn-cli/src/paper.rs:1494-1502 | appends one chunk |
| Paper.GrayPng | crates/rrn-cli/src/paper.rs:1505-1522 | the scanline loop writes the image |
| Paper.PngStarts | crates/rrn-cli/src/paper.rs:1505-1522 | the signature, the header chunk and the chunk names, byte by byte |

## Left out

- Reputation scoring, vouching rules, the ledger and settlement: not part of this model; standing is an arbitrary function of the evidence, and enacting a resolution is a change of the transfer's state.
- Storage, canonical encoding, key and signature libraries: entries are values with a signer; malformed signatures are a flag the door reads.
- 64-bit instants: instants are unbounded integers, so the saturating additions and subtractions of the time arithmetic are not modelled. `DepthGuard` does model machine words.
- Entries that reach a log by gossip without passing a door: the run results are about logs the doors wrote. `EmergencyAgreement.DerivationKeeps` and `EmergencyRuns.SpansAccepted` need only records in their place.
- EmergencyRuns.GateReplayAgreement: the founder root is the same for every act of the run, because replay reads the current root; `EmergencyRuns.OtherRootForgets` shows what a replaced root does.
- FrozenCharter.ConstitutionFrozen: the effective charter starts from a log whose enacted amendments are settled under its root, which every run judged by that root keeps (`FrozenCharter.RunSettled`); the root and the enacted amendments need no such start (`FrozenCharter.RootFrozen`).
- Enactment.EnactmentTakesEffectIff: about a log whose enacted amendments are settled under its root, likewise.
- EmergencyActivation.DecidedIffSupported: about an electorate and threshold that later evidence and time do not change. A marker is written only when the record just admitted is itself the crossing, so with a shifting electorate enough support need not activate.
- EmergencyMeaning.DecidedIffCarried: likewise about an electorate that does not change; `EmergencyMeaning.InForceMeans` and `EmergencyMeaning.LiftedMeans` need no such assumption.
- CborDepth.ScanMeasuresDepth: about well-formed items of definite length; what the scan says of any other bytes is `DepthGuard.TooDeepExactly` and `DepthGuard.OkBoundsEveryDecoder`.
- FrontDoors.Station.AppendProposal: the charter the window is computed from is the caller's, as in the code.
- FrontDoors.Station.StoreCharter: an inner multisignature is the set of its valid signers; structural signature faults are not modelled.
- DisputeFinality.DisputeFinal: about readings strictly after the deadline (at the deadline itself a gate may still admit while the decision already counts) and later entries admitted no earlier than the reading, which a clock that steps back behind a reading ahead of the log does not give (`SteppedBackDispute.ClockSteppedBack`); `DisputeFinality.FinalOnceStamped` needs no such assumption. The juror response window is nonnegative.
- DisputeFinality.FinalPastMainWindow: assumes the same of later entries.
- The founder set in disputes and equivocation cases: standing there is given without it, so those results hold it fixed, while the station passes the founders of the effective charter on every call (`crates/rrn-station/src/core.rs:3910-3917`). They also take an electorate to list no member twice.
- Equivocation.RoundsOnlyAppend: about strictly later entries; `RoundHistory.RoundsAppendOrCut` says what entries of the same second can do.
- Equivocation.AdmittedReseatStays: likewise about strictly later entries.
- LateBallots.LapsedCanDecideIff: about cases whose ballots all came through the gate, which the class keeps as its invariant, and readings no earlier than the last entry.
- How equivocation cases are assembled from ledger evidence: a case is given with its attached records and its anchor.
- DisputeDesk.Desk.Resolve: the sweep that walks all disputes, and the ledger rows it rewrites, are one dispute's state change here.
- Wallet.MemberWallet.Sync: the nonce cursor, balance and receipts fetched by the same command, acknowledgements, abandoning and pruning of rows, and a stale copy of a whole wallet home.
- Whether statutes other than amendments stay enacted across an amendment: the code counts them again against the charter in force, so they need not.
- Accountability reports, display predicates, the enactment sweep, RPC and command-line handling, QR and PDF drawing.
