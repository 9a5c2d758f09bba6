/** The log as governance reads it, and the founder root
    (crates/rrn-governance/src/charter.rs). */
module GovLog {
  import opened Basics

  datatype Declaration = Declaration(
    community: nat, author: Address, reason: nat, scope: nat, duration: int,
    statedRenewal: nat, previous: Option<Hash>, createdAt: int)

  datatype Motion = Motion(target: Hash, author: Address)

  /** Content addresses. Hashing is injective, so an address is its content; `Unknown` stands for
      addresses of anything else. */
  datatype Hash = OfDeclaration(d: Declaration) | OfMotion(m: Motion) | Unknown(n: nat)

  /** The numbers proposals are windowed and counted by. */
  datatype Rules = Rules(
    statuteQuorumPct: nat, statuteApprovalPct: nat, deliberationDays: nat, delayDays: nat,
    emergencyThresholdPct: nat, emergencyWindowSecs: int, emergencyQuorumPct: nat,
    amendmentQuorumPct: nat, amendmentApprovalPct: nat, amendmentDays: nat)

  /** A charter. `previous` is the content address of the charter it supersedes. */
  datatype Charter = Charter(
    version: nat, previous: Option<Charter>, community: nat, founders: seq<Address>,
    declarationPct: nat, maxRenewals: nat, rules: Rules, body: nat)

  datatype Kind = Ordinary | EmergencyMeasure(expiresAt: int) | Amendment(newCharter: Charter)

  /** A motion put to a vote. Its id is the address of its content. `wellFormed` stands for the
      checks on its title, its body and the voting mechanism of an amendment. */
  datatype Proposal = Proposal(author: Address, kind: Kind, wellFormed: bool, body: nat)

  datatype Choice = Yes | No | Abstain

  datatype Record =
    | Declare(d: Declaration)
    | Cosign(target: Hash, who: Address)
    | Lapse(m: Motion)
    | Admitted(target: Hash, admittedAt: int)
    | Refused(target: Hash, instant: int)
    | Activated(target: Hash, instant: int, expiry: int, renewals: nat)
    | PublishCharter(charter: Charter, signers: set<Address>)
    | Propose(proposal: Proposal)
    | Window(proposal: Proposal, openedAt: int, votingEndsAt: int, implementationAt: int)
    | Endorse(proposal: Proposal, who: Address)
    | Vote(proposal: Proposal, who: Address, choice: Choice)
    | Implemented(proposal: Proposal, implementedAt: int)
    | Evidence(tag: nat)

  /** An admitted entry. The entry at index `i` has seq `i + 1`. */
  datatype Entry = Entry(record: Record, signer: Address, at: int)

  type Log = seq<Entry>

  predicate Clocked(log: Log) {
    forall i, j :: 0 <= i <= j < |log| ==> log[i].at <= log[j].at
  }

  /** The instant an entry appended at `now` is stamped with. */
  function AdmissionInstant(log: Log, now: int): (at: int)
    ensures at >= now && (log != [] ==> at >= log[|log| - 1].at)
    ensures at == now || (log != [] && at == log[|log| - 1].at)
  {
    if log == [] then now else Max(now, log[|log| - 1].at)
  }

  function Stamp(log: Log, record: Record, signer: Address, now: int): Entry {
    Entry(record, signer, AdmissionInstant(log, now))
  }

  // --- Standing ---------------------------------------------------------------

  /** Station attestations about emergencies: never evidence of anyone's standing. */
  predicate IsMarker(e: Entry) {
    e.record.Admitted? || e.record.Refused? || e.record.Activated?
  }

  function EvidenceOf(log: Log): Log {
    if log == [] then []
    else if IsMarker(log[|log| - 1]) then EvidenceOf(log[..|log| - 1])
    else EvidenceOf(log[..|log| - 1]) + [log[|log| - 1]]
  }

  /** Standing is scored by code this model does not contain: who is eligible, how many are, and how
      many endorsements publish a proposal are functions of the evidence up to a position, the
      founders, and an instant. */
  datatype Standing = Standing(
    eligible: (Log, seq<Address>, int, Address) -> bool,
    electorateSize: (Log, seq<Address>, int) -> nat,
    endorsements: (Log, seq<Address>, int) -> nat)

  /** What the log is read by: the standing functions and the community's station key. */
  datatype Gov = Gov(st: Standing, station: Address)

  /** A position and instant standing is pinned at, as the evidence it can see. */
  datatype Pin = Pin(at: int, evidence: Log)

  function PinAt(log: Log, position: nat, at: int): Pin {
    Pin(at, EvidenceOf(log[..Min(position, |log|)]))
  }

  /** A pin at the position of the marker about to be written sees what replay sees there. */
  lemma {:induction false} PinIgnoresMarker(log: Log, e: Entry, at: int)
    requires IsMarker(e)
    ensures PinAt(log + [e], |log| + 1, at) == PinAt(log, |log| + 1, at)
  {
    assert (log + [e])[..|log| + 1] == log + [e];
    assert (log + [e])[..|log + [e]| - 1] == log;
    assert log[..|log|] == log;
  }

  lemma {:induction false} PinPrefix(log: Log, log': Log, position: nat, at: int)
    requires IsPrefix(log, log') && position <= |log|
    ensures PinAt(log', position, at) == PinAt(log, position, at)
  {
    PrefixUpto(log, log', position);
  }

  // --- The founder root -------------------------------------------------------

  function FounderThreshold(n: nat): nat {
    (n * 3 + 3) / 4
  }

  /** The declared founders, as a set. */
  function Founders(c: Charter): set<Address> {
    set a | a in c.founders
  }

  /** Whether enough declared founders signed. Signatures by others count for nothing. */
  predicate FounderAuthorized(charter: Charter, signers: set<Address>) {
    |signers * Founders(charter)| >= FounderThreshold(|Founders(charter)|)
  }

  /** Three quarters of the declared founders, each counted once, is what it takes. */
  lemma {:induction false} ThreeQuarters(charter: Charter, signers: set<Address>)
    ensures FounderAuthorized(charter, signers) <==>
              4 * |set a | a in signers && a in charter.founders| >= 3 * |set a | a in charter.founders|
  {
    assert (set a | a in signers && a in charter.founders) == signers * Founders(charter);
    assert (set a | a in charter.founders) == Founders(charter);
  }

  predicate PublishesRoot(e: Entry) {
    e.record.PublishCharter? && FounderAuthorized(e.record.charter, e.record.signers)
  }

  /** The highest-version authorized charter among the first `n` entries, the later one on a tie. */
  function FounderCharterTo(log: Log, n: nat): Option<Charter>
    requires n <= |log|
  {
    if n == 0 then None
    else
      var best := FounderCharterTo(log, n - 1);
      if PublishesRoot(log[n - 1]) && (best.None? || log[n - 1].record.charter.version >= best.value.version)
      then Some(log[n - 1].record.charter) else best
  }

  function FounderCharter(log: Log): Option<Charter> {
    FounderCharterTo(log, |log|)
  }

  method FindFounderCharter(log: Log) returns (best: Option<Charter>)
    ensures best == FounderCharter(log)
  {
    best := None;
    var bestSeq: nat := 0;
    for i := 0 to |log|
      invariant best == FounderCharterTo(log, i)
      invariant bestSeq <= i
    {
      var e := log[i];
      if e.record.PublishCharter? && FounderAuthorized(e.record.charter, e.record.signers) {
        var version := e.record.charter.version;
        if best.None? || version > best.value.version || (version == best.value.version && i + 1 > bestSeq) {
          best, bestSeq := Some(e.record.charter), i + 1;
        }
      }
    }
  }

  /** The root is an authorized charter of the log, none is of a higher version, and none of the same
      version comes later. */
  predicate RootAt(log: Log, n: nat, i: nat)
    requires n <= |log|
  {
    && i < n && PublishesRoot(log[i])
    && (forall j :: 0 <= j < n && PublishesRoot(log[j]) ==>
          log[j].record.charter.version <= log[i].record.charter.version)
    && (forall j :: i < j < n && PublishesRoot(log[j]) ==>
          log[j].record.charter.version < log[i].record.charter.version)
  }

  lemma {:induction false} FounderCharterMeaning(log: Log, n: nat)
    requires n <= |log|
    ensures FounderCharterTo(log, n).None? <==> forall j :: 0 <= j < n ==> !PublishesRoot(log[j])
    ensures FounderCharterTo(log, n).Some? ==>
      exists i: nat :: RootAt(log, n, i) && FounderCharterTo(log, n) == Some(log[i].record.charter)
  {
    hide FounderAuthorized;
    if n > 0 {
      FounderCharterMeaning(log, n - 1);
      if FounderCharterTo(log, n - 1).Some? {
        var i: nat :| RootAt(log, n - 1, i) && FounderCharterTo(log, n - 1) == Some(log[i].record.charter);
        RootStep(log, n, i);
      } else if PublishesRoot(log[n - 1]) {
        FirstRootAt(log, n);
      }
      NoneStep(log, n);
    } else {
      assert FounderCharterTo(log, n).None?;
    }
  }

  /** One more entry either takes over as the root or leaves it. */
  lemma {:induction false} RootStep(log: Log, n: nat, i: nat)
    requires 0 < n <= |log| && RootAt(log, n - 1, i)
    ensures PublishesRoot(log[i])
    ensures PublishesRoot(log[n - 1]) && log[n - 1].record.charter.version >= log[i].record.charter.version ==>
      RootAt(log, n, n - 1)
    ensures !(PublishesRoot(log[n - 1]) && log[n - 1].record.charter.version >= log[i].record.charter.version) ==>
      RootAt(log, n, i)
  {
    hide FounderAuthorized;
  }

  lemma {:induction false} FirstRootAt(log: Log, n: nat)
    requires 0 < n <= |log| && PublishesRoot(log[n - 1]) && forall j :: 0 <= j < n - 1 ==> !PublishesRoot(log[j])
    ensures RootAt(log, n, n - 1)
  {
    hide FounderAuthorized;
  }

  lemma {:induction false} NoneStep(log: Log, n: nat)
    requires 0 < n <= |log|
    requires FounderCharterTo(log, n - 1).None? <==> forall j :: 0 <= j < n - 1 ==> !PublishesRoot(log[j])
    ensures FounderCharterTo(log, n).None? <==> forall j :: 0 <= j < n ==> !PublishesRoot(log[j])
  {
    hide FounderAuthorized;
  }

  lemma {:induction false} FounderCharterLocal(log: Log, log': Log, n: nat)
    requires IsPrefix(log, log') && n <= |log|
    ensures FounderCharterTo(log', n) == FounderCharterTo(log, n)
  {
    if n > 0 {
      FounderCharterLocal(log, log', n - 1);
      PrefixAt(log, log', n - 1);
    }
  }

  /** Entries that publish no authorized charter leave the root alone. */
  lemma {:induction false} RootUnchanged(log: Log, log': Log)
    requires IsPrefix(log, log') && forall k :: |log| <= k < |log'| ==> !PublishesRoot(log'[k])
    ensures FounderCharter(log') == FounderCharter(log)
  {
    FounderCharterLocal(log, log', |log|);
    RootQuiet(log', |log|, |log'|);
  }

  lemma {:induction false} RootQuiet(log: Log, m: nat, n: nat)
    requires m <= n <= |log| && forall k :: m <= k < n ==> !PublishesRoot(log[k])
    ensures FounderCharterTo(log, n) == FounderCharterTo(log, m)
    decreases n
  {
    if m < n {
      RootQuiet(log, m, n - 1);
    }
  }

  const DECLARATION_PCT_FLOOR: nat := 67
  const RENEWALS_CEILING: nat := 2

  /** What emergency legitimacy reads from the root, clamped so that a charter can only be stricter
      than the floor and the ceiling. */
  datatype Root = Root(community: Option<nat>, founders: seq<Address>, declarationPct: nat, maxRenewals: nat)

  function RootOf(charter: Option<Charter>): (r: Root)
    ensures r.declarationPct >= DECLARATION_PCT_FLOOR && r.maxRenewals <= RENEWALS_CEILING
    ensures charter.Some? && charter.value.declarationPct >= DECLARATION_PCT_FLOOR ==>
      r.declarationPct == charter.value.declarationPct
    ensures charter.Some? && charter.value.maxRenewals <= RENEWALS_CEILING ==> r.maxRenewals == charter.value.maxRenewals
    ensures charter.Some? ==> r.community == Some(charter.value.community) && r.founders == charter.value.founders
  {
    match charter
    case None => Root(None, [], DECLARATION_PCT_FLOOR, RENEWALS_CEILING)
    case Some(c) =>
      Root(Some(c.community), c.founders, Max(c.declarationPct, DECLARATION_PCT_FLOOR),
           Min(c.maxRenewals, RENEWALS_CEILING))
  }
}
