/** The member wallet's outbox chain and its re-anchoring on sync (crates/rrn-cli/src/wallet.rs, over
    the store of crates/rrn-storage/src/outbox.rs). */
module Wallet {
  import opened Basics

  /** Entry hashes. Hashing is injective, so an entry's hash is its content; `Elsewhere` is the hash of
      an entry this device does not hold. */
  datatype Hash = Zero | Elsewhere(tag: nat) | OfEntry(position: nat, prev: Hash, record: nat)

  /** A stored row: a signed entry, or the stand-in a restore anchors onto. */
  datatype Row = Anchor(position: nat, hash: Hash) | Entry(position: nat, prev: Hash, record: nat)

  datatype ChainState = Fresh | Anchored | Unknown

  /** What one wallet home stores: its chain state, and its rows by position. */
  datatype Home = Home(state: ChainState, rows: seq<Row>)

  /** The station's view of this outbox: the highest position seen, and the hash there. */
  datatype Answer = Answer(position: Option<nat>, hash: Option<Hash>)

  datatype Outcome = Reanchored | Level | Blocked | Failed

  function HashOf(r: Row): Hash {
    match r
    case Anchor(_, hash) => hash
    case Entry(position, prev, record) => OfEntry(position, prev, record)
  }

  function NextPosition(rows: seq<Row>): nat {
    if rows == [] then 0 else rows[|rows| - 1].position + 1
  }

  function NextPrev(rows: seq<Row>): Hash {
    if rows == [] then Zero else HashOf(rows[|rows| - 1])
  }

  predicate Signable(h: Home) {
    h.state == Fresh || h.state == Anchored
  }

  predicate Holds(rows: seq<Row>, record: nat) {
    exists i | 0 <= i < |rows| :: rows[i].Entry? && rows[i].record == record
  }

  /** The chain is contiguous and hash-linked from position 0 or from an anchor. */
  predicate Linked(rows: seq<Row>) {
    && (rows != [] ==> rows[0].Anchor? || (rows[0].position == 0 && rows[0].prev == Zero))
    && forall i :: 0 < i < |rows| ==>
         rows[i].Entry? && rows[i].position == rows[i - 1].position + 1 && rows[i].prev == HashOf(rows[i - 1])
  }

  function Signed(h: Home, record: nat): Option<Home> {
    if !Signable(h) || Holds(h.rows, record) then None
    else Some(Home(h.state, h.rows + [Entry(NextPosition(h.rows), NextPrev(h.rows), record)]))
  }

  /** The local chain ends before the station's view, or disagrees with it at its own head. */
  predicate Behind(rows: seq<Row>, answer: Answer)
    requires rows != [] && answer.position.Some?
  {
    var head := rows[|rows| - 1];
    answer.position.value > head.position
    || (answer.position.value == head.position && answer.hash != Some(HashOf(head)))
  }

  function Synced(h: Home, answer: Answer): (Home, Outcome) {
    if h.rows == [] then
      if answer.position.Some? then
        if answer.hash.None? then (h, Failed)
        else (Home(Anchored, [Anchor(answer.position.value, answer.hash.value)]), Reanchored)
      else (h, if h.state == Unknown then Blocked else Level)
    else if answer.position.Some? then
      if Behind(h.rows, answer) then (h.(state := Unknown), Blocked) else (h.(state := Anchored), Level)
    else if h.state == Unknown then (h, Failed) else (h, Level)
  }

  /** With rows of its own a device is blocked exactly by an answer past its head, or by one at its head that
      names any other entry or none; every other position anchors it. */
  lemma {:induction false} BlockedIff(h: Home, answer: Answer)
    requires h.rows != [] && answer.position.Some?
    ensures (var head, after := h.rows[|h.rows| - 1], Synced(h, answer);
             && after.0.rows == h.rows && (after.1 == Blocked || after.1 == Level)
             && (after.1 == Blocked <==>
                   (answer.position.value > head.position
                    || (answer.position.value == head.position && answer.hash != Some(HashOf(head)))))
             && (after.1 == Blocked <==> !Signable(after.0)))
  {
  }

  /** A fork at the head is noticed: the station's holding any other entry there blocks the device. */
  lemma {:induction false} ForkBlocks(h: Home, other: Row)
    requires h.rows != [] && h.rows[|h.rows| - 1].Entry? && other.Entry?
    requires other.position == h.rows[|h.rows| - 1].position && other != h.rows[|h.rows| - 1]
    ensures (var after := Synced(h, Answer(Some(other.position), Some(HashOf(other))));
             after.1 == Blocked && Signed(after.0, 0).None? && forall record :: Signed(after.0, record).None?)
  {
  }

  class MemberWallet {
    var state: ChainState
    var rows: seq<Row>

    /** A new key starts fresh, a restored or recovered one unknown; either with no rows. */
    constructor (restored: bool)
      ensures Stored() == Home(if restored then Unknown else Fresh, [])
    {
      state, rows := if restored then Unknown else Fresh, [];
    }

    function Stored(): Home
      reads this
    {
      Home(state, rows)
    }

    function Head(): Option<Row>
      reads this
    {
      if rows == [] then None else Some(rows[|rows| - 1])
    }

    /** Signs a record into the next entry, unless the chain is not signable or holds it already. */
    method Sign(record: nat) returns (ok: bool)
      modifies this
      ensures ok == Signed(old(Stored()), record).Some?
      ensures Stored() == if ok then Signed(old(Stored()), record).value else old(Stored())
    {
      if !(state == Fresh || state == Anchored) {
        return false;
      }
      var position, prev := 0, Zero;
      var head := Head();
      if head.Some? {
        position, prev := head.value.position + 1, HashOf(head.value);
      }
      if Holds(rows, record) {
        return false;
      }
      rows := rows + [Entry(position, prev, record)];
      return true;
    }

    method Sync(answer: Answer) returns (outcome: Outcome)
      modifies this
      ensures (Stored(), outcome) == Synced(old(Stored()), answer)
    {
      var head := Head();
      match (head, answer.position) {
        case (None, Some(pos)) =>
          if answer.hash.None? {
            return Failed;
          }
          rows := [Anchor(pos, answer.hash.value)];
          state := Anchored;
          return Reanchored;
        case (None, None) =>
          return if state == Unknown then Blocked else Level;
        case (Some(h), Some(pos)) =>
          if pos > h.position || (pos == h.position && answer.hash != Some(HashOf(h))) {
            state := Unknown;
            return Blocked;
          }
          state := Anchored;
          return Level;
        case (Some(_), None) =>
          return if state == Unknown then Failed else Level;
      }
    }
  }

  // --- Runs -------------------------------------------------------------------

  datatype Event = Sign(record: nat) | Sync(answer: Answer) | Restore

  /** A wallet home, with the position in the station's latest answer. */
  datatype Wallet = Wallet(home: Home, latest: Option<nat>)

  function After(w: Wallet, e: Event): Wallet {
    match e
    case Sign(record) => (match Signed(w.home, record) case Some(home) => w.(home := home) case None => w)
    case Sync(answer) => Wallet(Synced(w.home, answer).0, answer.position)
    case Restore => Wallet(Home(Unknown, []), None)
  }

  function Run(w: Wallet, events: seq<Event>): Wallet {
    if events == [] then w else After(Run(w, events[..|events| - 1]), events[|events| - 1])
  }

  /** The chain is linked, and a wallet allowed to sign would sign above the station's latest answer. */
  predicate Sound(w: Wallet) {
    && Linked(w.home.rows)
    && (Signable(w.home) && w.latest.Some? ==> NextPosition(w.home.rows) > w.latest.value)
  }

  predicate Reports(answer: Answer) {
    answer.position.Some?
  }

  /** A reported position comes with the hash there, as the station sends it. */
  predicate Hashed(answer: Answer) {
    Reports(answer) ==> answer.hash.Some?
  }

  /** The answers of a run, in order. */
  function Answers(events: seq<Event>): seq<Answer> {
    if events == [] then []
    else
      var last := events[|events| - 1];
      Answers(events[..|events| - 1]) + (if last.Sync? then [last.answer] else [])
  }

  predicate AllHashed(answers: seq<Answer>) {
    forall i :: 0 <= i < |answers| ==> Hashed(answers[i])
  }

  lemma {:induction false} SoundStep(w: Wallet, e: Event)
    requires Sound(w) && (e.Sync? ==> Hashed(e.answer))
    ensures Sound(After(w, e))
  {
    if e.Sign? {
      hide Linked, Holds, HashOf, NextPrev;
      LinkedNext(w.home.rows, e.record);
    }
  }

  /** Whatever the answers, the chain stays contiguous and hash-linked. */
  lemma {:induction false} LinkedStays(w: Wallet, events: seq<Event>)
    requires Linked(w.home.rows)
    ensures Linked(Run(w, events).home.rows)
  {
    hide Linked;
    if events != [] {
      LinkedStays(w, events[..|events| - 1]);
      LinkedStep(Run(w, events[..|events| - 1]), events[|events| - 1]);
    }
  }

  lemma {:induction false} LinkedStep(w: Wallet, e: Event)
    requires Linked(w.home.rows)
    ensures Linked(After(w, e).home.rows)
  {
    hide Holds, HashOf, NextPrev;
    if e.Sign? {
      hide Linked;
      LinkedNext(w.home.rows, e.record);
    }
  }

  lemma {:induction false} AnswersStep(events: seq<Event>)
    requires events != [] && AllHashed(Answers(events))
    ensures AllHashed(Answers(events[..|events| - 1]))
    ensures events[|events| - 1].Sync? ==> Hashed(events[|events| - 1].answer)
  {
    var before, all := Answers(events[..|events| - 1]), Answers(events);
    assert forall i :: 0 <= i < |before| ==> before[i] == all[i];
    if events[|events| - 1].Sync? {
      assert all[|before|] == events[|events| - 1].answer;
    }
  }

  lemma {:induction false} LinkedNext(rows: seq<Row>, record: nat)
    requires Linked(rows)
    ensures Linked(rows + [Entry(NextPosition(rows), NextPrev(rows), record)])
  {
    hide HashOf;
    var rows' := rows + [Entry(NextPosition(rows), NextPrev(rows), record)];
    assert forall i :: 0 <= i < |rows| ==> rows'[i] == rows[i];
  }

  /** Over every run of signing, syncing with any such answers, and restoring, the chain stays contiguous
      and hash-linked, and whatever is signed next is strictly above the position in the station's latest
      answer. */
  lemma {:induction false} NeverBehindTheStation(w: Wallet, events: seq<Event>)
    requires Sound(w) && AllHashed(Answers(events))
    ensures Sound(Run(w, events))
  {
    hide AllHashed, Answers, Sound;
    if events != [] {
      AnswersStep(events);
      NeverBehindTheStation(w, events[..|events| - 1]);
      SoundStep(Run(w, events[..|events| - 1]), events[|events| - 1]);
    }
  }

  /** A signing step that signs adds one entry, above the latest answer and linked to the head. */
  lemma {:induction false} SignsAbove(w: Wallet, record: nat)
    requires Sound(w) && After(w, Sign(record)) != w
    ensures (var rows := After(w, Sign(record)).home.rows;
             && rows[..|rows| - 1] == w.home.rows && rows[|rows| - 1].Entry? && rows[|rows| - 1].record == record
             && (w.latest.Some? ==> rows[|rows| - 1].position > w.latest.value)
             && forall i :: 0 <= i < |rows| - 1 ==> rows[i].position < rows[|rows| - 1].position)
  {
    var rows := w.home.rows;
    Increasing(rows, |rows|);
  }

  lemma {:induction false} Increasing(rows: seq<Row>, n: nat)
    requires Linked(rows) && n <= |rows|
    ensures forall i, j :: 0 <= i < j < n ==> rows[i].position < rows[j].position
  {
    if n > 1 {
      Increasing(rows, n - 1);
      assert rows[n - 1].position == rows[n - 2].position + 1;
    }
  }

  /** Answers in which the station reports something of this outbox, with its hash. */
  predicate Anchoring(e: Event) {
    e.Sync? && e.answer.position.Some? && e.answer.hash.Some?
  }

  /** A restored wallet signs nothing until a sync finds the station's head to anchor onto. */
  lemma {:induction false} RestoredWaits(w: Wallet, events: seq<Event>)
    requires w.home == Home(Unknown, []) && forall i :: 0 <= i < |events| ==> !Anchoring(events[i])
    ensures Run(w, events).home == Home(Unknown, [])
  {
    if events != [] {
      RestoredWaits(w, events[..|events| - 1]);
    }
  }

  /** And the first that does anchors it exactly there: the next entry follows the station's head. */
  lemma {:induction false} RestoredAnchors(w: Wallet, events: seq<Event>, e: Event, record: nat)
    requires w.home == Home(Unknown, []) && forall i :: 0 <= i < |events| ==> !Anchoring(events[i])
    requires Anchoring(e)
    ensures (var anchored := After(Run(w, events), e);
             After(anchored, Sign(record)).home.rows
             == [Anchor(e.answer.position.value, e.answer.hash.value),
                 Entry(e.answer.position.value + 1, e.answer.hash.value, record)])
  {
    RestoredWaits(w, events);
    var head := Anchor(e.answer.position.value, e.answer.hash.value);
    var anchored := After(Run(w, events), e);
    assert anchored.home == Home(Anchored, [head]);
    assert !Holds([head], record);
  }

  /** After a sync, a signable wallet is above the answer it was given exactly when the sync did not
      stop on a position that came without its hash. */
  lemma {:induction false} AboveTheAnswerIff(w: Wallet, answer: Answer)
    requires Sound(w) && answer.position.Some? && Signable(After(w, Sync(answer)).home)
    ensures NextPosition(After(w, Sync(answer)).home.rows) > answer.position.value
       <==> !(w.home.rows == [] && answer.hash.None?)
  {
  }

  /** A fresh wallet told of position 5 without its hash stays signable, and would sign position 0. */
  lemma {:induction false} HashlessAnswer()
    ensures (var w := Wallet(Home(Fresh, []), None);
             var after := After(w, Sync(Answer(Some(5), None)));
             && Sound(w) && Synced(w.home, Answer(Some(5), None)).1 == Failed
             && Signable(after.home) && NextPosition(after.home.rows) == 0 && !Sound(after))
  {
  }

  // --- All answers, not only the latest ---------------------------------------

  /** No answer reports less than an earlier one did. */
  predicate NeverLower(answers: seq<Answer>) {
    forall i, j :: 0 <= i < j < |answers| && Reports(answers[i]) && Reports(answers[j]) ==>
      answers[i].position.value <= answers[j].position.value
  }

  /** The wallet's next entry is above every position reported. */
  predicate AboveAll(w: Wallet, answers: seq<Answer>) {
    forall i :: 0 <= i < |answers| && Reports(answers[i]) ==> NextPosition(w.home.rows) > answers[i].position.value
  }

  /** Whatever the wallet and whatever is signed or restored between these answers, a wallet allowed to
      sign signs above all it has been told so far. */
  ghost predicate AlwaysAbove(answers: seq<Answer>) {
    forall w, events :: Sound(w) && Answers(events) <= answers && Signable(Run(w, events).home) ==>
      AboveAll(Run(w, events), Answers(events))
  }

  lemma {:induction false} PrefixKeeps(some: seq<Answer>, all: seq<Answer>)
    requires some <= all
    ensures NeverLower(all) ==> NeverLower(some)
    ensures AllHashed(all) ==> AllHashed(some)
  {
    assert forall i :: 0 <= i < |some| ==> some[i] == all[i];
  }

  /** With answers that never go lower, a wallet allowed to sign signs above every one of them. */
  lemma {:induction false} AboveEveryAnswer(w: Wallet, events: seq<Event>)
    requires Sound(w) && AllHashed(Answers(events)) && NeverLower(Answers(events))
    requires Signable(Run(w, events).home)
    ensures AboveAll(Run(w, events), Answers(events))
  {
    hide Sound, Synced, Signed, AllHashed, NeverLower, AboveAll, Reports;
    if events == [] {
      Nothing(w);
    } else {
      var n := |events| - 1;
      var before, last, earlier := Run(w, events[..n]), events[n], Answers(events[..n]);
      AnswersStep(events);
      PrefixKeeps(earlier, Answers(events));
      NeverBehindTheStation(w, events[..n]);
      if last.Sync? && Reports(last.answer) {
        LatestBounds(before, last.answer);
        LastHighest(earlier, last.answer, After(before, last));
      } else {
        StillSignable(before, last);
        AboveEveryAnswer(w, events[..n]);
        AboveMore(before, After(before, last), earlier, Answers(events));
      }
    }
  }

  lemma {:induction false} Nothing(w: Wallet)
    ensures AboveAll(w, [])
  {
  }

  lemma {:induction false} LastHighest(earlier: seq<Answer>, last: Answer, w: Wallet)
    requires NeverLower(earlier + [last]) && Reports(last) && NextPosition(w.home.rows) > last.position.value
    ensures AboveAll(w, earlier + [last])
  {
    var all := earlier + [last];
    assert all[|earlier|] == last;
  }

  lemma {:induction false} AboveMore(before: Wallet, after: Wallet, earlier: seq<Answer>, all: seq<Answer>)
    requires AboveAll(before, earlier) && NextPosition(after.home.rows) >= NextPosition(before.home.rows)
    requires earlier <= all && |all| <= |earlier| + 1 && (|all| > |earlier| ==> !Reports(all[|earlier|]))
    ensures AboveAll(after, all)
  {
    assert forall i :: 0 <= i < |earlier| ==> earlier[i] == all[i];
  }

  /** A wallet left signable by a reporting answer with its hash is above that answer. */
  lemma {:induction false} LatestBounds(w: Wallet, answer: Answer)
    requires Sound(w) && Signable(After(w, Sync(answer)).home) && Reports(answer) && Hashed(answer)
    ensures NextPosition(After(w, Sync(answer)).home.rows) > answer.position.value
  {
  }

  lemma {:induction false} StillSignable(w: Wallet, e: Event)
    requires !(e.Sync? && Reports(e.answer)) && Signable(After(w, e).home)
    ensures Signable(w.home) && NextPosition(After(w, e).home.rows) >= NextPosition(w.home.rows)
  {
  }

  function Syncs(answers: seq<Answer>): (events: seq<Event>)
    ensures |events| == |answers|
  {
    if answers == [] then [] else Syncs(answers[..|answers| - 1]) + [Sync(answers[|answers| - 1])]
  }

  lemma {:induction false} AnswersOfSyncs(answers: seq<Answer>)
    ensures Answers(Syncs(answers)) == answers
  {
    if answers != [] {
      AnswersOfSyncs(answers[..|answers| - 1]);
      var events := Syncs(answers);
      assert events[..|events| - 1] == Syncs(answers[..|answers| - 1]);
    }
  }

  lemma {:induction false} SyncStep(w: Wallet, answers: seq<Answer>)
    requires answers != []
    ensures Run(w, Syncs(answers)) == After(Run(w, Syncs(answers[..|answers| - 1])), Sync(answers[|answers| - 1]))
  {
    var events := Syncs(answers);
    assert events[..|events| - 1] == Syncs(answers[..|answers| - 1]);
  }

  /** A wallet whose chain is a single anchor keeps it through any syncs. */
  lemma {:induction false} AnchorStays(w: Wallet, anchor: Row, answers: seq<Answer>)
    requires w.home.rows == [anchor]
    ensures Run(w, Syncs(answers)).home.rows == [anchor]
  {
    if answers != [] {
      AnchorStays(w, anchor, answers[..|answers| - 1]);
      SyncStep(w, answers);
    }
  }

  /** An answer lower than an earlier one breaks it: a wallet between the two is blocked by the first and
      let go by the second, below the first. */
  lemma {:induction false} LowerAnswerForks(answers: seq<Answer>, i: nat, j: nat) returns (w: Wallet)
    requires i < j < |answers| && Reports(answers[i]) && Reports(answers[j]) && AllHashed(answers)
    requires answers[i].position.value > answers[j].position.value
    ensures Sound(w) && Signable(Run(w, Syncs(answers[..j + 1])).home)
    ensures !AboveAll(Run(w, Syncs(answers[..j + 1])), answers[..j + 1])
  {
    var lower := answers[j];
    var anchor := Anchor(lower.position.value, lower.hash.value);
    w := Wallet(Home(Anchored, [anchor]), None);
    var told := answers[..j + 1];
    AnchorStays(w, anchor, told);
    AnchorStays(w, anchor, told[..j]);
    SyncStep(w, told);
    assert told[i] == answers[i];
  }

  /** Never going lower is exactly what the answers must do for a wallet never to sign below one. */
  lemma {:induction false} AlwaysAboveIff(answers: seq<Answer>)
    requires AllHashed(answers)
    ensures AlwaysAbove(answers) <==> NeverLower(answers)
  {
    if NeverLower(answers) {
      forall w, events | Sound(w) && Answers(events) <= answers && Signable(Run(w, events).home)
        ensures AboveAll(Run(w, events), Answers(events))
      {
        PrefixKeeps(Answers(events), answers);
        AboveEveryAnswer(w, events);
      }
    } else {
      var i: nat, j: nat :| i < j < |answers| && Reports(answers[i]) && Reports(answers[j])
                            && answers[i].position.value > answers[j].position.value;
      var w := LowerAnswerForks(answers, i, j);
      AnswersOfSyncs(answers[..j + 1]);
      assert Answers(Syncs(answers[..j + 1])) <= answers;
    }
  }

  /** For one: told of position 10 the wallet blocks, and told of position 3 by a lagging replica it signs
      position 6. */
  lemma {:induction false} LaggingReplica()
    ensures (var w := Wallet(Home(Anchored, [Anchor(5, Elsewhere(0))]), None);
             var events := [Sync(Answer(Some(10), Some(Elsewhere(1)))), Sync(Answer(Some(3), Some(Elsewhere(2))))];
             && Sound(w) && Signable(Run(w, events).home)
             && NextPosition(Run(w, events).home.rows) == 6 < 10)
  {
    var w := Wallet(Home(Anchored, [Anchor(5, Elsewhere(0))]), None);
    var first, second := Sync(Answer(Some(10), Some(Elsewhere(1)))), Sync(Answer(Some(3), Some(Elsewhere(2))));
    assert [first, second][..1] == [first] && [first][..0] == [];
    assert Run(w, []) == w;
    assert Run(w, [first]) == After(w, first);
  }

  /** No record is signed into the chain twice. */
  predicate OncePerRecord(rows: seq<Row>) {
    forall i, j :: 0 <= i < j < |rows| && rows[i].Entry? && rows[j].Entry? ==> rows[i].record != rows[j].record
  }

  /** Over every run, whatever the answers, no record is signed twice. */
  lemma {:induction false} NeverTwice(w: Wallet, events: seq<Event>)
    requires OncePerRecord(w.home.rows)
    ensures OncePerRecord(Run(w, events).home.rows)
  {
    if events != [] {
      NeverTwice(w, events[..|events| - 1]);
      var before, e := Run(w, events[..|events| - 1]), events[|events| - 1];
      if e.Sign? && Signed(before.home, e.record).Some? {
        var rows := before.home.rows;
        assert forall i :: 0 <= i < |rows| && rows[i].Entry? ==> rows[i].record != e.record;
      }
    }
  }
}
