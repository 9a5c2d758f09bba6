/** The container-depth pre-scan that runs before the recursive CBOR decoder
    (crates/rrn-crypto/src/serialize.rs). Item headers: section 3 of RFC 8949. */
module DepthGuard {
  import opened Basics

  newtype byte = x: int | 0 <= x < 256

  const MAX_DEPTH: nat := 128
  const U64_LIMIT: nat := 0x1_0000_0000_0000_0000

  /** A header: the major type, the argument, and the header's length in bytes. */
  datatype Header = Header(major: nat, value: nat, len: nat)

  datatype Verdict = WithinLimit | TooDeep | LengthTooLarge

  // --- Headers ----------------------------------------------------------------

  /** The big-endian value of `n` bytes at `pos`. */
  function BigEndian(data: seq<byte>, pos: nat, n: nat): (v: nat)
    requires pos + n <= |data|
  {
    if n == 0 then 0 else BigEndian(data, pos, n - 1) * 256 + data[pos + n - 1] as nat
  }

  function Pow256(n: nat): nat {
    if n == 0 then 1 else 256 * Pow256(n - 1)
  }

  lemma {:induction false} BigEndianBound(data: seq<byte>, pos: nat, n: nat)
    requires pos + n <= |data|
    ensures BigEndian(data, pos, n) < Pow256(n)
  {
    if n > 0 {
      BigEndianBound(data, pos, n - 1);
    }
  }

  /** How many argument bytes follow the first byte; `None` for the values the decoder rejects. */
  function ArgumentLength(info: nat): Option<nat> {
    if info <= 23 then Some(0)
    else if info == 24 then Some(1)
    else if info == 25 then Some(2)
    else if info == 26 then Some(4)
    else if info == 27 then Some(8)
    else None
  }

  /** The item header at `pos`, or `None` where no item can start. */
  function HeaderAt(data: seq<byte>, pos: nat): (h: Option<Header>)
    ensures h.Some? ==> h.value.major < 8 && 1 <= h.value.len <= 9 && pos + h.value.len <= |data|
  {
    if pos >= |data| then None
    else
      var major, info := data[pos] as nat / 32, data[pos] as nat % 32;
      match ArgumentLength(info)
      case None => None
      case Some(n) =>
        if pos + 1 + n > |data| then None
        else Some(Header(major, if n == 0 then info else BigEndian(data, pos + 1, n), 1 + n))
  }

  lemma {:induction false} HeaderBound(data: seq<byte>, pos: nat)
    requires HeaderAt(data, pos).Some?
    ensures HeaderAt(data, pos).value.value < U64_LIMIT
  {
    var n := ArgumentLength(data[pos] as nat % 32).value;
    if n > 0 {
      BigEndianBound(data, pos + 1, n);
      assert Pow256(1) == 256;
      assert Pow256(2) == 0x1_0000;
      assert Pow256(4) == 0x1_0000_0000 by {
        assert Pow256(3) == 0x100_0000;
      }
      assert Pow256(8) == U64_LIMIT by {
        assert Pow256(6) == 0x1_0000_0000_0000 by {
          assert Pow256(5) == 0x100_0000_0000;
        }
        assert Pow256(7) == 0x100_0000_0000_0000;
      }
    }
  }

  method ReadItemHeader(data: seq<byte>, pos: nat) returns (h: Option<Header>)
    ensures h == HeaderAt(data, pos)
  {
    if pos >= |data| {
      return None;
    }
    var first := data[pos] as nat;
    var major, info := first / 32, first % 32;
    if info <= 23 {
      return Some(Header(major, info, 1));
    }
    var n: nat;
    if info == 24 {
      n := 1;
    } else if info == 25 {
      n := 2;
    } else if info == 26 {
      n := 4;
    } else if info == 27 {
      n := 8;
    } else {
      return None;
    }
    if pos + 1 + n > |data| {
      return None;
    }
    var v: nat := 0;
    for i := 0 to n
      invariant v == BigEndian(data, pos + 1, i)
    {
      v := v * 256 + data[pos + 1 + i] as nat;
    }
    return Some(Header(major, v, 1 + n));
  }

  // --- The recursive reading --------------------------------------------------

  /** How far a recursive reading got: past the items it was asked for, or stopped. */
  datatype Reading = Past(pos: nat) | Stopped(verdict: Verdict)

  /** Byte strings and text. */
  predicate IsString(h: Header) {
    h.major == 2 || h.major == 3
  }

  /** Arrays, maps and tags. */
  predicate IsContainer(h: Header) {
    4 <= h.major <= 6
  }

  /** Items a container header announces: pairs count twice, a tag has one. */
  function Contents(h: Header): nat {
    if h.major == 4 then h.value else if h.major == 5 then 2 * h.value else 1
  }

  /** Reads `count` items from `pos`, each with `ancestors` enclosing containers, the way the
      recursive decoder does: an item's contents before the item after it. It stops for good where
      no item can start or a string overruns the input (`WithinLimit`), where a string's length
      does not fit the machine word, and where a container header has `MAX_DEPTH` ancestors. */
  function ReadItems(data: seq<byte>, pos: nat, count: nat, ancestors: nat, word: nat): (r: Reading)
    ensures r.Past? ==> r.pos >= pos + count
    ensures r.Past? && count > 0 ==> r.pos <= |data|
    decreases |data| - pos, count
  {
    if count == 0 then Past(pos)
    else
      match HeaderAt(data, pos)
      case None => Stopped(WithinLimit)
      case Some(h) =>
        var next := pos + h.len;
        if IsString(h) then
          if h.value >= word then Stopped(LengthTooLarge)
          else if next + h.value > |data| then Stopped(WithinLimit)
          else ReadItems(data, next + h.value, count - 1, ancestors, word)
        else if IsContainer(h) then
          if ancestors >= MAX_DEPTH then Stopped(TooDeep)
          else
            match ReadItems(data, next, Contents(h), ancestors + 1, word)
            case Stopped(v) => Stopped(v)
            case Past(after) => ReadItems(data, after, count - 1, ancestors, word)
        else ReadItems(data, next, count - 1, ancestors, word)
  }

  /** One step of the reading, case by case. */
  lemma {:induction false} ReadStep(data: seq<byte>, pos: nat, count: nat, ancestors: nat, word: nat, h: Header)
    requires count > 0 && HeaderAt(data, pos) == Some(h)
    ensures IsString(h) && h.value >= word ==> ReadItems(data, pos, count, ancestors, word) == Stopped(LengthTooLarge)
    ensures IsString(h) && h.value < word && pos + h.len + h.value > |data| ==>
      ReadItems(data, pos, count, ancestors, word) == Stopped(WithinLimit)
    ensures IsString(h) && h.value < word && pos + h.len + h.value <= |data| ==>
      ReadItems(data, pos, count, ancestors, word)
        == ReadItems(data, pos + h.len + h.value, count - 1, ancestors, word)
    ensures IsContainer(h) && ancestors >= MAX_DEPTH ==> ReadItems(data, pos, count, ancestors, word) == Stopped(TooDeep)
    ensures IsContainer(h) && ancestors < MAX_DEPTH ==>
      ReadItems(data, pos, count, ancestors, word)
        == ReadThen(data, ReadItems(data, pos + h.len, Contents(h), ancestors + 1, word), count - 1, ancestors, word)
    ensures !IsString(h) && !IsContainer(h) ==>
      ReadItems(data, pos, count, ancestors, word) == ReadItems(data, pos + h.len, count - 1, ancestors, word)
  {
  }

  /** `count` more items after a container's contents were read. */
  function ReadThen(data: seq<byte>, inner: Reading, count: nat, ancestors: nat, word: nat): Reading {
    match inner
    case Stopped(_) => inner
    case Past(after) => ReadItems(data, after, count, ancestors, word)
  }

  /** What a recursive reading of the one top-level item reports. */
  function ReadDocument(data: seq<byte>, word: nat): Verdict {
    match ReadItems(data, 0, 1, 0, word)
    case Past(_) => WithinLimit
    case Stopped(v) => v
  }

  /** A machine word large enough to index the input, and no larger than 64 bits. */
  predicate Word(data: seq<byte>, word: nat) {
    |data| < word <= U64_LIMIT
  }

  // --- The scan ---------------------------------------------------------------

  /** What remains of the recursive reading when `stack[d]` items are left at depth `d + 1`, the
      innermost last: finish the innermost container, then the rest, with `top` items at depth 0. */
  function Resume(data: seq<byte>, pos: nat, stack: seq<nat>, top: nat, word: nat): Verdict
    decreases |stack|
  {
    if stack == [] then
      match ReadItems(data, pos, top, 0, word)
      case Past(_) => WithinLimit
      case Stopped(v) => v
    else
      var last := |stack| - 1;
      match ReadItems(data, pos, stack[last], |stack|, word)
      case Past(after) => Resume(data, after, stack[..last], top, word)
      case Stopped(v) => v
  }

  /** `a` items and `b` items read alike from `pos` on: equal, or both more than there are bytes. */
  predicate Alike(data: seq<byte>, pos: nat, a: nat, b: nat) {
    a == b || (a > |data| - pos && b > |data| - pos)
  }

  predicate StacksAlike(data: seq<byte>, pos: nat, stack: seq<nat>, exact: seq<nat>) {
    |stack| == |exact| && forall i :: 0 <= i < |stack| ==> Alike(data, pos, stack[i], exact[i])
  }

  /** Every item takes a byte, so a count beyond the bytes left is never read to its end. */
  lemma {:induction false} CountsBeyondInput(data: seq<byte>, pos: nat, a: nat, b: nat, ancestors: nat, word: nat)
    requires pos <= |data| && a > |data| - pos && b > |data| - pos
    ensures ReadItems(data, pos, a, ancestors, word) == ReadItems(data, pos, b, ancestors, word)
    ensures ReadItems(data, pos, a, ancestors, word).Stopped?
    decreases |data| - pos
  {
    var h := HeaderAt(data, pos);
    if h.Some? {
      var next := pos + h.value.len;
      if IsString(h.value) {
        if next + h.value.value <= |data| {
          CountsBeyondInput(data, next + h.value.value, a - 1, b - 1, ancestors, word);
        }
      } else if IsContainer(h.value) {
        if ancestors < MAX_DEPTH {
          var inner := ReadItems(data, next, Contents(h.value), ancestors + 1, word);
          if inner.Past? {
            CountsBeyondInput(data, inner.pos, a - 1, b - 1, ancestors, word);
          }
        }
      } else {
        CountsBeyondInput(data, next, a - 1, b - 1, ancestors, word);
      }
    }
  }

  lemma {:induction false} AlikeReads(data: seq<byte>, pos: nat, a: nat, b: nat, ancestors: nat, word: nat)
    requires pos <= |data| && Alike(data, pos, a, b)
    ensures ReadItems(data, pos, a, ancestors, word) == ReadItems(data, pos, b, ancestors, word)
    ensures ReadItems(data, pos, a, ancestors, word).Past? ==> a == b
  {
    if a != b {
      CountsBeyondInput(data, pos, a, b, ancestors, word);
    }
  }

  /** A stack whose counts read alike resumes alike. */
  lemma {:induction false} AlikeResumes(data: seq<byte>, pos: nat, stack: seq<nat>, exact: seq<nat>, top: nat, word: nat)
    requires pos <= |data| && StacksAlike(data, pos, stack, exact)
    ensures Resume(data, pos, stack, top, word) == Resume(data, pos, exact, top, word)
    decreases |stack|
  {
    if stack != [] {
      var last := |stack| - 1;
      AlikeReads(data, pos, stack[last], exact[last], |stack|, word);
      var r := ReadItems(data, pos, stack[last], |stack|, word);
      if r.Past? {
        assert r.pos <= |data|;
        AlikeResumes(data, r.pos, stack[..last], exact[..last], top, word);
      }
    }
  }

  function SaturatingDouble(value: nat): nat {
    if 2 * value >= U64_LIMIT then U64_LIMIT - 1 else 2 * value
  }

  /** The items the scan pushes for a container read alike to the items it announces. */
  lemma {:induction false} SaturationUnseen(data: seq<byte>, pos: nat, value: nat, word: nat)
    requires Word(data, word) && 1 <= pos <= |data|
    ensures Alike(data, pos, SaturatingDouble(value), 2 * value)
  {
  }

  /** Dropping a finished container. */
  lemma {:induction false} ResumeClosed(data: seq<byte>, pos: nat, stack: seq<nat>, top: nat, word: nat)
    requires stack != [] && stack[|stack| - 1] == 0
    ensures Resume(data, pos, stack, top, word) == Resume(data, pos, stack[..|stack| - 1], top, word)
  {
  }

  /** The stack after one item of the innermost open level has been taken. */
  function TakeOne(stack: seq<nat>): seq<nat>
    requires stack != [] && stack[|stack| - 1] > 0
  {
    stack[..|stack| - 1] + [stack[|stack| - 1] - 1]
  }

  /** The remaining reading once the header at `pos` has been read, at depth `height`. */
  function AfterHeader(data: seq<byte>, pos: nat, height: nat, rest: seq<nat>, top: nat, word: nat): Verdict {
    match HeaderAt(data, pos)
    case None => WithinLimit
    case Some(h) =>
      var next := pos + h.len;
      if IsString(h) then
        if h.value >= word then LengthTooLarge
        else if next + h.value > |data| then WithinLimit
        else Resume(data, next + h.value, rest, top, word)
      else if IsContainer(h) then
        if height >= MAX_DEPTH then TooDeep
        else Resume(data, next, rest + [Contents(h)], top, word)
      else Resume(data, next, rest, top, word)
  }

  /** What the remaining reading does at the next header, with one item left to take at the
      innermost level (`rest` is the stack and `top'` the top count after taking it). */
  lemma {:induction false} ResumeHeader(
    data: seq<byte>, pos: nat, stack: seq<nat>, top: nat, rest: seq<nat>, top': nat, word: nat)
    requires if stack == [] then top > 0 && rest == [] && top' == top - 1
             else stack[|stack| - 1] > 0 && rest == TakeOne(stack) && top' == top
    ensures Resume(data, pos, stack, top, word) == AfterHeader(data, pos, |stack|, rest, top', word)
  {
    hide ReadItems, Resume, HeaderAt;
    var h, count := HeaderAt(data, pos), if stack == [] then top else stack[|stack| - 1];
    ResumeTop(data, pos, stack, top, word);
    if h.None? {
      ReadNothing(data, pos, count, |stack|, word);
    } else {
      ReadStep(data, pos, count, |stack|, word, h.value);
      var next := pos + h.value.len;
      ResumeRest(data, next, stack, top, rest, top', word);
      if IsString(h.value) {
        ResumeRest(data, next + h.value.value, stack, top, rest, top', word);
      } else if IsContainer(h.value) {
        ResumePushed(data, next, rest, Contents(h.value), top', word);
        var inner := ReadItems(data, next, Contents(h.value), |stack| + 1, word);
        if inner.Past? {
          ResumeRest(data, inner.pos, stack, top, rest, top', word);
        }
      }
    }
  }

  /** The innermost level, then whatever encloses it. */
  function Then(data: seq<byte>, r: Reading, stack: seq<nat>, top: nat, word: nat): Verdict {
    match r
    case Stopped(v) => v
    case Past(after) => if stack == [] then WithinLimit else Resume(data, after, stack[..|stack| - 1], top, word)
  }

  lemma {:induction false} ResumeTop(data: seq<byte>, pos: nat, stack: seq<nat>, top: nat, word: nat)
    ensures Resume(data, pos, stack, top, word)
         == Then(data, ReadItems(data, pos, if stack == [] then top else stack[|stack| - 1], |stack|, word),
                 stack, top, word)
  {
  }

  lemma {:induction false} ResumeRest(
    data: seq<byte>, pos: nat, stack: seq<nat>, top: nat, rest: seq<nat>, top': nat, word: nat)
    requires if stack == [] then top > 0 && rest == [] && top' == top - 1
             else stack[|stack| - 1] > 0 && rest == TakeOne(stack) && top' == top
    ensures Resume(data, pos, rest, top', word)
         == Then(data, ReadItems(data, pos, (if stack == [] then top else stack[|stack| - 1]) - 1, |stack|, word),
                 stack, top, word)
  {
    hide ReadItems;
    if stack != [] {
      assert rest[..|rest| - 1] == stack[..|stack| - 1];
    }
  }

  lemma {:induction false} ResumePushed(data: seq<byte>, pos: nat, rest: seq<nat>, count: nat, top: nat, word: nat)
    ensures Resume(data, pos, rest + [count], top, word)
         == match ReadItems(data, pos, count, |rest| + 1, word)
            case Past(after) => Resume(data, after, rest, top, word)
            case Stopped(v) => v
  {
    hide ReadItems;
    var pushed := rest + [count];
    assert pushed[..|pushed| - 1] == rest;
  }

  lemma {:induction false} ReadNothing(data: seq<byte>, pos: nat, count: nat, ancestors: nat, word: nat)
    requires HeaderAt(data, pos).None? || count == 0
    ensures ReadItems(data, pos, count, ancestors, word) == if count == 0 then Past(pos) else Stopped(WithinLimit)
  {
  }

  /** The scan answers exactly as the recursive reading does, on every input. */
  method EnsureDepthWithinLimit(data: seq<byte>, word: nat) returns (verdict: Verdict)
    requires Word(data, word)
    ensures verdict == ReadDocument(data, word)
  {
    hide ReadItems, Resume;
    var stack: seq<nat> := [];
    ghost var exact: seq<nat> := [];
    var topRemaining: nat := 1;
    var pos: nat := 0;
    ResumeStart(data, word);
    while true
      invariant pos <= |data| && topRemaining <= 1
      invariant StacksAlike(data, pos, stack, exact)
      invariant Resume(data, pos, exact, topRemaining, word) == ReadDocument(data, word)
      decreases |data| - pos
    {
      while stack != [] && stack[|stack| - 1] == 0
        invariant StacksAlike(data, pos, stack, exact)
        invariant Resume(data, pos, exact, topRemaining, word) == ReadDocument(data, word)
        decreases |stack|
      {
        assert Alike(data, pos, stack[|stack| - 1], exact[|stack| - 1]);
        ResumeClosed(data, pos, exact, topRemaining, word);
        stack, exact := stack[..|stack| - 1], exact[..|exact| - 1];
      }
      ghost var before, top := exact, topRemaining;
      if stack != [] {
        assert Alike(data, pos, stack[|stack| - 1], exact[|stack| - 1]);
        stack, exact := TakeOne(stack), TakeOne(exact);
      } else if topRemaining == 0 {
        ResumeDone(data, pos, word);
        return WithinLimit;
      } else {
        topRemaining := topRemaining - 1;
      }
      ResumeHeader(data, pos, before, top, exact, topRemaining, word);
      var header := ReadItemHeader(data, pos);
      if header.None? {
        return WithinLimit;
      }
      var h := header.value;
      ghost var from := pos;
      pos := pos + h.len;
      AlikeAfter(data, from, pos, before, stack, exact);
      if IsString(h) {
        if h.value >= word {
          return LengthTooLarge;
        }
        if pos + h.value > |data| {
          return WithinLimit;
        }
        pos := pos + h.value;
      } else if IsContainer(h) {
        if |stack| >= MAX_DEPTH {
          return TooDeep;
        }
        var items := if h.major == 4 then h.value else if h.major == 5 then SaturatingDouble(h.value) else 1;
        SaturationUnseen(data, pos, h.value, word);
        if items > 0 {
          stack, exact := stack + [items], exact + [Contents(h)];
        } else {
          ghost var pushed := exact + [Contents(h)];
          assert pushed[..|exact|] == exact;
          ResumeClosed(data, pos, pushed, topRemaining, word);
        }
      }
    }
  }

  lemma {:induction false} ResumeStart(data: seq<byte>, word: nat)
    ensures Resume(data, 0, [], 1, word) == ReadDocument(data, word)
  {
  }

  lemma {:induction false} ResumeDone(data: seq<byte>, pos: nat, word: nat)
    ensures Resume(data, pos, [], 0, word) == WithinLimit
  {
  }

  /** Counts that read alike before an item is taken read alike after the header's bytes. */
  lemma {:induction false} AlikeAfter(
    data: seq<byte>, from: nat, pos: nat, before: seq<nat>, stack: seq<nat>, exact: seq<nat>)
    requires from < pos && |stack| == |exact| == |before|
    requires before == [] ==> exact == []
    requires before != [] ==> before[|before| - 1] > 0 && exact == TakeOne(before)
    requires forall i :: 0 <= i < |stack| - 1 ==> Alike(data, from, stack[i], before[i])
    requires stack != [] ==> Alike(data, from, stack[|stack| - 1] + 1, before[|stack| - 1])
    ensures StacksAlike(data, pos, stack, exact)
  {
  }

  // --- What an Ok protects ----------------------------------------------------

  /** How deep a recursive decoder went, and where it ended if it read all it was asked to. */
  datatype Descent = Descent(end: Option<nat>, deepest: nat)

  /** A recursive decoder without a depth limit of its own. It may reject at any item `stop` picks,
      and takes string lengths modulo the machine word. */
  function Descend(data: seq<byte>, pos: nat, count: nat, ancestors: nat, stop: nat -> bool, word: nat): (r: Descent)
    requires word > 0 && pos <= |data|
    ensures r.deepest >= ancestors
    ensures r.end.Some? ==> pos <= r.end.value <= |data|
    decreases |data| - pos, count
  {
    if count == 0 then Descent(Some(pos), ancestors)
    else if stop(pos) || HeaderAt(data, pos).None? then Descent(None, ancestors)
    else
      var h := HeaderAt(data, pos).value;
      var next := pos + h.len;
      if IsString(h) then
        if next + h.value % word > |data| then Descent(None, ancestors)
        else Descend(data, next + h.value % word, count - 1, ancestors, stop, word)
      else if IsContainer(h) then
        var inner := Descend(data, next, Contents(h), ancestors + 1, stop, word);
        if inner.end.None? then inner
        else
          var rest := Descend(data, inner.end.value, count - 1, ancestors, stop, word);
          Descent(rest.end, Max(inner.deepest, rest.deepest))
      else Descend(data, next, count - 1, ancestors, stop, word)
  }

  /** Where the limited reading did not object, the decoder stays within the limit, and if it gets
      to the end it ends where the reading does. */
  predicate Agrees(r: Reading, d: Descent) {
    (r.Past? || r.verdict == WithinLimit) ==> d.deepest <= MAX_DEPTH && (d.end.Some? ==> r == Past(d.end.value))
  }

  /** One step of the decoder, case by case. */
  lemma {:induction false} DescendStep(
    data: seq<byte>, pos: nat, count: nat, ancestors: nat, stop: nat -> bool, word: nat, h: Header)
    requires word > 0 && pos <= |data| && count > 0 && !stop(pos) && HeaderAt(data, pos) == Some(h)
    ensures IsString(h) && h.value < word && pos + h.len + h.value > |data| ==>
      Descend(data, pos, count, ancestors, stop, word) == Descent(None, ancestors)
    ensures IsString(h) && h.value < word && pos + h.len + h.value <= |data| ==>
      Descend(data, pos, count, ancestors, stop, word)
        == Descend(data, pos + h.len + h.value, count - 1, ancestors, stop, word)
    ensures IsContainer(h) ==>
      Descend(data, pos, count, ancestors, stop, word)
        == DescendThen(data, Descend(data, pos + h.len, Contents(h), ancestors + 1, stop, word),
                       count - 1, ancestors, stop, word)
    ensures !IsString(h) && !IsContainer(h) ==>
      Descend(data, pos, count, ancestors, stop, word)
        == Descend(data, pos + h.len, count - 1, ancestors, stop, word)
  {
    if h.value < word {
      SmallRemainder(h.value, word);
    }
  }

  lemma {:induction false} DescendNothing(
    data: seq<byte>, pos: nat, count: nat, ancestors: nat, stop: nat -> bool, word: nat)
    requires word > 0 && pos <= |data| && (count == 0 || stop(pos) || HeaderAt(data, pos).None?)
    ensures Descend(data, pos, count, ancestors, stop, word)
         == if count == 0 then Descent(Some(pos), ancestors) else Descent(None, ancestors)
  {
  }

  function DescendThen(
    data: seq<byte>, inner: Descent, count: nat, ancestors: nat, stop: nat -> bool, word: nat): Descent
    requires word > 0 && (inner.end.Some? ==> inner.end.value <= |data|)
  {
    if inner.end.None? then inner
    else
      var rest := Descend(data, inner.end.value, count, ancestors, stop, word);
      Descent(rest.end, Max(inner.deepest, rest.deepest))
  }

  lemma {:induction false} DescentWithin(
    data: seq<byte>, pos: nat, count: nat, ancestors: nat, stop: nat -> bool, word: nat)
    requires word > 0 && pos <= |data| && ancestors <= MAX_DEPTH
    ensures Agrees(ReadItems(data, pos, count, ancestors, word), Descend(data, pos, count, ancestors, stop, word))
    decreases |data| - pos, count
  {
    hide ReadItems, Descend, HeaderAt;
    if count == 0 || stop(pos) || HeaderAt(data, pos).None? {
      DescendNothing(data, pos, count, ancestors, stop, word);
      if count == 0 {
        ReadNothing(data, pos, count, ancestors, word);
      }
    } else {
      var h := HeaderAt(data, pos).value;
      var next := pos + h.len;
      ReadStep(data, pos, count, ancestors, word, h);
      DescendStep(data, pos, count, ancestors, stop, word, h);
      if IsString(h) {
        if h.value < word && next + h.value <= |data| {
          DescentWithin(data, next + h.value, count - 1, ancestors, stop, word);
        }
      } else if IsContainer(h) {
        if ancestors < MAX_DEPTH {
          DescentWithin(data, next, Contents(h), ancestors + 1, stop, word);
          var inner := Descend(data, next, Contents(h), ancestors + 1, stop, word);
          if inner.end.Some? {
            DescentWithin(data, inner.end.value, count - 1, ancestors, stop, word);
          }
        }
      } else {
        DescentWithin(data, next, count - 1, ancestors, stop, word);
      }
    }
  }

  lemma {:induction false} SmallRemainder(a: nat, b: nat)
    requires a < b
    ensures a % b == a
  {
  }

  /** When the scan says Ok, no recursive decoder of the same bytes opens more than 128 levels,
      wherever it may stop early. */
  lemma {:induction false} OkBoundsEveryDecoder(data: seq<byte>, stop: nat -> bool, word: nat)
    requires Word(data, word) && ReadDocument(data, word) == WithinLimit
    ensures Descend(data, 0, 1, 0, stop, word).deepest <= MAX_DEPTH
  {
    DescentWithin(data, 0, 1, 0, stop, word);
  }

  function NeverStop(): nat -> bool {
    (pos: nat) => false
  }

  predicate Exceeds(r: Reading, d: Descent) {
    && (r == Stopped(TooDeep) ==> d.deepest > MAX_DEPTH)
    && (r.Past? ==> d.end == Some(r.pos))
  }

  lemma {:induction false} DescentExceeds(data: seq<byte>, pos: nat, count: nat, ancestors: nat, word: nat)
    requires word > 0 && pos <= |data| && ancestors <= MAX_DEPTH
    ensures Exceeds(ReadItems(data, pos, count, ancestors, word), Descend(data, pos, count, ancestors, NeverStop(), word))
    decreases |data| - pos, count
  {
    hide ReadItems, Descend, HeaderAt;
    if count == 0 || HeaderAt(data, pos).None? {
      DescendNothing(data, pos, count, ancestors, NeverStop(), word);
      ReadNothing(data, pos, count, ancestors, word);
    } else {
      var h := HeaderAt(data, pos).value;
      var next := pos + h.len;
      ReadStep(data, pos, count, ancestors, word, h);
      DescendStep(data, pos, count, ancestors, NeverStop(), word, h);
      if IsString(h) {
        if h.value < word && next + h.value <= |data| {
          DescentExceeds(data, next + h.value, count - 1, ancestors, word);
        }
      } else if IsContainer(h) {
        if ancestors < MAX_DEPTH {
          DescentExceeds(data, next, Contents(h), ancestors + 1, word);
          var inner := ReadItems(data, next, Contents(h), ancestors + 1, word);
          if inner.Past? {
            DescentExceeds(data, inner.pos, count - 1, ancestors, word);
          }
        }
      } else {
        DescentExceeds(data, next, count - 1, ancestors, word);
      }
    }
  }

  /** Too-deep is reported only for input that would take an unlimited decoder past 128 levels, and
      on a 64-bit word for every such input. */
  lemma {:induction false} TooDeepExactly(data: seq<byte>, word: nat)
    requires Word(data, word)
    ensures ReadDocument(data, word) == TooDeep ==> Descend(data, 0, 1, 0, NeverStop(), word).deepest > MAX_DEPTH
    ensures word == U64_LIMIT ==>
      (ReadDocument(data, word) == TooDeep <==> Descend(data, 0, 1, 0, NeverStop(), word).deepest > MAX_DEPTH)
  {
    DescentExceeds(data, 0, 1, 0, word);
    if word == U64_LIMIT {
      LengthsFit(data, 0, 1, 0);
      if ReadDocument(data, word) == WithinLimit {
        OkBoundsEveryDecoder(data, NeverStop(), word);
      }
    }
  }

  /** On a 64-bit word no length is too large. */
  lemma {:induction false} LengthsFit(data: seq<byte>, pos: nat, count: nat, ancestors: nat)
    ensures ReadItems(data, pos, count, ancestors, U64_LIMIT) != Stopped(LengthTooLarge)
    decreases |data| - pos, count
  {
    hide HeaderAt, IsString, IsContainer, Contents;
    if count > 0 && HeaderAt(data, pos).Some? {
      HeaderBound(data, pos);
      var h := HeaderAt(data, pos).value;
      var next := pos + h.len;
      if IsString(h) {
        if next + h.value <= |data| {
          LengthsFit(data, next + h.value, count - 1, ancestors);
        }
      } else if IsContainer(h) {
        if ancestors < MAX_DEPTH {
          LengthsFit(data, next, Contents(h), ancestors + 1);
          var inner := ReadItems(data, next, Contents(h), ancestors + 1, U64_LIMIT);
          if inner.Past? {
            LengthsFit(data, inner.pos, count - 1, ancestors);
          }
        }
      } else {
        LengthsFit(data, next, count - 1, ancestors);
      }
    }
  }
}
