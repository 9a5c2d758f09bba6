/** The scan against CBOR itself: data items, their encoding in section 3 of RFC 8949, and their nesting
    depth (crates/rrn-crypto/src/serialize.rs). */
module CborDepth {
  import opened Basics
  import opened DepthGuard

  /** An argument and how many bytes of their own it is written in: none, 1, 2, 4 or 8. */
  datatype Arg = Arg(value: nat, width: nat)

  datatype Item =
    | Unsigned(arg: Arg)
    | Negative(arg: Arg)
    | Bytes(width: nat, data: seq<byte>)
    | Text(width: nat, data: seq<byte>)
    | Array(width: nat, items: seq<Item>)
    | Map(width: nat, pairs: seq<Pair>)
    | Tag(arg: Arg, content: Item)
    | Simple(arg: Arg)

  datatype Pair = Pair(key: Item, value: Item)

  // --- Encoding ---------------------------------------------------------------

  function Digit(n: nat): byte {
    (n % 256) as byte
  }

  /** The low `width` bytes of `value`, most significant first. */
  function BigEndianBytes(value: nat, width: nat): (s: seq<byte>)
    ensures |s| == width
  {
    if width == 0 then [] else BigEndianBytes(value / 256, width - 1) + [Digit(value)]
  }

  /** The argument fits its width: below 24 it may go in the first byte itself. */
  predicate Fits(arg: Arg) {
    match arg.width
    case 0 => arg.value < 24
    case 1 => arg.value < 0x100
    case 2 => arg.value < 0x1_0000
    case 4 => arg.value < 0x1_0000_0000
    case 8 => arg.value < 0x1_0000_0000_0000_0000
    case _ => false
  }

  /** The low five bits of the first byte. */
  function Info(arg: Arg): (info: nat)
    requires Fits(arg)
    ensures info < 32
  {
    match arg.width
    case 0 => arg.value
    case 1 => 24
    case 2 => 25
    case 4 => 26
    case _ => 27
  }

  /** The first byte and the argument of an item of major type `major`. */
  function Head(major: nat, arg: Arg): (s: seq<byte>)
    requires major < 8 && Fits(arg)
    ensures |s| == 1 + arg.width
  {
    [(major * 32 + Info(arg)) as byte] + BigEndianBytes(arg.value, arg.width)
  }

  /** Every argument of the item fits the width it is written in. */
  predicate Encodable(x: Item) {
    match x
    case Unsigned(arg) => Fits(arg)
    case Negative(arg) => Fits(arg)
    case Bytes(width, data) => Fits(Arg(|data|, width))
    case Text(width, data) => Fits(Arg(|data|, width))
    case Array(width, items) => Fits(Arg(|items|, width)) && forall i :: 0 <= i < |items| ==> Encodable(items[i])
    case Map(width, pairs) =>
      Fits(Arg(|pairs|, width)) && forall i :: 0 <= i < |pairs| ==> Encodable(pairs[i].key) && Encodable(pairs[i].value)
    case Tag(arg, content) => Fits(arg) && Encodable(content)
    case Simple(arg) => Fits(arg)
  }

  function Encode(x: Item): (s: seq<byte>)
    requires Encodable(x)
  {
    match x
    case Unsigned(arg) => Head(0, arg)
    case Negative(arg) => Head(1, arg)
    case Bytes(width, data) => Head(2, Arg(|data|, width)) + data
    case Text(width, data) => Head(3, Arg(|data|, width)) + data
    case Array(width, items) => Head(4, Arg(|items|, width)) + EncodeAll(items)
    case Map(width, pairs) => Head(5, Arg(|pairs|, width)) + EncodePairs(pairs)
    case Tag(arg, content) => Head(6, arg) + Encode(content)
    case Simple(arg) => Head(7, arg)
  }

  function EncodeAll(items: seq<Item>): seq<byte>
    requires forall i :: 0 <= i < |items| ==> Encodable(items[i])
  {
    if items == [] then [] else Encode(items[0]) + EncodeAll(items[1..])
  }

  function EncodePairs(pairs: seq<Pair>): seq<byte>
    requires forall i :: 0 <= i < |pairs| ==> Encodable(pairs[i].key) && Encodable(pairs[i].value)
  {
    if pairs == [] then [] else EncodePair(pairs[0]) + EncodePairs(pairs[1..])
  }

  /** The key before the value. */
  function EncodePair(pair: Pair): seq<byte>
    requires Encodable(pair.key) && Encodable(pair.value)
  {
    Encode(pair.key) + Encode(pair.value)
  }

  // --- Depth ------------------------------------------------------------------

  /** How many arrays, maps and tags are open at the item's deepest point; an empty one counts. */
  function Depth(x: Item): nat {
    match x
    case Array(_, items) => 1 + DepthAll(items)
    case Map(_, pairs) => 1 + DepthPairs(pairs)
    case Tag(_, content) => 1 + Depth(content)
    case _ => 0
  }

  function DepthAll(items: seq<Item>): nat {
    if items == [] then 0 else Max(Depth(items[0]), DepthAll(items[1..]))
  }

  function DepthPairs(pairs: seq<Pair>): nat {
    if pairs == [] then 0 else Max(DepthPair(pairs[0]), DepthPairs(pairs[1..]))
  }

  function DepthPair(pair: Pair): nat {
    Max(Depth(pair.key), Depth(pair.value))
  }

  // --- Headers read back ------------------------------------------------------

  /** `s` stands in `data` at `pos`. */
  predicate At(data: seq<byte>, pos: nat, s: seq<byte>) {
    pos + |s| <= |data| && data[pos..pos + |s|] == s
  }

  lemma {:induction false} AtParts(data: seq<byte>, pos: nat, a: seq<byte>, b: seq<byte>)
    requires At(data, pos, a + b)
    ensures At(data, pos, a) && At(data, pos + |a|, b)
  {
    var whole := data[pos..pos + |a + b|];
    assert data[pos..pos + |a|] == whole[..|a|] == (a + b)[..|a|];
    assert data[pos + |a|..pos + |a| + |b|] == whole[|a|..] == (a + b)[|a|..];
  }

  lemma {:induction false} BigEndianReads(data: seq<byte>, pos: nat, value: nat, width: nat)
    requires At(data, pos, BigEndianBytes(value, width)) && value < Pow256(width)
    ensures BigEndian(data, pos, width) == value
  {
    if width > 0 {
      AtParts(data, pos, BigEndianBytes(value / 256, width - 1), [Digit(value)]);
      BigEndianReads(data, pos, value / 256, width - 1);
      assert data[pos + width - 1] == data[pos + width - 1..pos + width][0];
    }
  }

  lemma {:induction false} PowerOf(width: nat)
    ensures width == 1 ==> Pow256(width) == 0x100
    ensures width == 2 ==> Pow256(width) == 0x1_0000
    ensures width == 4 ==> Pow256(width) == 0x1_0000_0000
    ensures width == 8 ==> Pow256(width) == 0x1_0000_0000_0000_0000
  {
    if width > 0 {
      PowerOf(width - 1);
      if width == 4 {
        PowerOf(2);
        assert Pow256(3) == 0x100_0000;
      } else if width == 8 {
        PowerOf(4);
        assert Pow256(5) == 0x100_0000_0000;
        assert Pow256(6) == 0x1_0000_0000_0000;
        assert Pow256(7) == 0x100_0000_0000_0000;
      }
    }
  }

  lemma {:induction false} HeadReads(data: seq<byte>, pos: nat, major: nat, arg: Arg)
    requires major < 8 && Fits(arg) && At(data, pos, Head(major, arg))
    ensures HeaderAt(data, pos) == Some(Header(major, arg.value, 1 + arg.width))
  {
    hide BigEndian, BigEndianBytes, Pow256;
    var first := (major * 32 + Info(arg)) as byte;
    AtParts(data, pos, [first], BigEndianBytes(arg.value, arg.width));
    assert data[pos] == data[pos..pos + 1][0];
    assert data[pos] as nat / 32 == major && data[pos] as nat % 32 == Info(arg);
    PowerOf(arg.width);
    if arg.width > 0 {
      BigEndianReads(data, pos + 1, arg.value, arg.width);
    }
  }

  // --- The scan reads items to their depth ------------------------------------

  /** What reading past an item of this depth comes to. */
  function Reaches(depth: nat, ancestors: nat, rest: Reading): Reading {
    if depth > 0 && ancestors + depth > 128 then Stopped(TooDeep) else rest
  }

  lemma {:induction false} ItemReads(data: seq<byte>, pos: nat, x: Item, count: nat, ancestors: nat, word: nat)
    requires Encodable(x) && At(data, pos, Encode(x)) && count > 0 && ancestors <= 128 && |data| < word
    ensures ReadItems(data, pos, count, ancestors, word)
         == Reaches(Depth(x), ancestors, ReadItems(data, pos + |Encode(x)|, count - 1, ancestors, word))
    decreases x, 0
  {
    hide ReadItems, HeaderAt, Head;
    match x {
      case Unsigned(arg) => PlainReads(data, pos, 0, arg, count, ancestors, word);
      case Negative(arg) => PlainReads(data, pos, 1, arg, count, ancestors, word);
      case Simple(arg) => PlainReads(data, pos, 7, arg, count, ancestors, word);
      case Bytes(width, content) => StringReads(data, pos, 2, width, content, count, ancestors, word);
      case Text(width, content) => StringReads(data, pos, 3, width, content, count, ancestors, word);
      case Array(width, items) =>
        ArrayReads(data, pos, width, items, count, ancestors, word);
        assert Encode(x) == Head(4, Arg(|items|, width)) + EncodeAll(items);
      case Map(width, pairs) =>
        MapReads(data, pos, width, pairs, count, ancestors, word);
        assert Encode(x) == Head(5, Arg(|pairs|, width)) + EncodePairs(pairs);
      case Tag(arg, content) =>
        TagReads(data, pos, arg, content, count, ancestors, word);
        assert Encode(x) == Head(6, arg) + Encode(content);
    }
  }

  lemma {:induction false} ArrayReads(
    data: seq<byte>, pos: nat, width: nat, items: seq<Item>, count: nat, ancestors: nat, word: nat)
    requires Fits(Arg(|items|, width)) && forall i :: 0 <= i < |items| ==> Encodable(items[i])
    requires At(data, pos, Head(4, Arg(|items|, width)) + EncodeAll(items)) && count > 0 && ancestors <= 128 && |data| < word
    ensures ReadItems(data, pos, count, ancestors, word)
         == Reaches(1 + DepthAll(items), ancestors,
                    ReadItems(data, pos + 1 + width + |EncodeAll(items)|, count - 1, ancestors, word))
    decreases items, 1
  {
    hide ReadItems, HeaderAt, Head, EncodeAll, Encodable;
    AtParts(data, pos, Head(4, Arg(|items|, width)), EncodeAll(items));
    if ancestors < 128 {
      AllRead(data, pos + 1 + width, items, ancestors + 1, word);
    }
    ContainerReads(data, pos, 4, Arg(|items|, width), DepthAll(items), |EncodeAll(items)|, count, ancestors, word);
  }

  lemma {:induction false} MapReads(
    data: seq<byte>, pos: nat, width: nat, pairs: seq<Pair>, count: nat, ancestors: nat, word: nat)
    requires Fits(Arg(|pairs|, width)) && forall i :: 0 <= i < |pairs| ==> Encodable(pairs[i].key) && Encodable(pairs[i].value)
    requires At(data, pos, Head(5, Arg(|pairs|, width)) + EncodePairs(pairs)) && count > 0 && ancestors <= 128 && |data| < word
    ensures ReadItems(data, pos, count, ancestors, word)
         == Reaches(1 + DepthPairs(pairs), ancestors,
                    ReadItems(data, pos + 1 + width + |EncodePairs(pairs)|, count - 1, ancestors, word))
    decreases pairs, 1
  {
    hide ReadItems, HeaderAt, Head, EncodePairs, Encodable;
    AtParts(data, pos, Head(5, Arg(|pairs|, width)), EncodePairs(pairs));
    if ancestors < 128 {
      PairsRead(data, pos + 1 + width, pairs, ancestors + 1, word);
    }
    ContainerReads(data, pos, 5, Arg(|pairs|, width), DepthPairs(pairs), |EncodePairs(pairs)|, count, ancestors, word);
  }

  lemma {:induction false} TagReads(data: seq<byte>, pos: nat, arg: Arg, content: Item, count: nat, ancestors: nat, word: nat)
    requires Fits(arg) && Encodable(content)
    requires At(data, pos, Head(6, arg) + Encode(content)) && count > 0 && ancestors <= 128 && |data| < word
    ensures ReadItems(data, pos, count, ancestors, word)
         == Reaches(1 + Depth(content), ancestors,
                    ReadItems(data, pos + 1 + arg.width + |Encode(content)|, count - 1, ancestors, word))
    decreases content, 1
  {
    hide ReadItems, HeaderAt, Head, Encode, Encodable;
    AtParts(data, pos, Head(6, arg), Encode(content));
    if ancestors < 128 {
      ItemReads(data, pos + 1 + arg.width, content, 1, ancestors + 1, word);
      ReadNothing(data, pos + 1 + arg.width + |Encode(content)|, 0, ancestors + 1, word);
    }
    ContainerReads(data, pos, 6, arg, Depth(content), |Encode(content)|, count, ancestors, word);
  }

  /** An array's items one after the other. */
  lemma {:induction false} AllRead(data: seq<byte>, pos: nat, items: seq<Item>, ancestors: nat, word: nat)
    requires forall i :: 0 <= i < |items| ==> Encodable(items[i])
    requires At(data, pos, EncodeAll(items)) && ancestors <= 128 && |data| < word
    ensures ReadItems(data, pos, |items|, ancestors, word)
         == Reaches(DepthAll(items), ancestors, Past(pos + |EncodeAll(items)|))
    decreases items, 0
  {
    hide ReadItems, HeaderAt;
    if items == [] {
      ReadNothing(data, pos, 0, ancestors, word);
    } else {
      AtParts(data, pos, Encode(items[0]), EncodeAll(items[1..]));
      ItemReads(data, pos, items[0], |items|, ancestors, word);
      AllRead(data, pos + |Encode(items[0])|, items[1..], ancestors, word);
    }
  }

  /** A map's keys and values: two items a pair. */
  lemma {:induction false} PairsRead(data: seq<byte>, pos: nat, pairs: seq<Pair>, ancestors: nat, word: nat)
    requires forall i :: 0 <= i < |pairs| ==> Encodable(pairs[i].key) && Encodable(pairs[i].value)
    requires At(data, pos, EncodePairs(pairs)) && ancestors <= 128 && |data| < word
    ensures ReadItems(data, pos, 2 * |pairs|, ancestors, word)
         == Reaches(DepthPairs(pairs), ancestors, Past(pos + |EncodePairs(pairs)|))
    decreases pairs, 0
  {
    hide ReadItems, HeaderAt, EncodePair, DepthPair, Encodable;
    if pairs == [] {
      ReadNothing(data, pos, 0, ancestors, word);
    } else {
      AtParts(data, pos, EncodePair(pairs[0]), EncodePairs(pairs[1..]));
      PairReads(data, pos, pairs[0], 2 * |pairs|, ancestors, word);
      PairsRead(data, pos + |EncodePair(pairs[0])|, pairs[1..], ancestors, word);
    }
  }

  lemma {:induction false} PairReads(data: seq<byte>, pos: nat, pair: Pair, count: nat, ancestors: nat, word: nat)
    requires Encodable(pair.key) && Encodable(pair.value) && At(data, pos, EncodePair(pair))
    requires count >= 2 && ancestors <= 128 && |data| < word
    ensures ReadItems(data, pos, count, ancestors, word)
         == Reaches(DepthPair(pair), ancestors, ReadItems(data, pos + |EncodePair(pair)|, count - 2, ancestors, word))
    decreases pair, 0
  {
    hide ReadItems, HeaderAt;
    AtParts(data, pos, Encode(pair.key), Encode(pair.value));
    ItemReads(data, pos, pair.key, count, ancestors, word);
    ItemReads(data, pos + |Encode(pair.key)|, pair.value, count - 1, ancestors, word);
  }

  lemma {:induction false} PlainReads(data: seq<byte>, pos: nat, major: nat, arg: Arg, count: nat, ancestors: nat, word: nat)
    requires major in {0, 1, 7} && Fits(arg) && At(data, pos, Head(major, arg)) && count > 0
    ensures ReadItems(data, pos, count, ancestors, word)
         == ReadItems(data, pos + 1 + arg.width, count - 1, ancestors, word)
  {
    hide ReadItems, HeaderAt, Head;
    HeadReads(data, pos, major, arg);
    ReadStep(data, pos, count, ancestors, word, Header(major, arg.value, 1 + arg.width));
  }

  lemma {:induction false} StringReads(
    data: seq<byte>, pos: nat, major: nat, width: nat, content: seq<byte>, count: nat, ancestors: nat, word: nat)
    requires major in {2, 3} && Fits(Arg(|content|, width)) && At(data, pos, Head(major, Arg(|content|, width)) + content)
    requires count > 0 && |data| < word
    ensures ReadItems(data, pos, count, ancestors, word)
         == ReadItems(data, pos + 1 + width + |content|, count - 1, ancestors, word)
  {
    hide ReadItems, HeaderAt, Head;
    AtParts(data, pos, Head(major, Arg(|content|, width)), content);
    HeadReads(data, pos, major, Arg(|content|, width));
    ReadStep(data, pos, count, ancestors, word, Header(major, |content|, 1 + width));
  }

  /** A container whose contents read to their depth and end where their bytes do. */
  lemma {:induction false} ContainerReads(
    data: seq<byte>, pos: nat, major: nat, arg: Arg, inner: nat, length: nat, count: nat, ancestors: nat, word: nat)
    requires 4 <= major <= 6 && Fits(arg) && At(data, pos, Head(major, arg)) && count > 0 && ancestors <= 128
    requires ancestors < 128 ==>
      ReadItems(data, pos + 1 + arg.width, if major == 4 then arg.value else if major == 5 then 2 * arg.value else 1,
                ancestors + 1, word)
      == Reaches(inner, ancestors + 1, Past(pos + 1 + arg.width + length))
    ensures ReadItems(data, pos, count, ancestors, word)
         == Reaches(1 + inner, ancestors, ReadItems(data, pos + 1 + arg.width + length, count - 1, ancestors, word))
  {
    hide ReadItems, HeaderAt, Head;
    HeadReads(data, pos, major, arg);
    ReadStep(data, pos, count, ancestors, word, Header(major, arg.value, 1 + arg.width));
  }

  /** The scan of an item's encoding, whatever bytes follow it, says too deep exactly when the item nests more
      than 128 arrays, maps and tags, and within the limit otherwise. */
  lemma {:induction false} ScanMeasuresDepth(x: Item, rest: seq<byte>, word: nat)
    requires Encodable(x) && |Encode(x) + rest| < word
    ensures ReadDocument(Encode(x) + rest, word) == if Depth(x) > 128 then TooDeep else WithinLimit
  {
    hide ReadItems;
    var data := Encode(x) + rest;
    assert data[0..|Encode(x)|] == Encode(x);
    ItemReads(data, 0, x, 1, 0, word);
    ReadNothing(data, |Encode(x)|, 0, 0, word);
  }
}
