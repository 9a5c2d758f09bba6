/** The paper courier's image writer: stored DEFLATE, its checksum, and grayscale PNG
    (crates/rrn-cli/src/paper.rs), against readers written from RFC 1950, RFC 1951 and RFC 2083. */
module Paper {
  import opened Basics

  type byte = x: int | 0 <= x < 256

  // --- Fixed-width numbers ----------------------------------------------------

  const TWO_16: nat := 0x1_0000
  const TWO_32: nat := 0x1_0000_0000

  function Octet(n: nat): byte {
    var low: int := n % 256;
    low
  }

  /** Big-endian bytes of the low 32 bits. */
  function Be32(n: nat): (s: seq<byte>)
    ensures |s| == 4
  {
    [Octet(n / 0x100_0000), Octet(n / 0x1_0000), Octet(n / 256), Octet(n)]
  }

  function FromBe32(s: seq<byte>): nat
    requires |s| >= 4
  {
    (s[0] as int) * 0x100_0000 + (s[1] as int) * 0x1_0000 + (s[2] as int) * 256 + s[3] as int
  }

  lemma {:induction false} Be32Reads(n: nat, rest: seq<byte>)
    ensures FromBe32(Be32(n) + rest) == n % TWO_32
  {
    hide Octet;
    var s := Be32(n) + rest;
    assert s[0] == Octet(n / 0x100_0000) && s[1] == Octet(n / 0x1_0000) && s[2] == Octet(n / 256) && s[3] == Octet(n);
    Digits(n);
  }

  lemma {:induction false} Digits(n: nat)
    ensures n % TWO_32
         == (Octet(n / 0x100_0000) as int) * 0x100_0000 + (Octet(n / 0x1_0000) as int) * 0x1_0000
            + (Octet(n / 256) as int) * 256 + Octet(n) as int
  {
    var a := n / 256;
    var b := a / 256;
    var c := b / 256;
    assert n / 0x1_0000 == b && n / 0x100_0000 == c;
    assert n == 256 * a + n % 256 && a == 256 * b + a % 256 && b == 256 * c + b % 256 && c == 256 * (c / 256) + c % 256;
    assert n == TWO_32 * (c / 256) + (c % 256 * 0x100_0000 + b % 256 * 0x1_0000 + a % 256 * 256 + n % 256);
  }

  function Le16(n: nat): (s: seq<byte>)
    ensures |s| == 2
  {
    [Octet(n), Octet(n / 256)]
  }

  function FromLe16(s: seq<byte>): nat
    requires |s| >= 2
  {
    s[0] as int + (s[1] as int) * 256
  }

  // --- Adler-32 ---------------------------------------------------------------

  const ADLER_BASE: nat := 65521

  function Sum(s: seq<byte>): nat {
    if s == [] then 0 else Sum(s[..|s| - 1]) + s[|s| - 1]
  }

  /** The sum of the running sums, each starting from one. */
  function RunningSum(s: seq<byte>): nat {
    if s == [] then 0 else RunningSum(s[..|s| - 1]) + 1 + Sum(s)
  }

  /** Section 8.2 of RFC 1950: two sums over the whole input, each reduced once at the end. */
  function Adler(s: seq<byte>): nat {
    RunningSum(s) % ADLER_BASE * TWO_16 + (1 + Sum(s)) % ADLER_BASE
  }

  method Adler32(bytes: seq<byte>) returns (sum: nat)
    ensures sum == Adler(bytes) && sum < TWO_32
  {
    var a: nat, b: nat := 1, 0;
    for i := 0 to |bytes|
      invariant a == (1 + Sum(bytes[..i])) % ADLER_BASE
      invariant b == RunningSum(bytes[..i]) % ADLER_BASE
    {
      hide Sum, RunningSum;
      AdlerStep(bytes, i);
      a := (a + bytes[i]) % ADLER_BASE;
      b := (b + a) % ADLER_BASE;
    }
    assert bytes[..|bytes|] == bytes;
    sum := b * TWO_16 + a;
  }

  /** Reducing at every step comes to the same sums. */
  lemma {:induction false} AdlerStep(bytes: seq<byte>, i: nat)
    requires i < |bytes|
    ensures (var a, b := (1 + Sum(bytes[..i])) % ADLER_BASE, RunningSum(bytes[..i]) % ADLER_BASE;
             var a' := (a + bytes[i]) % ADLER_BASE;
             && a' == (1 + Sum(bytes[..i + 1])) % ADLER_BASE
             && (b + a') % ADLER_BASE == RunningSum(bytes[..i + 1]) % ADLER_BASE)
  {
    var before, after := bytes[..i], bytes[..i + 1];
    assert after[..i] == before;
    assert Sum(after) == Sum(before) + bytes[i] as int && RunningSum(after) == RunningSum(before) + 1 + Sum(after);
    ModAdd(1 + Sum(before), bytes[i]);
    ModAdd(RunningSum(before), (1 + Sum(after)) % ADLER_BASE);
    ModAdd(1 + Sum(after), RunningSum(before));
  }

  lemma {:induction false} ModAdd(x: nat, y: nat)
    ensures (x % ADLER_BASE + y) % ADLER_BASE == (x + y) % ADLER_BASE
  {
    var q := x / ADLER_BASE;
    assert x + y == x % ADLER_BASE + y + q * ADLER_BASE;
    assert (x % ADLER_BASE + y + q * ADLER_BASE) % ADLER_BASE == (x % ADLER_BASE + y) % ADLER_BASE;
  }

  // --- Stored DEFLATE ---------------------------------------------------------

  const BLOCK: nat := 0xFFFF

  function Block(final: bool, data: seq<byte>): seq<byte>
    requires |data| <= BLOCK
  {
    [if final then 1 else 0] + Le16(|data|) + Le16(BLOCK - |data|) + data
  }

  /** Full blocks, then one final block with the rest. */
  function Blocks(raw: seq<byte>): seq<byte>
    decreases |raw|
  {
    if |raw| <= BLOCK then Block(true, raw) else Block(false, raw[..BLOCK]) + Blocks(raw[BLOCK..])
  }

  function Zlib(raw: seq<byte>): seq<byte> {
    [0x78, 0x01] + Blocks(raw) + Be32(Adler(raw))
  }

  method ZlibStored(raw: seq<byte>) returns (out: seq<byte>)
    ensures out == Zlib(raw)
  {
    hide Blocks, Block, Le16;
    out := [0x78, 0x01];
    var i, last := 0, false;
    assert raw[0..] == raw;
    while !last
      invariant 0 <= i <= |raw|
      invariant !last ==> out + Blocks(raw[i..]) == [0x78, 0x01] + Blocks(raw)
      invariant last ==> out == [0x78, 0x01] + Blocks(raw)
      decreases |raw| - i, !last
    {
      var end := Min(i + BLOCK, |raw|);
      var chunk := raw[i..end];
      last := end == |raw|;
      BlocksStep(raw, i, end, out);
      ghost var before := out;
      out := out + [if last then 1 else 0];
      out := out + Le16(|chunk|);
      out := out + Le16(BLOCK - |chunk|);
      out := out + chunk;
      BlockBytes(before, last, chunk);
      i := end;
    }
    var sum := Adler32(raw);
    out := out + Be32(sum);
  }

  lemma {:induction false} BlockBytes(before: seq<byte>, last: bool, chunk: seq<byte>)
    requires |chunk| <= BLOCK
    ensures before + [if last then 1 else 0] + Le16(|chunk|) + Le16(BLOCK - |chunk|) + chunk == before + Block(last, chunk)
  {
  }

  /** What one turn of the loop adds, after anything. */
  lemma {:induction false} BlocksStep(raw: seq<byte>, i: nat, end: nat, before: seq<byte>)
    requires i <= |raw| && end == Min(i + BLOCK, |raw|)
    ensures before + Blocks(raw[i..])
         == if end == |raw| then before + Block(true, raw[i..end])
            else before + Block(false, raw[i..end]) + Blocks(raw[end..])
  {
    hide Block;
    var rest := raw[i..];
    if end == |raw| {
      assert raw[i..end] == rest;
    } else {
      assert rest[..BLOCK] == raw[i..end] && rest[BLOCK..] == raw[end..];
    }
  }

  datatype Inflated = Inflated(data: seq<byte>, finals: seq<bool>, rest: seq<byte>)

  /** Section 3.2.4 of RFC 1951: blocks are read until one is marked final. The low bit of a header is
      BFINAL, the next two BTYPE, and the rest of its byte is skipped. */
  function Inflate(s: seq<byte>): Option<Inflated>
    decreases |s|
  {
    if |s| < 5 || s[0] / 2 % 4 != 0 then None
    else
      var len, final := FromLe16(s[1..]), s[0] % 2 == 1;
      if FromLe16(s[3..]) != BLOCK - len || |s| < 5 + len then None
      else if final then Some(Inflated(s[5..5 + len], [true], s[5 + len..]))
      else
        match Inflate(s[5 + len..])
        case None => None
        case Some(more) => Some(Inflated(s[5..5 + len] + more.data, [false] + more.finals, more.rest))
  }

  lemma {:induction false} Le16Reads(n: nat)
    requires n < TWO_16
    ensures Octet(n) as int + (Octet(n / 256) as int) * 256 == n
  {
  }

  /** One block read back. */
  lemma {:induction false} BlockReads(final: bool, data: seq<byte>, rest: seq<byte>)
    requires |data| <= BLOCK
    ensures (var s := Block(final, data) + rest;
             && |s| >= 5 && s[0] / 2 % 4 == 0 && (s[0] % 2 == 1 <==> final)
             && FromLe16(s[1..]) == |data| && FromLe16(s[3..]) == BLOCK - |data|
             && |s| >= 5 + |data| && s[5..5 + |data|] == data && s[5 + |data|..] == rest)
  {
    hide Octet;
    var s := Block(final, data) + rest;
    Le16Reads(|data|);
    Le16Reads(BLOCK - |data|);
    assert s[1] == Octet(|data|) && s[2] == Octet(|data| / 256);
    assert s[3] == Octet(BLOCK - |data|) && s[4] == Octet((BLOCK - |data|) / 256);
  }

  /** What follows a block that is not the last. */
  function Resumed(data: seq<byte>, more: Option<Inflated>): Option<Inflated> {
    match more
    case None => None
    case Some(m) => Some(Inflated(data + m.data, [false] + m.finals, m.rest))
  }

  lemma {:induction false} InflateStep(final: bool, data: seq<byte>, rest: seq<byte>)
    requires |data| <= BLOCK
    ensures Inflate(Block(final, data) + rest)
         == if final then Some(Inflated(data, [true], rest)) else Resumed(data, Inflate(rest))
  {
    hide Block, FromLe16;
    BlockReads(final, data, rest);
  }

  /** Every input is recovered, and exactly the last block is final. */
  lemma {:induction false} InflateBlocks(raw: seq<byte>, rest: seq<byte>) returns (n: nat)
    ensures Inflate(Blocks(raw) + rest) == Some(Inflated(raw, seq(n, _ => false) + [true], rest))
    decreases |raw|
  {
    hide Block, Inflate;
    if |raw| <= BLOCK {
      n := 0;
      InflateStep(true, raw, rest);
      assert seq(0, _ => false) + [true] == [true];
    } else {
      var first, left := raw[..BLOCK], raw[BLOCK..];
      var more := InflateBlocks(left, rest);
      n := more + 1;
      InflateStep(false, first, Blocks(left) + rest);
      assert Blocks(raw) + rest == Block(false, first) + (Blocks(left) + rest);
      assert [false] + (seq(more, _ => false) + [true]) == seq(n, _ => false) + [true];
      assert first + left == raw;
    }
  }

  /** Section 2.2 of RFC 1950: CM is 8 with a window of at most 32K, no preset dictionary, the two header
      bytes a multiple of 31; then the blocks and the checksum, and nothing else. */
  function Unzlib(s: seq<byte>): Option<seq<byte>> {
    if |s| < 2 || s[0] % 16 != 8 || s[0] / 16 > 7 || ((s[0] as int) * 256 + s[1] as int) % 31 != 0 || s[1] / 32 % 2 != 0 then None
    else
      match Inflate(s[2..])
      case None => None
      case Some(r) => if |r.rest| == 4 && FromBe32(r.rest) == Adler(r.data) then Some(r.data) else None
  }

  lemma {:induction false} AdlerFits(s: seq<byte>)
    ensures Adler(s) < TWO_32
  {
  }

  /** For every byte string, the stored stream reads back as it. */
  lemma {:induction false} ZlibRoundTrip(raw: seq<byte>)
    ensures Unzlib(Zlib(raw)) == Some(raw)
  {
    hide Inflate, Blocks, Adler, FromBe32, Be32;
    var trailer := Be32(Adler(raw));
    var n := InflateBlocks(raw, trailer);
    assert Zlib(raw)[2..] == Blocks(raw) + trailer;
    Be32Reads(Adler(raw), []);
    AdlerFits(raw);
    assert trailer + [] == trailer;
  }

  // --- CRC-32 -----------------------------------------------------------------

  /** The low `k` bits of `n`, lowest first. */
  function Bits(n: nat, k: nat): (w: seq<bool>)
    ensures |w| == k
  {
    if k == 0 then [] else [n % 2 == 1] + Bits(n / 2, k - 1)
  }

  function Value(w: seq<bool>): nat {
    if w == [] then 0 else (if w[0] then 1 else 0) + 2 * Value(w[1..])
  }

  /** 32-bit words, lowest bit first. */
  type Word = w: seq<bool> | |w| == 32 witness Bits(0, 32)

  function Xor(a: Word, b: Word): Word {
    seq(32, i requires 0 <= i < 32 => a[i] != b[i])
  }

  function And(a: Word, b: Word): Word {
    seq(32, i requires 0 <= i < 32 => a[i] && b[i])
  }

  function ShiftRight(a: Word): Word {
    a[1..] + [false]
  }

  function Not(a: Word): Word {
    seq(32, i requires 0 <= i < 32 => !a[i])
  }

  /** The negation of the lowest bit, wrapping: all ones or all zeros. */
  function Mask(a: Word): Word {
    seq(32, _ => a[0])
  }

  const POLYNOMIAL: Word := Bits(0xEDB8_8320, 32)
  const ONES: Word := Bits(0xFFFF_FFFF, 32)

  /** One bit of division by the reflected polynomial. */
  function Divide(c: Word): Word {
    if c[0] then Xor(ShiftRight(c), POLYNOMIAL) else ShiftRight(c)
  }

  function DivideBits(crc: Word, n: nat): Word {
    if n == 0 then crc else Divide(DivideBits(crc, n - 1))
  }

  /** The register after one more byte. */
  function Absorb(crc: Word, x: byte): Word {
    DivideBits(Xor(crc, Bits(x, 32)), 8)
  }

  function Register(s: seq<byte>): Word {
    if s == [] then ONES else Absorb(Register(s[..|s| - 1]), s[|s| - 1])
  }

  function Crc(s: seq<byte>): nat {
    Value(Not(Register(s)))
  }

  method Crc32(bytes: seq<byte>) returns (sum: nat)
    ensures sum == Crc(bytes)
  {
    hide Bits, Divide, Xor, And, ShiftRight, Mask, Value, Not;
    var crc := ONES;
    for i := 0 to |bytes|
      invariant crc == Register(bytes[..i])
    {
      assert bytes[..i + 1][..i] == bytes[..i];
      crc := Xor(crc, Bits(bytes[i], 32));
      ghost var start := crc;
      for k := 0 to 8
        invariant crc == DivideBits(start, k)
      {
        MaskChooses(crc);
        var mask := Mask(crc);
        crc := Xor(ShiftRight(crc), And(POLYNOMIAL, mask));
      }
    }
    assert bytes[..|bytes|] == bytes;
    sum := Value(Not(crc));
  }

  /** Masking the polynomial divides without a branch. */
  lemma {:induction false} MaskChooses(c: Word)
    ensures Xor(ShiftRight(c), And(POLYNOMIAL, Mask(c))) == Divide(c)
  {
    hide Bits;
    if c[0] {
      assert And(POLYNOMIAL, Mask(c)) == POLYNOMIAL;
    } else {
      assert Xor(ShiftRight(c), And(POLYNOMIAL, Mask(c))) == ShiftRight(c);
    }
  }

  /** Dividing loses nothing: the bit shifted out comes back as the highest bit. */
  lemma {:induction false} DivideInjective(a: Word, b: Word)
    requires Divide(a) == Divide(b)
    ensures a == b
  {
    hide Bits;
    HighestBit();
    assert Divide(a)[31] == a[0] && Divide(b)[31] == b[0];
    forall i | 0 < i < 32 ensures a[i] == b[i] {
      assert Divide(a)[i - 1] == Divide(b)[i - 1];
      assert ShiftRight(a)[i - 1] == a[i] && ShiftRight(b)[i - 1] == b[i];
    }
  }

  function Halved(n: nat, i: nat): nat {
    if i == 0 then n else Halved(n / 2, i - 1)
  }

  lemma {:induction false} BitAt(n: nat, k: nat, i: nat)
    requires i < k
    ensures Bits(n, k)[i] == (Halved(n, i) % 2 == 1)
  {
    if i > 0 {
      BitAt(n / 2, k - 1, i - 1);
    }
  }

  lemma {:induction false} HalvedEight(n: nat, i: nat)
    ensures Halved(n, i + 8) == Halved(n / 256, i)
  {
    var a := n / 2 / 2 / 2 / 2;
    assert Halved(n, i + 8) == Halved(n / 2, i + 7) == Halved(n / 2 / 2, i + 6) == Halved(n / 2 / 2 / 2, i + 5) == Halved(a, i + 4);
    assert Halved(a, i + 4) == Halved(a / 2, i + 3) == Halved(a / 2 / 2, i + 2) == Halved(a / 2 / 2 / 2, i + 1)
        == Halved(a / 2 / 2 / 2 / 2, i);
    assert a / 2 / 2 / 2 / 2 == n / 256;
  }

  lemma {:induction false} HighestBit()
    ensures POLYNOMIAL[31]
  {
    hide Bits;
    BitAt(0xEDB8_8320, 32, 31);
    HalvedEight(0xEDB8_8320, 23);
    HalvedEight(0xED_B883, 15);
    HalvedEight(0xEDB8, 7);
    assert Halved(0xED, 7) == 1;
  }

  function Pow2(i: nat): (p: nat)
    ensures p > 0
  {
    if i == 0 then 1 else 2 * Pow2(i - 1)
  }

  lemma {:induction false} Pow2Eight(i: nat)
    ensures Pow2(i + 8) == 256 * Pow2(i)
  {
    assert Pow2(i + 8) == 2 * Pow2(i + 7) == 4 * Pow2(i + 6) == 8 * Pow2(i + 5) == 16 * Pow2(i + 4);
    assert Pow2(i + 4) == 2 * Pow2(i + 3) == 4 * Pow2(i + 2) == 8 * Pow2(i + 1) == 16 * Pow2(i);
  }

  lemma {:induction false} Pow2Word()
    ensures Pow2(32) == TWO_32
  {
    Pow2Eight(0);
    Pow2Eight(8);
    Pow2Eight(16);
    Pow2Eight(24);
  }

  lemma {:induction false} BitsInjective(x: byte, y: byte, k: nat)
    requires Bits(x, k) == Bits(y, k) && x < Pow2(k) && y < Pow2(k)
    ensures x == y
  {
    if k > 0 {
      assert Bits(x, k)[0] == (x % 2 == 1) && Bits(y, k)[0] == (y % 2 == 1);
      assert Bits(x / 2, k - 1) == Bits(x, k)[1..] && Bits(y / 2, k - 1) == Bits(y, k)[1..];
      BitsInjective(x / 2, y / 2, k - 1);
    }
  }

  lemma {:induction false} DivideBitsInjective(a: Word, b: Word, n: nat)
    requires DivideBits(a, n) == DivideBits(b, n)
    ensures a == b
  {
    hide Divide;
    if n > 0 {
      DivideInjective(DivideBits(a, n - 1), DivideBits(b, n - 1));
      DivideBitsInjective(a, b, n - 1);
    }
  }

  lemma {:induction false} XorCancels(a: Word, b: Word, c: Word)
    requires Xor(a, c) == Xor(b, c)
    ensures a == b
  {
    forall i | 0 <= i < 32 ensures a[i] == b[i] {
      assert Xor(a, c)[i] == Xor(b, c)[i];
    }
  }

  lemma {:induction false} XorCommutes(a: Word, b: Word)
    ensures Xor(a, b) == Xor(b, a)
  {
  }

  /** A byte absorbed into different registers leaves them different, and so do different bytes absorbed
      into one. */
  lemma {:induction false} AbsorbInjective(a: Word, b: Word, x: byte, y: byte)
    requires Absorb(a, x) == Absorb(b, y)
    ensures x == y ==> a == b
    ensures a == b ==> x == y
  {
    hide Bits, Xor, DivideBits;
    DivideBitsInjective(Xor(a, Bits(x, 32)), Xor(b, Bits(y, 32)), 8);
    if x == y {
      XorCancels(a, b, Bits(x, 32));
    }
    if a == b {
      XorCommutes(a, Bits(x, 32));
      XorCommutes(a, Bits(y, 32));
      XorCancels(Bits(x, 32), Bits(y, 32), a);
      ByteBits(x, y);
    }
  }

  lemma {:induction false} ByteBits(x: byte, y: byte)
    requires Bits(x, 32) == Bits(y, 32)
    ensures x == y
  {
    hide Bits;
    Pow2Word();
    BitsInjective(x, y, 32);
  }

  lemma {:induction false} ValueInjective(a: seq<bool>, b: seq<bool>)
    requires |a| == |b| && Value(a) == Value(b)
    ensures a == b
  {
    if a != [] {
      assert a[0] == b[0];
      ValueInjective(a[1..], b[1..]);
      assert a == [a[0]] + a[1..] && b == [b[0]] + b[1..];
    }
  }

  lemma {:induction false} NotInjective(a: Word, b: Word)
    requires Not(a) == Not(b)
    ensures a == b
  {
    forall i | 0 <= i < 32 ensures a[i] == b[i] {
      assert Not(a)[i] == Not(b)[i];
    }
  }

  lemma {:induction false} RegisterInjective(head: seq<byte>, x: byte, y: byte, tail: seq<byte>)
    requires Register(head + [x] + tail) == Register(head + [y] + tail)
    ensures x == y
  {
    hide Absorb, ONES;
    var a, b := head + [x] + tail, head + [y] + tail;
    if tail == [] {
      assert a[..|a| - 1] == head && b[..|b| - 1] == head;
      AbsorbInjective(Register(head), Register(head), x, y);
    } else {
      var init, last := tail[..|tail| - 1], tail[|tail| - 1];
      assert a[..|a| - 1] == head + [x] + init && b[..|b| - 1] == head + [y] + init;
      AbsorbInjective(Register(head + [x] + init), Register(head + [y] + init), last, last);
      RegisterInjective(head, x, y, init);
    }
  }

  /** The checksum tells apart any two inputs that differ in one byte. */
  lemma {:induction false} OneByteDetected(head: seq<byte>, x: byte, y: byte, tail: seq<byte>)
    requires x != y
    ensures Crc(head + [x] + tail) != Crc(head + [y] + tail)
  {
    hide Value, Not, Register;
    var a, b := Register(head + [x] + tail), Register(head + [y] + tail);
    if Value(Not(a)) == Value(Not(b)) {
      ValueInjective(Not(a), Not(b));
      NotInjective(a, b);
      RegisterInjective(head, x, y, tail);
      assert false;
    }
  }

  lemma {:induction false} ValueBound(w: seq<bool>)
    ensures Value(w) < Pow2(|w|)
  {
    if w != [] {
      ValueBound(w[1..]);
    }
  }

  // --- PNG --------------------------------------------------------------------

  const SIGNATURE: seq<byte> := [0x89, 0x50, 0x4E, 0x47, 0x0D, 0x0A, 0x1A, 0x0A]
  const IHDR: seq<byte> := [0x49, 0x48, 0x44, 0x52]
  const IDAT: seq<byte> := [0x49, 0x44, 0x41, 0x54]
  const IEND: seq<byte> := [0x49, 0x45, 0x4E, 0x44]

  /** The length field keeps the low 32 bits of the data's length. */
  function Chunk(kind: seq<byte>, data: seq<byte>): seq<byte>
    requires |kind| == 4
  {
    Be32(|data|) + kind + data + Be32(Crc(kind + data))
  }

  method PngChunk(out: seq<byte>, kind: seq<byte>, data: seq<byte>) returns (result: seq<byte>)
    requires |kind| == 4
    ensures result == out + Chunk(kind, data)
  {
    result := out + Be32(|data|);
    result := result + kind;
    result := result + data;
    var crc := Crc32(kind + data);
    result := result + Be32(crc);
    assert result == out + Chunk(kind, data);
  }

  /** The scanlines of an image, each after a zero filter byte. */
  function Scanlines(w: nat, h: nat, pixels: seq<byte>): (raw: seq<byte>)
    requires |pixels| == w * h
    decreases h
  {
    if h == 0 then []
    else
      RowsLeft(w, h);
      [0] + pixels[..w] + Scanlines(w, h - 1, pixels[w..])
  }

  lemma {:induction false} RowsLeft(w: nat, h: nat)
    requires h > 0
    ensures w * h == w + w * (h - 1) && w <= w * h
  {
  }

  function Header(w: nat, h: nat): seq<byte> {
    Be32(w) + Be32(h) + [8, 0, 0, 0, 0]
  }

  function Png(w: nat, h: nat, pixels: seq<byte>): seq<byte>
    requires |pixels| == w * h
  {
    SIGNATURE + Chunk(IHDR, Header(w, h)) + Chunk(IDAT, Zlib(Scanlines(w, h, pixels))) + Chunk(IEND, [])
  }

  method GrayPng(w: nat, h: nat, pixels: seq<byte>) returns (png: seq<byte>)
    requires w < TWO_32 && h < TWO_32 && |pixels| == w * h
    ensures png == Png(w, h, pixels)
  {
    var raw: seq<byte> := [];
    var y := 0;
    while y < h
      invariant 0 <= y <= h && 0 <= y * w <= |pixels| && |pixels[y * w..]| == w * (h - y)
      invariant raw + Scanlines(w, h - y, pixels[y * w..]) == Scanlines(w, h, pixels)
    {
      RowsLeft(w, h - y);
      var line := pixels[y * w..(y + 1) * w];
      ghost var left := pixels[y * w..];
      assert left[..w] == line && left[w..] == pixels[(y + 1) * w..];
      raw := raw + [0];
      raw := raw + line;
      y := y + 1;
    }
    assert raw + [] == raw;
    png := SIGNATURE;
    var ihdr := Be32(w) + Be32(h);
    ihdr := ihdr + [8, 0];
    ihdr := ihdr + [0, 0, 0];
    png := PngChunk(png, IHDR, ihdr);
    assert ihdr == Header(w, h);
    var idat := ZlibStored(raw);
    png := PngChunk(png, IDAT, idat);
    png := PngChunk(png, IEND, []);
  }

  datatype Piece = Piece(kind: seq<byte>, data: seq<byte>, rest: seq<byte>)

  /** Section 3.2 of RFC 2083: length, type, data, and the checksum of type and data. */
  function ReadChunk(s: seq<byte>): Option<Piece> {
    if |s| < 12 then None
    else
      var len := FromBe32(s);
      if |s| < 12 + len || FromBe32(s[8 + len..]) != Crc(s[4..8 + len]) then None
      else Some(Piece(s[4..8], s[8..8 + len], s[12 + len..]))
  }

  function Unscan(w: nat, h: nat, raw: seq<byte>): Option<seq<byte>>
    decreases h
  {
    if h == 0 then (if raw == [] then Some([]) else None)
    else if |raw| < w + 1 || raw[0] != 0 then None
    else
      match Unscan(w, h - 1, raw[w + 1..])
      case None => None
      case Some(below) => Some(raw[1..w + 1] + below)
  }

  datatype Image = Image(w: nat, h: nat, pixels: seq<byte>)

  /** A reader of 8-bit grayscale images with one data chunk. */
  function ReadPng(s: seq<byte>): Option<Image> {
    if |s| < 8 || s[..8] != SIGNATURE then None
    else
      match ReadChunk(s[8..])
      case None => None
      case Some(ihdr) =>
        if ihdr.kind != IHDR || |ihdr.data| != 13 || ihdr.data[8..] != [8, 0, 0, 0, 0] then None
        else
          match ReadChunk(ihdr.rest)
          case None => None
          case Some(idat) =>
            if idat.kind != IDAT || Unzlib(idat.data).None? || ReadChunk(idat.rest) != Some(Piece(IEND, [], [])) then None
            else
              var w, h := FromBe32(ihdr.data), FromBe32(ihdr.data[4..]);
              match Unscan(w, h, Unzlib(idat.data).value)
              case None => None
              case Some(pixels) => Some(Image(w, h, pixels))
  }

  lemma {:induction false} ChunkReads(kind: seq<byte>, data: seq<byte>, rest: seq<byte>)
    requires |kind| == 4 && |data| < TWO_32
    ensures ReadChunk(Chunk(kind, data) + rest) == Some(Piece(kind, data, rest))
  {
    hide Crc, Be32, FromBe32;
    var crc := Be32(Crc(kind + data));
    var s := Chunk(kind, data) + rest;
    assert s == Be32(|data|) + (kind + data + crc + rest);
    Be32Reads(|data|, kind + data + crc + rest);
    assert s[4..8] == kind && s[8..8 + |data|] == data && s[12 + |data|..] == rest;
    assert s[4..8 + |data|] == kind + data;
    assert s[8 + |data|..] == crc + rest;
    Be32Reads(Crc(kind + data), rest);
    CrcFits(kind + data);
  }

  lemma {:induction false} CrcFits(s: seq<byte>)
    ensures Crc(s) < TWO_32
  {
    hide Register, Not;
    ValueBound(Not(Register(s)));
    Pow2Word();
  }

  lemma {:induction false} UnscanLines(w: nat, h: nat, pixels: seq<byte>)
    requires |pixels| == w * h
    ensures Unscan(w, h, Scanlines(w, h, pixels)) == Some(pixels)
    decreases h
  {
    if h > 0 {
      RowsLeft(w, h);
      UnscanLines(w, h - 1, pixels[w..]);
      var raw := Scanlines(w, h, pixels);
      assert raw[1..w + 1] == pixels[..w] && raw[w + 1..] == Scanlines(w, h - 1, pixels[w..]);
      assert pixels[..w] + pixels[w..] == pixels;
    }
  }

  lemma {:induction false} HeaderReads(w: nat, h: nat)
    requires w < TWO_32 && h < TWO_32
    ensures (var header := Header(w, h);
             |header| == 13 && header[8..] == [8, 0, 0, 0, 0] && FromBe32(header) == w && FromBe32(header[4..]) == h)
  {
    hide Be32, FromBe32;
    var tail: seq<byte> := [8, 0, 0, 0, 0];
    var header := Header(w, h);
    assert header == Be32(w) + (Be32(h) + tail);
    Be32Reads(w, Be32(h) + tail);
    assert header[4..] == Be32(h) + tail;
    Be32Reads(h, tail);
    assert header[8..] == tail;
  }

  /** A length that does not fit 32 bits makes a reader stop short. */
  lemma {:induction false} ChunkCutShort(kind: seq<byte>, data: seq<byte>, rest: seq<byte>)
    requires |kind| == 4
    ensures (var read, len := ReadChunk(Chunk(kind, data) + rest), |data| % TWO_32;
             read.Some? ==> len <= |data| && read.value.data == data[..len])
  {
    hide Crc, Be32, FromBe32;
    var crc, len := Be32(Crc(kind + data)), |data| % TWO_32;
    var s := Chunk(kind, data) + rest;
    assert s == Be32(|data|) + (kind + data + crc + rest);
    Be32Reads(|data|, kind + data + crc + rest);
    assert s[8..8 + len] == data[..len];
  }

  /** A stream cut before its last block ends does not inflate. */
  lemma {:induction false} InflateCutShort(raw: seq<byte>, n: nat)
    requires n < |Blocks(raw)|
    ensures Inflate(Blocks(raw)[..n]).None?
    decreases |raw|
  {
    hide FromLe16, Le16;
    var data := if |raw| <= BLOCK then raw else raw[..BLOCK];
    var block := Block(|raw| <= BLOCK, data);
    var s := Blocks(raw)[..n];
    BlockReads(|raw| <= BLOCK, data, []);
    if n >= 5 {
      assert block + [] == block;
      assert s[1..] == s[1..3] + s[3..] && block[1..] == block[1..3] + block[3..];
      HeaderOnly(block, s);
      if |raw| > BLOCK && n >= |block| {
        InflateCutShort(raw[BLOCK..], n - |block|);
        assert s[5 + BLOCK..] == Blocks(raw[BLOCK..])[..n - |block|];
      }
    }
  }

  lemma {:induction false} HeaderOnly(a: seq<byte>, b: seq<byte>)
    requires |a| >= 5 && |b| >= 5 && a[..5] == b[..5]
    ensures a[0] == b[0] && FromLe16(a[1..]) == FromLe16(b[1..]) && FromLe16(a[3..]) == FromLe16(b[3..])
  {
    forall i | 0 <= i < 5 ensures a[i] == b[i] {
      assert a[i] == a[..5][i] && b[i] == b[..5][i];
    }
  }

  lemma {:induction false} ZlibCutShort(raw: seq<byte>, n: nat)
    requires n + 4 < |Zlib(raw)|
    ensures Unzlib(Zlib(raw)[..n]).None?
  {
    hide Inflate, Blocks, Adler, FromBe32, Be32;
    if n >= 2 {
      InflateCutShort(raw, n - 2);
      assert Zlib(raw)[..n][2..] == Blocks(raw)[..n - 2];
    }
  }

  /** A reader recovers the size and the pixels of an image exactly when a 32-bit length can hold its
      compressed data; otherwise it reads no image at all. */
  lemma {:induction false} PngRoundTripIff(w: nat, h: nat, pixels: seq<byte>)
    requires w < TWO_32 && h < TWO_32 && |pixels| == w * h
    ensures |Zlib(Scanlines(w, h, pixels))| < TWO_32 ==> ReadPng(Png(w, h, pixels)) == Some(Image(w, h, pixels))
    ensures |Zlib(Scanlines(w, h, pixels))| >= TWO_32 ==> ReadPng(Png(w, h, pixels)) == None
  {
    hide Chunk, ReadChunk, Unzlib, Zlib, Header, FromBe32, Unscan, Scanlines;
    var raw := Scanlines(w, h, pixels);
    var end := Chunk(IEND, []);
    var data := Chunk(IDAT, Zlib(raw));
    var s := Png(w, h, pixels);
    assert s == SIGNATURE + (Chunk(IHDR, Header(w, h)) + (data + end));
    assert s[..8] == SIGNATURE && s[8..] == Chunk(IHDR, Header(w, h)) + (data + end);
    HeaderReads(w, h);
    ChunkReads(IHDR, Header(w, h), data + end);
    if |Zlib(raw)| < TWO_32 {
      ChunkReads(IDAT, Zlib(raw), end);
      assert end + [] == end;
      ChunkReads(IEND, [], []);
      ZlibRoundTrip(raw);
      UnscanLines(w, h, pixels);
    } else {
      ChunkCutShort(IDAT, Zlib(raw), end);
      ZlibCutShort(raw, |Zlib(raw)| % TWO_32);
    }
  }

  lemma {:induction false} BlocksLonger(raw: seq<byte>)
    ensures |Blocks(raw)| >= |raw|
    decreases |raw|
  {
    if |raw| > BLOCK {
      BlocksLonger(raw[BLOCK..]);
    }
  }

  lemma {:induction false} ScanlinesLength(w: nat, h: nat, pixels: seq<byte>)
    requires |pixels| == w * h
    ensures |Scanlines(w, h, pixels)| == w * h + h
    decreases h
  {
    if h > 0 {
      RowsLeft(w, h);
      ScanlinesLength(w, h - 1, pixels[w..]);
    }
  }

  /** One column of 2^31 pixels: each row takes its pixel and a filter byte, so the data has at least 2^32
      bytes and no image is read. */
  lemma {:induction false} TooLarge(pixels: seq<byte>)
    requires |pixels| == 0x8000_0000
    ensures ReadPng(Png(1, 0x8000_0000, pixels)) == None
  {
    hide Blocks, Scanlines, ReadPng, Png, Adler;
    var raw := Scanlines(1, 0x8000_0000, pixels);
    ScanlinesLength(1, 0x8000_0000, pixels);
    BlocksLonger(raw);
    assert |Zlib(raw)| >= |Blocks(raw)|;
    PngRoundTripIff(1, 0x8000_0000, pixels);
  }

  // --- Known values -----------------------------------------------------------

  lemma {:induction false} LowOnes(n: nat, m: nat, k: nat)
    requires n + 1 == Pow2(m)
    ensures forall i :: 0 <= i < k ==> Bits(n, k)[i] == (i < m)
    decreases k
  {
    if k > 0 {
      if m == 0 {
        LowOnes(0, 0, k - 1);
      } else {
        LowOnes(n / 2, m - 1, k - 1);
      }
    }
  }

  lemma {:induction false} SingleOne(n: nat, m: nat, k: nat)
    requires n == Pow2(m)
    ensures forall i :: 0 <= i < k ==> Bits(n, k)[i] == (i == m)
    decreases k
  {
    if k > 0 {
      if m == 0 {
        LowOnes(0, 0, k - 1);
      } else {
        SingleOne(n / 2, m - 1, k - 1);
      }
    }
  }

  lemma {:induction false} Powers()
    ensures Pow2(0) == 1 && Pow2(7) == 0x80 && Pow2(8) == 0x100 && Pow2(32) == TWO_32
  {
    Pow2Word();
    Pow2Eight(0);
    assert Pow2(3) == 8 && Pow2(5) == 32;
  }

  lemma {:induction false} ZeroShifts(w: Word)
    requires !w[0]
    ensures forall i :: 0 <= i < 32 ==> Divide(w)[i] == (i + 1 < 32 && w[i + 1])
  {
    hide Xor, Bits;
    assert Divide(w) == w[1..] + [false];
  }

  /** Dividing past zero bits only shifts. */
  lemma {:induction false} ZerosShift(w: Word, n: nat)
    requires n <= 32 && forall i :: 0 <= i < n ==> !w[i]
    ensures forall i :: 0 <= i < 32 ==> DivideBits(w, n)[i] == (i + n < 32 && w[i + n])
  {
    hide Divide, Bits;
    if n > 0 {
      ZerosShift(w, n - 1);
      ZeroShifts(DivideBits(w, n - 1));
    }
  }

  /** Each byte of ones cancels eight bits of the register it starts with. */
  lemma {:induction false} OnesCancel(s: seq<byte>)
    requires |s| <= 4 && forall i :: 0 <= i < |s| ==> s[i] == 255
    ensures forall i :: 0 <= i < 32 ==> Register(s)[i] == (i < 32 - 8 * |s|)
  {
    hide DivideBits, Bits;
    Powers();
    LowOnes(0xFFFF_FFFF, 32, 32);
    LowOnes(255, 8, 32);
    if s != [] {
      var before := s[..|s| - 1];
      OnesCancel(before);
      var w := Xor(Register(before), Bits(255, 32));
      assert forall i :: 0 <= i < 8 ==> !w[i];
      ZerosShift(w, 8);
    }
  }

  lemma {:induction false} Complement(w: seq<bool>, v: seq<bool>)
    requires |w| == |v| && forall i :: 0 <= i < |w| ==> v[i] == !w[i]
    ensures Value(v) == Pow2(|w|) - 1 - Value(w)
  {
    if w != [] {
      Complement(w[1..], v[1..]);
    }
  }

  lemma {:induction false} BitsValue(n: nat, k: nat)
    requires n < Pow2(k)
    ensures Value(Bits(n, k)) == n
  {
    if k > 0 {
      BitsValue(n / 2, k - 1);
    }
  }

  lemma {:induction false} ComplementOf(w: Word, n: nat)
    requires n < TWO_32 && w == Bits(n, 32)
    ensures Value(Not(w)) == 0xFFFF_FFFF - n
  {
    hide Bits, Value;
    Powers();
    BitsValue(n, 32);
    Complement(w, Not(w));
  }

  /** A register holding nothing but bit 7 comes to the polynomial. */
  lemma {:induction false} TopBitDivides(w: Word)
    requires forall i :: 0 <= i < 32 ==> w[i] == (i == 7)
    ensures DivideBits(w, 8) == POLYNOMIAL
  {
    ZerosShift(w, 7);
    var c := DivideBits(w, 7);
    assert forall i :: 0 <= i < 32 ==> !ShiftRight(c)[i];
  }

  /** Known values: of nothing, of four bytes of ones, and of those and a byte with its top bit set, which
      is the complement of the polynomial of section 3.4 of RFC 2083. */
  lemma {:induction false} CrcKnown()
    ensures Crc([]) == 0
    ensures Crc([255, 255, 255, 255]) == 0xFFFF_FFFF
    ensures Crc([255, 255, 255, 255, 128]) == 0x1247_7CDF
  {
    hide DivideBits, Bits, Value, Pow2;
    var four, five := [255, 255, 255, 255], [255, 255, 255, 255, 128];
    assert five[..4] == four;
    ComplementOf(Register([]), 0xFFFF_FFFF);
    Powers();
    OnesCancel(four);
    LowOnes(0, 0, 32);
    assert Register(four) == Bits(0, 32);
    ComplementOf(Register(four), 0);
    SingleOne(128, 7, 32);
    TopBitDivides(Xor(Register(four), Bits(128, 32)));
    ComplementOf(Register(five), 0xEDB8_8320);
  }

  lemma {:induction false} SumsOfOnes(n: nat)
    ensures (var s := seq(n, _ => 255); Sum(s) == 255 * n && 2 * RunningSum(s) == 2 * n + 255 * (n * (n + 1)))
  {
    if n > 0 {
      SumsOfOnes(n - 1);
      var s := seq(n, _ => 255);
      assert s[..n - 1] == seq(n - 1, _ => 255);
      assert n * (n + 1) == (n - 1) * n + 2 * n;
    }
  }

  /** Known values: of nothing, and of 257 bytes of ones, whose sums both pass the base. */
  lemma {:induction false} AdlerKnown()
    ensures Adler([]) == 1
    ensures Adler(seq(257, _ => 255)) == 0x080F_000F
  {
    hide Sum, RunningSum;
    assert Sum([]) == 0 && RunningSum([]) == 0 by {
      NoSums();
    }
    SumsOfOnes(257);
  }

  lemma {:induction false} NoSums()
    ensures Sum([]) == 0 && RunningSum([]) == 0
  {
  }

  /** An image starts with the signature of section 3.1 of RFC 2083 and a 13-byte header chunk. */
  lemma {:induction false} PngStarts(w: nat, h: nat, pixels: seq<byte>)
    requires |pixels| == w * h
    ensures (var s := Png(w, h, pixels);
             |s| >= 16 && s[..8] == [137, 80, 78, 71, 13, 10, 26, 10] && s[8..16] == [0, 0, 0, 13, 73, 72, 68, 82])
    ensures IDAT == [73, 68, 65, 84] && IEND == [73, 69, 78, 68]
  {
    hide Crc, Zlib, Scanlines;
    var s, header := Png(w, h, pixels), Chunk(IHDR, Header(w, h));
    assert |Header(w, h)| == 13;
    assert s[..8] == SIGNATURE;
    assert s[8..16] == header[..8] == Be32(13) + IHDR;
  }
}
