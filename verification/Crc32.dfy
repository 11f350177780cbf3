/** The bitwise CRC-32 of the image scripts. The loop shifts a 32-bit register right; what it computes is
    stated on the register read as 32 coefficients over GF(2), as in section 3.4 of RFC 2083. */
module Crc32 {
  import opened Gf2

  type Byte = bv8
  type Reg = r: seq<bool> | |r| == 32 witness seq(32, _ => false)

  const POLY: bv32 := 0xedb88320
  const ONES: bv32 := 0xffff_ffff

  // ---------- the loop's own arithmetic, on machine words ----------

  function Half(c: bv32): bv32 {
    c >> 1
  }

  /** The negated low bit is the mask that selects the generator. */
  function Tap(c: bv32): bv32 {
    POLY & (0 - (c & 1))
  }

  /** One turn of the inner loop. */
  function Step(c: bv32): bv32 {
    Half(c) ^ Tap(c)
  }

  function StepN(c: bv32, k: nat): bv32
    decreases k
  {
    if k == 0 then c else StepN(Step(c), k - 1)
  }

  function TakeByte(c: bv32, b: Byte): bv32 {
    c ^ Widen(b)
  }

  function Run(c: bv32, bytes: seq<Byte>): bv32
    decreases bytes
  {
    if bytes == [] then c else Run(StepN(TakeByte(c, bytes[0]), 8), bytes[1..])
  }

  function Crc(bytes: seq<Byte>): bv32 {
    !Run(ONES, bytes)
  }

  // ---------- the same register as a sequence of bits ----------

  predicate BitOf(b: Byte, i: nat) {
    if i == 0 then b & 0x01 != 0
    else if i == 1 then b & 0x02 != 0
    else if i == 2 then b & 0x04 != 0
    else if i == 3 then b & 0x08 != 0
    else if i == 4 then b & 0x10 != 0
    else if i == 5 then b & 0x20 != 0
    else if i == 6 then b & 0x40 != 0
    else b & 0x80 != 0
  }

  /** The bits of a byte, least significant first: the order in which they enter the register. */
  function ByteBits(b: Byte): (r: seq<bool>)
    ensures |r| == 8
  {
    seq(8, i requires i >= 0 => BitOf(b, i))
  }

  function Byte0(c: bv32): Byte { (c & 0xff) as bv8 }
  function Byte1(c: bv32): Byte { ((c >> 8) & 0xff) as bv8 }
  function Byte2(c: bv32): Byte { ((c >> 16) & 0xff) as bv8 }
  function Byte3(c: bv32): Byte { ((c >> 24) & 0xff) as bv8 }

  function ByteAt(c: bv32, k: nat): Byte {
    if k == 0 then Byte0(c) else if k == 1 then Byte1(c) else if k == 2 then Byte2(c) else Byte3(c)
  }

  predicate WordBit(c: bv32, j: nat) {
    BitOf(ByteAt(c, j / 8), j % 8)
  }

  /** The bits of a word, least significant first. */
  function Bits(c: bv32): Reg {
    seq(32, j requires j >= 0 => WordBit(c, j))
  }

  function Widen(b: Byte): bv32 {
    b as bv32
  }

  /** The bits of a buffer in the order in which they enter the register. */
  function BitsOf(bytes: seq<Byte>): (r: seq<bool>)
    ensures |r| == 8 * |bytes|
  {
    if bytes == [] then [] else ByteBits(bytes[0]) + BitsOf(bytes[1..])
  }

  /** The terms of x^32+x^26+x^23+x^22+x^16+x^12+x^11+x^10+x^8+x^7+x^5+x^4+x^2+x+1. */
  predicate GeneratorTerm(i: nat) {
    i in {0, 1, 2, 4, 5, 7, 8, 10, 11, 12, 16, 22, 23, 26, 32}
  }

  function Generator(): (g: Poly)
    ensures |g| == 33 && g[32]
  {
    seq(33, i requires i >= 0 => GeneratorTerm(i))
  }

  function Xor(a: seq<bool>, b: seq<bool>): (r: seq<bool>)
    requires |a| == |b|
    ensures |r| == |a|
  {
    seq(|a|, i requires 0 <= i < |a| => a[i] != b[i])
  }

  /** A register bit stands for a power of x: bit 0 for x^31, bit 31 for the constant term. */
  function TapBits(f: bool): Reg {
    seq(32, j requires 0 <= j < 32 => f && GeneratorTerm(31 - j))
  }

  function Shift(r: Reg): Reg {
    Xor(r[1..] + [false], TapBits(r[0]))
  }

  function ShiftN(r: Reg, k: nat): Reg
    decreases k
  {
    if k == 0 then r else ShiftN(Shift(r), k - 1)
  }

  function FeedBit(r: Reg, bit: bool): Reg {
    Shift(r[0 := r[0] != bit])
  }

  function Feed(r: Reg, bits: seq<bool>): Reg
    decreases bits
  {
    if bits == [] then r else Feed(FeedBit(r, bits[0]), bits[1..])
  }

  function Complement(r: Reg): Reg {
    seq(32, j requires 0 <= j < 32 => !r[j])
  }

  function AllOnes(): Reg {
    seq(32, _ => true)
  }

  function Zeros(n: nat): (r: seq<bool>)
    ensures |r| == n
  {
    seq(n, _ => false)
  }

  // ---------- words and bit sequences agree ----------

  lemma {:induction false} XorBit(a: Byte, b: Byte, i: nat)
    requires i < 8
    ensures BitOf(a ^ b, i) == (BitOf(a, i) != BitOf(b, i))
  {
    if i < 4 {
      if i < 2 { if i == 0 {} else {} } else { if i == 2 {} else {} }
    } else {
      if i < 6 { if i == 4 {} else {} } else { if i == 6 {} else {} }
    }
  }

  lemma {:induction false} XorSplits(c: bv32, d: bv32, k: nat)
    requires k < 4
    ensures ByteAt(c ^ d, k) == ByteAt(c, k) ^ ByteAt(d, k)
  {
    if k == 0 {} else if k == 1 {} else if k == 2 {} else {}
  }

  lemma {:induction false} XorWordBit(c: bv32, d: bv32, j: nat)
    requires j < 32
    ensures WordBit(c ^ d, j) == (WordBit(c, j) != WordBit(d, j))
  {
    hide ByteAt, BitOf;
    XorSplits(c, d, j / 8);
    XorBit(ByteAt(c, j / 8), ByteAt(d, j / 8), j % 8);
  }

  lemma {:induction false} XorWords(c: bv32, d: bv32)
    ensures Bits(c ^ d) == Xor(Bits(c), Bits(d))
  {
    hide WordBit;
    forall j | 0 <= j < 32 ensures Bits(c ^ d)[j] == Xor(Bits(c), Bits(d))[j] {
      XorWordBit(c, d, j);
    }
  }

  lemma {:induction false} ShiftBit(b: Byte, next: Byte, i: nat)
    requires i < 8
    ensures BitOf((b >> 1) ^ (next << 7), i) == if i < 7 then BitOf(b, i + 1) else BitOf(next, 0)
  {
  }

  function NextByte(c: bv32, k: nat): Byte {
    if k < 3 then ByteAt(c, k + 1) else 0
  }

  lemma {:induction false} ShiftSplits(c: bv32, k: nat)
    requires k < 4
    ensures ByteAt(Half(c), k) == (ByteAt(c, k) >> 1) ^ (NextByte(c, k) << 7)
  {
    if k == 0 {} else if k == 1 {} else if k == 2 {} else {}
  }

  lemma {:induction false} NextWordBit(c: bv32, j: nat)
    requires j < 32
    ensures (if j % 8 < 7 then BitOf(ByteAt(c, j / 8), j % 8 + 1) else BitOf(NextByte(c, j / 8), 0))
         == (j < 31 && WordBit(c, j + 1))
  {
    hide ByteAt;
    if j % 8 < 7 {
      assert (j + 1) / 8 == j / 8 && (j + 1) % 8 == j % 8 + 1;
    } else {
      assert (j + 1) / 8 == j / 8 + 1 && (j + 1) % 8 == 0;
    }
  }

  lemma {:induction false} ShiftWordBit(c: bv32, j: nat)
    requires j < 32
    ensures WordBit(Half(c), j) == (j < 31 && WordBit(c, j + 1))
  {
    hide Half, ByteAt, NextByte, BitOf;
    ShiftSplits(c, j / 8);
    ShiftBit(ByteAt(c, j / 8), NextByte(c, j / 8), j % 8);
    NextWordBit(c, j);
  }

  lemma {:induction false} ShiftWords(c: bv32)
    ensures Bits(Half(c)) == Bits(c)[1..] + [false]
  {
    hide WordBit, Half;
    forall j: nat | j < 32 ensures Bits(Half(c))[j] == (Bits(c)[1..] + [false])[j] {
      ShiftWordBit(c, j);
    }
  }

  lemma {:induction false} LowBit(c: bv32)
    ensures Bits(c)[0] == (c & 1 == 1)
    ensures Tap(c) == if c & 1 == 1 then POLY else 0
  {
    assert c & 1 == 0 || c & 1 == 1;
  }

  lemma {:induction false} ZeroWord()
    ensures Bits(0) == Zeros(32)
  {
  }

  lemma {:induction false} OnesWord()
    ensures Bits(ONES) == AllOnes()
  {
  }

  /** The constant of the code is the standard generator without its leading term, highest power first. */
  lemma {:induction false} PolyWord()
    ensures forall j | 0 <= j < 32 :: Bits(POLY)[j] == GeneratorTerm(31 - j)
  {
    assert Byte0(POLY) == 0x20 && Byte1(POLY) == 0x83 && Byte2(POLY) == 0xb8 && Byte3(POLY) == 0xed;
    forall j | 0 <= j < 32 ensures Bits(POLY)[j] == GeneratorTerm(31 - j) {
      if j < 8 {
        PolyByte0(j);
      } else if j < 16 {
        PolyByte1(j - 8);
      } else if j < 24 {
        PolyByte2(j - 16);
      } else {
        PolyByte3(j - 24);
      }
    }
  }

  lemma {:induction false} PolyByte0(i: nat)
    requires i < 8
    ensures BitOf(0x20, i) == GeneratorTerm(31 - i)
  {
  }

  lemma {:induction false} PolyByte1(i: nat)
    requires i < 8
    ensures BitOf(0x83, i) == GeneratorTerm(23 - i)
  {
  }

  lemma {:induction false} PolyByte2(i: nat)
    requires i < 8
    ensures BitOf(0xb8, i) == GeneratorTerm(15 - i)
  {
  }

  lemma {:induction false} PolyByte3(i: nat)
    requires i < 8
    ensures BitOf(0xed, i) == GeneratorTerm(7 - i)
  {
  }

  lemma {:induction false} MaskWord(c: bv32)
    ensures Bits(Tap(c)) == TapBits(Bits(c)[0])
  {
    hide WordBit, Tap;
    LowBit(c);
    ZeroWord();
    PolyWord();
    assert TapBits(false) == Zeros(32);
    assert TapBits(true) == Bits(POLY);
  }

  lemma {:induction false} StepParts(c: bv32)
    ensures Bits(Half(c)) == Bits(c)[1..] + [false]
    ensures Bits(Tap(c)) == TapBits(Bits(c)[0])
  {
    ShiftWords(c);
    MaskWord(c);
  }

  lemma {:induction false} StepSplits(c: bv32)
    ensures Step(c) == Half(c) ^ Tap(c)
  {
  }

  lemma {:induction false} XorIsShift(c: bv32, h: bv32, t: bv32, s: bv32)
    requires Bits(h) == Bits(c)[1..] + [false] && Bits(t) == TapBits(Bits(c)[0])
    requires s == h ^ t
    ensures Bits(s) == Shift(Bits(c))
  {
    hide Bits;
    XorWords(h, t);
  }

  lemma {:induction false} StepIsShift(c: bv32)
    ensures Bits(Step(c)) == Shift(Bits(c))
  {
    hide Bits, Shift, Half, Tap;
    StepSplits(c);
    StepParts(c);
    XorIsShift(c, Half(c), Tap(c), Step(c));
  }

  lemma {:induction false} WidenedByte(b: Byte)
    ensures Bits(Widen(b)) == ByteBits(b) + Zeros(24)
  {
    assert Byte0(Widen(b)) == b && Byte1(Widen(b)) == 0 && Byte2(Widen(b)) == 0 && Byte3(Widen(b)) == 0;
  }

  lemma {:induction false} NotSplits(c: bv32)
    ensures !c == c ^ ONES
  {
  }

  lemma {:induction false} NotIsComplement(c: bv32)
    ensures Bits(!c) == Complement(Bits(c))
  {
    hide WordBit;
    NotSplits(c);
    XorWords(c, ONES);
    OnesWord();
  }

  lemma {:induction false} BitsDetermineByte(a: Byte, b: Byte)
    requires forall i: nat | i < 8 :: BitOf(a, i) == BitOf(b, i)
    ensures a == b
  {
    assert BitOf(a, 0) == BitOf(b, 0) && BitOf(a, 1) == BitOf(b, 1) && BitOf(a, 2) == BitOf(b, 2) && BitOf(a, 3) == BitOf(b, 3);
    assert BitOf(a, 4) == BitOf(b, 4) && BitOf(a, 5) == BitOf(b, 5) && BitOf(a, 6) == BitOf(b, 6) && BitOf(a, 7) == BitOf(b, 7);
  }

  lemma {:induction false} BytesDetermineWord(a: bv32, b: bv32)
    requires Byte0(a) == Byte0(b) && Byte1(a) == Byte1(b) && Byte2(a) == Byte2(b) && Byte3(a) == Byte3(b)
    ensures a == b
  {
  }

  lemma {:induction false} BitsDetermineWord(a: bv32, b: bv32)
    requires Bits(a) == Bits(b)
    ensures a == b
  {
    hide BitOf, Byte0, Byte1, Byte2, Byte3;
    forall j: nat | j < 32 ensures WordBit(a, j) == WordBit(b, j) {
      assert Bits(a)[j] == Bits(b)[j];
    }
    forall i: nat | i < 8
      ensures BitOf(Byte0(a), i) == BitOf(Byte0(b), i) && BitOf(Byte1(a), i) == BitOf(Byte1(b), i)
      ensures BitOf(Byte2(a), i) == BitOf(Byte2(b), i) && BitOf(Byte3(a), i) == BitOf(Byte3(b), i)
    {
      assert WordBit(a, i) == WordBit(b, i) && WordBit(a, i + 8) == WordBit(b, i + 8);
      assert WordBit(a, i + 16) == WordBit(b, i + 16) && WordBit(a, i + 24) == WordBit(b, i + 24);
    }
    BitsDetermineByte(Byte0(a), Byte0(b));
    BitsDetermineByte(Byte1(a), Byte1(b));
    BitsDetermineByte(Byte2(a), Byte2(b));
    BitsDetermineByte(Byte3(a), Byte3(b));
    BytesDetermineWord(a, b);
  }

  // ---------- the loop feeds the message in bit by bit ----------

  lemma {:induction false} FeedAppend(r: Reg, u: seq<bool>, v: seq<bool>)
    ensures Feed(r, u + v) == Feed(Feed(r, u), v)
    decreases u
  {
    if u == [] {
      assert u + v == v;
    } else {
      assert (u + v)[1..] == u[1..] + v;
      FeedAppend(FeedBit(r, u[0]), u[1..], v);
    }
  }

  lemma {:induction false} BitsOfAppend(a: seq<Byte>, b: seq<Byte>)
    ensures BitsOf(a + b) == BitsOf(a) + BitsOf(b)
  {
    if a == [] {
      assert a + b == b;
    } else {
      assert (a + b)[1..] == a[1..] + b;
      BitsOfAppend(a[1..], b);
    }
  }

  lemma {:induction false} StepsAreShifts(c: bv32, k: nat)
    ensures Bits(StepN(c, k)) == ShiftN(Bits(c), k)
    decreases k
  {
    if k > 0 {
      StepIsShift(c);
      StepsAreShifts(Step(c), k - 1);
    }
  }

  /** Bits that wait above the lowest place move down one place per shift, untouched. */
  lemma {:induction false} ShiftTakesOne(r: Reg, w: seq<bool>, n: nat)
    requires 0 < |w| && |w| + n == 32
    ensures Shift(Xor(r, w + Zeros(n))) == Xor(FeedBit(r, w[0]), w[1..] + Zeros(n + 1))
  {
  }

  /** Xoring w in first and then shifting |w| times feeds its bits in one by one. */
  lemma {:induction false} ShiftsFeed(r: Reg, w: seq<bool>, n: nat)
    requires |w| + n == 32
    ensures ShiftN(Xor(r, w + Zeros(n)), |w|) == Feed(r, w)
    decreases w
  {
    if w == [] {
      assert Xor(r, w + Zeros(n)) == r;
    } else {
      ShiftTakesOne(r, w, n);
      ShiftsFeed(FeedBit(r, w[0]), w[1..], n + 1);
    }
  }

  lemma {:induction false} ByteAtOnce(c: bv32, b: Byte)
    ensures Bits(StepN(TakeByte(c, b), 8)) == Feed(Bits(c), ByteBits(b))
  {
    hide Bits, ShiftN, StepN, Widen, Feed;
    StepsAreShifts(TakeByte(c, b), 8);
    XorWords(c, Widen(b));
    WidenedByte(b);
    ShiftsFeed(Bits(c), ByteBits(b), 24);
  }

  lemma {:induction false} RunFeeds(c: bv32, bytes: seq<Byte>)
    ensures Bits(Run(c, bytes)) == Feed(Bits(c), BitsOf(bytes))
    decreases bytes
  {
    if bytes != [] {
      ByteAtOnce(c, bytes[0]);
      FeedAppend(Bits(c), ByteBits(bytes[0]), BitsOf(bytes[1..]));
      RunFeeds(StepN(TakeByte(c, bytes[0]), 8), bytes[1..]);
    }
  }

  lemma {:induction false} RunAppend(c: bv32, bytes: seq<Byte>, b: Byte)
    ensures Run(c, bytes + [b]) == StepN(TakeByte(Run(c, bytes), b), 8)
    decreases bytes
  {
    if bytes == [] {
      assert bytes + [b] == [b];
    } else {
      assert (bytes + [b])[1..] == bytes[1..] + [b];
      RunAppend(StepN(TakeByte(c, bytes[0]), 8), bytes[1..], b);
    }
  }

  /** crc32: the register starts as all ones, takes the bytes in order, and is inverted at the end. */
  method ComputeCrc(buf: array<Byte>) returns (crc: bv32)
    ensures crc == Crc(buf[..])
    ensures Bits(crc) == Complement(Feed(AllOnes(), BitsOf(buf[..])))
  {
    var c: bv32 := ONES;
    for n := 0 to buf.Length
      invariant c == Run(ONES, buf[..n])
    {
      ghost var before := c;
      c := c ^ (buf[n] as bv32);
      ghost var start := c;
      for k := 0 to 8
        invariant StepN(c, 8 - k) == StepN(start, 8)
      {
        c := (c >> 1) ^ (POLY & (0 - (c & 1)));
      }
      assert buf[..n + 1] == buf[..n] + [buf[n]];
      RunAppend(ONES, buf[..n], buf[n]);
    }
    assert buf[..buf.Length] == buf[..];
    crc := !c;
    CrcBits(buf[..]);
  }

  lemma {:induction false} CrcBits(bytes: seq<Byte>)
    ensures Bits(Crc(bytes)) == Complement(Feed(AllOnes(), BitsOf(bytes)))
  {
    NotIsComplement(Run(ONES, bytes));
    RunFeeds(ONES, bytes);
    OnesWord();
  }
}
