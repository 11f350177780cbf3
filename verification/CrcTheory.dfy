/** What the CRC-32 loop means: it is the complement of a polynomial remainder, it is affine, and it tells
    apart any two buffers that differ only inside 32 consecutive bits. */
module CrcTheory {
  import opened Gf2
  import opened Crc32

  // ---------- the CRC is a remainder ----------

  /** The polynomial of section 3.4 of RFC 2083: the message bits, first bit of highest degree, times x^32,
      with the first 32 of the resulting coefficients inverted by the all-ones preset. */
  function MessagePoly(bits: seq<bool>): Poly {
    seq(|bits| + 32, i requires 0 <= i < |bits| + 32 => (i >= 32 && bits[|bits| + 31 - i]) != (|bits| <= i))
  }

  function RegPoly(r: Reg): Poly {
    seq(32, i requires 0 <= i < 32 => r[31 - i])
  }

  /** One more message bit multiplies the polynomial by x and adds the bit at x^32. */
  lemma {:induction false} MessageGrows(u: seq<bool>, b: bool, i: nat)
    ensures Coeff(MessagePoly(u + [b]), i) == ((i > 0 && Coeff(MessagePoly(u), i - 1)) != (i == 32 && b))
  {
  }

  /** One register turn multiplies by x and subtracts the generator when the bit that leaves asks for it. */
  lemma {:induction false} RegisterTurns(r: Reg, b: bool, i: nat)
    ensures var f := r[0] != b;
            Coeff(RegPoly(FeedBit(r, b)), i) ==
              (((i > 0 && Coeff(RegPoly(r), i - 1)) != (f && Coeff(Generator(), i))) != (i == 32 && b))
  {
  }

  lemma {:induction false} FeedQuotient(bits: seq<bool>) returns (q: Poly)
    ensures |q| == |bits|
    ensures IsQuotient(MessagePoly(bits), Generator(), RegPoly(Feed(AllOnes(), bits)), q)
  {
    var g := Generator();
    if bits == [] {
      q := [];
      forall i: nat ensures Coeff(MessagePoly(bits), i) == (Coeff(Mul(q, g), i) != Coeff(RegPoly(AllOnes()), i)) {}
    } else {
      var u, b := bits[..|bits| - 1], bits[|bits| - 1];
      assert bits == u + [b];
      var q0 := FeedQuotient(u);
      var r := Feed(AllOnes(), u);
      var f := r[0] != b;
      FeedAppend(AllOnes(), u, [b]);
      assert Feed(r, [b]) == FeedBit(r, b);
      q := [f] + q0;
      forall i: nat
        ensures Coeff(MessagePoly(bits), i) == (Coeff(Mul(q, g), i) != Coeff(RegPoly(FeedBit(r, b)), i))
      {
        MessageGrows(u, b, i);
        RegisterTurns(r, b, i);
        MulCoeff(q, g, i);
        assert q[1..] == q0;
        if i > 0 {
          assert Coeff(MessagePoly(u), i - 1) == (Coeff(Mul(q0, g), i - 1) != Coeff(RegPoly(r), i - 1));
        }
      }
    }
  }

  /** The CRC of a buffer, inverted back, is the one remainder of its message polynomial modulo the generator. */
  lemma {:induction false} CrcIsRemainder(bytes: seq<Byte>, r: Poly)
    ensures IsRemainder(MessagePoly(BitsOf(bytes)), Generator(), r)
       <==> r == RegPoly(Complement(Bits(Crc(bytes))))
  {
    var p := MessagePoly(BitsOf(bytes));
    var q := FeedQuotient(BitsOf(bytes));
    CrcBits(bytes);
    var s := Feed(AllOnes(), BitsOf(bytes));
    assert Complement(Complement(s)) == s;
    assert IsRemainder(p, Generator(), RegPoly(s));
    if IsRemainder(p, Generator(), r) {
      RemainderUnique(p, Generator(), r, RegPoly(s));
    }
  }

  // ---------- linearity ----------

  lemma {:induction false} ShiftLinear(r: Reg, s: Reg)
    ensures Shift(Xor(r, s)) == Xor(Shift(r), Shift(s))
  {
  }

  lemma {:induction false} FeedBitLinear(r: Reg, s: Reg, a: bool, b: bool)
    ensures FeedBit(Xor(r, s), a != b) == Xor(FeedBit(r, a), FeedBit(s, b))
  {
    var r', s' := r[0 := r[0] != a], s[0 := s[0] != b];
    assert Xor(r, s)[0 := Xor(r, s)[0] != (a != b)] == Xor(r', s');
    ShiftLinear(r', s');
  }

  lemma {:induction false} FeedLinear(r: Reg, s: Reg, u: seq<bool>, v: seq<bool>)
    requires |u| == |v|
    ensures Feed(Xor(r, s), Xor(u, v)) == Xor(Feed(r, u), Feed(s, v))
    decreases u
  {
    if u != [] {
      FeedBitLinear(r, s, u[0], v[0]);
      assert Xor(u, v)[1..] == Xor(u[1..], v[1..]);
      FeedLinear(FeedBit(r, u[0]), FeedBit(s, v[0]), u[1..], v[1..]);
    }
  }

  function XorBuffers(a: seq<Byte>, b: seq<Byte>): (r: seq<Byte>)
    requires |a| == |b|
    ensures |r| == |a|
    decreases a
  {
    if a == [] then [] else [a[0] ^ b[0]] + XorBuffers(a[1..], b[1..])
  }

  lemma {:induction false} XorByteBits(a: Byte, b: Byte)
    ensures ByteBits(a ^ b) == Xor(ByteBits(a), ByteBits(b))
  {
    forall i | 0 <= i < 8 ensures ByteBits(a ^ b)[i] == Xor(ByteBits(a), ByteBits(b))[i] {
      XorBit(a, b, i);
    }
  }

  lemma {:induction false} XorConcat(a: seq<bool>, b: seq<bool>, c: seq<bool>, d: seq<bool>)
    requires |a| == |b| && |c| == |d|
    ensures Xor(a + c, b + d) == Xor(a, b) + Xor(c, d)
  {
  }

  lemma {:induction false} XorBufferBits(a: seq<Byte>, b: seq<Byte>)
    requires |a| == |b|
    ensures BitsOf(XorBuffers(a, b)) == Xor(BitsOf(a), BitsOf(b))
    decreases a
  {
    if a != [] {
      XorByteBits(a[0], b[0]);
      XorBufferBits(a[1..], b[1..]);
      XorConcat(ByteBits(a[0]), ByteBits(b[0]), BitsOf(a[1..]), BitsOf(b[1..]));
    }
  }

  lemma {:induction false} ThreeMessages(u: seq<bool>, v: seq<bool>, w: seq<bool>)
    requires |u| == |v| == |w|
    ensures Feed(AllOnes(), Xor(Xor(u, v), w))
         == Xor(Xor(Feed(AllOnes(), u), Feed(AllOnes(), v)), Feed(AllOnes(), w))
  {
    var one := AllOnes();
    FeedLinear(one, one, u, v);
    FeedLinear(Xor(one, one), one, Xor(u, v), w);
    assert Xor(Xor(one, one), one) == one;
  }

  lemma {:induction false} ThreeBuffers(a: seq<Byte>, b: seq<Byte>, c: seq<Byte>)
    requires |a| == |b| == |c|
    ensures BitsOf(XorBuffers(XorBuffers(a, b), c)) == Xor(Xor(BitsOf(a), BitsOf(b)), BitsOf(c))
  {
    XorBufferBits(a, b);
    XorBufferBits(XorBuffers(a, b), c);
  }

  lemma {:induction false} ThreeWords(c: bv32, d: bv32, e: bv32)
    ensures Bits(c ^ d ^ e) == Xor(Xor(Bits(c), Bits(d)), Bits(e))
  {
    XorWords(c, d);
    XorWords(c ^ d, e);
  }

  lemma {:induction false} AffineBits(a: seq<Byte>, b: seq<Byte>, c: seq<Byte>, d: seq<Byte>)
    requires |a| == |b| == |c|
    requires BitsOf(d) == Xor(Xor(BitsOf(a), BitsOf(b)), BitsOf(c))
    ensures Bits(Crc(d)) == Xor(Xor(Bits(Crc(a)), Bits(Crc(b))), Bits(Crc(c)))
  {
    CrcBits(a);
    CrcBits(b);
    CrcBits(c);
    CrcBits(d);
    ThreeMessages(BitsOf(a), BitsOf(b), BitsOf(c));
    ComplementOfThree(Feed(AllOnes(), BitsOf(a)), Feed(AllOnes(), BitsOf(b)), Feed(AllOnes(), BitsOf(c)));
  }

  /** The CRC is affine under xor: the CRC of the xor of three equally long buffers is the xor of their CRCs. */
  lemma {:induction false} CrcIsAffine(a: seq<Byte>, b: seq<Byte>, c: seq<Byte>)
    requires |a| == |b| == |c|
    ensures Crc(XorBuffers(XorBuffers(a, b), c)) == Crc(a) ^ Crc(b) ^ Crc(c)
  {
    hide Crc, XorBuffers, BitsOf, Bits, Xor;
    ThreeBuffers(a, b, c);
    AffineBits(a, b, c, XorBuffers(XorBuffers(a, b), c));
    ThreeWords(Crc(a), Crc(b), Crc(c));
    BitsDetermineWord(Crc(XorBuffers(XorBuffers(a, b), c)), Crc(a) ^ Crc(b) ^ Crc(c));
  }

  lemma {:induction false} ComplementOfThree(r: Reg, s: Reg, t: Reg)
    ensures Complement(Xor(Xor(r, s), t)) == Xor(Xor(Complement(r), Complement(s)), Complement(t))
  {
  }

  // ---------- burst errors ----------

  /** A turn of the register loses nothing: its top bit tells whether the generator was subtracted. */
  lemma {:induction false} ShiftOntoZero(r: Reg)
    requires Shift(r) == Zeros(32)
    ensures r == Zeros(32)
  {
    assert Shift(r)[31] == r[0];
    forall j | 0 < j < 32 ensures !r[j] {
      assert Shift(r)[j - 1] == r[j];
    }
  }

  /** Undoes one turn: the top bit of the result tells whether the generator was applied. */
  function Unstep(c: bv32): bv32 {
    if c & 0x8000_0000 != 0 then ((c ^ POLY) << 1) | 1 else c << 1
  }

  lemma {:induction false} UnstepUndoesStep(c: bv32)
    ensures Unstep(Step(c)) == c
  {
    if c & 1 == 0 {
      assert Tap(c) == 0;
    } else {
      assert c & 1 == 1;
      assert Tap(c) == POLY;
    }
  }

  lemma {:induction false} UnstepHigh(c: bv32)
    requires c & 0x8000_0000 != 0
    ensures Half(((c ^ POLY) << 1) | 1) == c ^ POLY
    ensures Tap(((c ^ POLY) << 1) | 1) == POLY
  {
    assert (((c ^ POLY) << 1) | 1) & 1 == 1;
  }

  lemma {:induction false} UnstepLow(c: bv32)
    requires c & 0x8000_0000 == 0
    ensures Half(c << 1) == c
    ensures Tap(c << 1) == 0
  {
    assert (c << 1) & 1 == 0;
  }

  lemma {:induction false} StepUndoesUnstep(c: bv32)
    ensures Step(Unstep(c)) == c
  {
    if c & 0x8000_0000 != 0 {
      UnstepHigh(c);
    } else {
      UnstepLow(c);
    }
  }

  /** Each turn is a bijection on registers. */
  lemma {:induction false} StepIsBijection(c: bv32)
    ensures Unstep(Step(c)) == c && Step(Unstep(c)) == c
  {
    UnstepUndoesStep(c);
    StepUndoesUnstep(c);
  }

  lemma {:induction false} FeedZeros(n: nat)
    ensures Feed(Zeros(32), Zeros(n)) == Zeros(32)
  {
    if n > 0 {
      assert FeedBit(Zeros(32), false) == Zeros(32);
      assert Zeros(n)[1..] == Zeros(n - 1);
      FeedZeros(n - 1);
    }
  }

  lemma {:induction false} ZerosOntoZero(r: Reg, n: nat)
    requires Feed(r, Zeros(n)) == Zeros(32)
    ensures r == Zeros(32)
    decreases n
  {
    if n > 0 {
      assert Zeros(n)[1..] == Zeros(n - 1);
      assert r[0 := r[0] != false] == r;
      ZerosOntoZero(Shift(r), n - 1);
      ShiftOntoZero(r);
    }
  }

  /** If at most 32 bits bring a register to zero, the register held exactly those bits. */
  lemma {:induction false} BitsOntoZero(d: Reg, e: seq<bool>, n: nat)
    requires |e| + n == 32 && Feed(d, e) == Zeros(32)
    ensures d == e + Zeros(n)
    decreases e
  {
    if e != [] {
      BitsOntoZero(FeedBit(d, e[0]), e[1..], n + 1);
      var x := d[0 := d[0] != e[0]];
      var y := e[1..] + Zeros(n + 1);
      assert Shift(x) == y;
      assert Shift(x)[31] == x[0] && !y[31];
      forall j | 0 < j < 32 ensures d[j] == (e + Zeros(n))[j] {
        assert Shift(x)[j - 1] == x[j] == d[j];
        assert y[j - 1] == (e + Zeros(n))[j];
      }
    }
  }

  lemma {:induction false} XorSelf(u: seq<bool>)
    ensures Xor(u, u) == Zeros(|u|)
  {
  }

  lemma {:induction false} XorZeroIsEqual(u: seq<bool>, v: seq<bool>)
    requires |u| == |v| && Xor(u, v) == Zeros(|u|)
    ensures u == v
  {
    forall i | 0 <= i < |u| ensures u[i] == v[i] {
      assert !Xor(u, v)[i];
    }
  }

  lemma {:induction false} XorInWindow(p: seq<bool>, w: seq<bool>, v: seq<bool>, s: seq<bool>)
    requires |w| == |v|
    ensures Xor(p + w + s, p + v + s) == Zeros(|p|) + Xor(w, v) + Zeros(|s|)
  {
    XorConcat(p + w, p + v, s, s);
    XorConcat(p, p, w, v);
    XorSelf(p);
    XorSelf(s);
  }

  lemma {:induction false} FeedWindow(n: nat, e: seq<bool>, m: nat)
    ensures Feed(Zeros(32), Zeros(n) + e + Zeros(m)) == Feed(Feed(Zeros(32), e), Zeros(m))
  {
    FeedAppend(Zeros(32), Zeros(n) + e, Zeros(m));
    FeedAppend(Zeros(32), Zeros(n), e);
    FeedZeros(n);
  }

  /** A cleared register that swallows one window of at most 32 bits stays clear only if the window is clear. */
  lemma {:induction false} WindowOntoZero(n: nat, e: seq<bool>, m: nat)
    requires |e| <= 32 && Feed(Zeros(32), Zeros(n) + e + Zeros(m)) == Zeros(32)
    ensures e == Zeros(|e|)
  {
    FeedWindow(n, e, m);
    ZerosOntoZero(Feed(Zeros(32), e), m);
    BitsOntoZero(Zeros(32), e, 32 - |e|);
    forall i | 0 <= i < |e| ensures !e[i] {
      assert (e + Zeros(32 - |e|))[i] == Zeros(32)[i];
    }
  }

  /** Two bit strings that differ only inside one window of at most 32 bits leave different registers. */
  lemma {:induction false} BurstChangesRegister(r: Reg, p: seq<bool>, w: seq<bool>, v: seq<bool>, s: seq<bool>)
    requires |w| == |v| <= 32
    requires Feed(r, p + w + s) == Feed(r, p + v + s)
    ensures w == v
  {
    FeedLinear(r, r, p + w + s, p + v + s);
    XorSelf(r);
    XorSelf(Feed(r, p + w + s));
    XorInWindow(p, w, v, s);
    WindowOntoZero(|p|, Xor(w, v), |s|);
    XorZeroIsEqual(w, v);
  }

  lemma {:induction false} BitsOfInjective(a: seq<Byte>, b: seq<Byte>)
    requires |a| == |b| && BitsOf(a) == BitsOf(b)
    ensures a == b
  {
    if a != [] {
      var u, v := BitsOf(a), BitsOf(b);
      assert u[..8] == ByteBits(a[0]) && v[..8] == ByteBits(b[0]);
      assert u[8..] == BitsOf(a[1..]) && v[8..] == BitsOf(b[1..]);
      forall i: nat | i < 8 ensures BitOf(a[0], i) == BitOf(b[0], i) {
        assert ByteBits(a[0])[i] == ByteBits(b[0])[i];
      }
      BitsDetermineByte(a[0], b[0]);
      BitsOfInjective(a[1..], b[1..]);
    }
  }

  function Min(a: nat, b: nat): nat {
    if a <= b then a else b
  }

  lemma {:induction false} Window(u: seq<bool>, v: seq<bool>, lo: nat, hi: nat)
    requires |u| == |v| && lo <= hi <= |u| && u[..lo] == v[..lo] && u[hi..] == v[hi..] && u[lo..hi] == v[lo..hi]
    ensures u == v
  {
    assert u == u[..lo] + u[lo..hi] + u[hi..];
    assert v == v[..lo] + v[lo..hi] + v[hi..];
  }

  lemma {:induction false} FeedDetectsBurst(u: seq<bool>, v: seq<bool>, lo: nat, hi: nat)
    requires |u| == |v| && lo <= hi <= |u| && hi <= lo + 32 && u[..lo] == v[..lo] && u[hi..] == v[hi..]
    requires Feed(AllOnes(), u) == Feed(AllOnes(), v)
    ensures u == v
  {
    assert u == u[..lo] + u[lo..hi] + u[hi..];
    assert v == v[..lo] + v[lo..hi] + v[hi..];
    BurstChangesRegister(AllOnes(), u[..lo], u[lo..hi], v[lo..hi], u[hi..]);
    Window(u, v, lo, hi);
  }

  lemma {:induction false} ComplementIsInjective(r: Reg, s: Reg)
    requires Complement(r) == Complement(s)
    ensures r == s
  {
    forall i | 0 <= i < 32 ensures r[i] == s[i] {
      assert Complement(r)[i] == Complement(s)[i];
    }
  }

  lemma {:induction false} CrcDeterminesRegister(a: seq<Byte>, b: seq<Byte>)
    requires Crc(a) == Crc(b)
    ensures Feed(AllOnes(), BitsOf(a)) == Feed(AllOnes(), BitsOf(b))
  {
    CrcBits(a);
    CrcBits(b);
    ComplementIsInjective(Feed(AllOnes(), BitsOf(a)), Feed(AllOnes(), BitsOf(b)));
  }

  /** The two bit strings agree outside the 32 places that start at k. */
  predicate AgreeOutside(u: seq<bool>, v: seq<bool>, k: nat)
    requires |u| == |v|
  {
    forall i | 0 <= i < |u| && !(k <= i < k + 32) :: u[i] == v[i]
  }

  /** Any change confined to 32 consecutive bits of a buffer changes its CRC. */
  lemma {:induction false} BurstDetected(a: seq<Byte>, b: seq<Byte>, k: nat)
    requires |a| == |b| && a != b
    requires AgreeOutside(BitsOf(a), BitsOf(b), k)
    ensures Crc(a) != Crc(b)
  {
    hide Crc, BitsOf, Feed;
    if Crc(a) == Crc(b) {
      CrcDeterminesRegister(a, b);
      var u, v := BitsOf(a), BitsOf(b);
      FeedDetectsBurst(u, v, Min(k, |u|), Min(k + 32, |u|));
      BitsOfInjective(a, b);
    }
  }
}
