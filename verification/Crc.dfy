/** CRC32C: the strided loop against the byte-at-a-time definition, extension over concatenation, and masking. */
module Crc {

  // ---- the shift register (RFC 3720, section 12.1) -----------------------------------------------

  const POLYNOMIAL: bv32 := 0x82f63b78

  type Reg = bv32

  /** Named so that lemmas can hide it: only this section reasons about bit vectors. */
  function Xor(a: Reg, b: Reg): Reg {
    a ^ b
  }

  const ZERO: Reg := 0
  const ONES: Reg := 0xffffffff

  lemma XorAssoc(a: Reg, b: Reg, c: Reg)
    ensures Xor(Xor(a, b), c) == Xor(a, Xor(b, c))
  {
  }

  lemma XorComm(a: Reg, b: Reg)
    ensures Xor(a, b) == Xor(b, a)
  {
  }

  lemma XorZero(a: Reg)
    ensures Xor(a, ZERO) == a && Xor(ZERO, a) == a && Xor(a, a) == ZERO
  {
  }

  /** Shift by one zero bit. */
  function Bit(l: Reg): Reg {
    (l >> 1) ^ (POLYNOMIAL & (0 - (l & 1)))
  }

  lemma ShiftXor(a: bv32, b: bv32)
    ensures (a ^ b) >> 1 == (a >> 1) ^ (b >> 1)
    ensures (a ^ b) & 1 == (a & 1) ^ (b & 1)
  {
  }

  lemma LowBit(a: bv32)
    ensures a & 1 == 0 || a & 1 == 1
  {
  }

  lemma PolynomialXor(a: bv32, b: bv32)
    requires (a == 0 || a == 1) && (b == 0 || b == 1)
    ensures POLYNOMIAL & (0 - (a ^ b)) == (POLYNOMIAL & (0 - a)) ^ (POLYNOMIAL & (0 - b))
  {
  }

  lemma Regroup(a: bv32, b: bv32, c: bv32, d: bv32)
    ensures (a ^ b) ^ (c ^ d) == (a ^ c) ^ (b ^ d)
  {
  }

  lemma BitXor(a: Reg, b: Reg)
    ensures Bit(Xor(a, b)) == Xor(Bit(a), Bit(b))
  {
    ShiftXor(a, b);
    LowBit(a);
    LowBit(b);
    PolynomialXor(a & 1, b & 1);
    Regroup(a >> 1, b >> 1, POLYNOMIAL & (0 - (a & 1)), POLYNOMIAL & (0 - (b & 1)));
  }

  /** Shift by n zero bits. */
  function Bits(l: Reg, n: nat): Reg {
    if n == 0 then l else Bit(Bits(l, n - 1))
  }

  /** Shift by n zero bytes. */
  function Advance(l: Reg, n: nat): Reg {
    if n == 0 then l else Bits(Advance(l, n - 1), 8)
  }

  lemma {:induction false} BitsXor(a: Reg, b: Reg, n: nat)
    ensures Bits(Xor(a, b), n) == Xor(Bits(a, n), Bits(b, n))
  {
    hide Bit;
    hide Xor;
    if n > 0 {
      BitsXor(a, b, n - 1);
      BitXor(Bits(a, n - 1), Bits(b, n - 1));
    }
  }

  /** Advancing is linear: it distributes over exclusive or. */
  lemma {:induction false} AdvanceXor(a: Reg, b: Reg, n: nat)
    ensures Advance(Xor(a, b), n) == Xor(Advance(a, n), Advance(b, n))
  {
    hide Bits;
    hide Xor;
    if n > 0 {
      AdvanceXor(a, b, n - 1);
      BitsXor(Advance(a, n - 1), Advance(b, n - 1), 8);
    }
  }

  lemma {:induction false} AdvanceSum(l: Reg, m: nat, n: nat)
    ensures Advance(Advance(l, m), n) == Advance(l, m + n)
  {
    hide Bits;
    if n > 0 {
      AdvanceSum(l, m, n - 1);
    }
  }

  // ---- one byte ------------------------------------------------------------------------------------

  /** The register without its low byte, shifted down n bits. */
  function High(l: Reg, n: bv32): Reg
    requires n <= 8
  {
    (l & 0xffffff00) >> n
  }

  function Low(l: Reg): Reg {
    l & 0xff
  }

  lemma ShiftedLow(l: bv32, n: bv32)
    requires n < 8
    ensures ((l & 0xffffff00) >> n) & 1 == 0
    ensures ((l & 0xffffff00) >> n) >> 1 == (l & 0xffffff00) >> (n + 1)
  {
  }

  lemma EvenBit(l: bv32)
    requires l & 1 == 0
    ensures Bit(l) == l >> 1
  {
  }

  lemma HighStep(l: Reg, n: bv32)
    requires n < 8
    ensures Bit(High(l, n)) == High(l, n + 1)
  {
    hide Bit;
    ShiftedLow(l, n);
    EvenBit((l & 0xffffff00) >> n);
  }

  lemma SplitLow(l: Reg)
    ensures l == Xor(Low(l), High(l, 0))
  {
  }

  lemma Bits8(l: Reg)
    ensures Bits(l, 8) == Bit(Bit(Bit(Bit(Bit(Bit(Bit(Bit(l))))))))
  {
    hide Bit;
    assert Bits(l, 1) == Bit(l);
    assert Bits(l, 2) == Bit(Bits(l, 1));
    assert Bits(l, 3) == Bit(Bits(l, 2));
    assert Bits(l, 4) == Bit(Bits(l, 3));
    assert Bits(l, 5) == Bit(Bits(l, 4));
    assert Bits(l, 6) == Bit(Bits(l, 5));
    assert Bits(l, 7) == Bit(Bits(l, 6));
  }

  lemma AdvanceHigh(l: Reg)
    ensures Bits(High(l, 0), 8) == High(l, 8)
  {
    hide Bit;
    hide Bits;
    hide High;
    HighStep(l, 0);
    HighStep(l, 1);
    HighStep(l, 2);
    HighStep(l, 3);
    HighStep(l, 4);
    HighStep(l, 5);
    HighStep(l, 6);
    HighStep(l, 7);
    Bits8(High(l, 0));
  }

  /** The table step: shift by one byte and add the table entry of the byte shifted out. */
  lemma TableStep(l: Reg)
    ensures Xor(Bits(Low(l), 8), High(l, 8)) == Bits(l, 8)
  {
    hide Bits;
    hide Xor;
    hide High;
    hide Low;
    SplitLow(l);
    BitsXor(Low(l), High(l, 0), 8);
    AdvanceHigh(l);
  }

  // ---- the byte-at-a-time definition ------------------------------------------------------------------

  function Byte(b: bv8): Reg {
    b as bv32
  }

  function Fold(l: Reg, data: seq<bv8>): Reg {
    if data == [] then l else Bits(Xor(Fold(l, data[..|data| - 1]), Byte(data[|data| - 1])), 8)
  }

  /** The CRC of a string whose CRC so far is crc, after data. */
  function ExtendBytes(crc: Reg, data: seq<bv8>): Reg {
    Xor(Fold(Xor(crc, ONES), data), ONES)
  }

  function Value(data: seq<bv8>): Reg {
    ExtendBytes(ZERO, data)
  }

  lemma {:induction false} FoldConcat(l: Reg, a: seq<bv8>, b: seq<bv8>)
    ensures Fold(l, a + b) == Fold(Fold(l, a), b)
  {
    hide Bits;
    hide Xor;
    hide Byte;
    if b == [] {
      assert a + b == a;
    } else {
      FoldConcat(l, a, b[..|b| - 1]);
      assert (a + b)[..|a + b| - 1] == a + b[..|b| - 1];
    }
  }

  /** Extending in pieces is extending by the whole. */
  lemma ExtendConcat(crc: Reg, a: seq<bv8>, b: seq<bv8>)
    ensures ExtendBytes(ExtendBytes(crc, a), b) == ExtendBytes(crc, a + b)
  {
    hide Fold;
    hide Xor;
    var l := Fold(Xor(crc, ONES), a);
    FoldConcat(Xor(crc, ONES), a, b);
    XorAssoc(l, ONES, ONES);
    XorZero(ONES);
    XorZero(l);
  }

  // ---- four bytes at a time -------------------------------------------------------------------------------

  function Shl(b: Reg, n: bv32): Reg
    requires n <= 24
  {
    b << n
  }

  /** ReadUint32LE. */
  function Word(b0: bv8, b1: bv8, b2: bv8, b3: bv8): Reg {
    (b0 as bv32) | ((b1 as bv32) << 8) | ((b2 as bv32) << 16) | ((b3 as bv32) << 24)
  }

  lemma WordIsXor(b0: bv8, b1: bv8, b2: bv8, b3: bv8)
    ensures Word(b0, b1, b2, b3) == Xor(Byte(b0), Xor(Shl(Byte(b1), 8), Xor(Shl(Byte(b2), 16), Shl(Byte(b3), 24))))
  {
  }

  lemma ByteShifts(b: bv8)
    ensures High(Shl(Byte(b), 8), 0) == Shl(Byte(b), 8) && High(Shl(Byte(b), 8), 8) == Byte(b)
    ensures High(Shl(Byte(b), 16), 0) == Shl(Byte(b), 16) && High(Shl(Byte(b), 16), 8) == Shl(Byte(b), 8)
    ensures High(Shl(Byte(b), 24), 0) == Shl(Byte(b), 24) && High(Shl(Byte(b), 24), 8) == Shl(Byte(b), 16)
  {
  }

  lemma ShiftDown(b: bv8)
    ensures Bits(Shl(Byte(b), 8), 8) == Byte(b)
    ensures Bits(Shl(Byte(b), 16), 8) == Shl(Byte(b), 8)
    ensures Bits(Shl(Byte(b), 24), 8) == Shl(Byte(b), 16)
  {
    hide Bits;
    hide Byte;
    hide Shl;
    hide High;
    ByteShifts(b);
    AdvanceHigh(Shl(Byte(b), 8));
    AdvanceHigh(Shl(Byte(b), 16));
    AdvanceHigh(Shl(Byte(b), 24));
  }

  lemma FoldNone(l: Reg)
    ensures Fold(l, []) == l
  {
  }

  lemma FoldSnoc(l: Reg, data: seq<bv8>, b: bv8)
    ensures Fold(l, data + [b]) == Bits(Xor(Fold(l, data), Byte(b)), 8)
  {
    hide Bits;
    hide Xor;
    hide Byte;
    assert (data + [b])[..|data|] == data;
  }

  lemma Fold4(l: Reg, b0: bv8, b1: bv8, b2: bv8, b3: bv8)
    ensures Fold(l, [b0, b1, b2, b3]) ==
      Bits(Xor(Bits(Xor(Bits(Xor(Bits(Xor(l, Byte(b0)), 8), Byte(b1)), 8), Byte(b2)), 8), Byte(b3)), 8)
  {
    hide Bits;
    hide Xor;
    hide Byte;
    hide Fold;
    FoldSnoc(l, [b0, b1, b2], b3);
    FoldSnoc(l, [b0, b1], b2);
    FoldSnoc(l, [b0], b1);
    FoldSnoc(l, [], b0);
    FoldNone(l);
    assert [] + [b0] == [b0] && [b0] + [b1] == [b0, b1];
    assert [b0, b1] + [b2] == [b0, b1, b2] && [b0, b1, b2] + [b3] == [b0, b1, b2, b3];
  }

  lemma Advance4(l: Reg)
    ensures Advance(l, 4) == Bits(Bits(Bits(Bits(l, 8), 8), 8), 8)
  {
    hide Bits;
    assert Advance(l, 1) == Bits(Advance(l, 0), 8);
    assert Advance(l, 2) == Bits(Advance(l, 1), 8);
    assert Advance(l, 3) == Bits(Advance(l, 2), 8);
  }

  /** Adding a whole word and advancing four bytes is four byte steps. */
  lemma WordStep(l: Reg, b0: bv8, b1: bv8, b2: bv8, b3: bv8)
    ensures Fold(l, [b0, b1, b2, b3]) == Advance(Xor(l, Word(b0, b1, b2, b3)), 4)
  {
    hide Bits;
    hide Xor;
    hide Byte;
    hide Shl;
    hide Word;
    hide Fold;
    hide Advance;
    var x0, x1, x2, x3 := Byte(b0), Byte(b1), Byte(b2), Byte(b3);
    var y1 := Xor(Shl(x1, 8), Xor(Shl(x2, 16), Shl(x3, 24)));
    var y2 := Xor(Shl(x2, 8), Shl(x3, 16));
    Fold4(l, b0, b1, b2, b3);
    WordIsXor(b0, b1, b2, b3);
    Advance4(Xor(l, Word(b0, b1, b2, b3)));
    ShiftDown(b1);
    ShiftDown(b2);
    ShiftDown(b3);
    XorAssoc(l, x0, y1);
    BitsXor(Xor(l, x0), y1, 8);
    BitsXor(Shl(x1, 8), Xor(Shl(x2, 16), Shl(x3, 24)), 8);
    BitsXor(Shl(x2, 16), Shl(x3, 24), 8);
    var m1 := Bits(Xor(l, x0), 8);
    XorAssoc(m1, x1, y2);
    BitsXor(Xor(m1, x1), y2, 8);
    BitsXor(Shl(x2, 8), Shl(x3, 16), 8);
    var m2 := Bits(Xor(m1, x1), 8);
    XorAssoc(m2, x2, Shl(x3, 8));
    BitsXor(Xor(m2, x2), Shl(x3, 8), 8);
  }

  // ---- four strides ------------------------------------------------------------------------------------------

  /** What the four partial registers stand for together. */
  function Combine(c0: Reg, c1: Reg, c2: Reg, c3: Reg): Reg {
    Xor(Advance(c0, 16), Xor(Advance(c1, 12), Xor(Advance(c2, 8), Advance(c3, 4))))
  }

  lemma Xor4(a0: Reg, a1: Reg, a2: Reg, a3: Reg, b0: Reg, b1: Reg, b2: Reg, b3: Reg)
    ensures Xor(Xor(a0, b0), Xor(Xor(a1, b1), Xor(Xor(a2, b2), Xor(a3, b3)))) ==
      Xor(Xor(a0, Xor(a1, Xor(a2, a3))), Xor(b0, Xor(b1, Xor(b2, b3))))
  {
    hide Xor;
    XorPair(a2, b2, a3, b3);
    XorPair(a1, b1, Xor(a2, a3), Xor(b2, b3));
    XorPair(a0, b0, Xor(a1, Xor(a2, a3)), Xor(b1, Xor(b2, b3)));
  }

  lemma XorPair(a: Reg, b: Reg, c: Reg, d: Reg)
    ensures Xor(Xor(a, b), Xor(c, d)) == Xor(Xor(a, c), Xor(b, d))
  {
    hide Xor;
    XorAssoc(a, b, Xor(c, d));
    XorAssoc(b, c, d);
    XorComm(b, c);
    XorAssoc(c, b, d);
    XorAssoc(a, c, Xor(b, d));
  }

  lemma CombineXor(a0: Reg, a1: Reg, a2: Reg, a3: Reg, b0: Reg, b1: Reg, b2: Reg, b3: Reg)
    ensures Combine(Xor(a0, b0), Xor(a1, b1), Xor(a2, b2), Xor(a3, b3)) ==
      Xor(Combine(a0, a1, a2, a3), Combine(b0, b1, b2, b3))
  {
    hide Xor;
    hide Advance;
    AdvanceXor(a0, b0, 16);
    AdvanceXor(a1, b1, 12);
    AdvanceXor(a2, b2, 8);
    AdvanceXor(a3, b3, 4);
    Xor4(Advance(a0, 16), Advance(a1, 12), Advance(a2, 8), Advance(a3, 4), Advance(b0, 16), Advance(b1, 12),
      Advance(b2, 8), Advance(b3, 4));
  }

  lemma AdvanceCombine(c0: Reg, c1: Reg, c2: Reg, c3: Reg, n: nat)
    ensures Advance(Combine(c0, c1, c2, c3), n) ==
      Combine(Advance(c0, n), Advance(c1, n), Advance(c2, n), Advance(c3, n))
  {
    hide Xor;
    hide Advance;
    var d0, d1, d2, d3 := Advance(c0, 16), Advance(c1, 12), Advance(c2, 8), Advance(c3, 4);
    AdvanceXor(d0, Xor(d1, Xor(d2, d3)), n);
    AdvanceXor(d1, Xor(d2, d3), n);
    AdvanceXor(d2, d3, n);
    Commute(c0, 16, n);
    Commute(c1, 12, n);
    Commute(c2, 8, n);
    Commute(c3, 4, n);
  }

  lemma Commute(l: Reg, m: nat, n: nat)
    ensures Advance(Advance(l, m), n) == Advance(Advance(l, n), m)
  {
    AdvanceSum(l, m, n);
    AdvanceSum(l, n, m);
  }

  lemma {:induction false} AdvanceZero(n: nat)
    ensures Advance(ZERO, n) == ZERO
  {
    hide Xor;
    hide Advance;
    XorZero(ZERO);
    AdvanceXor(ZERO, ZERO, n);
    XorZero(Advance(ZERO, n));
  }

  /** STEP4W four times over partial registers gives what they stand for. */
  lemma CombineChain(c0: Reg, c1: Reg, c2: Reg, c3: Reg)
    ensures Advance(Xor(c3, Advance(Xor(c2, Advance(Xor(c1, Advance(c0, 4)), 4)), 4)), 4) == Combine(c0, c1, c2, c3)
  {
    hide Xor;
    hide Advance;
    var a0 := Advance(c0, 4);
    AdvanceXor(c1, a0, 4);
    AdvanceSum(c0, 4, 4);
    var a1 := Xor(Advance(c1, 4), Advance(c0, 8));
    AdvanceXor(c2, a1, 4);
    AdvanceXor(Advance(c1, 4), Advance(c0, 8), 4);
    AdvanceSum(c1, 4, 4);
    AdvanceSum(c0, 8, 4);
    var a2 := Xor(Advance(c2, 4), Xor(Advance(c1, 8), Advance(c0, 12)));
    AdvanceXor(c3, a2, 4);
    AdvanceXor(Advance(c2, 4), Xor(Advance(c1, 8), Advance(c0, 12)), 4);
    AdvanceXor(Advance(c1, 8), Advance(c0, 12), 4);
    AdvanceSum(c2, 4, 4);
    AdvanceSum(c1, 8, 4);
    AdvanceSum(c0, 12, 4);
    Reverse4(Advance(c3, 4), Advance(c2, 8), Advance(c1, 12), Advance(c0, 16));
  }

  lemma Reverse4(a: Reg, b: Reg, c: Reg, d: Reg)
    ensures Xor(a, Xor(b, Xor(c, d))) == Xor(d, Xor(c, Xor(b, a)))
  {
    hide Xor;
    XorComm(c, d);
    XorComm(b, Xor(d, c));
    XorComm(a, Xor(Xor(d, c), b));
    XorAssoc(Xor(d, c), b, a);
    XorAssoc(d, c, Xor(b, a));
  }

  /** The register after sixteen bytes, given as words. */
  lemma SixteenBytes(l: Reg, w0: Reg, w1: Reg, w2: Reg, w3: Reg)
    ensures Advance(Xor(Advance(Xor(Advance(Xor(Advance(Xor(l, w0), 4), w1), 4), w2), 4), w3), 4) ==
      Combine(Xor(w0, l), w1, w2, w3)
  {
    hide Xor;
    hide Advance;
    hide Combine;
    XorComm(l, w0);
    var a := Advance(Xor(w0, l), 4);
    XorComm(a, w1);
    var b := Advance(Xor(w1, a), 4);
    XorComm(b, w2);
    var c := Advance(Xor(w2, b), 4);
    XorComm(c, w3);
    CombineChain(Xor(w0, l), w1, w2, w3);
  }

  /** One swath: each stride advances by sixteen bytes and takes its next word. */
  lemma SwathStep(c0: Reg, c1: Reg, c2: Reg, c3: Reg, w0: Reg, w1: Reg, w2: Reg, w3: Reg)
    ensures Combine(Xor(w0, Advance(c0, 16)), Xor(w1, Advance(c1, 16)), Xor(w2, Advance(c2, 16)),
      Xor(w3, Advance(c3, 16))) ==
      Combine(Xor(w0, Combine(c0, c1, c2, c3)), w1, w2, w3)
  {
    hide Xor;
    hide Advance;
    hide Combine;
    var l := Combine(c0, c1, c2, c3);
    CombineXor(w0, w1, w2, w3, Advance(c0, 16), Advance(c1, 16), Advance(c2, 16), Advance(c3, 16));
    AdvanceCombine(c0, c1, c2, c3, 16);
    CombineXor(w0, w1, w2, w3, l, ZERO, ZERO, ZERO);
    XorZero(w1);
    XorZero(w2);
    XorZero(w3);
    CombineFirst(l);
  }

  lemma CombineFirst(l: Reg)
    ensures Combine(l, ZERO, ZERO, ZERO) == Advance(l, 16)
  {
    hide Xor;
    hide Advance;
    AdvanceZero(12);
    AdvanceZero(8);
    AdvanceZero(4);
    XorZero(ZERO);
    XorZero(Advance(l, 16));
  }

  /** One word: the first stride takes it and becomes the last. */
  lemma RotateStep(c0: Reg, c1: Reg, c2: Reg, c3: Reg, w: Reg)
    ensures Combine(c1, c2, c3, Xor(w, Advance(c0, 16))) == Advance(Xor(Combine(c0, c1, c2, c3), w), 4)
  {
    hide Xor;
    hide Advance;
    var l := Combine(c0, c1, c2, c3);
    AdvanceXor(w, Advance(c0, 16), 4);
    AdvanceXor(l, w, 4);
    AdvanceCombine(c0, c1, c2, c3, 4);
    AdvanceSum(c0, 16, 4);
    AdvanceSum(c0, 4, 16);
    AdvanceSum(c1, 12, 4);
    AdvanceSum(c1, 4, 12);
    AdvanceSum(c2, 8, 4);
    AdvanceSum(c2, 4, 8);
    AdvanceSum(c3, 4, 4);
    Rotate5(Advance(c1, 16), Advance(c2, 12), Advance(c3, 8), Advance(w, 4), Advance(c0, 20));
  }

  lemma Rotate5(a: Reg, b: Reg, c: Reg, w: Reg, z: Reg)
    ensures Xor(a, Xor(b, Xor(c, Xor(w, z)))) == Xor(Xor(z, Xor(a, Xor(b, c))), w)
  {
    hide Xor;
    XorAssoc(c, w, z);
    XorAssoc(b, Xor(c, w), z);
    XorAssoc(a, Xor(b, Xor(c, w)), z);
    XorComm(Xor(a, Xor(b, Xor(c, w))), z);
    XorAssoc(b, c, w);
    XorAssoc(a, Xor(b, c), w);
    XorAssoc(z, Xor(a, Xor(b, c)), w);
  }

  // ---- the tables and the loop ---------------------------------------------------------------------------

  /** The five constant tables, as functions of the byte that indexes them. */
  datatype Tables = Tables(bytes: Reg -> Reg, s0: Reg -> Reg, s1: Reg -> Reg, s2: Reg -> Reg, s3: Reg -> Reg)

  /** The byte table advances a byte by eight bits; the stride tables advance each byte of a word by sixteen bytes. */
  ghost predicate TablesOk(t: Tables) {
    forall l: Reg ::
      && t.bytes(Low(l)) == Bits(Low(l), 8)
      && t.s3(Low(l)) == Advance(Low(l), 16) && t.s2(Low(l)) == Advance(Shl(Low(l), 8), 16)
      && t.s1(Low(l)) == Advance(Shl(Low(l), 16), 16) && t.s0(Low(l)) == Advance(Shl(Low(l), 24), 16)
  }

  lemma BytesOf(l: Reg)
    ensures l == Xor(Low(l), Xor(Shl(Low(l >> 8), 8), Xor(Shl(Low(l >> 16), 16), Shl(Low(l >> 24), 24))))
  {
  }

  /** Four lookups advance a whole register by sixteen bytes. */
  lemma StrideLookup(t: Tables, l: Reg)
    requires TablesOk(t)
    ensures Xor(t.s3(Low(l)), Xor(t.s2(Low(l >> 8)), Xor(t.s1(Low(l >> 16)), t.s0(Low(l >> 24))))) == Advance(l, 16)
  {
    hide Xor;
    hide Advance;
    hide Bits;
    hide Low;
    hide Shl;
    var b0, b1, b2, b3 := Low(l), Shl(Low(l >> 8), 8), Shl(Low(l >> 16), 16), Shl(Low(l >> 24), 24);
    BytesOf(l);
    AdvanceXor(b0, Xor(b1, Xor(b2, b3)), 16);
    AdvanceXor(b1, Xor(b2, b3), 16);
    AdvanceXor(b2, b3, 16);
  }

  /** STEP1. */
  method Step1(t: Tables, l: Reg, b: bv8) returns (r: Reg)
    requires TablesOk(t)
    ensures r == Bits(Xor(l, Byte(b)), 8)
  {
    hide Bits;
    hide Advance;
    hide Xor;
    hide Byte;
    hide Low;
    hide High;
    var c := Low(Xor(l, Byte(b)));
    ByteOnly(l, b);
    TableStep(Xor(l, Byte(b)));
    r := Xor(t.bytes(c), High(l, 8));
  }

  lemma ByteOnly(l: Reg, b: bv8)
    ensures High(Xor(l, Byte(b)), 8) == High(l, 8)
  {
  }

  /** STEP4(s): advance one stride and take a word. */
  method Step4(t: Tables, c: Reg, w: Reg) returns (r: Reg)
    requires TablesOk(t)
    ensures r == Xor(w, Advance(c, 16))
  {
    hide Bits;
    hide Advance;
    hide Xor;
    hide Low;
    StrideLookup(t, c);
    r := Xor(w, Xor(t.s3(Low(c)), Xor(t.s2(Low(c >> 8)), Xor(t.s1(Low(c >> 16)), t.s0(Low(c >> 24))))));
  }

  /** STEP4W: four byte steps over a word already loaded. */
  method Step4W(t: Tables, w0: Reg, l: Reg) returns (r: Reg)
    requires TablesOk(t)
    ensures r == Advance(Xor(w0, l), 4)
  {
    hide Bits;
    hide Xor;
    hide Low;
    hide High;
    var w := Xor(w0, l);
    for i := 0 to 4
      invariant w == Advance(Xor(w0, l), i)
    {
      TableStep(w);
      w := Xor(t.bytes(Low(w)), High(w, 8));
    }
    r := w;
  }

  function WordAt(data: seq<bv8>, p: nat): Reg
    requires p + 4 <= |data|
  {
    Word(data[p], data[p + 1], data[p + 2], data[p + 3])
  }

  lemma FoldWord(l: Reg, data: seq<bv8>, p: nat)
    requires p + 4 <= |data|
    ensures Fold(l, data[..p + 4]) == Advance(Xor(Fold(l, data[..p]), WordAt(data, p)), 4)
  {
    hide Fold;
    hide Advance;
    hide Xor;
    assert data[..p + 4] == data[..p] + [data[p], data[p + 1], data[p + 2], data[p + 3]];
    FoldConcat(l, data[..p], [data[p], data[p + 1], data[p + 2], data[p + 3]]);
    WordStep(Fold(l, data[..p]), data[p], data[p + 1], data[p + 2], data[p + 3]);
  }

  lemma FoldSwath(l: Reg, data: seq<bv8>, p: nat)
    requires p + 16 <= |data|
    ensures Fold(l, data[..p + 16]) ==
      Combine(Xor(WordAt(data, p), Fold(l, data[..p])), WordAt(data, p + 4), WordAt(data, p + 8), WordAt(data, p + 12))
  {
    hide Fold;
    hide Advance;
    hide Xor;
    hide Combine;
    hide WordAt;
    FoldWord(l, data, p);
    FoldWord(l, data, p + 4);
    FoldWord(l, data, p + 8);
    FoldWord(l, data, p + 12);
    SixteenBytes(Fold(l, data[..p]), WordAt(data, p), WordAt(data, p + 4), WordAt(data, p + 8), WordAt(data, p + 12));
  }

  lemma FoldByte(l: Reg, data: seq<bv8>, p: nat)
    requires p < |data|
    ensures Fold(l, data[..p + 1]) == Bits(Xor(Fold(l, data[..p]), Byte(data[p])), 8)
  {
    hide Fold;
    hide Bits;
    hide Xor;
    FoldSnoc(l, data[..p], data[p]);
    assert data[..p] + [data[p]] == data[..p + 1];
  }

  /** Byte steps up to position x. */
  method Bytewise(t: Tables, l0: Reg, ghost start: Reg, data: seq<bv8>, p0: nat, x: nat) returns (l: Reg)
    requires TablesOk(t) && p0 <= x <= |data| && l0 == Fold(start, data[..p0])
    ensures l == Fold(start, data[..x])
  {
    hide TablesOk;
    hide Fold;
    l := l0;
    var p := p0;
    while p != x
      invariant p0 <= p <= x && l == Fold(start, data[..p])
    {
      l := Step1(t, l, data[p]);
      FoldByte(start, data, p);
      p := p + 1;
    }
  }

  /** The four strides over whole swaths, then over whole words, then combined. */
  method Strided(t: Tables, l0: Reg, ghost start: Reg, data: seq<bv8>, p0: nat) returns (l: Reg, p: nat)
    requires TablesOk(t) && p0 + 16 <= |data| && l0 == Fold(start, data[..p0])
    ensures p <= |data| && l == Fold(start, data[..p])
  {
    hide TablesOk;
    hide Fold;
    hide Combine;
    hide Xor;
    hide Advance;
    hide WordAt;
    p := p0;
    var c0, c1, c2, c3 := Xor(WordAt(data, p), l0), WordAt(data, p + 4), WordAt(data, p + 8), WordAt(data, p + 12);
    FoldSwath(start, data, p);
    p := p + 16;
    while |data| - p >= 16
      invariant p <= |data| && Combine(c0, c1, c2, c3) == Fold(start, data[..p])
    {
      FoldSwath(start, data, p);
      SwathStep(c0, c1, c2, c3, WordAt(data, p), WordAt(data, p + 4), WordAt(data, p + 8), WordAt(data, p + 12));
      c0 := Step4(t, c0, WordAt(data, p));
      c1 := Step4(t, c1, WordAt(data, p + 4));
      c2 := Step4(t, c2, WordAt(data, p + 8));
      c3 := Step4(t, c3, WordAt(data, p + 12));
      p := p + 16;
    }
    while |data| - p >= 4
      invariant p <= |data| && Combine(c0, c1, c2, c3) == Fold(start, data[..p])
    {
      FoldWord(start, data, p);
      RotateStep(c0, c1, c2, c3, WordAt(data, p));
      var tmp := Step4(t, c0, WordAt(data, p));
      c0, c1, c2, c3 := c1, c2, c3, tmp;
      p := p + 4;
    }
    CombineChain(c0, c1, c2, c3);
    XorZero(c0);
    l := Step4W(t, c0, ZERO);
    l := Step4W(t, c1, l);
    l := Step4W(t, c2, l);
    l := Step4W(t, c3, l);
  }

  /** crc32c::Extend for a buffer starting at any address: the same as one byte at a time. */
  method Extend(t: Tables, crc: Reg, data: seq<bv8>, address: nat) returns (r: Reg)
    requires TablesOk(t)
    ensures r == ExtendBytes(crc, data)
  {
    hide TablesOk;
    hide Fold;
    hide Xor;
    ghost var start := Xor(crc, ONES);
    var l, p := Xor(crc, ONES), 0;
    FoldNone(start);
    assert data[..0] == [];
    var x := (4 - address % 4) % 4;
    if x <= |data| {
      l := Bytewise(t, l, start, data, p, x);
      p := x;
    }
    if |data| - p >= 16 {
      l, p := Strided(t, l, start, data, p);
    }
    l := Bytewise(t, l, start, data, p, |data|);
    assert data[..|data|] == data;
    r := Xor(l, ONES);
  }

  /** Tables filled in from the polynomial meet the loop's requirement. */
  lemma PolynomialTables() returns (t: Tables)
    ensures TablesOk(t)
  {
    t := Tables(b => Bits(b, 8), b => Advance(Shl(b, 24), 16), b => Advance(Shl(b, 16), 16),
      b => Advance(Shl(b, 8), 16), b => Advance(b, 16));
  }

  // ---- known answers ----------------------------------------------------------------------------------------

  /** The digits 1 to 9 in ASCII, on which checksum algorithms publish their check values. */
  const DIGITS: seq<bv8> := [0x31, 0x32, 0x33, 0x34, 0x35, 0x36, 0x37, 0x38, 0x39]

  lemma NextDigit(k: nat, l: Reg, r: Reg)
    requires k < |DIGITS| && Fold(0xffffffff, DIGITS[..k]) == l
    requires Bit(Bit(Bit(Bit(Bit(Bit(Bit(Bit(Xor(l, Byte(DIGITS[k])))))))))) == r
    ensures Fold(0xffffffff, DIGITS[..k + 1]) == r
  {
    hide Bit;
    hide Xor;
    hide Byte;
    assert DIGITS[..k + 1] == DIGITS[..k] + [DIGITS[k]];
    FoldSnoc(0xffffffff, DIGITS[..k], DIGITS[k]);
    Bits8(Xor(l, Byte(DIGITS[k])));
  }

  lemma FirstThree()
    ensures Fold(0xffffffff, DIGITS[..3]) == 0xef84d04d
  {
    FoldNone(0xffffffff);
    NextDigit(0, 0xffffffff, 0x6f0a661c);
    NextDigit(1, 0x6f0a661c, 0x8caa3b9f);
    NextDigit(2, 0x8caa3b9f, 0xef84d04d);
  }

  lemma NextThree()
    requires Fold(0xffffffff, DIGITS[..3]) == 0xef84d04d
    ensures Fold(0xffffffff, DIGITS[..6]) == 0xbeca8e79
  {
    NextDigit(3, 0xef84d04d, 0x09c50b11);
    NextDigit(4, 0x09c50b11, 0xe72edcca);
    NextDigit(5, 0xe72edcca, 0xbeca8e79);
  }

  lemma LastThree()
    requires Fold(0xffffffff, DIGITS[..6]) == 0xbeca8e79
    ensures Fold(0xffffffff, DIGITS[..9]) == 0x1cf96d7c
  {
    NextDigit(6, 0xbeca8e79, 0xedbd6815);
    NextDigit(7, 0xedbd6815, 0x9f787f65);
    NextDigit(8, 0x9f787f65, 0x1cf96d7c);
  }

  /** The published check value of CRC-32C. */
  lemma CheckValue()
    ensures Value([0x31, 0x32, 0x33, 0x34, 0x35, 0x36, 0x37, 0x38, 0x39]) == 0xe3069283
  {
    hide Fold;
    FirstThree();
    NextThree();
    LastThree();
    assert DIGITS[..9] == DIGITS;
  }

  lemma ByteEntry(t: Tables, l: Reg)
    requires TablesOk(t) && l <= 0xff
    ensures t.bytes(l) == Bit(Bit(Bit(Bit(Bit(Bit(Bit(Bit(l))))))))
  {
    hide Bit;
    LowOfByte(l);
    Bits8(Low(l));
  }

  lemma LowOfByte(l: Reg)
    requires l <= 0xff
    ensures Low(l) == l
  {
  }

  /** Any table of this meaning has the code's numbers: here at the powers of two, and every entry is an exclusive-or of
      these (BitsXor). */
  lemma TableEntries(t: Tables)
    requires TablesOk(t)
    ensures t.bytes(1) == 0xf26b8303 && t.bytes(2) == 0xe13b70f7
    ensures t.bytes(4) == 0xc79a971f && t.bytes(8) == 0x8ad958cf
    ensures t.bytes(16) == 0x105ec76f && t.bytes(32) == 0x20bd8ede
    ensures t.bytes(64) == 0x417b1dbc && t.bytes(128) == 0x82f63b78
  {
    hide TablesOk;
    ByteEntry(t, 1);
    ByteEntry(t, 2);
    ByteEntry(t, 4);
    ByteEntry(t, 8);
    ByteEntry(t, 16);
    ByteEntry(t, 32);
    ByteEntry(t, 64);
    ByteEntry(t, 128);
  }

  // ---- masking ------------------------------------------------------------------------------------------

  const MASK_DELTA: bv32 := 0xa282ead8

  function Mask(crc: bv32): bv32 {
    ((crc >> 15) | (crc << 17)) + MASK_DELTA
  }

  function Unmask(masked: bv32): bv32 {
    var rot := masked - MASK_DELTA;
    (rot >> 17) | (rot << 15)
  }

  lemma RotateBack(x: bv32)
    ensures (((x >> 15) | (x << 17)) >> 17) | (((x >> 15) | (x << 17)) << 15) == x
    ensures (((x >> 17) | (x << 15)) >> 15) | (((x >> 17) | (x << 15)) << 17) == x
  {
  }

  lemma UnmaskMask(x: bv32)
    ensures Unmask(Mask(x)) == x
    ensures Mask(Unmask(x)) == x
  {
    RotateBack(x);
    RotateBack(x - MASK_DELTA);
  }

  /** The masked form stored for the check value. */
  lemma MaskedCheck()
    ensures Mask(0xe3069283) == 0xc78ab0e5
  {
  }
}
