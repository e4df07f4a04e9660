/** What the checksum detects: any damage confined to four consecutive bytes. */
module CrcErrors {
  import opened Crc

  /** One bit shifted back in: the top bit tells whether the polynomial was added. */
  function Unbit(r: Reg): Reg {
    if r & 0x80000000 != 0 then ((r ^ POLYNOMIAL) << 1) | 1 else r << 1
  }

  lemma UnbitBit(l: Reg)
    ensures Unbit(Bit(l)) == l
  {
  }

  lemma {:induction false} BitsOneToOne(a: Reg, b: Reg, n: nat)
    requires Bits(a, n) == Bits(b, n)
    ensures a == b
  {
    hide Bit;
    hide Unbit;
    if n > 0 {
      UnbitBit(Bits(a, n - 1));
      UnbitBit(Bits(b, n - 1));
      BitsOneToOne(a, b, n - 1);
    }
  }

  lemma {:induction false} AdvanceOneToOne(a: Reg, b: Reg, n: nat)
    requires Advance(a, n) == Advance(b, n)
    ensures a == b
  {
    hide Bits;
    if n > 0 {
      BitsOneToOne(Advance(a, n - 1), Advance(b, n - 1), 8);
      AdvanceOneToOne(a, b, n - 1);
    }
  }

  lemma XorCancel(a: Reg, b: Reg, c: Reg)
    ensures Xor(a, c) == Xor(b, c) ==> a == b
    ensures Xor(c, a) == Xor(c, b) ==> a == b
  {
    assert (a ^ c) ^ c == a && (b ^ c) ^ c == b;
    assert c ^ (c ^ a) == a && c ^ (c ^ b) == b;
  }

  /** Two registers that differ still differ after the same bytes. */
  lemma {:induction false} FoldOneToOne(a: Reg, b: Reg, data: seq<bv8>)
    requires Fold(a, data) == Fold(b, data)
    ensures a == b
  {
    hide Bits;
    hide Xor;
    hide Byte;
    if data != [] {
      var n := |data| - 1;
      BitsOneToOne(Xor(Fold(a, data[..n]), Byte(data[n])), Xor(Fold(b, data[..n]), Byte(data[n])), 8);
      XorCancel(Fold(a, data[..n]), Fold(b, data[..n]), Byte(data[n]));
      FoldOneToOne(a, b, data[..n]);
    }
  }

  lemma WordOneToOne(x0: bv8, x1: bv8, x2: bv8, x3: bv8, y0: bv8, y1: bv8, y2: bv8, y3: bv8)
    requires Word(x0, x1, x2, x3) == Word(y0, y1, y2, y3)
    ensures x0 == y0 && x1 == y1 && x2 == y2 && x3 == y3
  {
    WordBytes(x0, x1, x2, x3);
    WordBytes(y0, y1, y2, y3);
    hide Word;
  }

  lemma WordBytes(x0: bv8, x1: bv8, x2: bv8, x3: bv8)
    ensures var w := Word(x0, x1, x2, x3);
      && x0 == (w & 0xff) as bv8 && x1 == ((w >> 8) & 0xff) as bv8
      && x2 == ((w >> 16) & 0xff) as bv8 && x3 == ((w >> 24) & 0xff) as bv8
  {
  }

  /** From one register, different words of four bytes lead to different registers. */
  lemma FourOneToOne(l: Reg, x: seq<bv8>, y: seq<bv8>)
    requires |x| == |y| == 4 && Fold(l, x) == Fold(l, y)
    ensures x == y
  {
    hide Fold;
    hide Advance;
    hide Xor;
    hide Word;
    assert x == [x[0], x[1], x[2], x[3]] && y == [y[0], y[1], y[2], y[3]];
    WordStep(l, x[0], x[1], x[2], x[3]);
    WordStep(l, y[0], y[1], y[2], y[3]);
    AdvanceOneToOne(Xor(l, Word(x[0], x[1], x[2], x[3])), Xor(l, Word(y[0], y[1], y[2], y[3])), 4);
    XorCancel(Word(x[0], x[1], x[2], x[3]), Word(y[0], y[1], y[2], y[3]), l);
    WordOneToOne(x[0], x[1], x[2], x[3], y[0], y[1], y[2], y[3]);
  }

  lemma FewOneToOne(l: Reg, x: seq<bv8>, y: seq<bv8>)
    requires |x| == |y| <= 4 && Fold(l, x) == Fold(l, y)
    ensures x == y
  {
    hide Fold;
    var z := seq(4 - |x|, _ => 0 as bv8);
    FoldConcat(l, x, z);
    FoldConcat(l, y, z);
    FourOneToOne(l, x + z, y + z);
    assert x == (x + z)[..|x|] && y == (y + z)[..|x|];
  }

  /** Up to four consecutive bytes changed anywhere change the checksum. */
  lemma DamageSeen(crc: Reg, front: seq<bv8>, x: seq<bv8>, y: seq<bv8>, back: seq<bv8>)
    requires |x| == |y| <= 4 && x != y
    ensures ExtendBytes(crc, front + x + back) != ExtendBytes(crc, front + y + back)
  {
    hide Fold;
    hide Xor;
    var l := Xor(crc, ONES);
    if Fold(l, front + x + back) == Fold(l, front + y + back) {
      FoldConcat(l, front + x, back);
      FoldConcat(l, front + y, back);
      FoldOneToOne(Fold(l, front + x), Fold(l, front + y), back);
      FoldConcat(l, front, x);
      FoldConcat(l, front, y);
      FewOneToOne(Fold(l, front), x, y);
    }
    XorCancel(Fold(l, front + x + back), Fold(l, front + y + back), ONES);
  }
}
