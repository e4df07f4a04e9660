/** Numbers as bit vectors and back, one doubling at a time. */
module BitVectors {
  lemma Doubled8(x: bv8)
    requires x < 0x80
    ensures (x << 1) as int == 2 * (x as int) && ((x << 1) | 1) as int == 2 * (x as int) + 1
  {
  }

  lemma {:induction false} ByteFor(b: nat) returns (x: bv8)
    requires b < 0x100
    ensures x as int == b
  {
    x := 0;
    if b > 0 {
      var half := ByteFor(b / 2);
      assert half < 0x80;
      Doubled8(half);
      x := if b % 2 == 0 then half << 1 else (half << 1) | 1;
    }
  }

  lemma ByteBack(b: nat)
    requires b < 0x100
    ensures (b as bv8) as int == b
  {
    var x := ByteFor(b);
    assert (x as int) as bv8 == x;
  }

  lemma Doubled32(x: bv32)
    requires x < 0x8000_0000
    ensures (x << 1) as int == 2 * (x as int) && ((x << 1) | 1) as int == 2 * (x as int) + 1
  {
  }

  lemma {:induction false} WordFor(n: nat) returns (x: bv32)
    requires n < 0x1_0000_0000
    ensures x as int == n
  {
    x := 0;
    if n > 0 {
      var half := WordFor(n / 2);
      assert half < 0x8000_0000;
      Doubled32(half);
      x := if n % 2 == 0 then half << 1 else (half << 1) | 1;
    }
  }

  lemma WordBack(n: nat)
    requires n < 0x1_0000_0000
    ensures (n as bv32) as int == n
  {
    var x := WordFor(n);
    assert (x as int) as bv32 == x;
  }

  /** Named so that lemmas can hide them. */
  function Half(x: bv32): bv32 {
    x >> 1
  }

  /** The register shifted up, with a new low bit. */
  function Twice(x: bv32, odd: bool): bv32 {
    if odd then (x << 1) | 1 else x << 1
  }

  predicate Odd(x: bv32) {
    x & 1 == 1
  }

  function Masked(x: bv32, n: bv32): bv32 {
    x & (n - 1)
  }

  function LowBit(x: bv32): nat {
    if Odd(x) then 1 else 0
  }

  lemma TwiceIs(x: bv32, odd: bool)
    requires x < 0x8000_0000
    ensures Twice(x, odd) as int == 2 * (x as int) + (if odd then 1 else 0)
  {
    Doubled32(x);
  }

  lemma Split(x: bv32)
    ensures x == Twice(Half(x), Odd(x)) && Half(x) < 0x8000_0000
  {
  }

  /** The low bit and the rest. */
  lemma Halves(x: bv32)
    ensures x as int == 2 * (Half(x) as int) + LowBit(x)
  {
    hide Twice;
    hide Half;
    hide Odd;
    Split(x);
    TwiceIs(Half(x), Odd(x));
  }

  lemma EvenHalf(n: bv32, v: nat)
    requires v == n as int && v % 2 == 0
    ensures !Odd(n) && Half(n) as int == v / 2
  {
    hide Half;
    hide Odd;
    Halves(n);
    Parity(v, Half(n) as int, LowBit(n));
  }

  lemma Parity(v: nat, h: nat, b: nat)
    requires v == 2 * h + b && b < 2 && v % 2 == 0
    ensures b == 0 && h == v / 2
  {
  }

  lemma HalfOfMask(n: bv32)
    requires !Odd(n) && Half(n) != 0
    ensures n - 1 == Twice(Half(n) - 1, true) && Half(n) - 1 < 0x8000_0000
  {
  }

  lemma AndTwice(x: bv32, odd: bool, m: bv32)
    requires x < 0x8000_0000 && m < 0x8000_0000
    ensures Twice(x, odd) & Twice(m, true) == Twice(x & m, odd) && x & m < 0x8000_0000
  {
  }

  /** Masking the low bits, one bit at a time. */
  lemma HalfMask(x: bv32, n: bv32)
    requires !Odd(n) && Half(n) != 0
    ensures Masked(x, n) == Twice(Masked(Half(x), Half(n)), Odd(x)) && Masked(Half(x), Half(n)) < 0x8000_0000
  {
    Split(x);
    HalfOfMask(n);
    AndTwice(Half(x), Odd(x), Half(n) - 1);
    hide Twice;
    hide Half;
    hide Odd;
  }

  lemma MaskNone(x: bv32)
    ensures Masked(x, 1) as int == 0
  {
  }

  /** The same in numbers. */
  lemma MaskJoins(x: bv32, n: bv32)
    requires !Odd(n) && Half(n) as int > 0
    ensures Masked(x, n) as int == 2 * (Masked(Half(x), Half(n)) as int) + LowBit(x)
  {
    NotZero(Half(n));
    HalfMask(x, n);
    hide Twice;
    hide Half;
    hide Odd;
    hide Masked;
    TwiceIs(Masked(Half(x), Half(n)), Odd(x));
  }

  lemma NotZero(x: bv32)
    requires x as int > 0
    ensures x != 0
  {
  }

  lemma IsOne(x: bv32)
    requires x as int == 1
    ensures x == 1
  {
    assert (x as int) as bv32 == x;
  }
}
