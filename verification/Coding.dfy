/** Fixed-width and variable-length integers, and length-prefixed strings. */
module Coding {
  import opened Keys

  const TWO_32 := 0x1_0000_0000
  const TWO_64 := 0x1_0000_0000_0000_0000

  // ---- fixed width, little-endian ---------------------------------------------------------------

  function Fixed32(v: nat): (r: Bytes)
    requires v < TWO_32
    ensures |r| == 4
  {
    [v % 256, v / 256 % 256, v / 65536 % 256, v / 16777216]
  }

  function DecodeFixed32(b: Bytes): (v: nat)
    requires |b| >= 4
    ensures v < TWO_32
  {
    b[0] as int + 256 * b[1] as int + 65536 * b[2] as int + 16777216 * b[3] as int
  }

  lemma Fixed32RoundTrip(v: nat, rest: Bytes)
    requires v < TWO_32
    ensures DecodeFixed32(Fixed32(v) + rest) == v
  {
    Digits(v);
    var b := Fixed32(v) + rest;
    assert b[0] == v % 256 && b[1] == v / 256 % 256 && b[2] == v / 65536 % 256 && b[3] == v / 16777216;
  }

  lemma Digits(v: nat)
    ensures v == v % 256 + 256 * (v / 256 % 256) + 65536 * (v / 65536 % 256) + 16777216 * (v / 16777216)
  {
    assert v / 65536 == v / 256 / 256 && v / 16777216 == v / 65536 / 256;
  }

  function Fixed64(v: nat): (r: Bytes)
    requires v < TWO_64
    ensures |r| == 8
  {
    Fixed32(v % TWO_32) + Fixed32(v / TWO_32)
  }

  function DecodeFixed64(b: Bytes): (v: nat)
    requires |b| >= 8
    ensures v < TWO_64
  {
    DecodeFixed32(b) + TWO_32 * DecodeFixed32(b[4..])
  }

  lemma Fixed64RoundTrip(v: nat, rest: Bytes)
    requires v < TWO_64
    ensures DecodeFixed64(Fixed64(v) + rest) == v
  {
    Fixed32RoundTrip(v % TWO_32, Fixed32(v / TWO_32) + rest);
    Fixed32RoundTrip(v / TWO_32, rest);
    assert Fixed64(v) + rest == Fixed32(v % TWO_32) + (Fixed32(v / TWO_32) + rest);
    assert (Fixed64(v) + rest)[4..] == Fixed32(v / TWO_32) + rest;
  }

  // ---- variable length ----------------------------------------------------------------------------

  /** Seven bits at a time, low bits first; every byte but the last carries the high bit. */
  function Varint(v: nat): (r: Bytes)
    ensures |r| >= 1
  {
    if v < 128 then [v] else [v % 128 + 128] + Varint(v / 128)
  }

  /** The number the first n bytes spell. */
  function Raw(b: Bytes, n: nat): nat
    requires n <= |b|
  {
    if n == 0 then 0 else b[0] as int % 128 + 128 * Raw(b[1..], n - 1)
  }

  /** n bytes of b form one complete varint. */
  predicate Complete(b: Bytes, n: nat) {
    1 <= n <= |b| && b[n - 1] < 128 && forall i :: 0 <= i < n - 1 ==> b[i] >= 128
  }

  lemma {:induction false} VarintComplete(v: nat, rest: Bytes)
    ensures Complete(Varint(v) + rest, |Varint(v)|) && Raw(Varint(v) + rest, |Varint(v)|) == v
  {
    if v >= 128 {
      VarintComplete(v / 128, rest);
      var b := Varint(v) + rest;
      assert b[1..] == Varint(v / 128) + rest;
      assert forall i :: 0 < i < |b| ==> b[i] == b[1..][i - 1];
    }
  }

  function Pow128(n: nat): (r: nat)
    ensures r > 0
  {
    if n == 0 then 1 else 128 * Pow128(n - 1)
  }

  lemma {:induction false} VarintLength(v: nat, n: nat)
    requires 1 <= n && v < Pow128(n)
    ensures |Varint(v)| <= n
  {
    if v >= 128 {
      VarintLength(v / 128, n - 1);
    }
  }

  lemma Pow128Bounds()
    ensures TWO_32 <= Pow128(5) && TWO_64 <= Pow128(10)
  {
  }

  /** EncodeVarint32: five cases by magnitude. */
  method EncodeVarint32(v: nat) returns (r: Bytes)
    requires v < TWO_32
    ensures r == Varint(v) && |r| <= 5
  {
    hide Varint;
    VarintLength32(v);
    Shifts(v);
    VarintDigits(v, v / 0x80, v / 0x4000, v / 0x20_0000, v / 0x1000_0000);
    hide More;
    if v < 0x80 {
      r := [v];
    } else if v < 0x4000 {
      r := [More(v), v / 0x80];
    } else if v < 0x20_0000 {
      r := [More(v), More(v / 0x80), v / 0x4000];
    } else if v < 0x1000_0000 {
      r := [More(v), More(v / 0x80), More(v / 0x4000), v / 0x20_0000];
    } else {
      r := [More(v), More(v / 0x80), More(v / 0x4000), More(v / 0x20_0000), v / 0x1000_0000];
    }
  }

  lemma VarintLength32(v: nat)
    requires v < TWO_32
    ensures |Varint(v)| <= 5
  {
    Pow128Bounds();
    VarintLength(v, 5);
  }

  lemma VarintLength64(v: nat)
    requires v < TWO_64
    ensures |Varint(v)| <= 10
  {
    Pow128Bounds();
    VarintLength(v, 10);
  }

  function More(v: nat): byte {
    v % 128 + 128
  }

  /** The cases unfolded: each one more digit than the last. */
  lemma VarintDigits(v: nat, a: nat, b: nat, c: nat, d: nat)
    requires a == v / 128 && b == a / 128 && c == b / 128 && d == c / 128 && d < 128
    ensures Varint(v) ==
      if v < 128 then [v] else if a < 128 then [More(v), a] else if b < 128 then [More(v), More(a), b]
      else if c < 128 then [More(v), More(a), More(b), c] else [More(v), More(a), More(b), More(c), d]
  {
    hide Varint;
    VarintStep(v);
    VarintStep(a);
    VarintStep(b);
    VarintStep(c);
    VarintStep(d);
    hide More;
  }

  lemma Shifts(v: nat)
    requires v < TWO_32
    ensures v / 0x80 / 128 == v / 0x4000 && v / 0x4000 / 128 == v / 0x20_0000 && v / 0x20_0000 / 128 == v / 0x1000_0000
    ensures v < 0x4000 <==> v / 0x80 < 128
    ensures v < 0x20_0000 <==> v / 0x4000 < 128
    ensures v < 0x1000_0000 <==> v / 0x20_0000 < 128
    ensures v / 0x1000_0000 < 128
  {
  }

  lemma VarintStep(v: nat)
    ensures Varint(v) == if v < 128 then [v] else [More(v)] + Varint(v / 128)
  {
  }

  /** EncodeVarint64. */
  method EncodeVarint64(value: nat) returns (r: Bytes)
    requires value < TWO_64
    ensures r == Varint(value) && |r| <= 10
  {
    r := [];
    var v := value;
    while v >= 128
      invariant r + Varint(v) == Varint(value)
    {
      assert r + Varint(v) == r + [v % 128 + 128] + Varint(v / 128);
      r := r + [v % 128 + 128];
      v := v / 128;
    }
    r := r + [v];
    VarintLength64(value);
  }

  /** VarintLength. */
  method CountVarint(value: nat) returns (len: nat)
    requires value < TWO_64
    ensures len == |Varint(value)|
  {
    len := 1;
    var v := value;
    while v >= 128
      invariant len - 1 + |Varint(v)| == |Varint(value)|
    {
      v := v / 128;
      len := len + 1;
    }
  }

  lemma ModAdd(a: nat, b: nat, m: nat)
    requires m == TWO_32 || m == TWO_64
    ensures (a % m + b) % m == (a + b) % m
  {
  }

  datatype Parsed = NoNumber | Number(value: nat, rest: Bytes)

  /** Where the varint starting at position 0 ends: past the first byte below 128, among the first limit bytes. */
  function VarintEnd(b: Bytes, i: nat, limit: nat): (r: Option<nat>)
    requires i <= |b| && i <= limit
    ensures r.Some? ==> i < r.value <= limit && r.value <= |b|
    decreases |b| - i
  {
    if i == |b| || i == limit then None else if b[i] < 128 then Some(i + 1) else VarintEnd(b, i + 1, limit)
  }

  /** A varint of at most limit bytes at the head of b, its value kept to the width of the result type. */
  function ParseVarint(b: Bytes, limit: nat, width: nat): (r: Parsed)
    requires width > 0
    ensures r.Number? ==> |r.rest| < |b|
  {
    match VarintEnd(b, 0, limit)
    case None => NoNumber
    case Some(n) => Number(Raw(b, n) % width, b[n..])
  }

  /** GetVarint32Ptr (limit 5, 32-bit results) and GetVarint64Ptr (limit 10, 64-bit results). */
  method GetVarint(b: Bytes, limit: nat, width: nat) returns (r: Parsed)
    requires width == TWO_32 || width == TWO_64
    ensures r == ParseVarint(b, limit, width)
  {
    var result: nat, shift: nat, i: nat := 0, 1, 0;
    while i < limit && i < |b|
      invariant i <= limit && i <= |b| && VarintEnd(b, i, limit) == VarintEnd(b, 0, limit)
      invariant shift == Pow128(i) && result == Raw(b, i) % width
    {
      RawSnoc(b, i);
      var digit: nat := b[i] as int % 128;
      ModAdd(Raw(b, i), digit * shift, width);
      result := (result + digit * shift) % width;
      i := i + 1;
      if b[i - 1] < 128 {
        return Number(result, b[i..]);
      }
      shift := shift * 128;
    }
    r := NoNumber;
  }

  lemma {:induction false} RawSnoc(b: Bytes, n: nat)
    requires n < |b|
    ensures Raw(b, n + 1) == Raw(b, n) + b[n] as int % 128 * Pow128(n)
    decreases n
  {
    if n > 0 {
      RawSnoc(b[1..], n - 1);
      var digit: nat := b[n] as int % 128;
      assert 128 * (digit * Pow128(n - 1)) == digit * Pow128(n);
    }
  }

  lemma {:induction false} CompleteEnds(b: Bytes, i: nat, n: nat, limit: nat)
    requires Complete(b, n) && i < n <= limit
    ensures VarintEnd(b, i, limit) == Some(n)
    decreases n - i
  {
    if i < n - 1 {
      CompleteEnds(b, i + 1, n, limit);
    }
  }

  /** Decoding undoes encoding, whatever follows. */
  lemma ParseVarintBack(v: nat, rest: Bytes, limit: nat, width: nat)
    requires v < width && |Varint(v)| <= limit
    ensures ParseVarint(Varint(v) + rest, limit, width) == Number(v, rest)
  {
    hide Varint;
    hide Raw;
    hide Complete;
    VarintComplete(v, rest);
    assert 0 < |Varint(v)|;
    CompleteEnds(Varint(v) + rest, 0, |Varint(v)|, limit);
    SmallMod(v, width);
    assert (Varint(v) + rest)[|Varint(v)|..] == rest;
  }

  lemma SmallMod(v: nat, m: nat)
    requires v < m
    ensures v % m == v
  {
  }

  lemma Varint32Back(v: nat, rest: Bytes)
    requires v < TWO_32
    ensures ParseVarint(Varint(v) + rest, 5, TWO_32) == Number(v, rest)
  {
    VarintLength32(v);
    ParseVarintBack(v, rest, 5, TWO_32);
  }

  lemma Varint64Back(v: nat, rest: Bytes)
    requires v < TWO_64
    ensures ParseVarint(Varint(v) + rest, 10, TWO_64) == Number(v, rest)
  {
    VarintLength64(v);
    ParseVarintBack(v, rest, 10, TWO_64);
  }

  // ---- length-prefixed strings -----------------------------------------------------------------------

  datatype Piece = NoPiece | Piece(value: Bytes, rest: Bytes)

  function LengthPrefixed(s: Bytes): Bytes {
    Varint(|s|) + s
  }

  function ParsePiece(b: Bytes): (r: Piece)
    ensures r.Piece? ==> |r.rest| < |b|
  {
    match ParseVarint(b, 5, TWO_32)
    case NoNumber => NoPiece
    case Number(n, rest) => if n <= |rest| then Piece(rest[..n], rest[n..]) else NoPiece
  }

  lemma PieceBack(s: Bytes, rest: Bytes)
    requires |s| < TWO_32
    ensures ParsePiece(LengthPrefixed(s) + rest) == Piece(s, rest)
  {
    assert LengthPrefixed(s) + rest == Varint(|s|) + (s + rest);
    Varint32Back(|s|, s + rest);
  }

  // ---- cut short --------------------------------------------------------------------------------------------

  lemma Front(a: Bytes, b: Bytes, n: nat)
    requires n <= |a| + |b|
    ensures (a + b)[..n] == if n < |a| then a[..n] else a + b[..n - |a|]
  {
  }

  lemma {:induction false} NeverEnds(b: Bytes, i: nat, limit: nat)
    requires i <= |b| && i <= limit && forall j :: i <= j < |b| ==> b[j] >= 128
    ensures VarintEnd(b, i, limit) == None
    decreases |b| - i
  {
    if i < |b| && i < limit {
      NeverEnds(b, i + 1, limit);
    }
  }

  lemma VarintCut(v: nat, n: nat, limit: nat, width: nat)
    requires n < |Varint(v)| && width > 0
    ensures ParseVarint(Varint(v)[..n], limit, width) == NoNumber
  {
    hide Varint;
    VarintComplete(v, []);
    assert Varint(v) + [] == Varint(v);
    NeverEnds(Varint(v)[..n], 0, limit);
  }

  lemma {:induction false} TooLong(b: Bytes, i: nat, limit: nat)
    requires i <= limit <= |b| && forall j :: i <= j < limit ==> b[j] >= 128
    ensures VarintEnd(b, i, limit) == None
    decreases limit - i
  {
    if i < limit {
      TooLong(b, i + 1, limit);
    }
  }

  /** A varint of more bytes than its limit is refused, whatever follows. */
  lemma VarintTooLong(b: Bytes, limit: nat, width: nat)
    requires limit <= |b| && width > 0 && forall j :: 0 <= j < limit ==> b[j] >= 128
    ensures ParseVarint(b, limit, width) == NoNumber
  {
    TooLong(b, 0, limit);
  }

  lemma PieceCut(s: Bytes, n: nat)
    requires |s| < TWO_32 && n < |LengthPrefixed(s)|
    ensures ParsePiece(LengthPrefixed(s)[..n]) == NoPiece
  {
    hide Varint;
    hide ParseVarint;
    Front(Varint(|s|), s, n);
    if n < |Varint(|s|)| {
      VarintCut(|s|, n, 5, TWO_32);
    } else {
      Varint32Back(|s|, s[..n - |Varint(|s|)|]);
    }
  }

  // ---- strings inside strings ---------------------------------------------------------------------------

  /** s stands at position p of file. */
  predicate Holds(file: Bytes, p: nat, s: Bytes) {
    p + |s| <= |file| && file[p..p + |s|] == s
  }

  lemma HoldsParts(file: Bytes, p: nat, a: Bytes, b: Bytes)
    requires Holds(file, p, a + b)
    ensures Holds(file, p, a) && Holds(file, p + |a|, b)
  {
    var s := file[p..p + |a + b|];
    assert file[p..p + |a|] == s[..|a|] == a;
    assert file[p + |a|..p + |a| + |b|] == s[|a|..] == b;
  }

  lemma HoldsInPrefix(full: Bytes, m: nat, p: nat, s: Bytes)
    requires m <= |full| && Holds(full, p, s) && p + |s| <= m
    ensures Holds(full[..m], p, s)
  {
  }

  lemma StillHolds(data: Bytes, more: Bytes, p: nat, s: Bytes)
    requires Holds(data, p, s)
    ensures Holds(data + more, p, s)
  {
  }
}
