/** The Bloom filter policy, for any 32-bit hash function. */
module Bloom {
  import opened Keys
  import opened Coding
  import opened FilterBlock

  const MAX_PROBES := 30

  /** bits_per_key * 0.69, rounded down and kept within 1..30. */
  function Probes(bitsPerKey: nat): (k: nat)
    ensures 1 <= k <= MAX_PROBES
  {
    var k := bitsPerKey * 69 / 100;
    if k < 1 then 1 else if k > MAX_PROBES then MAX_PROBES else k
  }

  /** Rotate right by 17. */
  function Delta(h: nat): (d: nat)
    requires h < TWO_32
    ensures d < TWO_32
  {
    h / 0x2_0000 + (h % 0x2_0000) * 0x8000
  }

  /** The j-th probe of double hashing. */
  function Probe(h: nat, j: nat): (r: nat)
    requires h < TWO_32
    ensures r < TWO_32
  {
    if j == 0 then h else (Probe(h, j - 1) + Delta(h)) % TWO_32
  }

  lemma ProbeStep(h: nat, j: nat)
    requires h < TWO_32
    ensures Probe(h, 0) == h && Probe(h, j + 1) == (Probe(h, j) + Delta(h)) % TWO_32
  {
  }

  // ---- bits in bytes -----------------------------------------------------------------------------------

  function Two(n: nat): (r: nat)
    ensures r > 0
  {
    if n == 0 then 1 else 2 * Two(n - 1)
  }

  predicate BitOf(b: byte, j: nat) {
    b as int / Two(j) % 2 == 1
  }

  /** array[i] | (1 << j). */
  function SetBitOf(b: byte, j: nat): (r: byte)
    requires j < 8
    ensures BitOf(r, j)
    ensures forall k :: 0 <= k < 8 && k != j ==> (BitOf(r, k) <==> BitOf(b, k))
  {
    TwoValues();
    if BitOf(b, j) then b else
      SetBitFits(b, j);
      (b as int + Two(j)) as byte
  }

  lemma TwoValues()
    ensures Two(0) == 1 && Two(1) == 2 && Two(2) == 4 && Two(3) == 8 && Two(4) == 16 && Two(5) == 32 &&
      Two(6) == 64 && Two(7) == 128
    ensures Two(8) == 256
  {
  }

  /** The number with binary digits d, lowest first. */
  function FromDigits(d: seq<int>): int {
    if d == [] then 0 else d[0] + 2 * FromDigits(d[1..])
  }

  predicate Binary(d: seq<int>) {
    forall i :: 0 <= i < |d| ==> 0 <= d[i] <= 1
  }

  function Digits(b: int, n: nat): (d: seq<int>)
    requires b >= 0
    ensures |d| == n && Binary(d)
  {
    if n == 0 then [] else [b % 2] + Digits(b / 2, n - 1)
  }

  lemma {:induction false} DigitsBack(b: int, n: nat)
    requires 0 <= b < Two(n)
    ensures FromDigits(Digits(b, n)) == b
  {
    if n > 0 {
      DigitsBack(b / 2, n - 1);
      assert Digits(b, n)[1..] == Digits(b / 2, n - 1);
    }
  }

  lemma DigitsUnfold(d: seq<int>)
    requires d != []
    ensures FromDigits(d) == d[0] + 2 * FromDigits(d[1..]) && Two(|d|) == 2 * Two(|d[1..]|)
    ensures d[1..] == [] ==> FromDigits(d[1..]) == 0 && Two(|d[1..]|) == 1
  {
  }

  lemma TwoStep(k: nat)
    ensures Two(0) == 1 && Two(k + 1) == 2 * Two(k)
  {
  }

  lemma {:induction false} DigitAt(d: seq<int>, k: nat)
    requires Binary(d) && k < |d|
    ensures 0 <= FromDigits(d) < Two(|d|) && FromDigits(d) / Two(k) % 2 == d[k]
  {
    hide FromDigits;
    hide Two;
    var rest := d[1..];
    assert Binary(rest);
    DigitsUnfold(d);
    TwoStep(0);
    if k > 0 {
      DigitAt(rest, k - 1);
      TwoStep(k - 1);
      Halve(FromDigits(d), FromDigits(rest), d[0], Two(k - 1));
    } else if rest != [] {
      DigitAt(rest, 0);
    }
  }

  lemma Halve(x: int, y: int, low: int, t: int)
    requires 0 <= low <= 1 && x == low + 2 * y && y >= 0 && t > 0
    ensures x / (2 * t) == y / t
  {
    var q, r := y / t, y % t;
    assert y == q * t + r;
    assert x == q * (2 * t) + (low + 2 * r);
    Quotient(x, 2 * t, q, low + 2 * r);
  }

  lemma Scale(a: int, m: int)
    requires m > 0
    ensures a >= 1 ==> a * m >= m
    ensures a <= -1 ==> a * m <= -m
  {
  }

  lemma DivMod(x: int, m: int)
    requires m > 0
    ensures x == x / m * m + x % m && 0 <= x % m < m
  {
  }

  lemma Distribute(a: int, b: int, m: int)
    ensures (a - b) * m == a * m - b * m
  {
  }

  lemma Quotient(x: int, m: int, q: int, r: int)
    requires m > 0 && x == q * m + r && 0 <= r < m
    ensures x / m == q
  {
    DivMod(x, m);
    Scale(q - x / m, m);
    Distribute(q, x / m, m);
  }

  lemma {:induction false} RaiseDigit(d: seq<int>, j: nat)
    requires j < |d| && d[j] == 0
    ensures FromDigits(d[j := 1]) == FromDigits(d) + Two(j)
  {
    if j > 0 {
      assert d[j := 1][1..] == d[1..][j - 1 := 1];
      RaiseDigit(d[1..], j - 1);
    } else {
      assert d[0 := 1][1..] == d[1..];
    }
  }

  lemma SetBitFits(b: byte, j: nat)
    requires j < 8 && !BitOf(b, j)
    ensures b as int + Two(j) < 256
    ensures (b as int + Two(j)) / Two(j) % 2 == 1
    ensures forall k :: 0 <= k < 8 && k != j ==> ((b as int + Two(j)) / Two(k) % 2 == 1 <==> BitOf(b, k))
  {
    hide FromDigits;
    hide Digits;
    TwoValues();
    var d := Digits(b as int, 8);
    DigitsBack(b as int, 8);
    DigitAt(d, j);
    RaiseDigit(d, j);
    var e := d[j := 1];
    DigitAt(e, j);
    forall k | 0 <= k < 8 && k != j
      ensures (b as int + Two(j)) / Two(k) % 2 == 1 <==> BitOf(b, k)
    {
      DigitAt(d, k);
      DigitAt(e, k);
    }
  }

  predicate HasBit(a: Bytes, p: nat)
    requires p < 8 * |a|
  {
    BitOf(a[p / 8], p % 8)
  }

  function SetBit(a: Bytes, p: nat): (r: Bytes)
    requires p < 8 * |a|
    ensures |r| == |a| && HasBit(r, p)
    ensures forall q: nat :: q < 8 * |a| && q != p ==> (HasBit(r, q) <==> HasBit(a, q))
  {
    a[p / 8 := SetBitOf(a[p / 8], p % 8)]
  }

  // ---- the filter as a function ------------------------------------------------------------------------

  /** Set the first n probes of a key. */
  function SetProbes(a: Bytes, h: nat, n: nat): (r: Bytes)
    requires h < TWO_32 && |a| > 0
    ensures |r| == |a|
  {
    if n == 0 then a else SetBit(SetProbes(a, h, n - 1), Probe(h, n - 1) % (8 * |a|))
  }

  function SetKeys(a: Bytes, keys: seq<Bytes>, hash: Bytes -> nat, k: nat, n: nat): (r: Bytes)
    requires n <= |keys| && |a| > 0
    ensures |r| == |a|
  {
    if n == 0 then a else SetProbes(SetKeys(a, keys, hash, k, n - 1), hash(keys[n - 1]) % TWO_32, k)
  }

  function FilterBytes(n: nat, bitsPerKey: nat): (bytes: nat)
    ensures bytes >= 8
  {
    var bits := n * bitsPerKey;
    ((if bits < 64 then 64 else bits) + 7) / 8
  }

  function Zeros(n: nat): (r: Bytes)
    ensures |r| == n
  {
    seq(n, _ => 0)
  }

  function Filter(keys: seq<Bytes>, bitsPerKey: nat, hash: Bytes -> nat): (r: Bytes) {
    SetKeys(Zeros(FilterBytes(|keys|, bitsPerKey)), keys, hash, Probes(bitsPerKey), |keys|) + [Probes(bitsPerKey)]
  }

  predicate AllProbes(a: Bytes, h: nat, k: nat)
    requires h < TWO_32 && |a| > 0
  {
    forall j :: 0 <= j < k ==> HasBit(a, Probe(h, j) % (8 * |a|))
  }

  predicate Matches(key: Bytes, filter: Bytes, hash: Bytes -> nat) {
    && |filter| >= 2
    && (filter[|filter| - 1] > MAX_PROBES ||
        AllProbes(filter[..|filter| - 1], hash(key) % TWO_32, filter[|filter| - 1] as int))
  }

  // ---- the filter in numbers ------------------------------------------------------------------------------

  predicate BitAt(a: Bytes, p: nat)
    requires p < 8 * |a|
  {
    a[p / 8] as int / [1, 2, 4, 8, 16, 32, 64, 128][p % 8] % 2 == 1
  }

  /** Where the j-th probe of a hash falls: j times its rotation by 17 bits further on. */
  function ProbeAt(h: nat, j: nat, bits: nat): (p: nat)
    requires bits > 0
    ensures p < bits
  {
    (h + j * (h / 0x2_0000 + h % 0x2_0000 * 0x8000)) % 0x1_0000_0000 % bits
  }

  /** Bit p is among the first k probes of a hash. */
  predicate Hits(h: nat, k: nat, bits: nat, p: nat)
    requires bits > 0
  {
    exists j: nat :: j < k && ProbeAt(h, j, bits) == p
  }

  /** What the answer for a key must be: no for a filter of fewer than two bytes; yes for a kind of filter from the
      future; otherwise yes exactly when every probed bit is set. */
  predicate Answers(hashed: nat, filter: Bytes, r: bool) {
    if |filter| < 2 then !r
    else
      var a, k := filter[..|filter| - 1], filter[|filter| - 1] as int;
      if k > 30 then r
      else r <==> forall j: nat :: j < k ==> BitAt(a, ProbeAt(hashed, j, 8 * |a|))
  }

  /** What a filter for keys with these hashes must be: at least 64 bits and bitsPerKey for each key, rounded up to
      bytes, with exactly the probed bits set, and the number of probes in a last byte. */
  ghost predicate FilterFor(hashes: seq<nat>, bitsPerKey: nat, filter: Bytes) {
    var bytes, k := |filter| - 1, if bitsPerKey * 69 / 100 < 1 then 1 else bitsPerKey * 69 / 100;
    && bytes == ((if |hashes| * bitsPerKey < 64 then 64 else |hashes| * bitsPerKey) + 7) / 8
    && filter[bytes] as int == (if k > 30 then 30 else k)
    && forall p: nat :: p < 8 * bytes ==>
         (BitAt(filter[..bytes], p) <==>
           exists i: nat :: i < |hashes| && Hits(hashes[i], filter[bytes] as int, 8 * bytes, p))
  }

  function Hashes(keys: seq<Bytes>, hash: Bytes -> nat): (r: seq<nat>)
    ensures |r| == |keys|
  {
    seq(|keys|, i requires 0 <= i < |keys| => hash(keys[i]) % 0x1_0000_0000)
  }

  lemma BitsAgree(a: Bytes, p: nat)
    requires p < 8 * |a|
    ensures BitAt(a, p) <==> HasBit(a, p)
  {
    TwoValues();
  }

  lemma {:induction false} ProbesAgree(h: nat, j: nat)
    requires h < TWO_32
    ensures Probe(h, j) == (h + j * Delta(h)) % TWO_32
  {
    hide Delta;
    if j > 0 {
      ProbesAgree(h, j - 1);
      var t := (j - 1) * Delta(h);
      assert j * Delta(h) == t + Delta(h);
      AddMod(h + t, Delta(h));
    }
  }

  lemma AddMod(x: nat, d: nat)
    ensures (x % TWO_32 + d) % TWO_32 == (x + d) % TWO_32
  {
  }

  lemma PlacesAgree(h: nat, j: nat, bits: nat)
    requires h < TWO_32 && bits > 0
    ensures ProbeAt(h, j, bits) == Probe(h, j) % bits
  {
    ProbesAgree(h, j);
  }

  lemma MatchesAnswers(key: Bytes, filter: Bytes, hash: Bytes -> nat)
    ensures Answers(hash(key) % 0x1_0000_0000, filter, Matches(key, filter, hash))
  {
    hide BitAt;
    hide HasBit;
    hide Probe;
    hide ProbeAt;
    if |filter| >= 2 && filter[|filter| - 1] <= 30 {
      var a, k, h := filter[..|filter| - 1], filter[|filter| - 1] as int, hash(key) % 0x1_0000_0000;
      forall j: nat | j < k
        ensures BitAt(a, ProbeAt(h, j, 8 * |a|)) <==> HasBit(a, Probe(h, j) % (8 * |a|))
      {
        PlacesAgree(h, j, 8 * |a|);
        BitsAgree(a, ProbeAt(h, j, 8 * |a|));
      }
    }
  }

  // ---- which bits are set ----------------------------------------------------------------------------------

  lemma HitsOneMore(h: nat, n: nat, bits: nat, p: nat)
    requires bits > 0 && n > 0
    ensures Hits(h, n, bits, p) <==> Hits(h, n - 1, bits, p) || ProbeAt(h, n - 1, bits) == p
  {
    hide ProbeAt;
    assert ProbeAt(h, n - 1, bits) == p ==> n - 1 < n && ProbeAt(h, n - 1, bits) == p;
  }

  /** Bits that were set, or probed. */
  lemma {:induction false} ProbesExactly(a: Bytes, h: nat, n: nat, q: nat)
    requires h < TWO_32 && q < 8 * |a|
    ensures HasBit(SetProbes(a, h, n), q) <==> HasBit(a, q) || Hits(h, n, 8 * |a|, q)
  {
    hide HasBit;
    hide Probe;
    hide ProbeAt;
    if n > 0 {
      hide Hits;
      ProbesExactly(a, h, n - 1, q);
      HitsOneMore(h, n, 8 * |a|, q);
      PlacesAgree(h, n - 1, 8 * |a|);
    }
  }

  ghost predicate SomeHits(keys: seq<Bytes>, hash: Bytes -> nat, n: nat, k: nat, bits: nat, p: nat)
    requires n <= |keys| && bits > 0
  {
    exists i: nat :: i < n && Hits(hash(keys[i]) % TWO_32, k, bits, p)
  }

  lemma {:induction false} KeysExactly(a: Bytes, keys: seq<Bytes>, hash: Bytes -> nat, k: nat, n: nat, q: nat)
    requires n <= |keys| && |a| > 0 && q < 8 * |a|
    ensures HasBit(SetKeys(a, keys, hash, k, n), q) <==> HasBit(a, q) || SomeHits(keys, hash, n, k, 8 * |a|, q)
  {
    hide HasBit;
    hide Hits;
    hide SetProbes;
    if n > 0 {
      KeysExactly(a, keys, hash, k, n - 1, q);
      ProbesExactly(SetKeys(a, keys, hash, k, n - 1), hash(keys[n - 1]) % TWO_32, k, q);
    }
  }

  lemma NoZeroBit(n: nat, q: nat)
    requires q < 8 * n
    ensures !HasBit(Zeros(n), q)
  {
    TwoValues();
  }

  lemma FilterIsFor(keys: seq<Bytes>, bitsPerKey: nat, hash: Bytes -> nat)
    ensures FilterFor(Hashes(keys, hash), bitsPerKey, Filter(keys, bitsPerKey, hash))
  {
    hide HasBit;
    hide BitAt;
    hide Hits;
    hide SetKeys;
    var filter, bytes, k := Filter(keys, bitsPerKey, hash), FilterBytes(|keys|, bitsPerKey), Probes(bitsPerKey);
    var zeros, hs := Zeros(bytes), Hashes(keys, hash);
    var a := SetKeys(zeros, keys, hash, k, |keys|);
    assert filter[..bytes] == a;
    forall p: nat | p < 8 * bytes
      ensures BitAt(a, p) <==> exists i: nat :: i < |hs| && Hits(hs[i], k, 8 * bytes, p)
    {
      BitsAgree(a, p);
      KeysExactly(zeros, keys, hash, k, |keys|, p);
      NoZeroBit(bytes, p);
      assert forall i: nat :: i < |keys| ==> hs[i] == hash(keys[i]) % TWO_32;
    }
  }

  /** A key with a probe that no added key has is refused. */
  lemma RefusesStrangers(hashes: seq<nat>, bitsPerKey: nat, filter: Bytes, hashed: nat, j: nat, r: bool)
    requires FilterFor(hashes, bitsPerKey, filter) && Answers(hashed, filter, r) && j < filter[|filter| - 1] as int
    requires forall i: nat :: i < |hashes| ==>
      !Hits(hashes[i], filter[|filter| - 1] as int, 8 * (|filter| - 1), ProbeAt(hashed, j, 8 * (|filter| - 1)))
    ensures !r
  {
    hide BitAt;
    hide ProbeAt;
    hide Hits;
    var bytes, k := |filter| - 1, filter[|filter| - 1] as int;
    var p := ProbeAt(hashed, j, 8 * bytes);
    forall i: nat | i < |hashes|
      ensures !Hits(hashes[i], k, 8 * bytes, p)
    {
    }
    assert !BitAt(filter[..bytes], p);
  }

  // ---- the code -------------------------------------------------------------------------------------------

  /** One key's bits, set in place. */
  method SetKey(a: array<byte>, h0: nat, k: nat)
    requires h0 < TWO_32 && a.Length > 0
    modifies a
    ensures a[..] == SetProbes(old(a[..]), h0, k)
  {
    hide SetBitOf;
    var bits := 8 * a.Length;
    var h := h0;
    var delta := Delta(h0);
    for j := 0 to k
      invariant h == Probe(h0, j) && h < TWO_32
      invariant a[..] == SetProbes(old(a[..]), h0, j)
    {
      var bitpos := h % bits;
      ghost var before := a[..];
      a[bitpos / 8] := SetBitOf(a[bitpos / 8], bitpos % 8);
      assert a[..] == SetBit(before, bitpos);
      h := (h + delta) % TWO_32;
    }
  }

  /** Append a filter for the keys to dst. */
  method CreateFilter(keys: seq<Bytes>, bitsPerKey: nat, hash: Bytes -> nat, dst: Bytes) returns (r: Bytes)
    ensures r == dst + Filter(keys, bitsPerKey, hash)
    ensures FilterFor(Hashes(keys, hash), bitsPerKey, r[|dst|..])
  {
    hide SetProbes;
    hide FilterFor;
    FilterIsFor(keys, bitsPerKey, hash);
    var k := Probes(bitsPerKey);
    var bytes := FilterBytes(|keys|, bitsPerKey);
    var a := new byte[bytes](_ => 0);
    assert a[..] == Zeros(bytes);
    for i := 0 to |keys|
      invariant a[..] == SetKeys(Zeros(bytes), keys, hash, k, i)
    {
      SetKey(a, hash(keys[i]) % TWO_32, k);
    }
    r := dst + (a[..] + [k]);
  }

  method KeyMayMatch(key: Bytes, filter: Bytes, hash: Bytes -> nat) returns (r: bool)
    ensures r <==> Matches(key, filter, hash)
    ensures Answers(hash(key) % 0x1_0000_0000, filter, r)
  {
    hide Answers;
    MatchesAnswers(key, filter, hash);
    hide HasBit;
    hide Probe;
    hide Delta;
    ProbeStep(hash(key) % TWO_32, 0);
    var len := |filter|;
    if len < 2 {
      return false;
    }
    var a := filter[..len - 1];
    var bits := (len - 1) * 8;
    var k := filter[len - 1];
    if k > MAX_PROBES {
      return true;
    }
    ghost var h0 := hash(key) % TWO_32;
    var h := hash(key) % TWO_32;
    var delta := Delta(h);
    for j := 0 to k
      invariant h == Probe(h0, j) && h < TWO_32
      invariant forall i :: 0 <= i < j ==> HasBit(a, Probe(h0, i) % (8 * |a|))
    {
      if !HasBit(a, h % bits) {
        assert !HasBit(a, Probe(h0, j) % (8 * |a|));
        return false;
      }
      ProbeStep(h0, j);
      h := (h + delta) % TWO_32;
    }
    r := true;
  }

  // ---- no false negatives ------------------------------------------------------------------------------------

  lemma {:induction false} ProbesStay(a: Bytes, h: nat, n: nat, q: nat)
    requires h < TWO_32 && q < 8 * |a| && HasBit(a, q)
    ensures HasBit(SetProbes(a, h, n), q)
  {
    hide HasBit;
    if n > 0 {
      ProbesStay(a, h, n - 1, q);
    }
  }

  lemma {:induction false} ProbesSet(a: Bytes, h: nat, n: nat, j: nat)
    requires h < TWO_32 && |a| > 0 && j < n
    ensures HasBit(SetProbes(a, h, n), Probe(h, j) % (8 * |a|))
  {
    hide HasBit;
    hide Probe;
    if j < n - 1 {
      ProbesSet(a, h, n - 1, j);
    }
  }

  lemma {:induction false} KeysStay(a: Bytes, keys: seq<Bytes>, hash: Bytes -> nat, k: nat, m: nat, n: nat, q: nat)
    requires m <= n <= |keys| && |a| > 0 && q < 8 * |a| && HasBit(SetKeys(a, keys, hash, k, m), q)
    ensures HasBit(SetKeys(a, keys, hash, k, n), q)
    decreases n
  {
    hide HasBit;
    hide SetProbes;
    if m < n {
      KeysStay(a, keys, hash, k, m, n - 1, q);
      ProbesStay(SetKeys(a, keys, hash, k, n - 1), hash(keys[n - 1]) % TWO_32, k, q);
    }
  }

  /** Every key the filter was made from matches it. */
  lemma NoFalseNegatives(keys: seq<Bytes>, bitsPerKey: nat, hash: Bytes -> nat, key: Bytes)
    requires key in keys
    ensures Matches(key, Filter(keys, bitsPerKey, hash), hash)
  {
    hide HasBit;
    hide Probe;
    hide Probes;
    var k := Probes(bitsPerKey);
    var zeros := Zeros(FilterBytes(|keys|, bitsPerKey));
    var a := SetKeys(zeros, keys, hash, k, |keys|);
    var filter := Filter(keys, bitsPerKey, hash);
    assert filter[..|filter| - 1] == a && filter[|filter| - 1] == k;
    var i :| 0 <= i < |keys| && keys[i] == key;
    var h := hash(key) % TWO_32;
    forall j | 0 <= j < k
      ensures HasBit(a, Probe(h, j) % (8 * |a|))
    {
      ProbesSet(SetKeys(zeros, keys, hash, k, i), h, k, j);
      KeysStay(zeros, keys, hash, k, i + 1, |keys|, Probe(h, j) % (8 * |a|));
    }
  }

  function BloomPolicy(bitsPerKey: nat, hash: Bytes -> nat): Policy {
    Policy(keys => Filter(keys, bitsPerKey, hash), (key, filter) => Matches(key, filter, hash))
  }

  lemma BloomFaithful(bitsPerKey: nat, hash: Bytes -> nat)
    ensures Faithful(BloomPolicy(bitsPerKey, hash))
  {
    hide Matches;
    hide Filter;
    var p := BloomPolicy(bitsPerKey, hash);
    forall keys: seq<Bytes>, k | k in keys
      ensures p.mayMatch(k, p.create(keys))
    {
      NoFalseNegatives(keys, bitsPerKey, hash, k);
    }
  }
}
