/** Byte strings, the bytewise comparator and the order it induces. */
module Keys {

  type byte = b: int | 0 <= b < 256
  type Bytes = seq<byte>

  datatype Option<+T> = None | Some(value: T)

  /** The prefix k[..i] is dropped; the rest is read as a fraction in base 257, digit 0 meaning "no byte here". */
  function RankFrom(k: Bytes, i: nat): (r: real)
    requires i <= |k|
    ensures 0.0 <= r < 1.0
    ensures i < |k| ==> 0.0 < r
    decreases |k| - i
  {
    if i == |k| then 0.0 else ((k[i] as int + 1) as real + RankFrom(k, i + 1)) / 257.0
  }

  lemma RankFromInjective(a: Bytes, b: Bytes, i: nat)
    requires i <= |a| && i <= |b|
    requires a[..i] == b[..i]
    requires RankFrom(a, i) == RankFrom(b, i)
    ensures a == b
    decreases |a| - i
  {
    if i < |a| && i < |b| {
      assert a[i] == b[i];
      assert a[..i + 1] == b[..i + 1];
      RankFromInjective(a, b, i + 1);
    } else {
      assert |a| == |b| == i;
      assert a == a[..i] && b == b[..i];
    }
  }

  ghost function Unrank(r: real): Bytes {
    if exists k: Bytes :: RankFrom(k, 0) == r then
      var k: Bytes :| RankFrom(k, 0) == r; k
    else []
  }

  /** The position of a key in the bytewise order, as a real number: an order embedding (CompareIsRank),
      one-to-one because Unrank undoes it. Every layer above compares user keys through it. */
  function Rank(k: Bytes): (r: real)
    ensures Unrank(r) == k
    ensures 0.0 <= r < 1.0
  {
    RankFromInjective(Unrank(RankFrom(k, 0)), k, 0);
    RankFrom(k, 0)
  }

  predicate Less(a: Bytes, b: Bytes) {
    Rank(a) < Rank(b)
  }

  /** Keys that share their first i bytes compare as their remainders do. */
  lemma {:induction false} RankCommonFrom(a: Bytes, b: Bytes, i: nat, j: nat)
    requires j <= i <= |a| && i <= |b|
    requires a[..i] == b[..i]
    ensures RankFrom(a, j) < RankFrom(b, j) <==> RankFrom(a, i) < RankFrom(b, i)
    decreases i - j
  {
    if j < i {
      assert a[j] == a[..i][j] == b[..i][j] == b[j];
      RankCommonFrom(a, b, i, j + 1);
    }
  }

  lemma RankCommon(a: Bytes, b: Bytes, i: nat)
    requires i <= |a| && i <= |b|
    requires a[..i] == b[..i]
    ensures Rank(a) < Rank(b) <==> RankFrom(a, i) < RankFrom(b, i)
    ensures Rank(b) < Rank(a) <==> RankFrom(b, i) < RankFrom(a, i)
  {
    RankCommonFrom(a, b, i, 0);
    RankCommonFrom(b, a, i, 0);
  }

  // ---- the order itself -----------------------------------------------------------------------------------

  /** At the first difference the smaller byte decides; a proper prefix comes first. */
  lemma FirstDifference(a: Bytes, b: Bytes, i: nat)
    requires i <= |a| && i <= |b| && a[..i] == b[..i]
    requires i < |a| && i < |b| ==> a[i] != b[i]
    ensures i < |a| && i < |b| ==> (Less(a, b) <==> a[i] < b[i])
    ensures i == |a| ==> (Less(a, b) <==> |a| < |b|)
    ensures i < |a| && i == |b| ==> !Less(a, b)
  {
    RankCommon(a, b, i);
  }

  function CommonLength(a: Bytes, b: Bytes, i: nat): (r: nat)
    requires i <= |a| && i <= |b| && a[..i] == b[..i]
    ensures i <= r <= |a| && r <= |b| && a[..r] == b[..r]
    ensures r < |a| && r < |b| ==> a[r] != b[r]
    decreases |a| - i
  {
    if i < |a| && i < |b| && a[i] == b[i] then
      assert a[..i + 1] == a[..i] + [a[i]] && b[..i + 1] == b[..i] + [b[i]];
      CommonLength(a, b, i + 1)
    else i
  }

  /** The bytewise order, byte by byte: a is a proper prefix of b, or has the smaller byte where they first differ. */
  lemma LessIsBytewise(a: Bytes, b: Bytes)
    ensures Less(a, b) <==>
      || (|a| < |b| && a == b[..|a|])
      || exists i :: 0 <= i < |a| && i < |b| && a[..i] == b[..i] && a[i] < b[i]
  {
    var n := CommonLength(a, b, 0);
    FirstDifference(a, b, n);
    if |a| < |b| && a == b[..|a|] {
      assert a[..|a|] == a;
      FirstDifference(a, b, |a|);
    }
    forall i | 0 <= i < |a| && i < |b| && a[..i] == b[..i] && a[i] < b[i]
      ensures Less(a, b)
    {
      FirstDifference(a, b, i);
    }
    assert n == |a| ==> a == a[..n];
  }

  /** memcmp on the common length, then the lengths: the comparator's own loop. */
  method Compare(a: Bytes, b: Bytes) returns (r: int)
    ensures r < 0 <==> Less(a, b)
    ensures r > 0 <==> Less(b, a)
    ensures r == 0 <==> a == b
    ensures r < 0 <==>
      || (|a| < |b| && a == b[..|a|])
      || exists i :: 0 <= i < |a| && i < |b| && a[..i] == b[..i] && a[i] < b[i]
  {
    var i := 0;
    while i < |a| && i < |b| && a[i] == b[i]
      invariant i <= |a| && i <= |b|
      invariant a[..i] == b[..i]
    {
      i := i + 1;
    }
    RankCommon(a, b, i);
    LessIsBytewise(a, b);
    if i < |a| && i < |b| {
      r := if a[i] < b[i] then -1 else 1;
    } else {
      r := if |a| < |b| then -1 else if |a| > |b| then 1 else 0;
      assert r == 0 ==> a == a[..i] && b == b[..i];
    }
  }
}
