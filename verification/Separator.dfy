/** Shortened index keys: between the end of one block and the start of the next. */
module Separator {
  import opened Keys
  import opened Format

  lemma {:induction false} DigitDecides(a: Bytes, b: Bytes, i: nat)
    requires i < |a| && i < |b| && a[i] < b[i]
    ensures RankFrom(a, i) < RankFrom(b, i)
  {
    var x, y := RankFrom(a, i + 1), RankFrom(b, i + 1);
    assert (a[i] as int + 1) as real + x < (b[i] as int + 1) as real + y;
  }

  lemma FirstDifference(a: Bytes, b: Bytes, i: nat)
    requires i < |a| && i < |b| && a[..i] == b[..i] && a[i] < b[i]
    ensures Rank(a) < Rank(b)
  {
    RankCommon(a, b, i);
    DigitDecides(a, b, i);
  }

  /** The first byte where start and limit differ can be bumped and stay below limit. */
  predicate Bumps(start: Bytes, limit: Bytes, i: nat) {
    i < |start| && i < |limit| && start[..i] == limit[..i] && start[i] < 0xff && start[i] + 1 < limit[i]
  }

  lemma BumpsOnce(start: Bytes, limit: Bytes, i: nat, n: nat)
    requires n <= |start| && n <= |limit| && start[..n] == limit[..n] &&
      (n < |start| && n < |limit| ==> start[n] != limit[n])
    requires Bumps(start, limit, i)
    ensures i == n
  {
    SameFront(start, limit, n);
    SameFront(start, limit, i);
  }

  lemma SameFront(a: Bytes, b: Bytes, n: nat)
    requires n <= |a| && n <= |b| && a[..n] == b[..n]
    ensures forall j :: 0 <= j < n ==> a[j] == b[j]
  {
    forall j | 0 <= j < n
      ensures a[j] == b[j]
    {
      assert a[j] == a[..n][j];
    }
  }

  /** BytewiseComparatorImpl::FindShortestSeparator: bump the first differing byte, if that stays below limit. */
  method ShortestSeparator(start: Bytes, limit: Bytes) returns (r: Bytes)
    ensures r == start || (Rank(start) < Rank(r) < Rank(limit) && |r| <= |start|)
    ensures (exists i: nat :: Bumps(start, limit, i)) || r == start
    ensures forall i: nat :: Bumps(start, limit, i) ==> r == start[..i] + [start[i] + 1]
  {
    var minLength := if |start| < |limit| then |start| else |limit|;
    var i: nat := 0;
    while i < minLength && start[i] == limit[i]
      invariant i <= minLength && start[..i] == limit[..i]
    {
      i := i + 1;
    }
    r := start;
    forall j: nat | Bumps(start, limit, j)
      ensures j == i
    {
      BumpsOnce(start, limit, j, i);
    }
    assert Bumps(start, limit, i) <==> i < minLength && start[i] < 0xff && start[i] + 1 < limit[i];
    if i < minLength {
      var b := start[i];
      if b < 0xff && b + 1 < limit[i] {
        r := start[..i] + [b + 1];
        assert r[..i] == start[..i];
        FirstDifference(start, r, i);
        FirstDifference(r, limit, i);
      }
    }
  }

  /** BytewiseComparatorImpl::FindShortSuccessor: bump the first byte that can be, and drop the rest. */
  method ShortSuccessor(key: Bytes) returns (r: Bytes)
    ensures r == key || (Rank(key) < Rank(r) && |r| <= |key|)
    ensures (forall j :: 0 <= j < |key| ==> key[j] == 0xff) ==> r == key
    ensures forall i :: 0 <= i < |key| && key[i] != 0xff && (forall j :: 0 <= j < i ==> key[j] == 0xff) ==>
      r == key[..i] + [key[i] + 1]
  {
    r := key;
    for i := 0 to |key|
      invariant forall j :: 0 <= j < i ==> key[j] == 0xff
    {
      if key[i] != 0xff {
        r := key[..i] + [key[i] + 1];
        assert r[..i] == key[..i];
        FirstDifference(key, r, i);
        return;
      }
    }
  }

  /** r is start, or start shortened to one byte past the first difference, that byte bumped, when this makes it
      shorter. */
  ghost predicate Shortened(start: IKey, limit: IKey, r: IKey) {
    && ((exists i: nat :: Bumps(start.user, limit.user, i) && i + 1 < |start.user|) || r == start)
    && forall i: nat :: Bumps(start.user, limit.user, i) && i + 1 < |start.user| ==>
      r == IKey(start.user[..i] + [start.user[i] + 1], MAX_SEQUENCE, Value)
  }

  /** r is key, or key cut off behind its first byte below 0xff, that byte bumped, when this makes it shorter. */
  ghost predicate Succeeds(key: IKey, r: IKey) {
    && (forall i ::
          0 <= i < |key.user| && key.user[i] != 0xff && (forall j :: 0 <= j < i ==> key.user[j] == 0xff) ==>
          r == if i + 1 < |key.user| then IKey(key.user[..i] + [key.user[i] + 1], MAX_SEQUENCE, Value) else key)
    && ((forall j :: 0 <= j < |key.user| ==> key.user[j] == 0xff) ==> r == key)
  }

  /** InternalKeyComparator::FindShortestSeparator: take the shorter user key only if it is physically shorter and
      logically larger, with the earliest sequence position. */
  method InternalSeparator(start: IKey, limit: IKey) returns (r: IKey)
    ensures r == start || (Rank(start.user) < Rank(r.user) < Rank(limit.user))
    ensures Shortened(start, limit, r)
  {
    var tmp := ShortestSeparator(start.user, limit.user);
    r := start;
    if |tmp| < |start.user| && Less(start.user, tmp) {
      r := IKey(tmp, MAX_SEQUENCE, Value);
    }
  }

  /** InternalKeyComparator::FindShortSuccessor. */
  method InternalSuccessor(key: IKey) returns (r: IKey)
    ensures r == key || (Rank(key.user) < Rank(r.user) && |r.user| < |key.user| && r.sn == MAX_SEQUENCE &&
      r.kind.Value?)
    ensures Succeeds(key, r)
  {
    var tmp := ShortSuccessor(key.user);
    r := key;
    if |tmp| < |key.user| && Less(key.user, tmp) {
      r := IKey(tmp, MAX_SEQUENCE, Value);
    }
  }
}
