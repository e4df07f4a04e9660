/** The drop rules of a compaction: what the loop writes, and what that does to readers. */
module Compaction {
  import opened Keys
  import opened Format
  import opened Levels

  /** No file two or more levels below the compaction's level can hold k. */
  ghost predicate BaseLevel(v: LevelSets, level: nat, k: Bytes) {
    forall l, f :: level + 2 <= l < |v| && f in v[l] ==> !Covers(f, k)
  }

  // ---- which entries survive ---------------------------------------------

  /** Rule (A): an entry of the same user key, already visible to the oldest snapshot, came just before. */
  predicate Shadowed(input: seq<Entry>, i: nat, floor: nat)
    requires i < |input|
  {
    i > 0 && input[i - 1].ik.user == input[i].ik.user && input[i - 1].ik.sn <= floor
  }

  ghost predicate Obsolete(e: Entry, floor: nat, v: LevelSets, level: nat) {
    e.ik.kind.Deletion? && e.ik.sn <= floor && BaseLevel(v, level, e.ik.user)
  }

  ghost predicate Keep(input: seq<Entry>, i: nat, floor: nat, v: LevelSets, level: nat)
    requires i < |input|
  {
    !Shadowed(input, i, floor) && !Obsolete(input[i], floor, v, level)
  }

  /** The survivors among the first n entries, in order. */
  ghost function Kept(input: seq<Entry>, n: nat, floor: nat, v: LevelSets, level: nat): (r: seq<Entry>)
    requires n <= |input|
    ensures forall e :: e in r ==> e in input[..n]
  {
    if n == 0 then [] else
      Kept(input, n - 1, floor, v, level) + (if Keep(input, n - 1, floor, v, level) then [input[n - 1]] else [])
  }

  ghost function Output(input: seq<Entry>, floor: nat, v: LevelSets, level: nat): seq<Entry> {
    Kept(input, |input|, floor, v, level)
  }

  lemma {:induction false} KeptExactly(input: seq<Entry>, n: nat, i: nat, floor: nat, v: LevelSets, level: nat)
    requires i < n <= |input| && Sorted(input)
    ensures input[i] in Kept(input, n, floor, v, level) <==> Keep(input, i, floor, v, level)
  {
    if i < n - 1 {
      KeptExactly(input, n - 1, i, floor, v, level);
      assert ILess(input[i].ik, input[n - 1].ik);
    } else {
      forall j | 0 <= j < n - 1
        ensures input[j] != input[n - 1]
      {
        assert ILess(input[j].ik, input[n - 1].ik);
      }
    }
  }

  lemma {:induction false} KeptSorted(input: seq<Entry>, n: nat, floor: nat, v: LevelSets, level: nat)
    requires n <= |input| && Sorted(input)
    ensures Sorted(Kept(input, n, floor, v, level))
  {
    if n > 0 {
      KeptSorted(input, n - 1, floor, v, level);
      var r := Kept(input, n - 1, floor, v, level);
      forall j | 0 <= j < |r|
        ensures ILess(r[j].ik, input[n - 1].ik)
      {
        assert r[j] in input[..n - 1];
      }
    }
  }

  /** Of each user key at most one entry the oldest reader can see survives, and no deletion that reader can see unless
      a deeper level may hold the key. */
  lemma OneVisibleKept(input: seq<Entry>, floor: nat, v: LevelSets, level: nat, a: Entry, b: Entry)
    requires Sorted(input) && a in Output(input, floor, v, level) && b in Output(input, floor, v, level)
    requires a.ik.user == b.ik.user && a.ik.sn <= floor && b.ik.sn <= floor
    ensures a == b
    ensures a.ik.kind.Deletion? ==> exists l, f :: level + 2 <= l < |v| && f in v[l] && Covers(f, a.ik.user)
  {
    var i :| 0 <= i < |input| && input[i] == a;
    var j :| 0 <= j < |input| && input[j] == b;
    KeptExactly(input, |input|, i, floor, v, level);
    KeptExactly(input, |input|, j, floor, v, level);
    if i < j {
      OlderAreShadowed(input, i, j, floor);
    } else if j < i {
      OlderAreShadowed(input, j, i, floor);
    }
  }

  // ---- what readers see --------------------------------------------------

  /** Entries of one user key sit together, newest first, so once one is visible to the floor the older ones go. */
  lemma OlderAreShadowed(input: seq<Entry>, i: nat, j: nat, floor: nat)
    requires i < j < |input| && Sorted(input)
    requires input[i].ik.user == input[j].ik.user && input[i].ik.sn <= floor
    ensures Shadowed(input, j, floor)
  {
  }

  /** The newest entry of k at the floor is an input tombstone about to be dropped, and a value of k survives below
      it. */
  ghost predicate Resurrects(input: seq<Entry>, rest: iset<Entry>, floor: nat, v: LevelSets, level: nat, k: Bytes) {
    var t := Newest(Elems(input) + rest, k, floor);
    t.Some? && t.value in input && t.value.ik.kind.Deletion? && BaseLevel(v, level, k)
      && Read(rest, k, t.value.ik.sn).Some?
  }

  ghost predicate NoneResurrect(input: seq<Entry>, rest: iset<Entry>, floor: nat, v: LevelSets, level: nat) {
    forall k: Bytes :: !Resurrects(input, rest, floor, v, level, k)
  }

  /** Entries newer than every input entry of their user key change nothing about that. */
  lemma NewerResurrectNone(input: seq<Entry>, rest: iset<Entry>, more: iset<Entry>, floor: nat, v: LevelSets,
          level: nat)
    requires NoneResurrect(input, rest, floor, v, level) && Distinct(Elems(input) + (rest + more))
    requires forall t, e :: t in input && e in more && t.ik.user == e.ik.user ==> t.ik.sn < e.ik.sn
    ensures NoneResurrect(input, rest + more, floor, v, level)
  {
    hide BaseLevel;
    forall k: Bytes
      ensures !Resurrects(input, rest + more, floor, v, level, k)
    {
      assert !Resurrects(input, rest, floor, v, level, k);
      if Resurrects(input, rest + more, floor, v, level, k) {
        var t := Newest(Elems(input) + (rest + more), k, floor).value;
        NewestIs(Elems(input) + rest, k, floor, t);
        var n := Newest(rest + more, k, t.ik.sn).value;
        assert n in Elems(input) + (rest + more);
        NewestIs(rest, k, t.ik.sn, n);
      }
    }
  }

  /** Case: the newest entry at s is an input entry that the loop drops. */
  lemma DroppedNewest(input: seq<Entry>, rest: iset<Entry>, floor: nat, v: LevelSets, level: nat, i: nat, s: nat)
    requires Sorted(input) && Distinct(Elems(input) + rest) && floor <= s
    requires i < |input| && Newest(Elems(input) + rest, input[i].ik.user, s) == Some(input[i])
    requires !Keep(input, i, floor, v, level)
    ensures Obsolete(input[i], floor, v, level)
    ensures Newest(Elems(input) + rest, input[i].ik.user, floor) == Some(input[i])
    ensures Read(Elems(Output(input, floor, v, level)) + rest, input[i].ik.user, s) ==
      Read(rest, input[i].ik.user, input[i].ik.sn)
  {
    var n := input[i];
    var k := n.ik.user;
    var all := Elems(input) + rest;
    if i > 0 {
      assert ILess(input[i - 1].ik, input[i].ik);
      assert input[i - 1] in all;
    }
    assert !Shadowed(input, i, floor);
    NewestIs(all, k, floor, n);
    var out := Output(input, floor, v, level);
    forall e | e in out && e.ik.user == k
      ensures s < e.ik.sn
    {
      var j :| 0 <= j < |input| && input[j] == e;
      KeptExactly(input, |input|, j, floor, v, level);
      assert e in all;
      if j < i {
        assert ILess(input[j].ik, input[i].ik);
      } else if i < j {
        OlderAreShadowed(input, i, j, floor);
      }
    }
    OnlyRest(Elems(out), rest, k, s, n.ik.sn);
  }

  /** When out shows nothing of k at s and rest shows nothing between t and s, reads fall through to rest at t. */
  lemma OnlyRest(out: iset<Entry>, rest: iset<Entry>, k: Bytes, s: nat, t: nat)
    requires t <= s && Distinct(rest)
    requires forall e :: e in out && e.ik.user == k ==> s < e.ik.sn
    requires forall e :: e in rest && e.ik.user == k && e.ik.sn <= s ==> e.ik.sn <= t
    ensures Newest(out + rest, k, s) == Newest(rest, k, t)
  {
  }

  lemma KeptNewest(input: seq<Entry>, out: iset<Entry>, rest: iset<Entry>, k: Bytes, s: nat)
    requires Distinct(Elems(input) + rest)
    requires out <= Elems(input)
    requires var n := Newest(Elems(input) + rest, k, s); n.Some? ==> n.value in out + rest
    ensures Newest(out + rest, k, s) == Newest(Elems(input) + rest, k, s)
  {
  }

  /** Reads at or above the floor survive a compaction exactly when no dropped tombstone uncovers a value outside the
      inputs. */
  lemma ReadsPreservedIff(input: seq<Entry>, rest: iset<Entry>, floor: nat, v: LevelSets, level: nat)
    requires Sorted(input) && Distinct(Elems(input) + rest)
    ensures
      (forall s: nat :: floor <= s ==> SameReads(Elems(Output(input, floor, v, level)) + rest, Elems(input) + rest, s))
      <==>
      (forall k: Bytes :: !Resurrects(input, rest, floor, v, level, k))
  {
    var out := Elems(Output(input, floor, v, level));
    var all := Elems(input) + rest;
    if forall k: Bytes :: !Resurrects(input, rest, floor, v, level, k) {
      forall s: nat | floor <= s
        ensures SameReads(out + rest, all, s)
      {
        ReadsPreserved(input, rest, floor, v, level, s);
      }
    } else {
      var k: Bytes :| Resurrects(input, rest, floor, v, level, k);
      var t := Newest(all, k, floor).value;
      var i :| 0 <= i < |input| && input[i] == t;
      DroppedNewest(input, rest, floor, v, level, i, floor);
      assert !SameReads(out + rest, all, floor);
    }
  }

  lemma ReadPreserved(input: seq<Entry>, rest: iset<Entry>, floor: nat, v: LevelSets, level: nat, k: Bytes, s: nat)
    requires Sorted(input) && Distinct(Elems(input) + rest) && floor <= s
    requires !Resurrects(input, rest, floor, v, level, k)
    ensures Read(Elems(Output(input, floor, v, level)) + rest, k, s) == Read(Elems(input) + rest, k, s)
  {
    var out := Elems(Output(input, floor, v, level));
    var all := Elems(input) + rest;
    var n := Newest(all, k, s);
    if n.Some? && n.value in input {
      var i :| 0 <= i < |input| && input[i] == n.value;
      KeptExactly(input, |input|, i, floor, v, level);
      if !Keep(input, i, floor, v, level) {
        DroppedNewest(input, rest, floor, v, level, i, s);
        return;
      }
    }
    KeptNewest(input, out, rest, k, s);
  }

  lemma ReadsPreserved(input: seq<Entry>, rest: iset<Entry>, floor: nat, v: LevelSets, level: nat, s: nat)
    requires Sorted(input) && Distinct(Elems(input) + rest) && floor <= s
    requires forall k: Bytes :: !Resurrects(input, rest, floor, v, level, k)
    ensures SameReads(Elems(Output(input, floor, v, level)) + rest, Elems(input) + rest, s)
  {
    forall k: Bytes
      ensures Read(Elems(Output(input, floor, v, level)) + rest, k, s) == Read(Elems(input) + rest, k, s)
    {
      ReadPreserved(input, rest, floor, v, level, k, s);
    }
  }
}
