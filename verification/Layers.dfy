/** The three layers a read goes through, newest first, and that the first one to know the key decides. */
module Layers {
  import opened Keys
  import opened Format
  import opened Levels
  import opened LevelOrder
  import opened Machine
  import opened Invariant

  // ---- the levels, shallowest first ---------------------------------------------------------------------

  /** What level-by-level search finds: the newest entry within the first level, from l down, that shows k at s. */
  ghost function SearchDown(v: LevelSets, l: nat, k: Bytes, s: nat): Option<Entry>
    decreases |v| - l
  {
    if l >= |v| then None else
      var e := Newest(FileEntries(v[l]), k, s);
      if e.Some? then e else SearchDown(v, l + 1, k, s)
  }

  lemma LevelShowsNone(v: LevelSets, l: nat, k: Bytes, s: nat)
    requires l < |v| && Newest(FileEntries(v[l]), k, s).None?
    ensures forall f, e :: f in v[l] && e in f.entries && e.ik.user == k ==> s < e.ik.sn
  {
  }

  /** No level above l shows k at s. */
  ghost predicate Unseen(v: LevelSets, l: nat, k: Bytes, s: nat) {
    forall m, f, e :: 0 <= m < l && m < |v| && f in v[m] && e in f.entries && e.ik.user == k ==> s < e.ik.sn
  }

  lemma ShallowestIsNewest(v: LevelSets, l: nat, k: Bytes, s: nat)
    requires CrossNewer(v) && Distinct(Contents(v)) && l < |v| && Unseen(v, l, k, s)
    requires Newest(FileEntries(v[l]), k, s).Some?
    ensures Newest(Contents(v), k, s) == Newest(FileEntries(v[l]), k, s)
  {
    var e := Newest(FileEntries(v[l]), k, s).value;
    var f :| f in v[l] && e in f.entries;
    ContentsOf(v, l, f, e);
    forall o | o in Contents(v) && o.ik.user == k && o.ik.sn <= s
      ensures o.ik.sn <= e.ik.sn
    {
      var m: nat, g: File :| m < |v| && g in v[m] && o in g.entries;
      if m == l {
        assert o in FileEntries(v[l]);
      } else if l < m {
        CrossPair(v, l, m, f, g);
      }
    }
    NewestIs(Contents(v), k, s, e);
  }

  /** Where shallower levels hold newer entries, level-by-level search finds the newest entry of all. */
  lemma {:induction false} SearchDownFrom(v: LevelSets, l: nat, k: Bytes, s: nat)
    requires CrossNewer(v) && Distinct(Contents(v)) && l <= |v| && Unseen(v, l, k, s)
    ensures SearchDown(v, l, k, s) == Newest(Contents(v), k, s)
    decreases |v| - l
  {
    hide CrossNewer;
    hide Distinct;
    if l == |v| {
      forall o | o in Contents(v) && o.ik.user == k
        ensures s < o.ik.sn
      {
        var m: nat, g: File :| m < |v| && g in v[m] && o in g.entries;
      }
      NewestNone(Contents(v), k, s);
    } else if Newest(FileEntries(v[l]), k, s).Some? {
      ShallowestIsNewest(v, l, k, s);
    } else {
      LevelShowsNone(v, l, k, s);
      SearchDownFrom(v, l + 1, k, s);
    }
  }

  // ---- memtable, immutable memtable, levels ----------------------------------------------------------------

  function ValueOf(e: Entry): Option<Bytes> {
    if e.ik.kind.Value? then Some(e.value) else None
  }

  /** A lookup as the code orders it: the memtable, then the immutable memtable, then the levels from the top; the first
      that knows the key answers. */
  ghost function LayeredGet(d: Db, k: Bytes, s: nat): Option<Bytes> {
    var m := TableGet(d.mem, k, s);
    if m.Some? then ValueOf(m.value) else
      var i := if d.imm.Some? then TableGet(d.imm.value, k, s) else None;
      if i.Some? then ValueOf(i.value) else
        var l := SearchDown(d.levels, 0, k, s);
        if l.Some? then ValueOf(l.value) else None
  }

  /** In layers whose sequence numbers do not interleave, the first layer that knows the key decides. */
  lemma LayerWins(upper: iset<Entry>, lower: iset<Entry>, k: Bytes, s: nat, cut: nat)
    requires Distinct(upper + lower)
    requires forall e :: e in upper ==> cut < e.ik.sn
    requires forall e :: e in lower ==> e.ik.sn <= cut
    ensures Newest(upper, k, s).Some? ==> Read(upper + lower, k, s) == Read(upper, k, s)
    ensures Newest(upper, k, s).None? ==> Read(upper + lower, k, s) == Read(lower, k, s)
  {
  }

  lemma AllDistinct(d: Db)
    requires ReadInv(d)
    ensures Distinct(d.All()) && Distinct(Elems(d.mem)) && (d.imm.Some? ==> Distinct(Elems(d.imm.value)))
    ensures Distinct(Contents(d.levels))
  {
  }

  ghost function ImmElems(d: Db): iset<Entry> {
    if d.imm.Some? then Elems(d.imm.value) else iset{}
  }

  /** The three layers of a reachable state hold successive ranges of sequence numbers. */
  lemma LayersSplit(d: Db)
    requires LogInv(d) && SeqInv(d)
    ensures Sorted(d.mem) && (d.imm.Some? ==> Sorted(d.imm.value))
    ensures forall e :: e in d.mem ==> d.cut1 < e.ik.sn
    ensures forall e :: e in ImmElems(d) ==> d.cut0 < e.ik.sn <= d.cut1
  {
    MemIsTable(d);
  }

  lemma LayersDecide(d: Db, k: Bytes, s: nat)
    requires LogInv(d) && SeqInv(d) && ReadInv(d)
    ensures Newest(Elems(d.mem), k, s).Some? ==> Read(d.All(), k, s) == Read(Elems(d.mem), k, s)
    ensures Newest(Elems(d.mem), k, s).None? && Newest(ImmElems(d), k, s).Some? ==>
      Read(d.All(), k, s) == Read(ImmElems(d), k, s)
    ensures Newest(Elems(d.mem), k, s).None? && Newest(ImmElems(d), k, s).None? ==>
      Read(d.All(), k, s) == Read(Contents(d.levels), k, s)
  {
    LayersSplit(d);
    AllDistinct(d);
    var lower := ImmElems(d) + Contents(d.levels);
    assert d.All() == Elems(d.mem) + lower;
    LayerWins(Elems(d.mem), lower, k, s, d.cut1);
    LayerWins(ImmElems(d), Contents(d.levels), k, s, d.cut0);
  }

  lemma OpenVersion(d: Db)
    requires Inv(d)
    ensures VersionOk(d.levels) && Distinct(Contents(d.levels))
  {
  }

  /** Each layer's own search finds its newest visible entry. */
  lemma EachLayer(d: Db, k: Bytes, s: nat)
    requires LogInv(d) && SeqInv(d) && OrderInv(d) && ReadInv(d)
    ensures TableGet(d.mem, k, s) == Newest(Elems(d.mem), k, s)
    ensures (if d.imm.Some? then TableGet(d.imm.value, k, s) else None) == Newest(ImmElems(d), k, s)
    ensures SearchDown(d.levels, 0, k, s) == Newest(Contents(d.levels), k, s)
  {
    hide SearchDown;
    hide TableGet;
    hide LevelOk;
    LayersSplit(d);
    AllDistinct(d);
    TableGetIsNewest(d.mem, k, s);
    if d.imm.Some? {
      TableGetIsNewest(d.imm.value, k, s);
    } else {
      NewestNone(ImmElems(d), k, s);
    }
    SearchDownFrom(d.levels, 0, k, s);
  }

  /** In every state the database keeps, that is the newest visible entry of all it holds. */
  lemma LayeredIsRead(d: Db, k: Bytes, s: nat)
    requires Inv(d)
    ensures LayeredGet(d, k, s) == Read(d.All(), k, s)
  {
    hide SearchDown;
    hide TableGet;
    hide Newest;
    hide LogInv;
    hide SeqInv;
    hide ReadInv;
    hide OrderInv;
    hide TableInv;
    hide MetaInv;
    hide FlushInv;
    hide RunInv;
    EachLayer(d, k, s);
    LayersDecide(d, k, s);
  }
}
