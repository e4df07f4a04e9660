/** Sorted tables: data blocks cut from a sorted run, an index of shortened separators, an optional filter, and
    lookup. */
module Table {
  import opened Keys
  import opened Format
  import opened Coding
  import opened CompactionWork
  import opened TwoLevel
  import opened Separator
  import opened FilterBlock

  // ---- internal keys in filters ---------------------------------------------------------------------

  /** AppendInternalKey: the user key, then the packed tag. */
  function InternalBytes(k: IKey): (r: Bytes)
    ensures |r| == |k.user| + 8
  {
    k.user + Fixed64(Tag(k) % TWO_64)
  }

  /** ExtractUserKey. */
  function UserOf(b: Bytes): Bytes {
    if |b| >= 8 then b[..|b| - 8] else []
  }

  function Users(keys: seq<Bytes>): (r: seq<Bytes>)
    ensures |r| == |keys|
    ensures forall i :: 0 <= i < |keys| ==> r[i] == UserOf(keys[i])
  {
    seq(|keys|, i requires 0 <= i < |keys| => UserOf(keys[i]))
  }

  /** InternalFilterPolicy: the user's policy on user keys only. */
  function InternalPolicy(user: Policy): Policy {
    Policy(keys => user.create(Users(keys)), (key, filter) => user.mayMatch(UserOf(key), filter))
  }

  /** Any internal key matches a filter that was given some internal key with the same user key. */
  lemma InternalMatches(user: Policy, keys: seq<Bytes>, a: IKey, b: IKey)
    requires Faithful(user) && InternalBytes(a) in keys && a.user == b.user
    ensures InternalPolicy(user).mayMatch(InternalBytes(b), FilterOf(InternalPolicy(user), keys))
  {
    var i :| 0 <= i < |keys| && keys[i] == InternalBytes(a);
    assert UserOf(InternalBytes(a)) == a.user && UserOf(InternalBytes(b)) == a.user;
    assert Users(keys)[i] == a.user;
  }

  // ---- what a table must satisfy ------------------------------------------------------------------------

  /** sep may stand between a block ending with last and the next entry, if any: at least last, and either last itself
      or strictly between the two user keys. */
  predicate SepOk(last: IKey, sep: IKey, next: Option<IKey>) {
    sep == last || (Rank(last.user) < Rank(sep.user) && (next.Some? ==> Rank(sep.user) < Rank(next.value.user)))
  }

  /** The first entry after part i, given that rest follows all parts. */
  function NextKey(parts: seq<seq<Entry>>, i: nat, rest: seq<Entry>): Option<IKey>
    requires i < |parts|
  {
    if i + 1 < |parts| then (if parts[i + 1] != [] then Some(parts[i + 1][0].ik) else None)
    else if rest != [] then Some(rest[0].ik) else None
  }

  ghost predicate IndexOk(parts: seq<seq<Entry>>, index: seq<IndexEntry>, rest: seq<Entry>) {
    && |index| <= |parts| && (forall i :: 0 <= i < |parts| ==> parts[i] != [])
    && forall i :: 0 <= i < |index| ==> SepOk(parts[i][|parts[i]| - 1].ik, index[i].sep, NextKey(parts, i, rest))
  }

  /** Part i was written at offset starts[i], and the index says so. */
  ghost predicate Stored(parts: seq<seq<Entry>>, starts: seq<nat>, index: seq<IndexEntry>, file: map<nat, seq<Entry>>,
          offset: nat) {
    && |starts| == |parts| && |index| <= |parts|
    && (forall i :: 0 <= i < |parts| ==> starts[i] < offset && starts[i] in file && file[starts[i]] == parts[i])
    && (forall i :: 0 <= i < |index| ==> index[i].handle == starts[i])
  }

  /** Every key of the block at an offset went into that offset's filter. */
  ghost predicate Filtered(parts: seq<seq<Entry>>, starts: seq<nat>, groups: seq<seq<Bytes>>, pending: seq<Bytes>)
    requires |starts| == |parts|
  {
    forall i, e :: 0 <= i < |parts| && e in parts[i] ==> InGroup(groups, pending, starts[i], e.ik)
  }

  predicate InGroup(groups: seq<seq<Bytes>>, pending: seq<Bytes>, offset: nat, k: IKey) {
    var g := offset / BASE;
    if g < |groups| then InternalBytes(k) in groups[g] else g == |groups| && InternalBytes(k) in pending
  }

  // ---- the builder ------------------------------------------------------------------------------------------

  /** The builder's fields, with the parts written so far and where each starts. */
  datatype Rep = Rep(offset: nat, dataBlock: seq<Entry>, index: seq<IndexEntry>, pendingIndexEntry: bool,
    pendingHandle: nat,
                     lastKey: IKey, file: map<nat, seq<Entry>>, parts: seq<seq<Entry>>, starts: seq<nat>)

  function LastOf(es: seq<Entry>): IKey
    requires es != []
  {
    es[|es| - 1].ik
  }

  function Entries(r: Rep): seq<Entry> {
    Flatten(r.parts) + r.dataBlock
  }

  ghost predicate RepOk(r: Rep) {
    && Sorted(Entries(r)) && IndexOk(r.parts, r.index, r.dataBlock) &&
      Stored(r.parts, r.starts, r.index, r.file, r.offset)
    && |r.index| == (if r.pendingIndexEntry then |r.parts| - 1 else |r.parts|)
    && (r.pendingIndexEntry <==> r.parts != [] && r.dataBlock == [])
    && (r.pendingIndexEntry ==>
      r.pendingHandle == r.starts[|r.parts| - 1] && r.lastKey == LastOf(r.parts[|r.parts| - 1]))
    && (r.dataBlock != [] ==> r.lastKey == LastOf(r.dataBlock))
  }

  /** The finished table: every entry in an indexed block. */
  ghost predicate Closed(r: Rep) {
    && Sorted(Flatten(r.parts)) && r.dataBlock == [] && !r.pendingIndexEntry
    && IndexOk(r.parts, r.index, []) && |r.index| == |r.parts| && Stored(r.parts, r.starts, r.index, r.file, r.offset)
  }

  /** The filter's keys cover the written blocks, and its pending group the open one. */
  ghost predicate FilterOk(r: Rep, groups: seq<seq<Bytes>>, pending: seq<Bytes>) {
    && |groups| == r.offset / BASE && |r.starts| == |r.parts| && Filtered(r.parts, r.starts, groups, pending)
    && (forall e :: e in r.dataBlock ==> InternalBytes(e.ik) in pending)
  }

  class TableBuilder {
    const filter: FilterBlockBuilder?
    var offset: nat
    var dataBlock: seq<Entry>
    var index: seq<IndexEntry>
    var pendingIndexEntry: bool
    var pendingHandle: nat
    var lastKey: IKey
    var file: map<nat, seq<Entry>>
    ghost var parts: seq<seq<Entry>>
    ghost var starts: seq<nat>

    ghost function R(): Rep
      reads this
    {
      Rep(offset, dataBlock, index, pendingIndexEntry, pendingHandle, lastKey, file, parts, starts)
    }

    ghost predicate FilterValid()
      reads this, filter
    {
      filter != null ==> filter.Valid() && FilterOk(R(), filter.groups, filter.pending)
    }

    ghost predicate Valid()
      reads this, filter
    {
      RepOk(R()) && FilterValid()
    }

    constructor (filter: FilterBlockBuilder?)
      requires filter != null ==> filter.Valid() && filter.groups == [] && filter.pending == []
      modifies filter
      ensures Valid() && Entries(R()) == [] && this.filter == filter
    {
      this.filter := filter;
      offset, dataBlock, index, pendingIndexEntry, pendingHandle, lastKey, file := 0, [], [], false, 0,
        LookupKey([], 0), map[];
      parts, starts := [], [];
      new;
      if filter != null {
        filter.StartBlock(0);
      }
    }

    /** Append an entry; a delayed index entry is added first, now that the key after it is known. full says the block
        has reached its size, size is what the finished block then takes. */
    method Add(e: Entry, full: bool, size: nat)
      requires Valid() && (Entries(R()) != [] ==> ILess(LastOf(Entries(R())), e.ik))
      modifies this, filter
      ensures Valid() && Entries(R()) == old(Entries(R())) + [e]
      ensures |index| == |old(index)| + (if old(pendingIndexEntry) then 1 else 0) && index[..|old(index)|] == old(index)
      ensures old(pendingIndexEntry) ==>
        index[|old(index)|].handle == old(pendingHandle) && Shortened(old(lastKey), e.ik, index[|old(index)|].sep)
      ensures if full then dataBlock == [] && parts == old(parts) + [old(dataBlock) + [e]] && offset == old(offset) +
        size + 5
              else dataBlock == old(dataBlock) + [e] && parts == old(parts) && offset == old(offset)
    {
      hide RepOk;
      hide FilterOk;
      hide Entries;
      hide Shortened;
      LastIs(R(), e.ik);
      ghost var before := R();
      if pendingIndexEntry {
        lastKey := InternalSeparator(lastKey, e.ik);
        index := index + [IndexEntry(lastKey, pendingHandle)];
        pendingIndexEntry := false;
      }
      AddRep(before, e, lastKey, index);
      if filter != null {
        AddFilter(before, R(), filter.groups, filter.pending, e);
        filter.AddKey(InternalBytes(e.ik));
      }
      lastKey := e.ik;
      dataBlock := dataBlock + [e];
      if full {
        Flush(size);
      }
    }

    /** Write out the data block, if it has entries, and start the filter for what follows. */
    method Flush(size: nat)
      requires Valid()
      modifies this, filter
      ensures Valid() && Entries(R()) == old(Entries(R())) && dataBlock == []
      ensures filter != null ==> filter.Size() == old(filter.Size())
      ensures if old(dataBlock) == [] then R() == old(R())
              else parts == old(parts) + [old(dataBlock)] && offset == old(offset) + size + 5 && index == old(index)
    {
      if dataBlock == [] {
        return;
      }
      WriteBlock(offset + size + 5);
    }

    /** The data block goes to the file at the current offset; its index entry is delayed. */
    method WriteBlock(after: nat)
      requires Valid() && dataBlock != [] && offset < after
      modifies this, filter
      ensures Valid() && Entries(R()) == old(Entries(R())) && dataBlock == []
      ensures filter != null ==> filter.Size() == old(filter.Size())
      ensures parts == old(parts) + [old(dataBlock)] && offset == after && index == old(index)
    {
      hide RepOk;
      hide FilterOk;
      hide Entries;
      hide Stored;
      ghost var before := R();
      FlushRep(before, after);
      parts, starts := parts + [dataBlock], starts + [offset];
      file := file[offset := dataBlock];
      pendingHandle := offset;
      offset := after;
      pendingIndexEntry := true;
      dataBlock := [];
      assert R() == before.(parts := before.parts + [before.dataBlock], starts := before.starts + [before.offset],
                            file := before.file[before.offset := before.dataBlock], pendingHandle := before.offset,
                            offset := offset, pendingIndexEntry := true, dataBlock := []);
      if filter != null {
        StartFilterBlock(before);
      }
    }

    /** The filter moves on to the next block's offset. */
    method StartFilterBlock(ghost r: Rep)
      requires filter != null && filter.Valid() && FilterOk(r, filter.groups, filter.pending)
      requires parts == r.parts + [r.dataBlock] && starts == r.starts + [r.offset] && dataBlock == [] &&
        r.offset <= offset
      modifies filter
      ensures FilterValid() && filter.Size() == old(filter.Size())
    {
      hide FilterOk;
      ghost var groups, pending := filter.groups, filter.pending;
      GroupsBehind(r, groups, pending, offset);
      filter.StartBlock(offset);
      FlushFilter(r, R(), groups, pending, filter.groups, filter.pending);
    }

    lemma GroupsBehind(r: Rep, groups: seq<seq<Bytes>>, pending: seq<Bytes>, after: nat)
      requires FilterOk(r, groups, pending) && r.offset <= after
      ensures |groups| <= after / BASE
    {
    }

    /** Flush; close the filter, if any; then the last index entry: with no next key, a short successor will do. */
    method Finish(size: nat) returns (filterData: Option<Bytes>)
      requires Valid()
      requires filter != null ==> filter.Size() < TWO_32
      modifies this, filter
      ensures Closed(R()) && Flatten(parts) == old(Entries(R()))
      ensures parts == old(parts) + (if old(dataBlock) == [] then [] else [old(dataBlock)])
      ensures |index| == |parts| && (parts != [] ==>
        parts[|parts| - 1] != [] && Succeeds(LastOf(parts[|parts| - 1]), index[|index| - 1].sep) &&
        (forall i :: 0 <= i < |old(index)| ==> index[i] == old(index)[i]))
      ensures filterData.Some? <==> filter != null
      ensures filter != null ==>
        Finished(filter.policy, filter.groups, filterData.value) && Filtered(parts, starts, filter.groups, [])
    {
      hide RepOk;
      hide Closed;
      hide FilterOk;
      hide Flatten;
      hide Succeeds;
      hide Finished;
      hide Filtered;
      hide FilterBlockBuilder.Size;
      hide Entries;
      Flush(size);
      ghost var before := R();
      LastPending(before);
      filterData := None;
      if filter != null {
        GroupsEnd(before, filter.groups, filter.pending);
        var data := filter.Finish();
        filterData := Some(data);
      }
      if pendingIndexEntry {
        lastKey := InternalSuccessor(lastKey);
        index := index + [IndexEntry(lastKey, pendingHandle)];
        pendingIndexEntry := false;
      }
      FinishRep(before, R());
    }
  }

  /** After a flush the last block is the one without an index entry. */
  lemma LastPending(r: Rep)
    requires RepOk(r) && r.dataBlock == []
    ensures r.pendingIndexEntry <==> r.parts != []
    ensures r.parts == [] ==> r.index == []
    ensures Entries(r) == Flatten(r.parts)
    ensures r.parts != [] ==>
      var last := r.parts[|r.parts| - 1];
      |r.index| == |r.parts| - 1 && last != [] && r.lastKey == LastOf(last)
  {
    hide Flatten;
    assert Flatten(r.parts) + [] == Flatten(r.parts);
  }

  lemma LastIs(r: Rep, k: IKey)
    requires RepOk(r) && (Entries(r) != [] ==> ILess(LastOf(Entries(r)), k))
    ensures r.pendingIndexEntry ==> ILess(r.lastKey, k)
  {
    hide Sorted;
    if r.pendingIndexEntry {
      assert Entries(r) == Flatten(r.parts);
      var n := |r.parts| - 1;
      FlattenAt(r.parts, n, |r.parts[n]| - 1);
      OffsetNext(r.parts, n);
      OffsetEnds(r.parts);
    }
  }

  lemma AddRep(r: Rep, e: Entry, sep: IKey, index: seq<IndexEntry>)
    requires RepOk(r) && (Entries(r) != [] ==> ILess(LastOf(Entries(r)), e.ik))
    requires if r.pendingIndexEntry then index == r.index + [IndexEntry(sep, r.pendingHandle)] else index == r.index
    requires r.pendingIndexEntry ==> sep == r.lastKey || (Rank(r.lastKey.user) < Rank(sep.user) < Rank(e.ik.user))
    ensures var q := r.(index := index, pendingIndexEntry := false, lastKey := e.ik, dataBlock := r.dataBlock + [e]);
      RepOk(q) && Entries(q) == Entries(r) + [e]
  {
    hide Sorted;
    hide Flatten;
    assert Flatten(r.parts) + r.dataBlock + [e] == Flatten(r.parts) + (r.dataBlock + [e]);
    SortedSnoc(Entries(r), e);
    IndexGrows(r.parts, r.index, index, r.dataBlock, e);
  }

  lemma AddFilter(r: Rep, mid: Rep, groups: seq<seq<Bytes>>, pending: seq<Bytes>, e: Entry)
    requires FilterOk(r, groups, pending) && mid ==
      r.(index := mid.index, pendingIndexEntry := mid.pendingIndexEntry, lastKey := mid.lastKey)
    ensures FilterOk(mid.(lastKey := e.ik, dataBlock := r.dataBlock + [e]), groups, pending + [InternalBytes(e.ik)])
  {
    hide InternalBytes;
    hide Filtered;
    MorePending(r.parts, r.starts, groups, pending, InternalBytes(e.ik));
  }

  lemma FlushRep(r: Rep, after: nat)
    requires RepOk(r) && r.dataBlock != [] && r.offset < after
    ensures var q := r.(parts := r.parts + [r.dataBlock], starts := r.starts + [r.offset],
      file := r.file[r.offset := r.dataBlock],
                        pendingHandle := r.offset, offset := after, pendingIndexEntry := true, dataBlock := []);
      RepOk(q) && Entries(q) == Entries(r)
  {
    hide Sorted;
    hide Flatten;
    hide IndexOk;
    hide Stored;
    FlattenAppend(r.parts, r.dataBlock);
    assert Flatten(r.parts) + r.dataBlock + [] == Flatten(r.parts) + r.dataBlock;
    FlushIndex(r.parts, r.index, r.dataBlock);
    FlushStored(r.parts, r.starts, r.index, r.file, r.offset, r.dataBlock, after);
    StoredLength(r);
  }

  lemma StoredLength(r: Rep)
    requires RepOk(r)
    ensures |r.starts| == |r.parts|
  {
  }

  lemma FlushFilter(r: Rep, q: Rep, groups: seq<seq<Bytes>>, pending: seq<Bytes>, groups': seq<seq<Bytes>>,
          pending': seq<Bytes>)
    requires FilterOk(r, groups, pending) && q.parts == r.parts + [r.dataBlock] &&
      q.starts == r.starts + [r.offset] && q.dataBlock == []
    requires |groups'| == q.offset / BASE
    requires (groups' == groups && pending' == pending)
      || (|groups| < |groups'| && groups'[..|groups|] == groups && groups'[|groups|] == pending)
    ensures FilterOk(q, groups', pending')
  {
    hide Filtered;
    FlushFiltered(r.parts, r.starts, groups, pending, r.offset, r.dataBlock);
    FilterAdvances(q.parts, q.starts, groups, pending, groups', pending');
  }

  lemma FinishRep(r: Rep, q: Rep)
    requires RepOk(r) && r.dataBlock == [] && q ==
      r.(index := q.index, pendingIndexEntry := false, lastKey := q.lastKey)
    requires if r.pendingIndexEntry then q.index == r.index + [IndexEntry(q.lastKey, r.pendingHandle)]
      else q.index == r.index
    requires r.pendingIndexEntry ==> q.lastKey == r.lastKey || Rank(r.lastKey.user) < Rank(q.lastKey.user)
    ensures Closed(q)
  {
    hide Sorted;
    hide Flatten;
    assert Flatten(r.parts) + [] == Flatten(r.parts);
    if r.pendingIndexEntry {
      LastIndex(r.parts, r.starts, r.index, r.file, r.offset, q.lastKey, r.pendingHandle);
    }
  }

  /** Once the pending group is finished too, every key of a block is in the group of its offset. */
  lemma GroupsEnd(r: Rep, groups: seq<seq<Bytes>>, pending: seq<Bytes>)
    requires FilterOk(r, groups, pending)
    ensures Filtered(r.parts, r.starts, if pending == [] then groups else groups + [pending], [])
  {
    hide InternalBytes;
    var more := if pending == [] then groups else groups + [pending];
    forall i: nat, e: Entry | i < |r.parts| && e in r.parts[i]
      ensures InGroup(more, [], r.starts[i], e.ik)
    {
      assert InGroup(groups, pending, r.starts[i], e.ik);
    }
  }

  lemma SortedSnoc(es: seq<Entry>, e: Entry)
    requires Sorted(es) && (es != [] ==> ILess(es[|es| - 1].ik, e.ik))
    ensures Sorted(es + [e])
  {
    var r := es + [e];
    forall i, j | 0 <= i < j < |r|
      ensures ILess(r[i].ik, r[j].ik)
    {
      if j == |es| && i < |es| - 1 {
        assert ILess(es[i].ik, es[|es| - 1].ik);
      }
    }
  }

  lemma IndexGrows(parts: seq<seq<Entry>>, before: seq<IndexEntry>, index: seq<IndexEntry>, rest: seq<Entry>, e: Entry)
    requires IndexOk(parts, before, rest) && |index| == |parts|
    requires |before| == |parts| || (|before| == |parts| - 1 && rest == [])
    requires rest == [] && |before| == |parts| ==> parts == []
    requires forall i :: 0 <= i < |before| ==> index[i] == before[i]
    requires |before| < |parts| ==>
      SepOk(parts[|parts| - 1][|parts[|parts| - 1]| - 1].ik, index[|parts| - 1].sep, Some(e.ik))
    ensures IndexOk(parts, index, rest + [e])
  {
    hide SepOk;
    forall i: nat | i < |index|
      ensures SepOk(parts[i][|parts[i]| - 1].ik, index[i].sep, NextKey(parts, i, rest + [e]))
    {
      if i < |before| {
        assert NextKey(parts, i, rest + [e]) == NextKey(parts, i, rest);
      }
    }
  }

  lemma LastIndex(parts: seq<seq<Entry>>, starts: seq<nat>, index: seq<IndexEntry>, file: map<nat, seq<Entry>>,
          offset: nat, sep: IKey, handle: nat)
    requires IndexOk(parts, index, []) && Stored(parts, starts, index, file, offset) && |index| == |parts| - 1
    requires var last := parts[|parts| - 1][|parts[|parts| - 1]| - 1].ik;
      sep == last || Rank(last.user) < Rank(sep.user)
    requires handle == starts[|parts| - 1]
    ensures IndexOk(parts, index + [IndexEntry(sep, handle)], [])
    ensures Stored(parts, starts, index + [IndexEntry(sep, handle)], file, offset)
  {
    var more := index + [IndexEntry(sep, handle)];
    forall i: nat | i < |more|
      ensures SepOk(parts[i][|parts[i]| - 1].ik, more[i].sep, NextKey(parts, i, []))
    {
      if i < |index| {
        assert SepOk(parts[i][|parts[i]| - 1].ik, index[i].sep, NextKey(parts, i, []));
      }
    }
  }

  lemma FlushIndex(parts: seq<seq<Entry>>, index: seq<IndexEntry>, block: seq<Entry>)
    requires IndexOk(parts, index, block) && block != []
    ensures IndexOk(parts + [block], index, [])
  {
    hide SepOk;
    var more: seq<seq<Entry>> := parts + [block];
    forall i: nat | i < |index|
      ensures SepOk(more[i][|more[i]| - 1].ik, index[i].sep, NextKey(more, i, []))
    {
      assert NextKey(more, i, []) == NextKey(parts, i, block);
    }
  }

  lemma FlushStored(parts: seq<seq<Entry>>, starts: seq<nat>, index: seq<IndexEntry>, file: map<nat, seq<Entry>>,
          offset: nat,
                    block: seq<Entry>, after: nat)
    requires Stored(parts, starts, index, file, offset) && offset < after
    ensures Stored(parts + [block], starts + [offset], index, file[offset := block], after)
  {
  }

  lemma FlushFiltered(parts: seq<seq<Entry>>, starts: seq<nat>, groups: seq<seq<Bytes>>, pending: seq<Bytes>,
          offset: nat, block: seq<Entry>)
    requires |starts| == |parts| && Filtered(parts, starts, groups, pending) && |groups| == offset / BASE
    requires forall e :: e in block ==> InternalBytes(e.ik) in pending
    ensures Filtered(parts + [block], starts + [offset], groups, pending)
  {
    hide InternalBytes;
    var more, from := parts + [block], starts + [offset];
    forall i: nat, e: Entry | i < |more| && e in more[i]
      ensures InGroup(groups, pending, from[i], e.ik)
    {
      if i < |parts| {
        assert InGroup(groups, pending, starts[i], e.ik);
      }
    }
  }

  lemma MorePending(parts: seq<seq<Entry>>, starts: seq<nat>, groups: seq<seq<Bytes>>, pending: seq<Bytes>, k: Bytes)
    requires |starts| == |parts| && Filtered(parts, starts, groups, pending)
    ensures Filtered(parts, starts, groups, pending + [k])
  {
    hide InternalBytes;
    forall i: nat, e: Entry | i < |parts| && e in parts[i]
      ensures InGroup(groups, pending + [k], starts[i], e.ik)
    {
      assert InGroup(groups, pending, starts[i], e.ik);
    }
  }

  /** Starting a later block turns the pending keys into a finished group, or leaves them pending. */
  lemma FilterAdvances(parts: seq<seq<Entry>>, starts: seq<nat>, groups: seq<seq<Bytes>>, pending: seq<Bytes>,
                       groups': seq<seq<Bytes>>, pending': seq<Bytes>)
    requires |starts| == |parts| && Filtered(parts, starts, groups, pending)
    requires (groups' == groups && pending' == pending)
      || (|groups| < |groups'| && groups'[..|groups|] == groups && groups'[|groups|] == pending)
    ensures Filtered(parts, starts, groups', pending')
  {
    hide InternalBytes;
    forall i: nat, e: Entry | i < |parts| && e in parts[i]
      ensures InGroup(groups', pending', starts[i], e.ik)
    {
      assert InGroup(groups, pending, starts[i], e.ik);
      var g := starts[i] / BASE;
      if groups' != groups && g < |groups| {
        assert groups'[g] == groups[g];
      }
    }
  }
}
