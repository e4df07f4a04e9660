/** Looking a key up in a finished table: index, filter, one data block. */
module TableLookup {
  import opened Keys
  import opened Format
  import opened Levels
  import opened CompactionWork
  import opened TwoLevel
  import opened FilterBlock
  import opened Table

  /** Each separator is at or after its block's entries and before those of later blocks: what the two-level iterator
      asks of an index. */
  lemma SeparatorsSeparate(parts: seq<seq<Entry>>, index: seq<IndexEntry>, i: nat, j: nat, e: Entry)
    requires Sorted(Flatten(parts)) && IndexOk(parts, index, []) && |index| == |parts|
    requires i < |parts| && j < |parts| && e in parts[j]
    ensures i == j ==> ILeq(e.ik, index[i].sep)
    ensures i < j ==> ILess(index[i].sep, e.ik)
    ensures i < j && index[i].sep != LastOf(parts[i]) ==> Rank(index[i].sep.user) < Rank(e.ik.user)
  {
    hide Flatten;
    hide Sorted;
    assert SepOk(LastOf(parts[i]), index[i].sep, NextKey(parts, i, []));
    var last := parts[i][|parts[i]| - 1];
    if i == j {
      InOrder(parts, i, i, e, last);
    } else if i < j {
      var next := parts[i + 1][0];
      InOrder(parts, i, j, last, e);
      InOrder(parts, i + 1, j, next, e);
    }
  }

  /** Entries of one part come at or before its last, at or after its first, and parts come in order. */
  lemma InOrder(parts: seq<seq<Entry>>, i: nat, j: nat, a: Entry, b: Entry)
    requires Sorted(Flatten(parts)) && i <= j < |parts| && a in parts[i] && b in parts[j]
    ensures i < j ==> ILess(a.ik, b.ik)
    ensures i == j && b == parts[i][|parts[i]| - 1] ==> ILeq(a.ik, b.ik)
    ensures i == j && a == parts[i][0] ==> ILeq(a.ik, b.ik)
  {
    hide Flatten;
    PartsOrdered(parts, i, j);
    if i == j {
      var x :| 0 <= x < |parts[i]| && parts[i][x] == a;
      var y :| 0 <= y < |parts[i]| && parts[i][y] == b;
      var n := |parts[i]| - 1;
      assert x < n ==> ILess(parts[i][x].ik, parts[i][n].ik);
      assert 0 < y ==> ILess(parts[i][0].ik, parts[i][y].ik);
    }
  }

  lemma {:induction false} LowerBoundIs(es: seq<Entry>, key: IKey, i: nat, g: nat)
    requires i <= g <= |es|
    requires forall j :: i <= j < g ==> ILess(es[j].ik, key)
    requires g < |es| ==> ILeq(key, es[g].ik)
    ensures LowerBound(es, key, i) == g
    decreases g - i
  {
    if i < g {
      LowerBoundIs(es, key, i + 1, g);
    }
  }

  /** A linear scan for key over the whole table ends in block n, at the place the seek inside block n finds. */
  lemma ScanLands(parts: seq<seq<Entry>>, index: seq<IndexEntry>, key: IKey, n: nat)
    requires Sorted(Flatten(parts)) && IndexOk(parts, index, []) && |index| == |parts| && n < |parts|
    requires (forall i :: 0 <= i < n ==> ILess(index[i].sep, key)) && ILeq(key, index[n].sep)
    requires LowerBound(parts[n], key, 0) < |parts[n]|
    ensures LowerBound(Flatten(parts), key, 0) == Offset(parts, n) + LowerBound(parts[n], key, 0) < |Flatten(parts)|
  {
    hide Flatten;
    hide Offset;
    hide Sorted;
    var b := LowerBound(parts[n], key, 0);
    var all := Flatten(parts);
    var g := Offset(parts, n) + b;
    FlattenAt(parts, n, b);
    forall j | 0 <= j < g
      ensures ILess(all[j].ik, key)
    {
      var i, m := FlattenFrom(parts, j);
      FlattenAt(parts, i, m);
      OffsetCompare(parts, i, m, n, b);
      if i < n {
        assert parts[i][m] in parts[i];
        SeparatorsSeparate(parts, index, i, i, parts[i][m]);
      }
    }
    LowerBoundIs(all, key, 0, g);
  }

  /** If the seek inside block n runs off its end, no later block holds key's user key. */
  lemma NothingBeyond(parts: seq<seq<Entry>>, index: seq<IndexEntry>, key: IKey, n: nat)
    requires Sorted(Flatten(parts)) && IndexOk(parts, index, []) && |index| == |parts| && n < |parts|
    requires (forall i :: 0 <= i < n ==> ILess(index[i].sep, key)) && ILeq(key, index[n].sep)
    requires LowerBound(parts[n], key, 0) == |parts[n]|
    ensures var g := LowerBound(Flatten(parts), key, 0); g < |Flatten(parts)| ==> Flatten(parts)[g].ik.user != key.user
  {
    hide Flatten;
    hide Offset;
    hide Sorted;
    var all := Flatten(parts);
    var g := LowerBound(all, key, 0);
    if g < |all| {
      var i, m := FlattenFrom(parts, g);
      FlattenAt(parts, i, m);
      assert parts[i][m] in parts[i];
      assert ILess(LastOf(parts[n]), key);
      if i <= n {
        SeparatorsSeparate(parts, index, i, i, parts[i][m]);
      } else {
        SeparatorsSeparate(parts, index, n, i, parts[i][m]);
      }
    }
  }

  lemma NothingAtAll(parts: seq<seq<Entry>>, index: seq<IndexEntry>, key: IKey)
    requires Sorted(Flatten(parts)) && IndexOk(parts, index, []) && |index| == |parts|
    requires forall i :: 0 <= i < |index| ==> ILess(index[i].sep, key)
    ensures LowerBound(Flatten(parts), key, 0) == |Flatten(parts)|
  {
    hide Flatten;
    hide Offset;
    hide Sorted;
    var all := Flatten(parts);
    forall j | 0 <= j < |all|
      ensures ILess(all[j].ik, key)
    {
      var i, m := FlattenFrom(parts, j);
      FlattenAt(parts, i, m);
      assert parts[i][m] in parts[i];
      SeparatorsSeparate(parts, index, i, i, parts[i][m]);
    }
    LowerBoundIs(all, key, 0, |all|);
  }

  class TableReader {
    const index: seq<IndexEntry>
    const file: map<nat, seq<Entry>>
    const filter: FilterBlockReader?
    ghost const parts: seq<seq<Entry>>
    ghost const groups: seq<seq<Bytes>>
    ghost const user: Policy

    /** The table as its builder closed it; the filter, if any, was made from its keys by a faithful policy. */
    ghost predicate Ok() {
      && Sorted(Flatten(parts)) && IndexOk(parts, index, []) && |index| == |parts|
      && (forall i :: 0 <= i < |parts| ==> index[i].handle in file && file[index[i].handle] == parts[i])
      && (filter != null ==>
            && filter.policy == InternalPolicy(user) && Faithful(user) && filter.Reads(groups)
            && (filter.num > 0 ==> filter.offset + 4 * filter.num + 5 <= |filter.data|)
            && (forall i, e :: 0 <= i < |parts| && e in parts[i] ==> Known(index[i].handle, e.ik)))
    }

    /** The filter of a block's offset was given this key, or there is none to ask. */
    ghost predicate Known(handle: nat, k: IKey) {
      handle / BASE < |groups| ==> InternalBytes(k) in groups[handle / BASE]
    }

    /** Opening what a builder has closed. */
    constructor (r: Rep, data: Option<Bytes>, user: Policy, ghost groups: seq<seq<Bytes>>)
      requires Closed(r)
      requires data.Some? ==>
        Faithful(user) && Finished(InternalPolicy(user), groups, data.value) && Filtered(r.parts, r.starts, groups, [])
      ensures Ok() && parts == r.parts && this.groups == groups && this.user == user && (filter != null <==> data.Some?)
    {
      index, file, parts, this.groups, this.user := r.index, r.file, r.parts, groups, user;
      var f: FilterBlockReader? := null;
      if data.Some? {
        f := new FilterBlockReader(InternalPolicy(user), data.value);
        ReadsFinished(InternalPolicy(user), groups, data.value);
      }
      filter := f;
      new;
      hide Flatten;
      hide Sorted;
      hide InternalBytes;
      if filter != null {
        forall i: nat, e | i < |parts| && e in parts[i]
          ensures Known(index[i].handle, e.ik)
        {
          assert InGroup(groups, [], r.starts[i], e.ik);
        }
      }
    }

    /** The index cursor's seek: the first separator at or after k. */
    method SeekIndex(k: IKey) returns (n: nat)
      ensures n <= |index|
      ensures forall i :: 0 <= i < n ==> ILess(index[i].sep, k)
      ensures n < |index| ==> ILeq(k, index[n].sep)
    {
      n := 0;
      while n < |index| && ILess(index[n].sep, k)
        invariant n <= |index|
        invariant forall i :: 0 <= i < n ==> ILess(index[i].sep, k)
      {
        n := n + 1;
      }
    }

    /** If the filter says no, the block holds no entry of the key's user key. */
    method FilterSaysNo(n: nat, k: IKey) returns (no: bool)
      requires Ok() && n < |parts|
      ensures no ==> forall e :: e in parts[n] ==> e.ik.user != k.user
    {
      hide Flatten;
      hide Sorted;
      hide InternalBytes;
      hide InternalPolicy;
      if filter == null {
        return false;
      }
      var may := filter.KeyMayMatch(index[n].handle, InternalBytes(k), groups);
      if !may {
        forall e | e in parts[n]
          ensures e.ik.user != k.user
        {
          assert Known(index[n].handle, e.ik);
          if e.ik.user == k.user {
            InternalMatches(user, groups[index[n].handle / BASE], e.ik, k);
          }
        }
      }
      no := !may;
    }

    /** Table::InternalGet: the entry handed to the caller, if any. */
    method InternalGet(k: IKey) returns (r: Option<Entry>)
      requires Ok()
      ensures r.Some? ==> var g := LowerBound(Flatten(parts), k, 0);
        g < |Flatten(parts)| && r.value == Flatten(parts)[g]
      ensures r.None? ==> var g := LowerBound(Flatten(parts), k, 0); g < |Flatten(parts)| ==>
        Flatten(parts)[g].ik.user != k.user
    {
      hide Flatten;
      hide Sorted;
      r := None;
      var n := SeekIndex(k);
      if n == |index| {
        NothingAtAll(parts, index, k);
        return;
      }
      var no := FilterSaysNo(n, k);
      var block := file[index[n].handle];
      var b := LowerBound(block, k, 0);
      if b < |block| {
        ScanLands(parts, index, k, n);
        FlattenAt(parts, n, b);
        assert block[b] in parts[n];
      } else {
        NothingBeyond(parts, index, k, n);
      }
      if !no && b < |block| {
        r := Some(block[b]);
      }
    }

    /** InternalGet, then SaveValue's comparison of user keys: what a linear scan of the whole table finds. */
    method Get(k: Bytes, s: nat) returns (r: Option<Entry>)
      requires Ok()
      ensures r == TableGet(Flatten(parts), k, s)
      ensures Distinct(Elems(Flatten(parts))) ==> r == Newest(Elems(Flatten(parts)), k, s)
    {
      r := InternalGet(LookupKey(k, s));
      if r.Some? && r.value.ik.user != k {
        r := None;
      }
      if Distinct(Elems(Flatten(parts))) {
        TableGetIsNewest(Flatten(parts), k, s);
      }
    }
  }
}
