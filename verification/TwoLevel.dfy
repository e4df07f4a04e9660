/** The two-level iterator: a cursor over the concatenation of the blocks an index names, skipping empty ones both
    ways. */
module TwoLevel {
  import opened Format
  import opened Cursors
  import opened CompactionWork

  /** An index entry: a separator key and the handle of the block before it. */
  datatype IndexEntry = IndexEntry(sep: IKey, handle: nat)

  /** Length of the first n parts together. */
  function Offset(parts: seq<seq<Entry>>, n: nat): (r: nat)
    requires n <= |parts|
  {
    |Flatten(parts[..n])|
  }

  lemma OffsetNext(parts: seq<seq<Entry>>, n: nat)
    requires n < |parts|
    ensures Offset(parts, n + 1) == Offset(parts, n) + |parts[n]|
  {
    assert parts[..n + 1][..n] == parts[..n];
  }

  lemma OffsetEnds(parts: seq<seq<Entry>>)
    ensures Offset(parts, 0) == 0 && Offset(parts, |parts|) == |Flatten(parts)|
  {
    assert parts[..|parts|] == parts;
  }

  lemma {:induction false} OffsetMonotone(parts: seq<seq<Entry>>, i: nat, j: nat)
    requires i <= j <= |parts|
    ensures Offset(parts, i) <= Offset(parts, j)
    decreases j
  {
    if i < j {
      OffsetMonotone(parts, i, j - 1);
      OffsetNext(parts, j - 1);
    }
  }

  /** Position k of part i is position Offset(i) + k of the whole. */
  lemma {:induction false} FlattenAt(parts: seq<seq<Entry>>, i: nat, k: nat)
    requires i < |parts| && k < |parts[i]|
    ensures Offset(parts, i) + k < |Flatten(parts)|
    ensures Flatten(parts)[Offset(parts, i) + k] == parts[i][k]
  {
    var n := |parts| - 1;
    if i < n {
      FlattenAt(parts[..n], i, k);
      assert parts[..n][..i] == parts[..i];
    }
  }

  /** Every position of the whole lies in some part. */
  lemma {:induction false} FlattenFrom(parts: seq<seq<Entry>>, g: nat) returns (i: nat, k: nat)
    requires g < |Flatten(parts)|
    ensures i < |parts| && k < |parts[i]| && g == Offset(parts, i) + k
  {
    var n := |parts| - 1;
    if g < |Flatten(parts[..n])| {
      i, k := FlattenFrom(parts[..n], g);
      assert parts[..n][..i] == parts[..i];
    } else {
      i, k := n, g - |Flatten(parts[..n])|;
    }
  }

  /** Positions of the whole compare like (part, place) pairs. */
  lemma OffsetCompare(parts: seq<seq<Entry>>, i: nat, m: nat, n: nat, k: nat)
    requires i < |parts| && m < |parts[i]| && n < |parts| && k <= |parts[n]|
    ensures Offset(parts, i) + m < Offset(parts, n) + k <==> i < n || (i == n && m < k)
  {
    hide Offset;
    if i < n {
      OffsetNext(parts, i);
      OffsetMonotone(parts, i + 1, n);
    } else if i > n {
      OffsetNext(parts, n);
      OffsetMonotone(parts, n + 1, i);
    }
  }

  class TwoLevelIterator {
    const index: seq<IndexEntry>
    const blocks: map<nat, seq<Entry>>
    var indexPos: int
    var data: Cursor?
    var handle: nat

    ghost predicate Placed()
    {
      forall i :: 0 <= i < |index| ==> index[i].handle in blocks
    }

    ghost function Parts(): (r: seq<seq<Entry>>)
      requires Placed()
      ensures |r| == |index|
    {
      seq(|index|, i requires 0 <= i < |index| => blocks[index[i].handle])
    }

    /** What the iterator ranges over: all blocks, in index order. */
    ghost function Items(): seq<Entry>
      requires Placed()
    {
      Flatten(Parts())
    }

    /** Each separator is at or after its block's entries and before those of later blocks. */
    ghost predicate Separated()
      requires Placed()
    {
      && (forall i, e :: 0 <= i < |index| && e in Parts()[i] ==> ILeq(e.ik, index[i].sep))
      && (forall i, j, e :: 0 <= i < j < |index| && e in Parts()[j] ==> ILess(index[i].sep, e.ik))
    }

    ghost predicate Ok()
      reads this, data
    {
      && Placed() && -1 <= indexPos < |index| && Separated()
      && (forall i :: 0 <= i < |index| ==> Sorted(Parts()[i]))
      && (data != null ==> data.Ok() && handle in blocks && data.items == blocks[handle])
      && (Valid() ==> indexPos != -1 && handle == index[indexPos].handle)
    }

    predicate Valid()
      reads this, data
    {
      data != null && data.Valid()
    }

    /** The place in Items, -1 when not valid. */
    ghost function Pos(): int
      requires Ok()
      reads this, data
    {
      if Valid() then Offset(Parts(), indexPos) + data.pos else -1
    }

    function Current(): (e: Entry)
      requires Ok() && Valid()
      reads this, data
      ensures 0 <= Pos() < |Items()| && e == Items()[Pos()]
    {
      FlattenAt(Parts(), indexPos, data.pos);
      data.Current()
    }

    constructor (index: seq<IndexEntry>, blocks: map<nat, seq<Entry>>)
      requires forall i :: 0 <= i < |index| ==> index[i].handle in blocks && Sorted(blocks[index[i].handle])
      requires forall i, e :: 0 <= i < |index| && e in blocks[index[i].handle] ==> ILeq(e.ik, index[i].sep)
      requires forall i, j, e :: 0 <= i < j < |index| && e in blocks[index[j].handle] ==> ILess(index[i].sep, e.ik)
      ensures Ok() && !Valid() && this.index == index && this.blocks == blocks
    {
      this.index, this.blocks := index, blocks;
      indexPos, data, handle := -1, null, 0;
    }

    /** The block under the index cursor is open, positioned anywhere. */
    ghost predicate Opened()
      reads this, data
    {
      && Placed() && -1 <= indexPos < |index| && Separated()
      && (forall i :: 0 <= i < |index| ==> Sorted(Parts()[i]))
      && (indexPos == -1 ==> data == null)
      && (indexPos != -1 ==>
        data != null && data.Ok() && handle == index[indexPos].handle && data.items == Parts()[indexPos])
    }

    /** Open the block the index names, unless it is the one already open. */
    method InitDataBlock()
      requires Placed() && Separated() && -1 <= indexPos < |index|
      requires forall i :: 0 <= i < |index| ==> Sorted(Parts()[i])
      requires data != null ==> data.Ok() && handle in blocks && data.items == blocks[handle]
      modifies `data, `handle
      ensures Opened() && (data == old(data) || data == null || fresh(data))
    {
      if indexPos == -1 {
        data := null;
      } else {
        var h := index[indexPos].handle;
        if data != null && h == handle {
          return;
        }
        handle := h;
        data := new Cursor(blocks[h]);
      }
    }

    /** If the open block is used up, go to the first entry of the next block that has one. */
    method SkipEmptyDataBlocksForward(ghost g: int)
      requires Ok()
      requires Valid() ==> Pos() == g
      requires !Valid() && indexPos != -1 ==> Offset(Parts(), indexPos + 1) == g
      requires !Valid() && indexPos == -1 ==> g == |Items()|
      modifies this, data
      ensures Ok() && Pos() == (if g == |Items()| then -1 else g) && (data == old(data) || data == null || fresh(data))
    {
      hide Flatten;
      hide Offset;
      hide Sorted;
      hide Separated;
      while data == null || !data.Valid()
        invariant Ok() && (data == old(data) || data == null || fresh(data))
        invariant Valid() ==> Pos() == g
        invariant !Valid() && indexPos != -1 ==> Offset(Parts(), indexPos + 1) == g
        invariant !Valid() && indexPos == -1 ==> g == |Items()|
        decreases !Valid(), if indexPos == -1 then 0 else |index| - indexPos
      {
        if indexPos == -1 {
          data := null;
          return;
        }
        ghost var i := indexPos;
        indexPos := if indexPos + 1 == |index| then -1 else indexPos + 1;
        OffsetEnds(Parts());
        InitDataBlock();
        if data != null {
          OffsetNext(Parts(), i + 1);
          data.SeekToFirst();
        }
      }
      FlattenAt(Parts(), indexPos, data.pos);
    }

    /** Mirror image: the last entry of the nearest block before that has one. */
    method SkipEmptyDataBlocksBackward(ghost g: int)
      requires Ok()
      requires Valid() ==> Pos() == g
      requires !Valid() && indexPos != -1 ==> Offset(Parts(), indexPos) - 1 == g
      requires !Valid() && indexPos == -1 ==> g == -1
      modifies this, data
      ensures Ok() && Pos() == g && (data == old(data) || data == null || fresh(data))
    {
      hide Flatten;
      hide Offset;
      hide Sorted;
      hide Separated;
      while data == null || !data.Valid()
        invariant Ok() && (data == old(data) || data == null || fresh(data))
        invariant Valid() ==> Pos() == g
        invariant !Valid() && indexPos != -1 ==> Offset(Parts(), indexPos) - 1 == g
        invariant !Valid() && indexPos == -1 ==> g == -1
        decreases !Valid(), indexPos + 1
      {
        if indexPos == -1 {
          data := null;
          return;
        }
        indexPos := indexPos - 1;
        OffsetEnds(Parts());
        InitDataBlock();
        if data != null {
          OffsetNext(Parts(), indexPos);
          data.SeekToLast();
        }
      }
    }

    method SeekToFirst()
      requires Ok()
      modifies this, data
      ensures Ok() && Pos() == (if Items() == [] then -1 else 0) && (data == old(data) || data == null || fresh(data))
    {
      indexPos := if index == [] then -1 else 0;
      InitDataBlock();
      OffsetEnds(Parts());
      if data != null {
        data.SeekToFirst();
        OffsetNext(Parts(), 0);
      }
      SkipEmptyDataBlocksForward(0);
    }

    method SeekToLast()
      requires Ok()
      modifies this, data
      ensures Ok() && Pos() == |Items()| - 1 && (data == old(data) || data == null || fresh(data))
    {
      indexPos := |index| - 1;
      InitDataBlock();
      OffsetEnds(Parts());
      if data != null {
        data.SeekToLast();
        OffsetNext(Parts(), indexPos);
      }
      SkipEmptyDataBlocksBackward(|Items()| - 1);
    }

    method Next()
      requires Ok() && Valid()
      modifies this, data
      ensures Ok() && Pos() == (if old(Pos()) + 1 == |Items()| then -1 else old(Pos()) + 1)
      ensures data == old(data) || data == null || fresh(data)
    {
      ghost var g := Pos() + 1;
      OffsetNext(Parts(), indexPos);
      data.Next();
      SkipEmptyDataBlocksForward(g);
    }

    method Prev()
      requires Ok() && Valid()
      modifies this, data
      ensures Ok() && Pos() == old(Pos()) - 1 && (data == old(data) || data == null || fresh(data))
    {
      ghost var g := Pos() - 1;
      data.Prev();
      SkipEmptyDataBlocksBackward(g);
    }

    /** index_iter_.Seek: the first separator at or after target. */
    method SeekIndex(target: IKey)
      modifies `indexPos
      ensures -1 <= indexPos < |index|
      ensures indexPos != -1 ==> ILeq(target, index[indexPos].sep)
      ensures forall i :: 0 <= i < (if indexPos == -1 then |index| else indexPos) ==> ILess(index[i].sep, target)
    {
      var n := 0;
      while n < |index| && ILess(index[n].sep, target)
        invariant 0 <= n <= |index|
        invariant forall i :: 0 <= i < n ==> ILess(index[i].sep, target)
      {
        n := n + 1;
      }
      indexPos := if n == |index| then -1 else n;
    }

    /** g is where a seek to target lands: everything before is smaller, everything from there on is not. */
    ghost predicate Splits(g: int, target: IKey)
      requires Placed()
    {
      && 0 <= g <= |Items()|
      && (forall j :: 0 <= j < g ==> ILess(Items()[j].ik, target))
      && (forall j :: g <= j < |Items()| ==> ILeq(target, Items()[j].ik))
    }

    /** Blocks before n end before target, block n splits at k, and later blocks start after the separator. */
    lemma SplitsAt(n: nat, k: nat, target: IKey)
      requires Placed() && Separated() && n < |index| && k <= |Parts()[n]| && Sorted(Parts()[n])
      requires forall i :: 0 <= i < n ==> ILess(index[i].sep, target)
      requires ILeq(target, index[n].sep)
      requires forall j :: 0 <= j < k ==> ILess(Parts()[n][j].ik, target)
      requires k < |Parts()[n]| ==> ILeq(target, Parts()[n][k].ik)
      ensures Splits(Offset(Parts(), n) + k, target)
    {
      hide Flatten;
      hide Offset;
      hide Sorted;
      hide Separated;
      var g := Offset(Parts(), n) + k;
      OffsetNext(Parts(), n);
      OffsetMonotone(Parts(), n + 1, |index|);
      OffsetEnds(Parts());
      forall j | 0 <= j < |Items()|
        ensures j < g ==> ILess(Items()[j].ik, target)
        ensures j >= g ==> ILeq(target, Items()[j].ik)
      {
        var i, m := FlattenFrom(Parts(), j);
        FlattenAt(Parts(), i, m);
        OffsetCompare(Parts(), i, m, n, k);
        SplitSide(n, k, target, i, m);
      }
    }

    lemma SplitSide(n: nat, k: nat, target: IKey, i: nat, m: nat)
      requires Placed() && Separated() && n < |index| && k <= |Parts()[n]| && Sorted(Parts()[n])
      requires forall i :: 0 <= i < n ==> ILess(index[i].sep, target)
      requires ILeq(target, index[n].sep)
      requires forall j :: 0 <= j < k ==> ILess(Parts()[n][j].ik, target)
      requires k < |Parts()[n]| ==> ILeq(target, Parts()[n][k].ik)
      requires i < |index| && m < |Parts()[i]|
      ensures i < n || (i == n && m < k) ==> ILess(Parts()[i][m].ik, target)
      ensures !(i < n || (i == n && m < k)) ==> ILeq(target, Parts()[i][m].ik)
    {
      var e := Parts()[i][m];
      assert e in Parts()[i];
      if i < n {
        assert ILeq(e.ik, index[i].sep);
      } else if i > n {
        assert ILess(index[n].sep, e.ik);
      } else if k < m {
        assert ILess(Parts()[n][k].ik, Parts()[n][m].ik);
      }
    }

    lemma SplitsEnd(target: IKey)
      requires Placed() && Separated() && forall i :: 0 <= i < |index| ==> ILess(index[i].sep, target)
      ensures Splits(|Items()|, target)
    {
      forall j | 0 <= j < |Items()|
        ensures ILess(Items()[j].ik, target)
      {
        var i, m := FlattenFrom(Parts(), j);
        FlattenAt(Parts(), i, m);
        assert Parts()[i][m] in Parts()[i];
      }
    }

    /** The first entry of the concatenation at or after target. */
    method Seek(target: IKey)
      requires Ok()
      modifies this, data
      ensures Ok() && (data == old(data) || data == null || fresh(data))
      ensures Splits(if Valid() then Pos() else |Items()|, target)
    {
      hide Flatten;
      hide Offset;
      hide Splits;
      SeekIndex(target);
      InitDataBlock();
      if data != null {
        data.Seek(target);
        SplitsAt(indexPos, if data.Valid() then data.pos else |data.items|, target);
        OffsetNext(Parts(), indexPos);
        SkipEmptyDataBlocksForward(if data.Valid() then Pos() else Offset(Parts(), indexPos + 1));
      } else {
        SplitsEnd(target);
        SkipEmptyDataBlocksForward(|Items()|);
      }
    }
  }
}
