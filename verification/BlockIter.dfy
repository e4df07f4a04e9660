/** The block iterator: a cursor over exactly the entries the block was built from. */
module BlockIter {
  import opened Keys
  import opened Coding
  import opened Block

  /** What a comparator must be. */
  ghost predicate StrictOrder(less: (Bytes, Bytes) -> bool) {
    && (forall a, b, c :: less(a, b) && less(b, c) ==> less(a, c))
    && (forall a, b :: less(a, b) ==> !less(b, a))
    && (forall a, b :: a == b || less(a, b) || less(b, a))
  }

  ghost predicate Increasing(es: seq<KV>, less: (Bytes, Bytes) -> bool) {
    forall i, j :: 0 <= i < j < |es| ==> less(es[i].key, es[j].key)
  }

  // ---- reading the layout back ------------------------------------------------------------------------

  lemma RestartPointBack(data: Bytes, l: Layout, j: nat)
    requires Describes(data, l) && j < |l.marks|
    ensures l.marks[j] <= |l.entries|
    ensures l.offs[|l.entries|] + 4 * j + 4 <= |data|
    ensures DecodeFixed32(data[l.offs[|l.entries|] + 4 * j..]) == l.offs[l.marks[j]]
  {
    hide Encoded;
    hide Fixed32;
    hide DecodeFixed32;
    var r := l.offs[|l.entries|];
    MarksInRange(l);
    OffsAscend(l, l.marks[j], |l.entries|);
    RestartAt(l, |l.marks|, j);
    var tail := RestartArray(l, |l.marks|) + Fixed32(|l.marks|);
    var rest := data[r + 4 * j..];
    assert rest == tail[4 * j..];
    assert rest[..4] == tail[4 * j..4 * j + 4] == RestartArray(l, |l.marks|)[4 * j..4 * j + 4];
    assert rest == Fixed32(l.offs[l.marks[j]]) + rest[4..];
    Fixed32RoundTrip(l.offs[l.marks[j]], rest[4..]);
  }

  lemma CountBack(data: Bytes, l: Layout)
    requires Describes(data, l)
    ensures |data| >= 4 && DecodeFixed32(data[|data| - 4..]) == |l.marks|
  {
    hide Encoded;
    hide Fixed32;
    hide DecodeFixed32;
    var r := l.offs[|l.entries|];
    RestartLength(l, |l.marks|);
    var tail := RestartArray(l, |l.marks|) + Fixed32(|l.marks|);
    assert data[|data| - 4..] == data[r..][4 * |l.marks|..] == tail[4 * |l.marks|..] == Fixed32(|l.marks|);
    Fixed32RoundTrip(|l.marks|, []);
    assert Fixed32(|l.marks|) + [] == Fixed32(|l.marks|);
  }

  lemma EntryBack(data: Bytes, l: Layout, i: nat)
    requires Shape(l) && Body(data, l) && i < |l.entries|
    ensures l.offs[i] < l.offs[i + 1] <= l.offs[|l.entries|] <= |data|
    ensures var b := data[l.offs[i]..l.offs[|l.entries|]];
      var e := l.entries[i];
      && DecodeEntry(b).Some?
      && var h := DecodeEntry(b).value;
      && h.shared == l.shared[i] && h.nonShared == |e.key| - l.shared[i] && h.valueLength == |e.value|
      && |h.rest| >= h.nonShared + h.valueLength
      && h.rest[..h.nonShared] == e.key[l.shared[i]..] && h.rest[h.nonShared..h.nonShared + h.valueLength] == e.value
      && l.offs[i + 1] == l.offs[|l.entries|] - |h.rest| + h.nonShared + h.valueLength
  {
    hide Encoded;
    hide DecodeEntry;
    var e := l.entries[i];
    assert EntryFits(l, i) && EntryHeld(data, l, i);
    OffsAscend(l, i, i + 1);
    OffsAscend(l, i + 1, |l.entries|);
    var b := data[l.offs[i]..l.offs[|l.entries|]];
    var rest := data[l.offs[i + 1]..l.offs[|l.entries|]];
    assert b == Encoded(l.shared[i], e) + rest;
    DecodeEncoded(l.shared[i], e, rest);
    var h := DecodeEntry(b).value;
    assert h.rest == e.key[l.shared[i]..] + (e.value + rest);
    assert h.rest[h.nonShared..h.nonShared + h.valueLength] == (e.value + rest)[..|e.value|] == e.value;
  }

  // ---- the iterator -------------------------------------------------------------------------------------

  class Iter {
    const data: Bytes
    const less: (Bytes, Bytes) -> bool
    const restarts: nat
    const numRestarts: nat
    ghost const layout: Layout
    var current: nat
    var restartIndex: nat
    var key: Bytes
    var value: Bytes
    /** Just past the value: where the next entry starts. */
    var next: nat
    /** The entry the iterator stands at, -1 if none. */
    ghost var at: int

    ghost predicate Made() {
      && Describes(data, layout) && StrictOrder(less) && Increasing(layout.entries, less)
      && restarts == layout.offs[|layout.entries|] && numRestarts == |layout.marks|
    }

    ghost predicate Ok()
      reads this
    {
      Made() && -1 <= at < |layout.entries| && (if at == -1 then Ended() else Standing(at))
    }

    ghost predicate Ended()
      reads this
    {
      current == restarts
    }

    ghost predicate Standing(i: int)
      requires Made()
      reads this
    {
      && 0 <= i < |layout.entries|
      && current == layout.offs[i] && next == layout.offs[i + 1]
      && key == layout.entries[i].key && value == layout.entries[i].value
      && InRestart(i)
    }

    /** restartIndex names the last restart point before entry i, or one standing at i itself. */
    ghost predicate InRestart(i: int)
      requires Made()
      reads this
    {
      && restartIndex < numRestarts && layout.marks[restartIndex] <= i
      && (restartIndex + 1 < numRestarts ==> i <= layout.marks[restartIndex + 1])
    }

    /** Ready to parse entry i: positioned at its start, with the key bytes it shares at hand. */
    ghost predicate Ready(i: int)
      requires Made()
      reads this
    {
      && 0 <= i <= |layout.entries| && next == layout.offs[i]
      && restartIndex < numRestarts && layout.marks[restartIndex] <= i
      && (i < |layout.entries| ==>
            layout.shared[i] <= |key| && layout.shared[i] <= |layout.entries[i].key| &&
              key[..layout.shared[i]] == layout.entries[i].key[..layout.shared[i]])
    }

    /** Block::Block and NewIterator: find the restart tail from the end of the block. */
    constructor (data: Bytes, less: (Bytes, Bytes) -> bool, ghost layout: Layout)
      requires Describes(data, layout) && StrictOrder(less) && Increasing(layout.entries, less)
      ensures Ok() && at == -1 && this.data == data && this.less == less && this.layout == layout
    {
      hide Encoded;
      hide DecodeFixed32;
      CountBack(data, layout);
      var n := DecodeFixed32(data[|data| - 4..]);
      this.data, this.less, this.layout := data, less, layout;
      numRestarts := n;
      restarts := |data| - (1 + n) * 4;
      current := |data| - (1 + n) * 4;
      restartIndex := n;
      key, value, next, at := [], [], 0, -1;
    }

    predicate Valid()
      reads this
    {
      current < restarts
    }

    lemma ValidIff()
      requires Ok()
      ensures Valid() <==> at != -1
    {
      if at != -1 {
        OffsAscend(layout, at, |layout.entries|);
      }
    }

    method GetRestartPoint(index: nat) returns (r: nat)
      requires Made() && index < numRestarts
      ensures layout.marks[index] <= |layout.entries| && r == layout.offs[layout.marks[index]]
    {
      hide Encoded;
      RestartPointBack(data, layout, index);
      r := DecodeFixed32(data[restarts + 4 * index..]);
    }

    method SeekToRestartPoint(index: nat)
      requires Made() && index < numRestarts
      modifies `key, `value, `restartIndex, `next
      ensures layout.marks[index] <= |layout.entries| && Ready(layout.marks[index]) && restartIndex == index
    {
      hide Encoded;
      key := [];
      restartIndex := index;
      next := GetRestartPoint(index);
      value := [];
      assert MarkFits(layout, layout.marks[index]);
    }

    /** Decode the entry at next, if there is one. */
    method ParseNextKey(ghost i: int) returns (ok: bool)
      requires Made() && Ready(i)
      modifies `current, `restartIndex, `key, `value, `next
      ensures ok <==> i < |layout.entries|
      ensures if ok then Standing(i) else Ended()
    {
      hide Encoded;
      hide Describes;
      OffsetsOf(i);
      current := next;
      if next >= restarts {
        current := restarts;
        restartIndex := numRestarts;
        return false;
      }
      ok := true;
      LoadEntry(i);
      AdvanceRestart(i);
    }

    lemma OffsetsOf(i: int)
      requires Made() && 0 <= i <= |layout.entries|
      ensures Shape(layout) && Body(data, layout)
      ensures i < |layout.entries| <==> layout.offs[i] < restarts
    {
      hide Encoded;
      OffsAscend(layout, i, |layout.entries|);
    }

    method LoadEntry(ghost i: int)
      requires Made() && Ready(i) && i < |layout.entries| && current == next
      modifies `key, `value, `next
      ensures current == layout.offs[i] && next == layout.offs[i + 1]
      ensures key == layout.entries[i].key && value == layout.entries[i].value
    {
      hide Encoded;
      hide DecodeEntry;
      hide StrictOrder;
      hide Increasing;
      EntryBack(data, layout, i);
      var h := FastDecodeEntry(data[current..restarts]);
      if h.None? || |key| < h.value.shared {
        // CorruptionError: not in a block this builder wrote.
        assert false;
      }
      key := key[..h.value.shared] + h.value.rest[..h.value.nonShared];
      value := h.value.rest[h.value.nonShared..h.value.nonShared + h.value.valueLength];
      next := restarts - |h.value.rest| + h.value.nonShared + h.value.valueLength;
      assert layout.entries[i].key == layout.entries[i].key[..h.value.shared] + layout.entries[i].key[h.value.shared..];
    }

    /** Move restartIndex up to the last restart point before the current entry. */
    method AdvanceRestart(ghost i: int)
      requires Made() && 0 <= i < |layout.entries| && current == layout.offs[i]
      requires restartIndex < numRestarts && layout.marks[restartIndex] <= i
      modifies `restartIndex
      ensures InRestart(i)
    {
      hide Encoded;
      while restartIndex + 1 < numRestarts
        invariant restartIndex < numRestarts && layout.marks[restartIndex] <= i
        decreases numRestarts - restartIndex
      {
        var p := GetRestartPoint(restartIndex + 1);
        OffsetOrder(layout.marks[restartIndex + 1], i);
        if p >= current {
          return;
        }
        restartIndex := restartIndex + 1;
      }
    }

    lemma OffsetOrder(i: int, j: int)
      requires Made() && 0 <= i <= |layout.entries| && 0 <= j <= |layout.entries|
      ensures layout.offs[i] < layout.offs[j] <==> i < j
    {
      hide Encoded;
      if i <= j {
        OffsAscend(layout, i, j);
      } else {
        OffsAscend(layout, j, i);
      }
    }

    /** Past a standing entry, the next one is ready to parse. */
    lemma ReadyNext(i: int)
      requires Made() && Standing(i)
      ensures Ready(i + 1)
    {
      hide Encoded;
      if i + 1 < |layout.entries| {
        assert EntryFits(layout, i + 1);
      }
    }

    method SeekToFirst()
      requires Ok()
      modifies this
      ensures Ok() && at == (if layout.entries == [] then -1 else 0)
    {
      hide Describes;
      assert Shape(layout) by {
        OffsetsOf(0);
      }
      SeekToRestartPoint(0);
      var ok := ParseNextKey(0);
      at := if ok then 0 else -1;
    }

    method SeekToLast()
      requires Ok()
      modifies this
      ensures Ok() && at == |layout.entries| - 1
    {
      hide Describes;
      hide StrictOrder;
      hide Increasing;
      assert Shape(layout) by {
        OffsetsOf(0);
      }
      SeekToRestartPoint(numRestarts - 1);
      ghost var j := layout.marks[numRestarts - 1];
      var ok := ParseNextKey(j);
      while ok && next < restarts
        invariant Made() && (ok <==> j < |layout.entries|) &&
          (if ok then Standing(j) else Ended() && j == 0 == |layout.entries|)
        decreases |layout.entries| - j
      {
        ReadyNext(j);
        OffsetOrder(j + 1, |layout.entries|);
        j := j + 1;
        ok := ParseNextKey(j);
      }
      if ok {
        OffsetOrder(j + 1, |layout.entries|);
      }
      at := if ok then j else -1;
    }

    method Next()
      requires Ok() && Valid()
      modifies this
      ensures Ok() && at == (if old(at) + 1 == |layout.entries| then -1 else old(at) + 1)
    {
      hide Describes;
      ValidIff();
      ReadyNext(at);
      var ok := ParseNextKey(at + 1);
      at := if ok then at + 1 else -1;
    }

    /** Back to a restart point before the entry, then forward to its predecessor. */
    method Prev()
      requires Ok() && Valid()
      modifies this
      ensures Ok() && at == old(at) - 1
    {
      hide Describes;
      ValidIff();
      ghost var i := at;
      var original := current;
      var found := RestartBefore(i, original);
      if !found {
        current, restartIndex, at := restarts, numRestarts, -1;
        return;
      }
      SeekToRestartPoint(restartIndex);
      ghost var j := layout.marks[restartIndex];
      var ok := ParseNextKey(j);
      while ok && next < original
        invariant Made() && ok && 0 <= j < i && Standing(j)
        decreases i - j
      {
        ReadyNext(j);
        OffsetOrder(j + 1, i);
        j := j + 1;
        ok := ParseNextKey(j);
      }
      OffsetOrder(j + 1, i);
      at := j;
    }

    /** The nearest restart point strictly before entry i; none exactly when i is the first entry. */
    method RestartBefore(ghost i: int, original: nat) returns (found: bool)
      requires Made() && 0 <= i < |layout.entries| && original == layout.offs[i] && InRestart(i)
      modifies `restartIndex
      ensures found <==> i > 0
      ensures found ==> restartIndex < numRestarts && layout.marks[restartIndex] < i
    {
      hide Encoded;
      assert Shape(layout);
      while true
        invariant restartIndex < numRestarts && layout.marks[restartIndex] <= i
        decreases restartIndex
      {
        var p := GetRestartPoint(restartIndex);
        OffsetOrder(layout.marks[restartIndex], i);
        if p < original {
          return true;
        }
        if restartIndex == 0 {
          return false;
        }
        assert layout.marks[restartIndex - 1] < layout.marks[restartIndex];
        restartIndex := restartIndex - 1;
      }
    }

    /** Everything before n is smaller than target, everything from n on is not. */
    ghost predicate Splits(n: int, target: Bytes) {
      && 0 <= n <= |layout.entries|
      && (forall j :: 0 <= j < n ==> less(layout.entries[j].key, target))
      && (forall j :: n <= j < |layout.entries| ==> !less(layout.entries[j].key, target))
    }

    /** The key at a restart point, which shares nothing. */
    method RestartKey(index: nat) returns (k: Bytes)
      requires Made() && index < numRestarts && layout.entries != []
      ensures layout.marks[index] < |layout.entries| && k == layout.entries[layout.marks[index]].key
    {
      hide Encoded;
      hide DecodeEntry;
      hide StrictOrder;
      hide Increasing;
      var region := GetRestartPoint(index);
      ghost var m := layout.marks[index];
      assert MarkFits(layout, m);
      EntryBack(data, layout, m);
      var h := FastDecodeEntry(data[region..restarts]);
      if h.None? || h.value.shared != 0 {
        // CorruptionError: not in a block this builder wrote.
        assert false;
      }
      k := h.value.rest[..h.value.nonShared];
    }

    /** Binary search among restart points: the last one whose key is smaller than target, or the first. */
    method FindRestart(target: Bytes) returns (left: nat)
      requires Made()
      ensures left < numRestarts
      ensures left > 0 ==> layout.marks[left] < |layout.entries| && less(layout.entries[layout.marks[left]].key, target)
    {
      hide Encoded;
      hide StrictOrder;
      hide Increasing;
      assert Shape(layout);
      left := 0;
      var right := numRestarts - 1;
      while left < right
        invariant left <= right < numRestarts
        invariant left > 0 ==>
          layout.marks[left] < |layout.entries| && less(layout.entries[layout.marks[left]].key, target)
      {
        var mid := (left + right + 1) / 2;
        assert MarkFits(layout, layout.marks[mid]) && layout.marks[0] < layout.marks[mid];
        var midKey := RestartKey(mid);
        if less(midKey, target) {
          left := mid;
        } else {
          right := mid - 1;
        }
      }
    }

    /** Binary search, then a linear scan for the first key at or after target. */
    method Seek(target: Bytes)
      requires Ok()
      modifies this
      ensures Ok() && Splits(if at == -1 then |layout.entries| else at, target)
    {
      hide Describes;
      hide StrictOrder;
      hide Increasing;
      assert Shape(layout) by {
        OffsetsOf(0);
      }
      var left := FindRestart(target);
      SeekToRestartPoint(left);
      SmallerBefore(layout.marks[left], target);
      Scan(layout.marks[left], target);
    }

    method Scan(ghost j0: int, target: Bytes)
      requires Made() && 0 <= j0 <= |layout.entries| && Ready(j0)
      requires forall k :: 0 <= k < j0 ==> less(layout.entries[k].key, target)
      modifies this
      ensures Ok() && Splits(if at == -1 then |layout.entries| else at, target)
    {
      hide Describes;
      hide StrictOrder;
      hide Increasing;
      ghost var j := j0;
      var ok := ParseNextKey(j);
      while ok && less(key, target)
        invariant Made() && (ok <==> j < |layout.entries|) && (if ok then Standing(j) else Ended())
        invariant 0 <= j <= |layout.entries| && forall k :: 0 <= k < j ==> less(layout.entries[k].key, target)
        decreases |layout.entries| - j
      {
        ReadyNext(j);
        j := j + 1;
        ok := ParseNextKey(j);
      }
      at := if ok then j else -1;
      if ok {
        NotSmallerAfter(j, target);
      }
    }

    lemma SmallerBefore(j: int, target: Bytes)
      requires Made() && 0 <= j <= |layout.entries|
      requires j > 0 ==> j < |layout.entries| && less(layout.entries[j].key, target)
      ensures forall k :: 0 <= k < j ==> less(layout.entries[k].key, target)
    {
    }

    lemma NotSmallerAfter(j: int, target: Bytes)
      requires Made() && 0 <= j < |layout.entries| && !less(layout.entries[j].key, target)
      ensures forall k :: j <= k < |layout.entries| ==> !less(layout.entries[k].key, target)
    {
    }
  }
}
