/** Filter blocks: one filter per two kilobytes of data offsets, and the reader that must never hide a key. */
module FilterBlock {
  import opened Keys
  import opened Coding

  const BASE_LG: byte := 11
  const BASE := 2048

  /** A filter policy: how a filter is made from keys, and how a key is tested against one. */
  datatype Policy = Policy(create: seq<Bytes> -> Bytes, mayMatch: (Bytes, Bytes) -> bool)

  /** The promise of a policy: a key a filter was made from always matches it. */
  ghost predicate Faithful(p: Policy) {
    forall keys: seq<Bytes>, k :: k in keys ==> p.mayMatch(k, p.create(keys))
  }

  /** The filter made from a list of keys; none at all for no keys. */
  function FilterOf(p: Policy, keys: seq<Bytes>): Bytes {
    if keys == [] then [] else p.create(keys)
  }

  function Filters(p: Policy, groups: seq<seq<Bytes>>): Bytes {
    if groups == [] then [] else Filters(p, groups[..|groups| - 1]) + FilterOf(p, groups[|groups| - 1])
  }

  /** Where the filter of group i starts. */
  function FilterStart(p: Policy, groups: seq<seq<Bytes>>, i: nat): nat
    requires i <= |groups|
  {
    |Filters(p, groups[..i])|
  }

  lemma FiltersSnoc(p: Policy, groups: seq<seq<Bytes>>, keys: seq<Bytes>)
    ensures Filters(p, groups + [keys]) == Filters(p, groups) + FilterOf(p, keys)
    ensures FilterStart(p, groups + [keys], |groups|) == |Filters(p, groups)|
    ensures forall i :: 0 <= i <= |groups| ==> FilterStart(p, groups + [keys], i) == FilterStart(p, groups, i)
  {
    assert (groups + [keys])[..|groups|] == groups;
    assert groups[..|groups|] == groups;
    forall i | 0 <= i <= |groups|
      ensures (groups + [keys])[..i] == groups[..i]
    {
    }
  }

  /** Group i's filter, cut out of all of them. */
  lemma {:induction false} FilterAt(p: Policy, groups: seq<seq<Bytes>>, i: nat)
    requires i < |groups|
    ensures FilterStart(p, groups, i) <= FilterStart(p, groups, i + 1) <= |Filters(p, groups)|
    ensures Filters(p, groups)[FilterStart(p, groups, i)..FilterStart(p, groups, i + 1)] == FilterOf(p, groups[i])
  {
    var n := |groups| - 1;
    var front := groups[..n];
    assert front + [groups[n]] == groups;
    FiltersSnoc(p, front, groups[n]);
    assert groups[..|groups|] == groups;
    if i < n {
      FilterAt(p, front, i);
      assert groups[..i] == front[..i] && groups[..i + 1] == front[..i + 1];
    }
  }

  class FilterBlockBuilder {
    const policy: Policy
    var keys: Bytes
    var start: seq<nat>
    var result: Bytes
    var filterOffsets: seq<nat>
    /** The keys of each finished filter, and of the one being collected. */
    ghost var groups: seq<seq<Bytes>>
    ghost var pending: seq<Bytes>

    ghost predicate Valid()
      reads this
    {
      && result == Filters(policy, groups)
      && |filterOffsets| == |groups| && (forall i :: 0 <= i < |groups| ==>
        filterOffsets[i] == FilterStart(policy, groups, i))
      && Flattened(keys, start, pending)
    }

    constructor (policy: Policy)
      ensures Valid() && groups == [] && pending == [] && this.policy == policy
    {
      this.policy := policy;
      keys, start, result, filterOffsets, groups, pending := [], [], [], [], [], [];
    }

    /** The bytes all filters take, the one being collected included. */
    ghost function Size(): nat
      reads this
    {
      |result| + |FilterOf(policy, pending)|
    }

    /** Finish filters until the one for this offset is the one being collected. */
    method StartBlock(offset: nat)
      requires Valid() && |groups| <= offset / BASE
      modifies this
      ensures Valid() && |groups| == offset / BASE && Size() == old(Size())
      ensures if offset / BASE == |old(groups)| then groups == old(groups) && pending == old(pending)
              else pending == [] && groups[..|old(groups)|] == old(groups) && groups[|old(groups)|] == old(pending)
      ensures forall i :: |old(groups)| < i < |groups| ==> groups[i] == []
    {
      var index := offset / BASE;
      while index > |filterOffsets|
        invariant Valid() && |groups| <= index && Size() == old(Size())
        invariant if |groups| == |old(groups)| then groups == old(groups) && pending == old(pending)
                  else |old(groups)| < |groups| && pending == [] && groups[..|old(groups)|] == old(groups) &&
                       groups[|old(groups)|] == old(pending)
        invariant forall i :: |old(groups)| < i < |groups| ==> groups[i] == []
        decreases index - |filterOffsets|
      {
        GenerateFilter();
      }
    }

    method AddKey(key: Bytes)
      requires Valid()
      modifies `keys, `start, `pending
      ensures Valid() && pending == old(pending) + [key]
    {
      start := start + [|keys|];
      keys := keys + key;
      FlattenedSnoc(old(keys), old(start), pending, key);
      pending := pending + [key];
    }

    method GenerateFilter()
      requires Valid()
      modifies this
      ensures Valid() && groups == old(groups) + [old(pending)] && pending == [] && Size() == old(Size())
    {
      FiltersSnoc(policy, groups, pending);
      assert groups[..|groups|] == groups;
      filterOffsets := filterOffsets + [|result|];
      if |start| > 0 {
        var list := Split(keys, start, pending);
        result := result + policy.create(list);
      } else {
        assert result + [] == result;
      }
      groups, pending := groups + [pending], [];
      keys, start := [], [];
    }

    lemma NoneFlattened()
      requires Valid()
      ensures start == [] <==> pending == []
    {
    }

    /** Append the filter offsets, where they start, and the offset granularity. */
    method Finish() returns (data: Bytes)
      requires Valid() && Size() < TWO_32
      modifies this
      ensures groups == (if old(pending) == [] then old(groups) else old(groups) + [old(pending)])
      ensures Finished(policy, groups, data)
    {
      hide Flattened;
      hide FilterStart;
      FiltersSnoc(policy, groups, pending);
      NoneFlattened();
      if |start| > 0 {
        GenerateFilter();
      }
      var arrayOffset := |result|;
      StartsInRange(policy, groups);
      data := result;
      assert Small(policy, groups);
      for i := 0 to |filterOffsets|
        invariant data == result + OffsetArray(policy, groups, i)
      {
        assert result + OffsetArray(policy, groups, i) + Fixed32(filterOffsets[i]) == result +
          OffsetArray(policy, groups, i + 1);
        data := data + Fixed32(filterOffsets[i]);
      }
      data := data + Fixed32(arrayOffset);
      data := data + [BASE_LG];
    }
  }

  // ---- the key list, flattened ------------------------------------------------------------------------

  function Concat(ks: seq<Bytes>): Bytes {
    if ks == [] then [] else Concat(ks[..|ks| - 1]) + ks[|ks| - 1]
  }

  /** keys is the concatenation of list, and start tells where each begins. */
  ghost predicate Flattened(keys: Bytes, start: seq<nat>, list: seq<Bytes>) {
    keys == Concat(list) && |start| == |list| && forall i :: 0 <= i < |list| ==> start[i] == |Concat(list[..i])|
  }

  lemma FlattenedSnoc(keys: Bytes, start: seq<nat>, list: seq<Bytes>, k: Bytes)
    requires Flattened(keys, start, list)
    ensures Flattened(keys + k, start + [|keys|], list + [k])
  {
    var more := list + [k];
    assert more[..|list|] == list;
    forall i | 0 <= i < |more|
      ensures (start + [|keys|])[i] == |Concat(more[..i])|
    {
      if i < |list| {
        assert more[..i] == list[..i];
      }
    }
  }

  lemma {:induction false} PieceAt(list: seq<Bytes>, i: nat)
    requires i < |list|
    ensures |Concat(list[..i])| <= |Concat(list[..i + 1])| <= |Concat(list)|
    ensures Concat(list)[|Concat(list[..i])|..|Concat(list[..i + 1])|] == list[i]
  {
    var n := |list| - 1;
    assert list[..|list|] == list;
    if i < n {
      PieceAt(list[..n], i);
      assert list[..n][..i] == list[..i] && list[..n][..i + 1] == list[..i + 1];
    } else {
      assert list[..i + 1][..i] == list[..i];
    }
  }

  /** GenerateFilter's loop: cut the flattened keys apart again. */
  method Split(keys: Bytes, start: seq<nat>, ghost list: seq<Bytes>) returns (r: seq<Bytes>)
    requires Flattened(keys, start, list)
    ensures r == list
  {
    var ends := start + [|keys|];
    assert list[..|list|] == list;
    r := [];
    for i := 0 to |start|
      invariant r == list[..i]
    {
      PieceAt(list, i);
      assert ends[i + 1] == |Concat(list[..i + 1])|;
      r := r + [keys[ends[i]..ends[i + 1]]];
      assert list[..i + 1] == list[..i] + [list[i]];
    }
  }

  // ---- the finished block --------------------------------------------------------------------------------

  lemma {:induction false} StartsInRange(p: Policy, groups: seq<seq<Bytes>>)
    ensures forall i :: 0 <= i <= |groups| ==> FilterStart(p, groups, i) <= |Filters(p, groups)|
  {
    forall i | 0 <= i <= |groups|
      ensures FilterStart(p, groups, i) <= |Filters(p, groups)|
    {
      if i < |groups| {
        FilterAt(p, groups, i);
      } else {
        assert groups[..i] == groups;
      }
    }
  }

  ghost predicate Small(p: Policy, groups: seq<seq<Bytes>>) {
    |Filters(p, groups)| < TWO_32 && forall i :: 0 <= i <= |groups| ==>
      FilterStart(p, groups, i) <= |Filters(p, groups)|
  }

  ghost function OffsetArray(p: Policy, groups: seq<seq<Bytes>>, n: nat): (r: Bytes)
    requires Small(p, groups) && n <= |groups|
    ensures |r| == 4 * n
  {
    if n == 0 then [] else OffsetArray(p, groups, n - 1) + Fixed32(FilterStart(p, groups, n - 1))
  }

  ghost predicate Finished(p: Policy, groups: seq<seq<Bytes>>, data: Bytes) {
    && Small(p, groups)
    && data == Filters(p, groups) + OffsetArray(p, groups, |groups|) + Fixed32(|Filters(p, groups)|) + [BASE_LG]
  }

  lemma {:induction false} OffsetAt(p: Policy, groups: seq<seq<Bytes>>, n: nat, i: nat)
    requires Small(p, groups) && i < n <= |groups|
    ensures OffsetArray(p, groups, n)[4 * i..4 * i + 4] == Fixed32(FilterStart(p, groups, i))
  {
    if i < n - 1 {
      OffsetAt(p, groups, n - 1, i);
      assert OffsetArray(p, groups, n)[4 * i..4 * i + 4] == OffsetArray(p, groups, n - 1)[4 * i..4 * i + 4];
    }
  }

  /** Word i of the offset array; past the last one stands the array's own offset, which is where the last filter
      ends. */
  lemma WordBack(p: Policy, groups: seq<seq<Bytes>>, data: Bytes, i: nat)
    requires Finished(p, groups, data) && i <= |groups|
    ensures |Filters(p, groups)| + 4 * i + 4 <= |data|
    ensures DecodeFixed32(data[|Filters(p, groups)| + 4 * i..]) == FilterStart(p, groups, i)
  {
    hide Fixed32;
    hide DecodeFixed32;
    hide Filters;
    hide OffsetArray;
    hide FilterStart;
    WholeStart(p, groups);
    var a := |Filters(p, groups)|;
    var offsets := OffsetArray(p, groups, |groups|);
    var rest := data[a + 4 * i..];
    assert data[a..] == offsets + Fixed32(a) + [BASE_LG];
    assert rest == data[a..][4 * i..];
    var w := Fixed32(FilterStart(p, groups, i));
    if i < |groups| {
      OffsetAt(p, groups, |groups|, i);
      assert rest[..4] == offsets[4 * i..4 * i + 4];
    } else {
      assert rest[..4] == Fixed32(a);
    }
    assert rest == w + rest[4..];
    Fixed32RoundTrip(FilterStart(p, groups, i), rest[4..]);
  }

  // ---- the reader ------------------------------------------------------------------------------------------

  class FilterBlockReader {
    const policy: Policy
    const data: Bytes
    const offset: nat
    const num: nat
    const baseLg: byte

    /** A block too short for its trailer leaves num at 0: it then matches everything. */
    constructor (policy: Policy, contents: Bytes)
      ensures this.policy == policy && data == contents && offset <= |data|
      ensures num > 0 ==> offset + 4 * num + 5 <= |data|
      ensures |contents| >= 5 && DecodeFixed32(contents[|contents| - 5..]) <= |contents| - 5 ==>
        && baseLg == contents[|contents| - 1] && offset == DecodeFixed32(contents[|contents| - 5..])
        && num == (|contents| - 5 - offset) / 4
      ensures |contents| < 5 || DecodeFixed32(contents[|contents| - 5..]) > |contents| - 5 ==> num == 0
    {
      this.policy, data := policy, contents;
      var n := |contents|;
      if n < 5 {
        offset, num, baseLg := 0, 0, 0;
      } else {
        baseLg := contents[n - 1];
        var lastWord := DecodeFixed32(contents[n - 5..]);
        if lastWord > n - 5 {
          offset, num := 0, 0;
        } else {
          offset, num := lastWord, (n - 5 - lastWord) / 4;
        }
      }
    }

    ghost predicate Reads(groups: seq<seq<Bytes>>) {
      Finished(policy, groups, data) && offset == |Filters(policy, groups)| && num == |groups| && baseLg == BASE_LG
    }

    method KeyMayMatch(blockOffset: nat, key: Bytes, ghost groups: seq<seq<Bytes>>) returns (r: bool)
      requires num > 0 ==> offset + 4 * num + 5 <= |data|
      ensures Reads(groups) ==>
        (r <==> blockOffset / BASE >= |groups| || policy.mayMatch(key, FilterOf(policy, groups[blockOffset / BASE])))
      ensures IndexOf(blockOffset, baseLg) >= num ==> r
      ensures var i := IndexOf(blockOffset, baseLg);
        i < num ==>
          var start, limit := DecodeFixed32(data[offset + i * 4..]), DecodeFixed32(data[offset + i * 4 + 4..]);
          r <==> if start <= limit <= offset then policy.mayMatch(key, data[start..limit]) else start != limit
    {
      hide Fixed32;
      hide DecodeFixed32;
      hide Reads;
      hide IndexOf;
      var index := IndexOf(blockOffset, baseLg);
      if index < num {
        var start := DecodeFixed32(data[offset + index * 4..]);
        var limit := DecodeFixed32(data[offset + index * 4 + 4..]);
        if Reads(groups) {
          ReadsPast(groups, blockOffset);
          ReadsAt(groups, blockOffset);
        }
        if start <= limit && limit <= offset {
          return policy.mayMatch(key, data[start..limit]);
        } else if start == limit {
          return false;
        }
      } else if Reads(groups) {
        ReadsPast(groups, blockOffset);
      }
      r := true;
    }

    lemma ReadsPast(groups: seq<seq<Bytes>>, blockOffset: nat)
      requires Reads(groups)
      ensures num == |groups| && IndexOf(blockOffset, baseLg) == blockOffset / BASE
    {
      ShiftBase(blockOffset);
    }

    lemma ReadsAt(groups: seq<seq<Bytes>>, blockOffset: nat)
      requires Reads(groups) && blockOffset / BASE < num && offset + 4 * num + 5 <= |data|
      ensures var i := blockOffset / BASE;
        var start, limit := DecodeFixed32(data[offset + i * 4..]), DecodeFixed32(data[offset + i * 4 + 4..]);
        start <= limit <= offset && data[start..limit] == FilterOf(policy, groups[i])
    {
      hide Fixed32;
      hide DecodeFixed32;
      hide FilterOf;
      var i := blockOffset / BASE;
      WordBack(policy, groups, data, i);
      WordBack(policy, groups, data, i + 1);
      FilterAt(policy, groups, i);
      var start, limit := FilterStart(policy, groups, i), FilterStart(policy, groups, i + 1);
      assert data[..offset] == Filters(policy, groups);
      assert data[start..limit] == data[..offset][start..limit];
    }
  }

  /** x >> n. */
  function ShiftRight(x: nat, n: nat): nat {
    if n == 0 then x else ShiftRight(x / 2, n - 1)
  }

  /** block_offset >> base_lg. */
  function IndexOf(offset: nat, lg: byte): nat {
    ShiftRight(offset, lg)
  }

  lemma ShiftTwice(x: nat, n: nat)
    requires n >= 2
    ensures ShiftRight(x, n) == ShiftRight(x / 4, n - 2)
  {
    assert ShiftRight(x, n) == ShiftRight(x / 2, n - 1);
    assert ShiftRight(x / 2, n - 1) == ShiftRight(x / 2 / 2, n - 2);
    assert x / 2 / 2 == x / 4;
  }

  lemma ShiftBase(x: nat)
    ensures ShiftRight(x, 11) == x / BASE
  {
    hide ShiftRight;
    ShiftTwice(x, 11);
    ShiftTwice(x / 4, 9);
    ShiftTwice(x / 4 / 4, 7);
    ShiftTwice(x / 4 / 4 / 4, 5);
    ShiftTwice(x / 4 / 4 / 4 / 4, 3);
    ShiftOnce(x / 4 / 4 / 4 / 4 / 4);
    assert x / 4 / 4 / 4 / 4 / 4 / 2 == x / 2048;
  }

  lemma ShiftOnce(x: nat)
    ensures ShiftRight(x, 1) == x / 2
  {
  }

  lemma ReadsFinished(p: Policy, groups: seq<seq<Bytes>>, data: Bytes)
    requires Finished(p, groups, data)
    ensures |data| >= 5 && DecodeFixed32(data[|data| - 5..]) == |Filters(p, groups)| <= |data| - 5
    ensures data[|data| - 1] == BASE_LG && (|data| - 5 - |Filters(p, groups)|) / 4 == |groups|
  {
    hide Fixed32;
    hide DecodeFixed32;
    hide Filters;
    hide OffsetArray;
    WordBack(p, groups, data, |groups|);
    WholeStart(p, groups);
    var a := |Filters(p, groups)|;
    assert |data| == a + 4 * |groups| + 5;
  }

  lemma WholeStart(p: Policy, groups: seq<seq<Bytes>>)
    ensures FilterStart(p, groups, |groups|) == |Filters(p, groups)|
  {
    assert groups[..|groups|] == groups;
  }

  /** Filters never hide a key: whatever keys went into the group of an offset all match at that offset. */
  lemma NeverHides(p: Policy, groups: seq<seq<Bytes>>, offset: nat, key: Bytes)
    requires Faithful(p)
    requires offset / BASE < |groups| ==> key in groups[offset / BASE]
    ensures offset / BASE >= |groups| || p.mayMatch(key, FilterOf(p, groups[offset / BASE]))
  {
  }
}
