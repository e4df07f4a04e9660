/** The cache's hash table: chains of handles, found by hash and key, kept across a resize. */
module HandleTable {
  import opened Keys
  import opened BitVectors

  const NULL := -1

  /** A pointer to a link: a bucket of the table, or the chain link of a handle. */
  datatype Slot = Bucket(b: nat) | Link(h: nat)

  /** chain is what starts at link value p. */
  ghost predicate Chain(nextHash: seq<int>, p: int, chain: seq<nat>) {
    && (forall i :: 0 <= i < |chain| ==> chain[i] < |nextHash|)
    && p == Head(chain) && forall i :: 0 <= i < |chain| ==> nextHash[chain[i]] == Head(chain[i + 1..])
  }

  function Head(chain: seq<nat>): int {
    if chain == [] then NULL else chain[0]
  }

  ghost predicate NoRepeat(chain: seq<nat>) {
    forall i, j :: 0 <= i < j < |chain| ==> chain[i] != chain[j]
  }

  /** Bucket b's chain: its own hashes only, no handle twice, all of them in contents. */
  ghost predicate ChainOk(hashes: seq<nat>, nextHash: seq<int>, p: int, chain: seq<nat>, contents: set<nat>,
          size: nat, b: nat)
    requires 0 < size
  {
    && Chain(nextHash, p, chain) && NoRepeat(chain)
    && forall h :: h in chain <==> h in contents && h < |hashes| && hashes[h] % size == b
  }

  /** New handles beyond the old ones disturb no chain. */
  lemma MoreHandles(hashes: seq<nat>, nextHash: seq<int>, hashes': seq<nat>, nextHash': seq<int>, p: int,
          chain: seq<nat>,
                    contents: set<nat>, size: nat, b: nat)
    requires 0 < size && ChainOk(hashes, nextHash, p, chain, contents, size, b)
    requires |hashes| <= |hashes'| && hashes'[..|hashes|] == hashes && |nextHash| <= |nextHash'| &&
      nextHash'[..|nextHash|] == nextHash
    requires forall h :: h in contents ==> h < |hashes|
    ensures ChainOk(hashes', nextHash', p, chain, contents, size, b)
  {
  }

  // ---- splicing chains ------------------------------------------------------------------------------

  /** A chain none of whose links changed is still a chain. */
  lemma ChainStays(nextHash: seq<int>, nextHash': seq<int>, p: int, chain: seq<nat>)
    requires Chain(nextHash, p, chain) && |nextHash'| == |nextHash|
    requires forall h :: h in chain ==> h < |nextHash| && nextHash'[h] == nextHash[h]
    ensures Chain(nextHash', p, chain)
  {
  }

  function Rest(chain: seq<nat>, i: nat): seq<nat> {
    if i < |chain| then chain[i + 1..] else []
  }

  /** The chain with h at place i, in place of what was there. */
  function With(chain: seq<nat>, i: nat, h: nat): (r: seq<nat>)
    requires i <= |chain|
    ensures |r| == (if i < |chain| then |chain| else i + 1)
    ensures forall j :: 0 <= j < |r| ==> r[j] == (if j == i then h else chain[j])
  {
    chain[..i] + [h] + Rest(chain, i)
  }

  /** Handle h takes place i of the chain, in place of what was there. */
  lemma PutAt(nextHash: seq<int>, p: int, chain: seq<nat>, i: nat, h: nat)
    requires Chain(nextHash, p, chain) && NoRepeat(chain) && i <= |chain| && h < |nextHash| && h !in chain
    ensures var linked := nextHash[h := Head(Rest(chain, i))];
      && (i == 0 ==> Chain(linked, h, With(chain, i, h))) &&
        (i > 0 ==> Chain(linked[chain[i - 1] := h], p, With(chain, i, h)))
      && NoRepeat(With(chain, i, h))
  {
    hide With;
    var linked := nextHash[h := Head(Rest(chain, i))];
    var more := With(chain, i, h);
    var after := if i == 0 then linked else linked[chain[i - 1] := h];
    RestHead(chain, i);
    forall j | 0 <= j < |more|
      ensures more[j] < |after| && after[more[j]] == Head(more[j + 1..])
    {
      HeadAfter(more, j);
      if j != i {
        HeadAfter(chain, j);
        assert chain[j] in chain;
      }
    }
  }

  lemma RestHead(chain: seq<nat>, i: nat)
    requires i <= |chain|
    ensures Head(Rest(chain, i)) == if i + 1 < |chain| then chain[i + 1] else NULL
  {
  }

  lemma HeadAfter(chain: seq<nat>, j: nat)
    requires j < |chain|
    ensures Head(chain[j + 1..]) == if j + 1 < |chain| then chain[j + 1] else NULL
  {
  }

  /** The chain without place i. */
  function Minus(chain: seq<nat>, i: nat): (r: seq<nat>)
    requires i < |chain|
    ensures |r| == |chain| - 1
    ensures forall j :: 0 <= j < |r| ==> r[j] == (if j < i then chain[j] else chain[j + 1])
  {
    chain[..i] + chain[i + 1..]
  }

  lemma NoRepeatWithout(chain: seq<nat>, i: nat)
    requires NoRepeat(chain) && i < |chain|
    ensures NoRepeat(Minus(chain, i))
  {
  }

  /** The handle at place i leaves the chain. */
  lemma DropAt(nextHash: seq<int>, p: int, chain: seq<nat>, i: nat)
    requires Chain(nextHash, p, chain) && NoRepeat(chain) && i < |chain|
    ensures (i == 0 ==> Chain(nextHash, nextHash[chain[i]], Minus(chain, i)))
    ensures (i > 0 ==> Chain(nextHash[chain[i - 1] := nextHash[chain[i]]], p, Minus(chain, i))) &&
      NoRepeat(Minus(chain, i))
  {
    hide Minus;
    var less := Minus(chain, i);
    var after := if i == 0 then nextHash else nextHash[chain[i - 1] := nextHash[chain[i]]];
    HeadAfter(chain, i);
    assert i > 0 ==> less[0] == chain[0];
    assert i == 0 && less != [] ==> less[0] == chain[1];
    assert NoRepeat(less) by {
      NoRepeatWithout(chain, i);
    }
    forall j | 0 <= j < |less|
      ensures less[j] < |after| && after[less[j]] == Head(less[j + 1..])
    {
      HeadAfter(less, j);
      if j < i {
        HeadAfter(chain, j);
        assert less[j] == chain[j];
      } else {
        HeadAfter(chain, j + 1);
        assert less[j] == chain[j + 1];
      }
    }
  }

  lemma PushFront(nextHash: seq<int>, p: int, chain: seq<nat>, h: nat)
    requires Chain(nextHash, p, chain) && NoRepeat(chain) && h < |nextHash| && h !in chain
    ensures Chain(nextHash[h := p], h, [h] + chain) && NoRepeat([h] + chain)
  {
    var more := [h] + chain;
    forall j | 0 <= j < |more|
      ensures more[j] < |nextHash| && nextHash[h := p][more[j]] == Head(more[j + 1..])
    {
      if j == 0 {
        assert more[1..] == chain;
      } else {
        assert more[j + 1..] == chain[j..] && more[j] == chain[j - 1];
        assert chain[j..] == chain[j - 1 + 1..];
      }
    }
  }

  // ---- the number of buckets ------------------------------------------------------------------------

  predicate PowerOfTwo(n: nat) {
    n == 1 || (n > 1 && n % 2 == 0 && PowerOfTwo(n / 2))
  }

  lemma {:induction false} PowersApart(a: nat, b: nat)
    requires PowerOfTwo(a) && PowerOfTwo(b) && a < b
    ensures 2 * a <= b
  {
    if a > 1 {
      PowersApart(a / 2, b / 2);
    }
  }

  lemma NextPower(a: nat, b: nat)
    requires PowerOfTwo(a) && PowerOfTwo(b) && a < b < 2 * a + 2 && a >= 4
    ensures b == 2 * a
  {
    PowersApart(a, b);
    assert b % 2 == 0;
  }

  /** The bucket of a hash is found by masking its low bits: for a power of two that is the remainder. */
  lemma MaskIsRemainder(hash: bv32, n: bv32)
    requires PowerOfTwo(n as int)
    ensures Masked(hash, n) as int == hash as int % n as int
  {
    hide Masked;
    hide PowerOfTwo;
    var q := MaskSplits(hash, n, hash as int, n as int);
    OnlyRemainder(hash as int, n as int, q, Masked(hash, n) as int);
  }

  lemma OnlyRemainder(h: nat, size: nat, q: nat, t: nat)
    requires h == size * q + t && t < size
    ensures t == h % size
  {
    Euclid(h, size);
    Remainder(size, h / size, h % size, q, t);
  }

  /** Masking off a power of two leaves a multiple of it. */
  lemma {:induction false} MaskSplits(hash: bv32, n: bv32, h: nat, size: nat) returns (q: nat)
    requires h == hash as int && size == n as int && PowerOfTwo(size)
    ensures Masked(hash, n) as int < size && h == size * q + Masked(hash, n) as int
    decreases size
  {
    hide PowerOfTwo;
    hide Masked;
    hide Half;
    hide Odd;
    hide LowBit;
    if size == 1 {
      IsOne(n);
      MaskNone(hash);
      q := h;
    } else {
      PowerHalf(size);
      EvenHalf(n, size);
      q := MaskSplits(Half(hash), Half(n), Half(hash) as int, size / 2);
      MaskStep(hash, n, h, size, q, Half(hash) as int, size / 2, Masked(Half(hash), Half(n)) as int, LowBit(hash));
    }
  }

  lemma MaskStep(hash: bv32, n: bv32, h: nat, size: nat, q: nat, y: nat, k: nat, t: nat, b: nat)
    requires h == hash as int && y == Half(hash) as int && b == LowBit(hash)
    requires !Odd(n) && k == Half(n) as int && size == 2 * k && k > 0
    requires t == Masked(Half(hash), Half(n)) as int && y == k * q + t && t < k
    ensures Masked(hash, n) as int < size && h == size * q + Masked(hash, n) as int
  {
    hide Masked;
    hide Half;
    hide Odd;
    SameWhole(hash, h, y);
    MaskJoins(hash, n);
    Doubled(k, size, q);
  }

  lemma SameWhole(hash: bv32, h: nat, y: nat)
    requires h == hash as int && y == Half(hash) as int
    ensures h == 2 * y + LowBit(hash)
  {
    hide Half;
    hide Odd;
    Halves(hash);
  }

  lemma PowerHalf(n: nat)
    requires PowerOfTwo(n) && n != 1
    ensures n % 2 == 0 && n / 2 > 0 && PowerOfTwo(n / 2)
  {
  }

  lemma Euclid(x: nat, m: nat)
    requires m > 0
    ensures x == m * (x / m) + x % m && x % m < m
  {
  }

  lemma Doubled(k: nat, m: nat, q: nat)
    requires m == 2 * k
    ensures m * q == 2 * (k * q)
  {
  }

  lemma Distribute(m: nat, d: nat, e: nat)
    requires e > 0
    ensures m * (d + e) >= m * d + m
  {
    assert m * (d + e) == m * d + m * e;
    assert m * e >= m;
  }

  lemma Remainder(m: nat, d: nat, r: nat, q: nat, s: nat)
    requires r < m && s < m && m * d + r == m * q + s
    ensures r == s
  {
    if d < q {
      Distribute(m, d, q - d);
    } else if q < d {
      Distribute(m, q, d - q);
    }
  }

  class Table {
    var keys: seq<Bytes>
    var hashes: seq<nat>
    var nextHash: seq<int>
    var list: seq<int>
    var elems: nat
    /** The chain of every bucket, and all handles in them. */
    ghost var chains: seq<seq<nat>>
    ghost var contents: set<nat>

    ghost predicate Allocated()
      reads this
    {
      |keys| == |hashes| == |nextHash|
    }

    predicate Same(h: nat, key: Bytes, hash: nat)
      requires h < |keys| && h < |hashes|
      reads `keys, `hashes
    {
      hashes[h] == hash && keys[h] == key
    }

    /** All but the bound on the load, which an insertion may break until the table is resized. */
    ghost predicate Chained()
      reads this
    {
      && Allocated() && 4 <= |list| == |chains| && PowerOfTwo(|list|) && elems == |contents|
      && (forall h :: h in contents ==> h < |keys|)
      && Buckets(hashes, nextHash, list, chains, contents)
      && Unique(keys, hashes, contents)
    }

    ghost predicate Valid()
      reads this
    {
      Chained() && elems <= |list|
    }

    constructor ()
      ensures Valid() && contents == {} && keys == []
    {
      keys, hashes, nextHash, elems := [], [], [], 0;
      list := [NULL, NULL, NULL, NULL];
      chains, contents := [[], [], [], []], {};
    }

    /** A handle is allocated with its key and hash; it is in no chain yet. */
    method NewHandle(key: Bytes, hash: nat) returns (h: nat)
      requires Valid()
      modifies this
      ensures Valid() && h == |old(keys)| && keys == old(keys) + [key] && hashes == old(hashes) + [hash] &&
        contents == old(contents)
    {
      h := |keys|;
      var moreHashes, moreLinks := hashes + [hash], nextHash + [NULL];
      forall b | 0 <= b < |list|
        ensures ChainOk(moreHashes, moreLinks, list[b], chains[b], contents, |list|, b)
      {
        assert ChainOk(hashes, nextHash, list[b], chains[b], contents, |list|, b);
        MoreHandles(hashes, nextHash, moreHashes, moreLinks, list[b], chains[b], contents, |list|, b);
      }
      keys, hashes, nextHash := keys + [key], moreHashes, moreLinks;
    }

    function Read(p: Slot): int
      requires if p.Bucket? then p.b < |list| else p.h < |nextHash|
      reads this
    {
      match p
      case Bucket(b) => list[b]
      case Link(h) => nextHash[h]
    }

    /** Where place i of a bucket's chain is linked from. */
    ghost function SlotAt(b: nat, i: nat): Slot
      requires b < |chains| && i <= |chains[b]|
      reads this
    {
      if i == 0 then Bucket(b) else Link(chains[b][i - 1])
    }

    /** The link that points to the handle with this key and hash, or the trailing link of its chain. */
    method FindPointer(key: Bytes, hash: nat) returns (p: Slot, ghost i: nat)
      requires Valid()
      ensures var b := hash % |list|;
        && i <= |chains[b]| && p == SlotAt(b, i)
        && (p.Link? ==> p.h < |nextHash|) && Read(p) == Head(chains[b][i..])
        && (i < |chains[b]| ==> chains[b][i] < |keys| && Same(chains[b][i], key, hash))
        && (i == |chains[b]| ==> forall h :: h in contents ==> !Same(h, key, hash))
    {
      var b := hash % |list|;
      assert ChainOk(hashes, nextHash, list[b], chains[b], contents, |list|, b);
      ghost var chain := chains[b];
      p, i := Bucket(b), 0;
      assert chain[0..] == chain;
      while Read(p) != NULL && !(hashes[Read(p)] == hash && keys[Read(p)] == key)
        invariant i <= |chain| && p == SlotAt(b, i) && (p.Link? ==> p.h < |nextHash|) && Read(p) == Head(chain[i..])
        invariant Read(p) == NULL || 0 <= Read(p) < |keys|
        invariant forall j :: 0 <= j < i ==> !Same(chain[j], key, hash)
        decreases |chain| - i
      {
        assert chain[i..][0] == chain[i] && chain[i + 1..] == chain[i..][1..];
        p := Link(Read(p));
        i := i + 1;
        assert i < |chain| ==> chain[i..][0] == chain[i];
      }
      forall h | h in contents && i == |chain|
        ensures !Same(h, key, hash)
      {
        if hashes[h] % |list| == b {
          var j :| 0 <= j < |chain| && chain[j] == h;
        }
      }
    }

    /** The handle with this key and hash, if any. */
    method Lookup(key: Bytes, hash: nat) returns (h: int)
      requires Valid()
      ensures h == NULL ==> forall g :: g in contents ==> !Same(g, key, hash)
      ensures h != NULL ==> h >= 0 && h in contents && Same(h, key, hash)
    {
      var p, i := FindPointer(key, hash);
      h := Read(p);
      assert ChainOk(hashes, nextHash, list[hash % |list|], chains[hash % |list|], contents, |list|, hash % |list|);
      assert i < |chains[hash % |list|]| ==> chains[hash % |list|][i] in chains[hash % |list|];
    }

    // ---- changing the table ----------------------------------------------------------------------------

    /** Put h in the table, in place of the handle with the same key and hash, if any, which is returned. */
    method Insert(h: nat) returns (was: int)
      requires Valid() && h < |keys| && h !in contents
      modifies this
      ensures Valid() && keys == old(keys) && hashes == old(hashes)
      ensures was == NULL ==> contents == old(contents) + {h} && forall g :: g in old(contents) ==>
        !Same(g, keys[h], hashes[h])
      ensures was != NULL ==>
        was >= 0 && was in old(contents) && Same(was, keys[h], hashes[h]) && contents == old(contents) - {was} + {h}
      ensures |list| == if was == NULL && |old(contents)| == |old(list)| then 2 * |old(list)| else |old(list)|
    {
      hide Buckets;
      hide Unique;
      hide PowerOfTwo;
      ghost var size := |list|;
      var p, i := FindPointer(keys[h], hashes[h]);
      PlaceIs(hashes[h] % |list|, i, p);
      was := Read(p);
      LinkIn(h, was, p, i);
      if was == NULL && elems > |list| {
        Resize();
        NextPower(size, |list|);
      }
    }

    /** h->next_hash, then the slot that pointed to the old handle or to nothing. */
    method LinkIn(h: nat, was: int, p: Slot, ghost i: nat)
      requires Valid() && h < |keys| && h !in contents
      requires var b := hashes[h] % |list|;
        && i <= |chains[b]| && p == SlotAt(b, i) && (p.Link? ==> p.h < |nextHash|)
        && was == (if i < |chains[b]| then chains[b][i] else NULL)
      requires was == NULL ==> forall g :: g in contents ==> !(hashes[g] == hashes[h] && keys[g] == keys[h])
      requires was != NULL ==>
        was >= 0 && was in contents && hashes[was] == hashes[h] && keys[was] == keys[h] &&
        nextHash[was] == Head(Rest(chains[hashes[h] % |list|], i))
      modifies this
      ensures Chained() && keys == old(keys) && hashes == old(hashes) && (was != NULL ==> elems <= |list|)
      ensures |list| == |old(list)| && (was == NULL ==> elems == old(elems) + 1)
      ensures contents == (if was == NULL then old(contents) else old(contents) - {was as nat}) + {h}
    {
      hide PowerOfTwo;
      hide Buckets;
      hide Unique;
      hide With;
      hide Rest;
      hide Same;
      ghost var b := hashes[h] % |list|;
      ghost var chain := chains[b];
      ghost var gone: set<nat> := if was == NULL then {} else {was as nat};
      var link := if was == NULL then NULL else nextHash[was];
      RestHead(chain, i);
      InsertBuckets(hashes, nextHash, list, chains, contents, b, i, h, p, link, gone);
      UniqueInsert(keys, hashes, contents, h, was, gone);
      assert |PutList(list, p, h)| == |list| && |PutNext(nextHash[h := link], p, h)| == |nextHash|;
      hide PutList;
      hide PutNext;
      nextHash := nextHash[h := link];
      list, nextHash := PutList(list, p, h), PutNext(nextHash, p, h);
      chains := chains[b := With(chain, i, h)];
      contents := contents - gone + {h};
      if was == NULL {
        elems := elems + 1;
      }
    }

    /** Move one old chain, front first, each handle to the front of its new chain. */
    method MoveChain(head: int, ghost chain: seq<nat>, newList0: seq<int>, ghost newChains0: seq<seq<nat>>,
            ghost moved0: set<nat>)
      returns (newList: seq<int>, ghost newChains: seq<seq<nat>>, ghost moved: set<nat>)
      requires Buckets(hashes, nextHash, newList0, newChains0, moved0) && Chain(nextHash, head, chain) &&
        NoRepeat(chain)
      requires forall h :: h in chain ==> h !in moved0
      modifies `nextHash
      ensures Buckets(hashes, nextHash, newList, newChains, moved) && |newList| == |newList0|
      ensures moved == moved0 + SetOf(chain)
      ensures |nextHash| == |old(nextHash)| && forall g :: 0 <= g < |nextHash| && g !in chain ==>
        nextHash[g] == old(nextHash)[g]
    {
      hide Buckets;
      hide Chain;
      hide SetOf;
      var h := head;
      newList, newChains, moved := newList0, newChains0, moved0;
      ghost var k := 0;
      assert chain[0..] == chain;
      SetOfNone(chain);
      SizeOf(hashes, nextHash, newList, newChains, moved);
      while h != NULL
        invariant 0 <= k <= |chain| && Chain(nextHash, h, chain[k..]) && |nextHash| == |old(nextHash)| == |hashes|
        invariant Buckets(hashes, nextHash, newList, newChains, moved) && |newList| == |newList0|
        invariant moved == moved0 + SetOf(chain[..k])
        invariant forall g :: 0 <= g < |nextHash| && g !in chain ==> nextHash[g] == old(nextHash)[g]
        decreases |chain| - k
      {
        ChainStep(nextHash, h, chain, k);
        SetOfNext(chain, k);
        SizeOf(hashes, nextHash, newList, newChains, moved);
        var next := nextHash[h];
        var b := hashes[h] % |newList|;
        PushBucket(hashes, nextHash, newList, newChains, moved, h);
        StillChain(nextHash, nextHash[h := newList[b]], next, chain, k + 1, h);
        nextHash := nextHash[h := newList[b]];
        newList := newList[b := h];
        newChains := newChains[b := [chain[k]] + newChains[b]];
        moved := moved + {chain[k]};
        k := k + 1;
        h := next;
      }
      ChainEnd(nextHash, chain, k);
      assert chain[..k] == chain;
    }

    /** The least power of two, from 4 on, of at least elems buckets. */
    method Resize()
      requires Chained()
      modifies `list, `nextHash, `chains
      ensures Valid() && (|list| == 4 || |list| < 2 * elems)
    {
      hide ChainOk;
      var newLength := 4;
      while newLength < elems
        invariant newLength >= 4 && PowerOfTwo(newLength) && (newLength == 4 || newLength < 2 * elems)
      {
        newLength := newLength * 2;
      }
      var newList: seq<int> := seq(newLength, _ => NULL);
      ghost var newChains: seq<seq<nat>>, moved: set<nat> := seq(newLength, _ => []), {};
      EmptyBuckets(hashes, nextHash, newLength);
      ghost var next0 := nextHash;
      for i := 0 to |list|
        invariant Allocated() && 0 < |list| == |chains| && list == old(list) && chains == old(chains) &&
          |nextHash| == |next0| && |newList| == newLength
        invariant forall j :: 0 <= j < |list| ==> ChainOk(hashes, next0, list[j], chains[j], contents, |list|, j)
        invariant Buckets(hashes, nextHash, newList, newChains, moved)
        invariant moved == set h | h in contents && h < |hashes| && hashes[h] % |list| < i
        invariant forall g :: 0 <= g < |nextHash| && g !in moved ==> nextHash[g] == next0[g]
      {
        Unmoved(hashes, next0, nextHash, list[i], chains[i], contents, |list|, i, moved);
        newList, newChains, moved := MoveChain(list[i], chains[i], newList, newChains, moved);
      }
      AllMoved(moved);
      list, chains := newList, newChains;
    }

    lemma AllMoved(moved: set<nat>)
      requires Allocated() && 0 < |list| && (forall h :: h in contents ==> h < |keys|)
      requires moved == set h | h in contents && h < |hashes| && hashes[h] % |list| < |list|
      ensures moved == contents
    {
    }

    lemma PlaceIs(b: nat, i: nat, p: Slot)
      requires Valid() && b < |list| && i <= |chains[b]| && p == SlotAt(b, i) && (p.Link? ==> p.h < |nextHash|) &&
        Read(p) == Head(chains[b][i..])
      ensures Read(p) == (if i < |chains[b]| then chains[b][i] else NULL)
      ensures i < |chains[b]| ==> chains[b][i] in contents && nextHash[chains[b][i]] == Head(Rest(chains[b], i))
    {
    }

    /** Take the handle with this key and hash out of the table. */
    method Remove(key: Bytes, hash: nat) returns (was: int)
      requires Valid()
      modifies this
      ensures Valid() && keys == old(keys) && hashes == old(hashes)
      ensures was == NULL ==> contents == old(contents) && forall g :: g in contents ==> !Same(g, key, hash)
      ensures was != NULL ==>
        was >= 0 && was in old(contents) && Same(was, key, hash) && contents == old(contents) - {was}
    {
      hide PowerOfTwo;
      hide Buckets;
      hide Unique;
      ghost var b := hash % |list|;
      var p, i := FindPointer(key, hash);
      ghost var chain := chains[b];
      PlaceIs(b, i, p);
      was := Read(p);
      if was != NULL {
        RemoveBuckets(hashes, nextHash, list, chains, contents, b, i, p);
        list, nextHash := PutList(list, p, nextHash[was]), PutNext(nextHash, p, nextHash[was]);
        chains := chains[b := Minus(chain, i)];
        UniqueRemove(keys, hashes, contents, chain[i]);
        contents := contents - {chain[i]};
        elems := elems - 1;
      }
    }
  }

  /** No two handles of the table have the same key and hash. */
  ghost predicate Unique(keys: seq<Bytes>, hashes: seq<nat>, contents: set<nat>) {
    && |keys| == |hashes| && (forall h :: h in contents ==> h < |keys|)
    && forall g, h :: g in contents && h in contents && hashes[g] == hashes[h] && keys[g] == keys[h] ==> g == h
  }

  lemma UniqueInsert(keys: seq<Bytes>, hashes: seq<nat>, contents: set<nat>, h: nat, was: int, gone: set<nat>)
    requires Unique(keys, hashes, contents) && h < |keys| && h !in contents
    requires was == NULL ==> forall g :: g in contents ==> !(hashes[g] == hashes[h] && keys[g] == keys[h])
    requires was != NULL ==> was >= 0 && was in contents && hashes[was] == hashes[h] && keys[was] == keys[h]
    requires gone == (if was == NULL then {} else {was as nat})
    ensures Unique(keys, hashes, contents - gone + {h}) &&
      |contents - gone + {h}| == |contents| + (if was == NULL then 1 else 0)
  {
  }

  lemma UniqueRemove(keys: seq<Bytes>, hashes: seq<nat>, contents: set<nat>, h: nat)
    requires Unique(keys, hashes, contents) && h in contents
    ensures Unique(keys, hashes, contents - {h}) && |contents - {h}| == |contents| - 1
  {
  }

  // ---- stores through a slot ----------------------------------------------------------------------------

  function PutNext(nextHash: seq<int>, p: Slot, v: int): seq<int>
    requires p.Link? ==> p.h < |nextHash|
  {
    if p.Link? then nextHash[p.h := v] else nextHash
  }

  function PutList(list: seq<int>, p: Slot, v: int): seq<int>
    requires p.Bucket? ==> p.b < |list|
  {
    if p.Bucket? then list[p.b := v] else list
  }

  ghost predicate Buckets(hashes: seq<nat>, nextHash: seq<int>, list: seq<int>, chains: seq<seq<nat>>,
          contents: set<nat>) {
    && 0 < |list| == |chains| && |hashes| == |nextHash|
    && forall b :: 0 <= b < |list| ==> ChainOk(hashes, nextHash, list[b], chains[b], contents, |list|, b)
  }

  /** The store that links h in changes one bucket's chain and no other. */
  lemma InsertBuckets(hashes: seq<nat>, nextHash: seq<int>, list: seq<int>, chains: seq<seq<nat>>, contents: set<nat>,
                      b: nat, i: nat, h: nat, p: Slot, link: int, gone: set<nat>)
    requires Buckets(hashes, nextHash, list, chains, contents) && h < |hashes| && h !in contents &&
      b == hashes[h] % |list|
    requires i <= |chains[b]| && p == (if i == 0 then Bucket(b) else Link(chains[b][i - 1])) &&
      (p.Link? ==> p.h < |nextHash|)
    requires link == Head(Rest(chains[b], i)) && gone == (if i < |chains[b]| then {chains[b][i]} else {})
    ensures Buckets(hashes, PutNext(nextHash[h := link], p, h), PutList(list, p, h),
      chains[b := With(chains[b], i, h)], contents - gone + {h})
  {
    hide With;
    hide ChainOk;
    hide Rest;
    var chain := chains[b];
    var next := PutNext(nextHash[h := link], p, h);
    var list', chains' := PutList(list, p, h), chains[b := With(chain, i, h)];
    assert ChainOk(hashes, nextHash, list[b], chain, contents, |list|, b);
    ChainMembers(hashes, nextHash, list[b], chain, contents, |list|, b);
    OwnChain(hashes, nextHash, list[b], chain, contents, |list|, b, i, h, gone);
    forall c | 0 <= c < |list|
      ensures ChainOk(hashes, next, list'[c], chains'[c], contents - gone + {h}, |list|, c)
    {
      if c != b {
        assert ChainOk(hashes, nextHash, list[c], chains[c], contents, |list|, c);
        OtherChain(hashes, nextHash, next, list[c], chains[c], contents, contents - gone + {h}, |list|, c, b, h,
          chain, i);
      }
    }
  }

  lemma ChainMembers(hashes: seq<nat>, nextHash: seq<int>, p: int, chain: seq<nat>, contents: set<nat>, size: nat,
          b: nat)
    requires 0 < size && ChainOk(hashes, nextHash, p, chain, contents, size, b)
    ensures forall g :: g in chain ==> g < |hashes| && hashes[g] % size == b
    ensures forall i :: 0 <= i < |chain| ==> chain[i] < |nextHash|
  {
  }

  lemma OwnChain(hashes: seq<nat>, nextHash: seq<int>, start: int, chain: seq<nat>, contents: set<nat>, size: nat,
          b: nat,
                 i: nat, h: nat, gone: set<nat>)
    requires 0 < size && |hashes| == |nextHash| && ChainOk(hashes, nextHash, start, chain, contents, size, b)
    requires h < |hashes| && h !in contents && b == hashes[h] % size && i <= |chain|
    requires gone == (if i < |chain| then {chain[i]} else {})
    ensures var linked := nextHash[h := Head(Rest(chain, i))];
      && (i == 0 ==> ChainOk(hashes, linked, h, With(chain, i, h), contents - gone + {h}, size, b))
      && (i > 0 ==> chain[i - 1] < |nextHash| && ChainOk(hashes, linked[chain[i - 1] := h], start, With(chain, i, h),
        contents - gone + {h}, size, b))
  {
    hide With;
    hide Rest;
    hide Chain;
    assert h !in chain;
    ChainMembers(hashes, nextHash, start, chain, contents, size, b);
    PutAt(nextHash, start, chain, i, h);
    Members(chain, i);
    WithMembers(chain, i, h);
  }

  lemma WithMembers(chain: seq<nat>, i: nat, h: nat)
    requires i <= |chain|
    ensures forall g :: g in With(chain, i, h) <==> g == h || g in chain[..i] + Rest(chain, i)
  {
  }

  lemma Members(chain: seq<nat>, i: nat)
    requires NoRepeat(chain) && i <= |chain|
    ensures forall g :: g in chain[..i] + Rest(chain, i) <==> g in chain && (i < |chain| ==> g != chain[i])
  {
  }

  lemma EmptyBuckets(hashes: seq<nat>, nextHash: seq<int>, n: nat)
    requires n > 0 && |hashes| == |nextHash|
    ensures Buckets(hashes, nextHash, seq(n, _ => NULL), seq(n, _ => []), {})
  {
  }

  ghost function SetOf(chain: seq<nat>): set<nat> {
    set h | h in chain
  }

  lemma SetOfNone(chain: seq<nat>)
    ensures SetOf(chain[..0]) == {}
  {
  }

  lemma SetOfNext(chain: seq<nat>, k: nat)
    requires k < |chain| && NoRepeat(chain)
    ensures SetOf(chain[..k + 1]) == SetOf(chain[..k]) + {chain[k]} && chain[k] !in SetOf(chain[..k]) &&
      chain[k] in chain
  {
  }

  lemma SizeOf(hashes: seq<nat>, nextHash: seq<int>, list: seq<int>, chains: seq<seq<nat>>, contents: set<nat>)
    requires Buckets(hashes, nextHash, list, chains, contents)
    ensures 0 < |list| == |chains| && |hashes| == |nextHash|
  {
  }

  lemma ChainEnd(nextHash: seq<int>, chain: seq<nat>, k: nat)
    requires k <= |chain| && Chain(nextHash, NULL, chain[k..])
    ensures k == |chain|
  {
  }

  lemma ChainStep(nextHash: seq<int>, h: int, chain: seq<nat>, k: nat)
    requires k <= |chain| && Chain(nextHash, h, chain[k..]) && h != NULL
    ensures k < |chain| && h == chain[k] && 0 <= h < |nextHash| && Chain(nextHash, nextHash[h], chain[k + 1..])
  {
  }

  lemma StillChain(nextHash: seq<int>, next: seq<int>, p: int, chain: seq<nat>, k: nat, h: nat)
    requires 0 < k <= |chain| && NoRepeat(chain) && h == chain[k - 1] && Chain(nextHash, p, chain[k..])
    requires |next| == |nextHash| && forall g :: 0 <= g < |next| && g != h ==> next[g] == nextHash[g]
    ensures Chain(next, p, chain[k..])
  {
  }

  /** A chain of handles not yet moved is untouched. */
  lemma Unmoved(hashes: seq<nat>, next0: seq<int>, next: seq<int>, p: int, chain: seq<nat>, contents: set<nat>,
          size: nat, i: nat, moved: set<nat>)
    requires 0 < size && ChainOk(hashes, next0, p, chain, contents, size, i) && |next| == |next0|
    requires moved == set h | h in contents && h < |hashes| && hashes[h] % size < i
    requires forall g :: 0 <= g < |next| && g !in moved ==> next[g] == next0[g]
    ensures Chain(next, p, chain) && NoRepeat(chain) && (forall h :: h in chain ==> h !in moved)
    ensures moved + SetOf(chain) == set h | h in contents && h < |hashes| && hashes[h] % size < i + 1
  {
  }

  /** Pushing a handle on the front of its bucket. */
  lemma PushBucket(hashes: seq<nat>, nextHash: seq<int>, list: seq<int>, chains: seq<seq<nat>>, contents: set<nat>,
          h: nat)
    requires Buckets(hashes, nextHash, list, chains, contents) && h < |hashes| && h !in contents
    ensures var b := hashes[h] % |list|;
      Buckets(hashes, nextHash[h := list[b]], list[b := h], chains[b := [h] + chains[b]], contents + {h})
  {
    var b := hashes[h] % |list|;
    var next := nextHash[h := list[b]];
    var chain := chains[b];
    assert ChainOk(hashes, nextHash, list[b], chain, contents, |list|, b);
    assert h !in chain;
    PushFront(nextHash, list[b], chain, h);
    var list', chains' := list[b := h], chains[b := [h] + chain];
    forall c | 0 <= c < |list|
      ensures ChainOk(hashes, next, list'[c], chains'[c], contents + {h}, |list|, c)
    {
      if c != b {
        OtherChain(hashes, nextHash, next, list[c], chains[c], contents, contents + {h}, |list|, c, b, h, chain,
          |chain|);
      }
    }
  }

  /** Links of bucket b's handles, and of a handle in no chain, are not on bucket c's chain. */
  lemma OtherChain(hashes: seq<nat>, nextHash: seq<int>, next: seq<int>, p: int, other: seq<nat>, contents: set<nat>,
          after: set<nat>,
                   size: nat, c: nat, b: nat, h: nat, chain: seq<nat>, i: nat)
    requires 0 < size && ChainOk(hashes, nextHash, p, other, contents, size, c) && c != b && |next| == |nextHash|
    requires forall g :: g in chain ==> g < |hashes| && hashes[g] % size == b
    requires forall g :: 0 <= g < |nextHash| && next[g] != nextHash[g] ==> g == h || g in chain
    requires h < |hashes| && (h in contents ==> hashes[h] % size == b) && i <= |chain| && hashes[h] % size == b
    requires after == contents - (if i < |chain| then {chain[i]} else {}) + {h} ||
      after == contents - (if i < |chain| then {chain[i]} else {})
    ensures ChainOk(hashes, next, p, other, after, size, c)
  {
    ChainStays(nextHash, next, p, other);
    assert i < |chain| ==> chain[i] in chain;
  }

  lemma RemoveBuckets(hashes: seq<nat>, nextHash: seq<int>, list: seq<int>, chains: seq<seq<nat>>, contents: set<nat>,
          b: nat, i: nat, p: Slot)
    requires Buckets(hashes, nextHash, list, chains, contents) && b < |list| && i < |chains[b]| &&
      chains[b][i] < |nextHash|
    requires p == (if i == 0 then Bucket(b) else Link(chains[b][i - 1])) && (p.Link? ==> p.h < |nextHash|)
    ensures var chain := chains[b];
      Buckets(hashes, PutNext(nextHash, p, nextHash[chain[i]]), PutList(list, p, nextHash[chain[i]]),
              chains[b := Minus(chain, i)], contents - {chain[i]})
  {
    var chain := chains[b];
    var less := Minus(chain, i);
    var next := PutNext(nextHash, p, nextHash[chain[i]]);
    assert less == chain[..i] + Rest(chain, i);
    assert ChainOk(hashes, nextHash, list[b], chain, contents, |list|, b);
    DropAt(nextHash, list[b], chain, i);
    Members(chain, i);
    assert chain[i] in chain;
    var list', chains' := PutList(list, p, nextHash[chain[i]]), chains[b := less];
    forall c | 0 <= c < |list|
      ensures ChainOk(hashes, next, list'[c], chains'[c], contents - {chain[i]}, |list|, c)
    {
      if c != b {
        OtherChain(hashes, nextHash, next, list[c], chains[c], contents, contents - {chain[i]}, |list|, c, b,
          chain[i], chain, i);
      }
    }
  }
}
