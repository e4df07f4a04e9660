/** The write-ahead log: records cut into checksummed fragments that never straddle a block, and the reader that joins
    them. */
module LogFormat {
  import opened Keys
  import opened Coding
  import Crc

  const BLOCK_SIZE := 32768
  const HEADER_SIZE := 7

  const FULL: byte := 1
  const FIRST: byte := 2
  const MIDDLE: byte := 3
  const LAST: byte := 4

  // ---- checksums ------------------------------------------------------------------------------------

  function Octets(s: Bytes): (r: seq<bv8>)
    ensures |r| == |s|
  {
    seq(|s|, i requires 0 <= i < |s| => s[i] as bv8)
  }

  /** What the writer stores: the type's CRC extended by the payload, masked. */
  function StoredCrc(t: byte, data: Bytes): (r: nat)
    ensures r < TWO_32
  {
    Crc.Mask(Crc.ExtendBytes(Crc.Value(Octets([t])), Octets(data))) as int
  }

  /** What the reader checks: the unmasked stored value against the CRC of type and payload together. */
  predicate CrcMatches(stored: nat, body: Bytes)
    requires stored < TWO_32
  {
    Crc.Unmask(stored as bv32) == Crc.Value(Octets(body))
  }

  lemma StoredMatches(t: byte, data: Bytes)
    ensures CrcMatches(StoredCrc(t, data), [t] + data)
  {
    hide Crc.ExtendBytes;
    hide Crc.Mask;
    hide Crc.Unmask;
    var c := Crc.ExtendBytes(Crc.Value(Octets([t])), Octets(data));
    Crc.UnmaskMask(c);
    Crc.ExtendConcat(Crc.ZERO, Octets([t]), Octets(data));
    assert Octets([t] + data) == Octets([t]) + Octets(data);
    ThereAndBack(Crc.Mask(c));
  }

  lemma ThereAndBack(x: bv32)
    ensures (x as int) as bv32 == x
  {
  }

  // ---- the written form --------------------------------------------------------------------------------

  /** A physical record: checksum, length, type, payload. */
  function Physical(t: byte, data: Bytes): (r: Bytes)
    requires |data| < 65536
    ensures |r| == HEADER_SIZE + |data|
  {
    Fixed32(StoredCrc(t, data)) + [|data| % 256, |data| / 256, t] + data
  }

  /** Where the next fragment starts, given the offset in the current block: too short a tail is left empty. */
  function Start(off: nat): (r: nat)
    requires off <= BLOCK_SIZE
    ensures r + HEADER_SIZE <= BLOCK_SIZE
  {
    if BLOCK_SIZE - off < HEADER_SIZE then 0 else off
  }

  function Zeros(n: nat): (r: Bytes)
    ensures |r| == n
  {
    seq(n, _ => 0)
  }

  function Pad(off: nat): (r: Bytes)
    requires off <= BLOCK_SIZE
    ensures BLOCK_SIZE - off < HEADER_SIZE ==> |r| == BLOCK_SIZE - off
    ensures BLOCK_SIZE - off >= HEADER_SIZE ==> r == []
  {
    if BLOCK_SIZE - off < HEADER_SIZE then Zeros(BLOCK_SIZE - off) else []
  }

  function FragmentLength(off: nat, left: nat): (n: nat)
    requires off <= BLOCK_SIZE
    ensures n <= left && Start(off) + HEADER_SIZE + n <= BLOCK_SIZE
    ensures n < left ==> Start(off) + HEADER_SIZE + n == BLOCK_SIZE
  {
    var avail := BLOCK_SIZE - Start(off) - HEADER_SIZE;
    if left < avail then left else avail
  }

  function FragmentType(begin: bool, end: bool): byte {
    if begin && end then FULL else if begin then FIRST else if end then LAST else MIDDLE
  }

  /** The bytes that carry the rest of a record, from block offset off on. */
  function Fragments(off: nat, data: Bytes, begin: bool): (r: Bytes)
    requires off <= BLOCK_SIZE
    ensures |r| >= HEADER_SIZE
    decreases |data|, if off == BLOCK_SIZE - HEADER_SIZE then 1 else 0
  {
    var n := FragmentLength(off, |data|);
    Pad(off) + Physical(FragmentType(begin, n == |data|), data[..n]) +
      (if n == |data| then [] else Fragments(BLOCK_SIZE, data[n..], false))
  }

  /** A whole log written from block offset off on. */
  function Written(off: nat, rs: seq<Bytes>): Bytes
    requires off < BLOCK_SIZE
    decreases |rs|
  {
    if rs == [] then [] else
      var f := Fragments(off, rs[0], true);
      f + Written((off + |f|) % BLOCK_SIZE, rs[1..])
  }

  lemma {:induction false} WrittenSnoc(off: nat, rs: seq<Bytes>, r: Bytes)
    requires off < BLOCK_SIZE
    ensures Written(off, rs + [r]) == Written(off, rs) + Fragments((off + |Written(off, rs)|) % BLOCK_SIZE, r, true)
    decreases |rs|
  {
    hide Fragments;
    if rs == [] {
      assert rs + [r] == [r] && [r][1..] == [];
    } else {
      var f := Fragments(off, rs[0], true);
      OffsetSum(off + |f|, |Written((off + |f|) % BLOCK_SIZE, rs[1..])|);
      assert off + |Written(off, rs)| == off + |f| + |Written((off + |f|) % BLOCK_SIZE, rs[1..])|;
      WrittenSnoc((off + |f|) % BLOCK_SIZE, rs[1..], r);
      assert (rs + [r])[0] == rs[0] && (rs + [r])[1..] == rs[1..] + [r];
    }
  }

  lemma FreshBlock(data: Bytes, begin: bool)
    ensures Fragments(BLOCK_SIZE, data, begin) == Fragments(0, data, begin)
  {
  }

  // ---- the writer ----------------------------------------------------------------------------------------

  class Writer {
    var file: Bytes
    var blockOffset: nat
    /** The records added so far. */
    ghost var records: seq<Bytes>

    ghost predicate Valid()
      reads this
    {
      && blockOffset <= BLOCK_SIZE && blockOffset % BLOCK_SIZE == |file| % BLOCK_SIZE
      && file == Written(0, records)
    }

    constructor ()
      ensures Valid() && records == []
    {
      file, blockOffset, records := [], 0, [];
    }

    method EmitPhysicalRecord(t: byte, data: Bytes)
      requires blockOffset + HEADER_SIZE + |data| <= BLOCK_SIZE
      modifies `file, `blockOffset
      ensures file == old(file) + Physical(t, data) && blockOffset == old(blockOffset) + HEADER_SIZE + |data|
    {
      var header := Fixed32(StoredCrc(t, data)) + [|data| % 256, |data| / 256, t];
      file := file + header;
      file := file + data;
      blockOffset := blockOffset + HEADER_SIZE + |data|;
    }

    /** One turn of the loop: fill what is left of a block that cannot hold a header, then emit what fits. */
    method EmitFragment(left: Bytes, begin: bool) returns (rest: Bytes, end: bool)
      requires blockOffset <= BLOCK_SIZE
      modifies `file, `blockOffset
      ensures var off, n := old(blockOffset), FragmentLength(old(blockOffset), |left|);
        && file == old(file) + Pad(off) + Physical(FragmentType(begin, n == |left|), left[..n])
        && blockOffset == Start(off) + HEADER_SIZE + n && rest == left[n..] && end == (n == |left|)
        && |file| - blockOffset == |old(file)| - off + (if BLOCK_SIZE - off < HEADER_SIZE then BLOCK_SIZE else 0)
    {
      hide Physical;
      hide Fixed32;
      var leftover := BLOCK_SIZE - blockOffset;
      if leftover < HEADER_SIZE {
        file := file + Zeros(leftover);
        blockOffset := 0;
      } else {
        assert file + Pad(blockOffset) == file;
      }
      var avail := BLOCK_SIZE - blockOffset - HEADER_SIZE;
      var n := if |left| < avail then |left| else avail;
      end := |left| == n;
      EmitPhysicalRecord(FragmentType(begin, end), left[..n]);
      rest := left[n..];
    }

    /** Cut the record into fragments until nothing is left; an empty record still gets one. */
    method AddRecord(slice: Bytes)
      requires Valid()
      modifies this
      ensures Valid() && records == old(records) + [slice]
    {
      hide Physical;
      hide Pad;
      hide Written;
      hide Fragments;
      var left, begin, end := slice, true, false;
      ghost var start, blocks := blockOffset % BLOCK_SIZE, (|file| - blockOffset) / BLOCK_SIZE;
      StartOf(blockOffset, slice, true);
      Aligned(|file|, blockOffset);
      while !end
        invariant blockOffset <= BLOCK_SIZE && records == old(records)
        invariant !end ==> file + Fragments(blockOffset, left, begin) == old(file) + Fragments(start, slice, true)
        invariant end ==> file == old(file) + Fragments(start, slice, true)
        invariant |file| - blockOffset == BLOCK_SIZE * blocks
        decreases !end, |left|, blockOffset == BLOCK_SIZE - HEADER_SIZE
      {
        FragmentsStep(file, blockOffset, left, begin);
        blocks := blocks + (if BLOCK_SIZE - blockOffset < HEADER_SIZE then 1 else 0);
        left, end := EmitFragment(left, begin);
        begin := false;
      }
      Multiple(|file|, blockOffset, blocks);
      WrittenSnoc(0, records, slice);
      records := records + [slice];
    }
  }

  lemma Aligned(length: nat, off: nat)
    requires length % BLOCK_SIZE == off % BLOCK_SIZE
    ensures length - off == BLOCK_SIZE * ((length - off) / BLOCK_SIZE)
  {
  }

  lemma Multiple(length: nat, off: nat, blocks: int)
    requires length - off == BLOCK_SIZE * blocks
    ensures length % BLOCK_SIZE == off % BLOCK_SIZE
  {
  }

  /** Offsets add up block by block. */
  lemma OffsetSum(a: nat, b: nat)
    ensures (a % BLOCK_SIZE + b) % BLOCK_SIZE == (a + b) % BLOCK_SIZE
  {
  }

  lemma StartOf(off: nat, data: Bytes, begin: bool)
    requires off <= BLOCK_SIZE
    ensures Fragments(off % BLOCK_SIZE, data, begin) == Fragments(off, data, begin)
  {
    hide Fragments;
    if off == BLOCK_SIZE {
      FreshBlock(data, begin);
    } else {
      assert off % BLOCK_SIZE == off;
    }
  }

  /** One turn of the loop emits the first fragment of what remains. */
  lemma FragmentsStep(before: Bytes, off: nat, left: Bytes, begin: bool)
    requires off <= BLOCK_SIZE
    ensures var n := FragmentLength(off, |left|);
      var file := before + Pad(off) + Physical(FragmentType(begin, n == |left|), left[..n]);
      && (n == |left| ==> file == before + Fragments(off, left, begin))
      && (n < |left| ==>
            Start(off) + HEADER_SIZE + n == BLOCK_SIZE &&
            file + Fragments(BLOCK_SIZE, left[n..], false) == before + Fragments(off, left, begin))
  {
    hide Physical;
    hide Pad;
    var n := FragmentLength(off, |left|);
    var p := Pad(off) + Physical(FragmentType(begin, n == |left|), left[..n]);
    assert before + Pad(off) + Physical(FragmentType(begin, n == |left|), left[..n]) == before + p;
    if n == |left| {
      assert p + [] == p;
    } else {
      assert before + p + Fragments(BLOCK_SIZE, left[n..], false) == before +
        (p + Fragments(BLOCK_SIZE, left[n..], false));
    }
  }
}
