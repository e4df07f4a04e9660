/** The byte formats in numbers: laws and examples that name every constant of a stored form. */
module WireForms {
  import opened Keys
  import opened Format
  import opened Coding
  import Block
  import Crc
  import FilterBlock
  import LogFormat
  import MemTable
  import Store
  import VersionEdit
  import WriteBatch

  // ---- integers ------------------------------------------------------------------------------------------------

  /** Fixed-width integers put the lowest byte first. */
  lemma Fixed32Places(v: nat)
    requires v < 0x1_0000_0000
    ensures var b := Fixed32(v);
      v == b[0] as int + 0x100 * b[1] as int + 0x1_0000 * b[2] as int + 0x100_0000 * b[3] as int
  {
    hide Fixed32;
    Fixed32RoundTrip(v, []);
    assert Fixed32(v) + [] == Fixed32(v);
  }

  lemma Fixed64Places(v: nat, w: nat)
    requires v < 0x1_0000_0000 && w < 0x1_0000_0000
    ensures Fixed64(v + 0x1_0000_0000 * w) == Fixed32(v) + Fixed32(w)
  {
    hide Fixed32;
    LowAndHigh(v, w);
  }

  lemma LowAndHigh(v: nat, w: nat)
    requires v < 0x1_0000_0000
    ensures (v + 0x1_0000_0000 * w) % 0x1_0000_0000 == v && (v + 0x1_0000_0000 * w) / 0x1_0000_0000 == w
  {
  }

  lemma VarintExamples()
    ensures Varint(1) == [0x01] && Varint(127) == [0x7f] && Varint(128) == [0x80, 0x01] && Varint(300) == [0xac, 0x02]
    ensures Varint(0xffff_ffff) == [0xff, 0xff, 0xff, 0xff, 0x0f]
  {
    VarintStep(1);
    VarintStep(2);
    VarintStep(127);
    VarintStep(128);
    VarintStep(300);
    VarintStep(0xffff_ffff);
    VarintStep(0x1ff_ffff);
    VarintStep(0x3_ffff);
    VarintStep(0x7ff);
    VarintStep(0xf);
  }

  // ---- internal keys and memtable entries --------------------------------------------------------------------------

  /** Sequence number above, type below; the largest sequence number has 56 bits. */
  lemma TagExamples(k: Bytes)
    ensures Tag(IKey(k, 5, Value)) == 0x501 && Tag(IKey(k, 5, Deletion)) == 0x500
    ensures Tag(IKey(k, MAX_SEQUENCE, Value)) == 0xffff_ffff_ffff_ff01
  {
  }

  /** Key length with the tag, key, tag, value length, value. */
  lemma MemTableExample()
    ensures MemTable.Encode(Entry(IKey([0x6b], 5, Value), [0x76])) ==
      [0x09, 0x6b, 0x01, 0x05, 0, 0, 0, 0, 0, 0, 0x01, 0x76]
  {
    VarintStep(9);
    VarintStep(1);
    assert Fixed64(0x501) == [0x01, 0x05, 0, 0, 0, 0, 0, 0];
  }

  // ---- the log ---------------------------------------------------------------------------------------------------

  lemma FragmentTypes()
    ensures LogFormat.FragmentType(true, true) == 1 && LogFormat.FragmentType(true, false) == 2
    ensures LogFormat.FragmentType(false, false) == 3 && LogFormat.FragmentType(false, true) == 4
  {
  }

  /** Masked checksum of type and payload, length, type, payload. */
  lemma RecordLayout(t: byte, data: Bytes)
    requires |data| < 0x1_0000
    ensures var r := LogFormat.Physical(t, data);
      && |r| == 7 + |data| && r[7..] == data && r[6] == t
      && |data| == r[4] as int + 0x100 * r[5] as int
      && r[..4] == Fixed32(Crc.Mask(Crc.Value(LogFormat.Octets([t] + data))) as int)
  {
    hide Crc.Mask;
    hide Crc.ExtendBytes;
    hide Fixed32;
    Crc.ExtendConcat(Crc.ZERO, LogFormat.Octets([t]), LogFormat.Octets(data));
    assert LogFormat.Octets([t] + data) == LogFormat.Octets([t]) + LogFormat.Octets(data);
  }

  lemma EmptyChecksum()
    ensures Crc.Value([0x01]) == 0xa016d052
  {
    hide Crc.Bit;
    Crc.FoldNone(0xffffffff);
    Crc.FoldSnoc(0xffffffff, [], 0x01);
    assert [] + [0x01 as bv8] == [0x01];
    Crc.Bits8(Crc.Xor(0xffffffff, Crc.Byte(0x01)));
    EmptyShifts();
  }

  lemma EmptyShifts()
    ensures var l := Crc.Xor(0xffffffff, Crc.Byte(0x01));
      Crc.Bit(Crc.Bit(Crc.Bit(Crc.Bit(Crc.Bit(Crc.Bit(Crc.Bit(Crc.Bit(l)))))))) == 0x5fe92fad
  {
  }

  /** An empty record as it is stored. */
  lemma EmptyRecord()
    ensures LogFormat.Physical(1, []) == [0x05, 0x2b, 0x28, 0x43, 0, 0, 1]
  {
    hide Crc.Mask;
    hide Crc.Value;
    hide LogFormat.Physical;
    var o := LogFormat.Octets([1] + []);
    assert o == [0x01];
    RecordLayout(1, []);
    EmptyChecksum();
    MaskedEmpty();
    assert Fixed32(0x43282b05) == [0x05, 0x2b, 0x28, 0x43];
    hide Fixed32;
    var r := LogFormat.Physical(1, []);
    assert r == r[..4] + [r[4], r[5], r[6]] + r[7..];
  }

  lemma MaskedEmpty()
    ensures Crc.Mask(0xa016d052) as int == 0x43282b05
  {
  }

  /** A tail too short for a header is filled with zeros. */
  lemma TrailerIsZero(off: nat)
    requires off <= 32768
    ensures |LogFormat.Pad(off)| == (if off > 32761 then 32768 - off else 0)
    ensures forall i :: 0 <= i < |LogFormat.Pad(off)| ==> LogFormat.Pad(off)[i] == 0
  {
  }

  /** No fragment crosses a 32768-byte boundary, a tail too short for a header is skipped, and no fragment is shorter
      than it could be. */
  lemma FragmentSpan(off: nat, left: nat)
    requires off <= 32768
    ensures LogFormat.Start(off) == if off > 32761 then 0 else off
    ensures var room := 32768 - LogFormat.Start(off) - 7;
      LogFormat.FragmentLength(off, left) == if left < room then left else room
  {
  }

  // ---- write batches ---------------------------------------------------------------------------------------------

  /** Sequence number, count, then tag 1 with key and value for a put, tag 0 with the key for a deletion. */
  lemma BatchExample()
    ensures WriteBatch.RecordBytes(Store.Record(100, [Store.Put([0x66], [0x62, 0x61]), Store.Del([0x78])])) ==
      [100, 0, 0, 0, 0, 0, 0, 0, 2, 0, 0, 0, 1, 1, 0x66, 2, 0x62, 0x61, 0, 1, 0x78]
  {
    VarintStep(1);
    VarintStep(2);
    var a, b := Store.Put([0x66], [0x62, 0x61]), Store.Del([0x78]);
    assert WriteBatch.EncodeOps([b]) == WriteBatch.EncodeOp(b) + WriteBatch.EncodeOps([]);
    assert [a, b][1..] == [b];
    assert WriteBatch.EncodeOps([a, b]) == WriteBatch.EncodeOp(a) + WriteBatch.EncodeOps([b]);
  }

  // ---- version edits ------------------------------------------------------------------------------------------------

  /** The tag of every field; a number follows it. */
  lemma NumberFields(n: nat)
    ensures VersionEdit.EncodeField(VersionEdit.LogNumber(n)) == [2] + Varint(n)
    ensures VersionEdit.EncodeField(VersionEdit.NextFile(n)) == [3] + Varint(n)
    ensures VersionEdit.EncodeField(VersionEdit.LastSequence(n)) == [4] + Varint(n)
    ensures VersionEdit.EncodeField(VersionEdit.PrevLogNumber(n)) == [9] + Varint(n)
  {
    VarintStep(2);
    VarintStep(3);
    VarintStep(4);
    VarintStep(9);
    hide Varint;
  }

  lemma NameField(name: Bytes)
    ensures VersionEdit.EncodeField(VersionEdit.Comparator(name)) == [1] + LengthPrefixed(name)
  {
    VarintStep(1);
    hide Varint;
  }

  lemma PointerField(level: nat, key: Bytes)
    ensures VersionEdit.EncodeField(VersionEdit.Pointer(level, key)) == [5] + (Varint(level) + LengthPrefixed(key))
  {
    VarintStep(5);
    hide Varint;
  }

  lemma DeletedField(level: nat, n: nat)
    ensures VersionEdit.EncodeField(VersionEdit.Deleted(level, n)) == [6] + (Varint(level) + Varint(n))
  {
    VarintStep(6);
    hide Varint;
  }

  lemma AddedField(level: nat, m: VersionEdit.Meta)
    ensures VersionEdit.EncodeField(VersionEdit.Added(level, m)) ==
      [7] + (Varint(level) + (Varint(m.number) +
        (Varint(m.size) + (LengthPrefixed(m.smallest) + LengthPrefixed(m.largest)))))
  {
    VarintStep(7);
    hide Varint;
  }

  // ---- blocks and filter blocks ----------------------------------------------------------------------------------

  /** Shared length, own length, value length, own bytes, value. */
  lemma BlockEntryExample()
    ensures Block.Encoded(3, Block.KV([0x61, 0x62, 0x63, 0x64], [0x78])) == [3, 1, 1, 0x64, 0x78]
  {
    VarintStep(3);
    VarintStep(1);
  }

  function TwoEntries(): Block.Layout {
    Block.Layout([Block.KV([0x61], [0x78]), Block.KV([0x61, 0x62], [0x79])], [0, 5, 10], [0, 1], [0])
  }

  lemma TwoEncoded()
    ensures Block.Encoded(0, TwoEntries().entries[0]) == [0, 1, 1, 0x61, 0x78]
    ensures Block.Encoded(1, TwoEntries().entries[1]) == [1, 1, 1, 0x62, 0x79]
  {
    VarintStep(0);
    VarintStep(1);
  }

  lemma TwoShape()
    ensures Block.Shape(TwoEntries())
  {
    var l := TwoEntries();
    TwoEncoded();
    hide Block.Encoded;
    assert l.entries[0].key[..1] == l.entries[1].key[..1];
    assert Block.EntryFits(l, 0) && Block.EntryFits(l, 1);
  }

  lemma TwoTail()
    ensures Block.Shape(TwoEntries())
    ensures Block.RestartArray(TwoEntries(), 1) + Fixed32(1) == [0, 0, 0, 0, 1, 0, 0, 0]
  {
    TwoShape();
    hide Block.Shape;
    assert Block.RestartArray(TwoEntries(), 0) == [];
    assert Fixed32(0) == [0, 0, 0, 0] && Fixed32(1) == [1, 0, 0, 0];
  }

  lemma ThreeParts(data: Bytes, a: Bytes, b: Bytes, c: Bytes)
    requires |a| == |b| == 5 && |c| == 8
    ensures data == a + b + c <==> |data| == 18 && data[0..5] == a && data[5..10] == b && data[10..] == c
  {
    if |data| == 18 {
      assert data == data[0..5] + data[5..10] + data[10..];
    }
    var s := a + b + c;
    assert s[0..5] == a && s[5..10] == b && s[10..] == c;
  }

  /** A whole block: two entries, the restart offset and the number of restarts in four bytes each. */
  lemma BlockExample(data: Bytes)
    ensures Block.Describes(data, TwoEntries()) <==>
      data == [0, 1, 1, 0x61, 0x78] + [1, 1, 1, 0x62, 0x79] + [0, 0, 0, 0, 1, 0, 0, 0]
  {
    var l := TwoEntries();
    TwoShape();
    TwoEncoded();
    TwoTail();
    ThreeParts(data, [0, 1, 1, 0x61, 0x78], [1, 1, 1, 0x62, 0x79], [0, 0, 0, 0, 1, 0, 0, 0]);
    hide Block.Encoded;
    hide Block.Shape;
    hide Block.RestartArray;
    hide Fixed32;
    if Block.Body(data, l) {
      assert Block.EntryHeld(data, l, 0) && Block.EntryHeld(data, l, 1);
    }
  }

  /** A filter block ends with where its offsets start and the base 2^11. */
  lemma FilterTrailer(p: FilterBlock.Policy, groups: seq<seq<Bytes>>, data: Bytes)
    requires FilterBlock.Finished(p, groups, data)
    ensures |data| >= 5 && data[|data| - 1] == 11
    ensures data[|data| - 5..|data| - 1] == Fixed32(|FilterBlock.Filters(p, groups)|)
    ensures FilterBlock.BASE == 2048
  {
    hide Fixed32;
  }
}
