/** Reading any prefix of a written log returns exactly the records wholly inside it, and reports nothing as corrupt. */
module LogRoundTrip {
  import opened Keys
  import opened Coding
  import opened LogFormat
  import opened LogReader

  // ---- one physical record --------------------------------------------------------------------------

  predicate Fits(p: nat, data: Bytes) {
    p % BLOCK_SIZE + HEADER_SIZE + |data| <= BLOCK_SIZE
  }

  predicate RealType(t: byte) {
    t == FULL || t == FIRST || t == MIDDLE || t == LAST
  }

  /** The header fields, read back. */
  lemma HeaderBack(file: Bytes, p: nat, t: byte, data: Bytes)
    requires |data| < 65536 && Holds(file, p, Physical(t, data))
    ensures LengthAt(file, p) == |data| && file[p + 6] == t
    ensures DecodeFixed32(file[p..]) == StoredCrc(t, data)
    ensures file[p + 6..p + HEADER_SIZE + |data|] == [t] + data
    ensures file[p + HEADER_SIZE..p + HEADER_SIZE + |data|] == data
  {
    hide StoredCrc;
    hide Fixed32;
    hide DecodeFixed32;
    var c := Fixed32(StoredCrc(t, data));
    var h := [|data| % 256, |data| / 256, t];
    assert Physical(t, data) == c + (h + data);
    HoldsParts(file, p, c, h + data);
    HoldsParts(file, p + 4, h, data);
    assert file[p + 4..p + 7] == h;
    assert file[p + 4] == h[0] && file[p + 5] == h[1] && file[p + 6] == h[2];
    assert file[p..] == c + file[p + 4..];
    Fixed32RoundTrip(StoredCrc(t, data), file[p + 4..]);
    assert file[p + 6..p + HEADER_SIZE + |data|] == [file[p + 6]] + file[p + 7..p + HEADER_SIZE + |data|];
  }

  /** A whole physical record reads back as itself. */
  lemma ReadBack(file: Bytes, p: nat, t: byte, data: Bytes)
    requires Fits(p, data) && RealType(t) && Holds(file, p, Physical(t, data))
    ensures ReadPhys(file, p) == Phys(Record(t, data), p + HEADER_SIZE + |data|, 0)
  {
    hide StoredCrc;
    hide CrcMatches;
    hide DecodeFixed32;
    hide Physical;
    HeaderBack(file, p, t, data);
    StoredMatches(t, data);
    assert InBlock(file, p) >= HEADER_SIZE + |data|;
  }

  /** A record the file breaks off inside of reads as the end of the file, not as corruption. */
  lemma ReadCut(full: Bytes, m: nat, p: nat, t: byte, data: Bytes)
    requires Fits(p, data) && Holds(full, p, Physical(t, data))
    requires p <= m < p + HEADER_SIZE + |data|
    ensures ReadPhys(full[..m], p) == Phys(Eof, m, 0)
  {
    hide StoredCrc;
    hide CrcMatches;
    hide DecodeFixed32;
    hide Physical;
    var file := full[..m];
    assert InBlock(file, p) == m - p && !BlockComplete(file, p);
    if m - p >= HEADER_SIZE {
      HeaderBack(full, p, t, data);
      assert LengthAt(file, p) == LengthAt(full, p);
    }
  }

  /** A trailer too short for a header is skipped when it is all there, and ends the file otherwise. */
  lemma ReadTrailer(file: Bytes, p: nat)
    requires p <= |file| && BLOCK_SIZE - p % BLOCK_SIZE < HEADER_SIZE
    ensures var q := p + (BLOCK_SIZE - p % BLOCK_SIZE);
      if q <= |file| then ReadPhys(file, p) == ReadPhys(file, q) else ReadPhys(file, p) == Phys(Eof, |file|, 0)
  {
    hide ReadHeader;
  }

  /** Padding and fragment together: read whole, or the end of the file. */
  lemma ReadFragment(full: Bytes, m: nat, p: nat, t: byte, data: Bytes)
    requires p <= m <= |full| && RealType(t)
    requires Start(p % BLOCK_SIZE) + HEADER_SIZE + |data| <= BLOCK_SIZE
    requires Holds(full, p, Pad(p % BLOCK_SIZE) + Physical(t, data))
    ensures var q := p + |Pad(p % BLOCK_SIZE)| + HEADER_SIZE + |data|;
      ReadPhys(full[..m], p) == if q <= m then Phys(Record(t, data), q, 0) else Phys(Eof, m, 0)
  {
    hide Physical;
    hide ReadPhys;
    hide Pad;
    var pad := Pad(p % BLOCK_SIZE);
    var q := p + |pad|;
    HoldsParts(full, p, pad, Physical(t, data));
    if BLOCK_SIZE - p % BLOCK_SIZE < HEADER_SIZE {
      ReadTrailer(full[..m], p);
      BlockEnd(p, |pad|);
    }
    if q <= m {
      if q + HEADER_SIZE + |data| <= m {
        HoldsInPrefix(full, m, q, Physical(t, data));
        ReadBack(full[..m], q, t, data);
      } else {
        ReadCut(full, m, q, t, data);
      }
    }
  }

  // ---- one record -------------------------------------------------------------------------------------

  lemma FragmentsUnfold(off: nat, data: Bytes, begin: bool)
    requires off < BLOCK_SIZE
    ensures var n := FragmentLength(off, |data|);
      Fragments(off, data, begin) == Pad(off) + Physical(FragmentType(begin, n == |data|), data[..n]) +
        (if n == |data| then [] else Fragments(0, data[n..], false))
  {
    hide Physical;
    hide Pad;
    var n := FragmentLength(off, |data|);
    if n < |data| {
      FreshBlock(data[n..], false);
    }
  }

  lemma EndOfFragment(p: nat, n: nat)
    requires Start(p % BLOCK_SIZE) + HEADER_SIZE + n == BLOCK_SIZE
    ensures (p + |Pad(p % BLOCK_SIZE)| + HEADER_SIZE + n) % BLOCK_SIZE == 0
  {
    var off := p % BLOCK_SIZE;
    if BLOCK_SIZE - off < HEADER_SIZE {
      BlockEnd(p, BLOCK_SIZE - off);
      BlockEnd(p + (BLOCK_SIZE - off), HEADER_SIZE + n);
    } else {
      BlockEnd(p, HEADER_SIZE + n);
    }
  }

  /** The rest of a record, its fragments cut off at m or not: read whole, or the end of the file with nothing
      reported. */
  lemma {:induction false} ReadFragments(full: Bytes, m: nat, p: nat, data: Bytes, begin: bool, scratch: Bytes)
    requires p <= m <= |full| && Holds(full, p, Fragments(p % BLOCK_SIZE, data, begin))
    requires begin ==> scratch == []
    ensures var q := p + |Fragments(p % BLOCK_SIZE, data, begin)|;
      ReadLogical(full[..m], p, scratch, !begin, 0) ==
        if q <= m then Outcome(Some(scratch + data), q, 0) else Outcome(None, m, 0)
    decreases |data|, if p % BLOCK_SIZE == BLOCK_SIZE - HEADER_SIZE then 1 else 0
  {
    hide Physical;
    hide ReadPhys;
    hide ReadLogical;
    hide Pad;
    hide Fragments;
    hide Holds;
    var off := p % BLOCK_SIZE;
    var n := FragmentLength(off, |data|);
    var t := FragmentType(begin, n == |data|);
    var first := Pad(off) + Physical(t, data[..n]);
    var more := if n == |data| then [] else Fragments(0, data[n..], false);
    FragmentsUnfold(off, data, begin);
    HoldsParts(full, p, first, more);
    ReadFragment(full, m, p, t, data[..n]);
    var q := p + |first|;
    if q > m {
      LogicalEnd(full[..m], p, scratch, !begin);
    } else {
      LogicalStep(full[..m], p, q, t, data[..n], scratch, begin);
      if n == |data| {
        assert data[..n] == data && [] + data == data;
      } else {
        EndOfFragment(p, n);
        ReadFragments(full, m, q, data[n..], false, scratch + data[..n]);
        assert scratch + data[..n] + data[n..] == scratch + data;
      }
    }
  }

  lemma LogicalEnd(file: Bytes, p: nat, scratch: Bytes, inFragmented: bool)
    requires p <= |file| && ReadPhys(file, p) == Phys(Eof, |file|, 0)
    ensures ReadLogical(file, p, scratch, inFragmented, 0) == Outcome(None, |file|, 0)
  {
    hide ReadPhys;
  }

  lemma LogicalStep(file: Bytes, p: nat, q: nat, t: byte, data: Bytes, scratch: Bytes, begin: bool)
    requires p <= |file| && q <= |file| && ReadPhys(file, p) == Phys(Record(t, data), q, 0)
    requires begin ==> scratch == []
    requires if begin then t == FULL || t == FIRST else t == MIDDLE || t == LAST
    ensures ReadLogical(file, p, scratch, !begin, 0) ==
      if t == FULL || t == LAST then Outcome(Some(scratch + data), q, 0)
        else ReadLogical(file, q, scratch + data, true, 0)
  {
    hide ReadPhys;
    assert [] + data == data;
  }

  // ---- the whole log ------------------------------------------------------------------------------------

  /** How many of the records written from block offset off on lie wholly in the next n bytes. */
  function Whole(off: nat, rs: seq<Bytes>, n: nat): (k: nat)
    requires off < BLOCK_SIZE
    ensures k <= |rs|
    decreases |rs|
  {
    if rs == [] then 0 else
      var f := |Fragments(off, rs[0], true)|;
      if f <= n then 1 + Whole((off + f) % BLOCK_SIZE, rs[1..], n - f) else 0
  }

  /** Whole is the longest run of records that fits. */
  lemma {:induction false} WholeIsLongest(off: nat, rs: seq<Bytes>, n: nat)
    requires off < BLOCK_SIZE
    ensures var k := Whole(off, rs, n);
      && |Written(off, rs[..k])| <= n
      && (k < |rs| ==> n < |Written(off, rs[..k + 1])|)
    decreases |rs|
  {
    hide Fragments;
    if rs != [] {
      var f := Fragments(off, rs[0], true);
      if |f| <= n {
        var next := (off + |f|) % BLOCK_SIZE;
        WholeIsLongest(next, rs[1..], n - |f|);
        var k := Whole(next, rs[1..], n - |f|);
        assert rs[..k + 1][0] == rs[0] && rs[..k + 1][1..] == rs[1..][..k];
        if k < |rs[1..]| {
          assert rs[..k + 2][0] == rs[0] && rs[..k + 2][1..] == rs[1..][..k + 1];
        }
      } else {
        assert rs[..1][0] == rs[0] && |rs[..1][1..]| == 0;
      }
    }
  }

  lemma NextOffset(p: nat, off: nat, n: nat)
    requires off == p % BLOCK_SIZE
    ensures (off + n) % BLOCK_SIZE == (p + n) % BLOCK_SIZE
  {
    OffsetSum(p, n);
  }

  lemma WrittenUnfold(off: nat, rs: seq<Bytes>, n: nat)
    requires off < BLOCK_SIZE && rs != []
    ensures var f := Fragments(off, rs[0], true);
      && Written(off, rs) == f + Written((off + |f|) % BLOCK_SIZE, rs[1..])
      && Whole(off, rs, n) == (if |f| <= n then 1 + Whole((off + |f|) % BLOCK_SIZE, rs[1..], n - |f|) else 0)
  {
    hide Fragments;
  }

  lemma {:induction false} ReadsWritten(full: Bytes, m: nat, p: nat, off: nat, rs: seq<Bytes>)
    requires p <= m <= |full| && off == p % BLOCK_SIZE
    requires Holds(full, p, Written(off, rs)) && |full| == p + |Written(off, rs)|
    ensures ReadAll(full[..m], p) == (rs[..Whole(off, rs, m - p)], 0)
    decreases |rs|
  {
    hide Fragments;
    hide Holds;
    hide ReadPhys;
    hide ReadLogical;
    AllUnfold(full[..m], p);
    if rs == [] {
      ReadNothing(full[..m]);
    } else {
      hide Written;
      hide Whole;
      hide ReadAll;
      var f := Fragments(off, rs[0], true);
      var next := (off + |f|) % BLOCK_SIZE;
      WrittenUnfold(off, rs, m - p);
      HoldsParts(full, p, f, Written(next, rs[1..]));
      ReadFragments(full, m, p, rs[0], true, []);
      assert [] + rs[0] == rs[0];
      if p + |f| <= m {
        NextOffset(p, off, |f|);
        ReadsWritten(full, m, p + |f|, next, rs[1..]);
        var k := Whole(next, rs[1..], m - p - |f|);
        assert rs[..k + 1] == [rs[0]] + rs[1..][..k];
      }
    }
  }

  lemma AllUnfold(file: Bytes, p: nat)
    requires p <= |file|
    ensures var o := ReadLogical(file, p, [], false, 0);
      ReadAll(file, p) ==
        if o.record.None? then ([], o.dropped)
        else ([o.record.value] + ReadAll(file, o.at).0, o.dropped + ReadAll(file, o.at).1)
  {
    hide ReadLogical;
  }

  lemma ReadNothing(file: Bytes)
    ensures ReadAll(file, |file|) == ([], 0)
  {
    assert ReadPhys(file, |file|) == Phys(Eof, |file|, 0);
  }

  /** The main result: any byte prefix of any written log gives back exactly the records wholly inside it, with no
      corruption reported; the whole log gives back every record. */
  lemma LogRoundTrip(rs: seq<Bytes>, m: nat)
    requires m <= |Written(0, rs)|
    ensures ReadAll(Written(0, rs)[..m], 0) == (rs[..Whole(0, rs, m)], 0)
    ensures m == |Written(0, rs)| ==> Whole(0, rs, m) == |rs|
  {
    hide Fragments;
    var full := Written(0, rs);
    assert full[0..|full|] == full;
    ReadsWritten(full, m, 0, 0, rs);
    WholeIsLongest(0, rs, m);
    if m == |full| && Whole(0, rs, m) < |rs| {
      PrefixShorter(0, rs, Whole(0, rs, m) + 1);
    }
  }

  lemma {:induction false} PrefixShorter(off: nat, rs: seq<Bytes>, k: nat)
    requires off < BLOCK_SIZE && k <= |rs|
    ensures |Written(off, rs[..k])| <= |Written(off, rs)|
    decreases |rs|
  {
    hide Fragments;
    if k > 0 {
      var f := Fragments(off, rs[0], true);
      PrefixShorter((off + |f|) % BLOCK_SIZE, rs[1..], k - 1);
      assert rs[..k][0] == rs[0] && rs[..k][1..] == rs[1..][..k - 1];
    }
  }
}
