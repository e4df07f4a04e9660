/** A damaged log: what a bad fragment costs, and which damage is always found. */
module LogDamage {
  import opened Keys
  import opened Coding
  import opened LogFormat
  import opened LogReader
  import opened LogRoundTrip
  import BitVectors
  import Crc
  import CrcErrors

  // ---- where fragments start ------------------------------------------------------------------------------

  /** One of the fragments of a record written from block offset off on has its header d bytes in. */
  predicate HeaderAt(off: nat, data: Bytes, d: nat)
    requires off < BLOCK_SIZE
    decreases |data|, if off == BLOCK_SIZE - HEADER_SIZE then 1 else 0
  {
    var n := FragmentLength(off, |data|);
    var first := |Pad(off)| + HEADER_SIZE + n;
    d == |Pad(off)| || (n < |data| && d >= first && HeaderAt(0, data[n..], d - first))
  }

  lemma HeaderNext(off: nat, data: Bytes, d: nat)
    requires off < BLOCK_SIZE && HeaderAt(off, data, d) && d != |Pad(off)|
    ensures var n := FragmentLength(off, |data|);
      var first := |Pad(off)| + HEADER_SIZE + n;
      n < |data| && d >= first && HeaderAt(0, data[n..], d - first)
  {
  }

  lemma {:induction false} HeaderInside(off: nat, data: Bytes, begin: bool, d: nat)
    requires off < BLOCK_SIZE && HeaderAt(off, data, d)
    ensures d + HEADER_SIZE <= |Fragments(off, data, begin)|
    decreases |data|, if off == BLOCK_SIZE - HEADER_SIZE then 1 else 0
  {
    hide Physical;
    hide Pad;
    hide Fragments;
    FragmentsUnfold(off, data, begin);
    var n := FragmentLength(off, |data|);
    var first := |Pad(off)| + HEADER_SIZE + n;
    if d != |Pad(off)| {
      HeaderInside(0, data[n..], false, d - first);
    }
  }

  lemma FirstFragment(file: Bytes, p: nat, t: byte, part: Bytes)
    requires Start(p % BLOCK_SIZE) + HEADER_SIZE + |part| <= BLOCK_SIZE
    requires Holds(file, p, Pad(p % BLOCK_SIZE) + Physical(t, part))
    ensures Fits(p + |Pad(p % BLOCK_SIZE)|, part) && Holds(file, p + |Pad(p % BLOCK_SIZE)|, Physical(t, part))
  {
    hide Physical;
    hide Pad;
    hide Holds;
    PadEnds(p);
    HoldsParts(file, p, Pad(p % BLOCK_SIZE), Physical(t, part));
  }

  /** The fragment there, and that it does not cross the end of its block. */
  lemma {:induction false} FragmentThere(file: Bytes, p: nat, data: Bytes, begin: bool, d: nat)
    returns (t: byte, part: Bytes)
    requires Holds(file, p, Fragments(p % BLOCK_SIZE, data, begin)) && HeaderAt(p % BLOCK_SIZE, data, d)
    ensures Fits(p + d, part) && Holds(file, p + d, Physical(t, part))
    decreases |data|, if p % BLOCK_SIZE == BLOCK_SIZE - HEADER_SIZE then 1 else 0
  {
    hide Physical;
    hide Fragments;
    hide Holds;
    hide Pad;
    hide Fits;
    hide HeaderAt;
    var off := p % BLOCK_SIZE;
    var n := FragmentLength(off, |data|);
    t, part := FragmentType(begin, n == |data|), data[..n];
    var first := Pad(off) + Physical(t, part);
    FragmentsUnfold(off, data, begin);
    HoldsParts(file, p, first, if n == |data| then [] else Fragments(0, data[n..], false));
    if d == |Pad(off)| {
      FirstFragment(file, p, t, part);
    } else {
      HeaderNext(off, data, d);
      EndOfFragment(p, n);
      t, part := FragmentThere(file, p + |first|, data[n..], false, d - |first|);
    }
  }

  lemma PadEnds(p: nat)
    ensures (p + |Pad(p % BLOCK_SIZE)|) % BLOCK_SIZE == Start(p % BLOCK_SIZE)
  {
    var off := p % BLOCK_SIZE;
    if BLOCK_SIZE - off < HEADER_SIZE {
      BlockEnd(p, BLOCK_SIZE - off);
    }
  }

  // ---- reading, whatever was dropped before --------------------------------------------------------------

  /** The next record and where it ends. */
  function Reads(file: Bytes, p: nat, scratch: Bytes, inFragmented: bool): (Option<Bytes>, nat)
    requires p <= |file|
  {
    var o := ReadLogical(file, p, scratch, inFragmented, 0);
    (o.record, o.at)
  }

  /** What one fragment makes of the record under assembly: a finished record, or the bytes so far, and how many bytes
      are reported. */
  function Joined(kind: Kind, scratch: Bytes, inFragmented: bool): (Option<Bytes>, Bytes, bool, nat)
    requires !kind.Eof?
  {
    match kind
    case Bad => if inFragmented then (None, [], false, |scratch|) else (None, scratch, false, 0)
    case Record(t, data) =>
      if t == FULL then (Some(data), [], false, Unfinished(scratch, inFragmented))
      else if t == FIRST then (None, data, true, Unfinished(scratch, inFragmented))
      else if t == MIDDLE then
        if inFragmented then (None, scratch + data, true, 0) else (None, scratch, false, |data|)
      else if t == LAST then
        if inFragmented then (Some(scratch + data), [], false, 0) else (None, scratch, false, |data|)
      else (None, [], false, |data| + Unfinished(scratch, inFragmented))
  }

  lemma LogicalUnfold(file: Bytes, p: nat, scratch: Bytes, inFragmented: bool, n: nat)
    requires p <= |file| && !ReadPhys(file, p).kind.Eof?
    ensures var f := ReadPhys(file, p);
      var (record, kept, still, reported) := Joined(f.kind, scratch, inFragmented);
      ReadLogical(file, p, scratch, inFragmented, n) ==
        if record.Some? then Outcome(record, f.at, n + f.dropped + reported)
        else ReadLogical(file, f.at, kept, still, n + f.dropped + reported)
  {
    hide ReadPhys;
  }

  lemma {:induction false} DroppedBefore(file: Bytes, p: nat, scratch: Bytes, inFragmented: bool, n: nat)
    requires p <= |file|
    ensures var o := ReadLogical(file, p, scratch, inFragmented, n);
      Reads(file, p, scratch, inFragmented) == (o.record, o.at)
    decreases |file| - p
  {
    hide ReadPhys;
    var f := ReadPhys(file, p);
    if !f.kind.Eof? {
      hide ReadLogical;
      LogicalUnfold(file, p, scratch, inFragmented, 0);
      LogicalUnfold(file, p, scratch, inFragmented, n);
      var (record, kept, still, reported) := Joined(f.kind, scratch, inFragmented);
      hide Joined;
      if record.None? {
        DroppedBefore(file, f.at, kept, still, f.dropped + reported);
        DroppedBefore(file, f.at, kept, still, n + f.dropped + reported);
      }
    }
  }

  /** A bad fragment drops the record under assembly. */
  lemma ReadsBad(file: Bytes, p: nat, scratch: Bytes, inFragmented: bool)
    requires p <= |file| && ReadPhys(file, p).kind.Bad? && (!inFragmented ==> scratch == [])
    ensures Reads(file, p, scratch, inFragmented) == Reads(file, ReadPhys(file, p).at, [], false)
  {
    hide ReadPhys;
    var f := ReadPhys(file, p);
    DroppedBefore(file, f.at, [], false, f.dropped + |scratch|);
    DroppedBefore(file, f.at, [], false, f.dropped);
  }

  /** A later fragment of a record whose start was lost is passed over. */
  lemma ReadsOrphan(file: Bytes, p: nat, q: nat, t: byte, data: Bytes)
    requires p <= |file| && q <= |file| && (t == MIDDLE || t == LAST)
    requires ReadPhys(file, p) == Phys(Record(t, data), q, 0)
    ensures Reads(file, p, [], false) == Reads(file, q, [], false)
  {
    hide ReadPhys;
    DroppedBefore(file, q, [], false, |data|);
  }

  /** A record that starts before the last one is finished: the unfinished one is reported, all its bytes. */
  lemma UnfinishedReported(file: Bytes, p: nat, q: nat, scratch: Bytes, t: byte, data: Bytes, n: nat)
    requires p <= |file| && q <= |file| && ReadPhys(file, p) == Phys(Record(t, data), q, 0)
    ensures t == 1 ==> ReadLogical(file, p, scratch, true, n) == Outcome(Some(data), q, n + |scratch|)
    ensures t == 2 ==> ReadLogical(file, p, scratch, true, n) == ReadLogical(file, q, data, true, n + |scratch|)
    ensures t == 1 ==> ReadLogical(file, p, [], false, n) == Outcome(Some(data), q, n)
  {
    hide ReadPhys;
  }

  lemma SameRest(file: Bytes, p: nat, q: nat)
    requires p <= |file| && q <= |file| && Reads(file, p, [], false) == Reads(file, q, [], false)
    ensures ReadAll(file, p).0 == ReadAll(file, q).0
  {
    hide ReadLogical;
    AllUnfold(file, p);
    AllUnfold(file, q);
  }

  // ---- up to the damage ---------------------------------------------------------------------------------

  lemma WholeRead(file: Bytes, p: nat, r: Bytes)
    requires p <= |file| && Holds(file, p, Fragments(p % BLOCK_SIZE, r, true))
    ensures var q := p + |Fragments(p % BLOCK_SIZE, r, true)|;
      q <= |file| && ReadAll(file, p).0 == [r] + ReadAll(file, q).0
  {
    hide Fragments;
    hide Holds;
    hide ReadLogical;
    hide ReadAll;
    HoldsFits(file, p, Fragments(p % BLOCK_SIZE, r, true));
    ReadFragments(file, |file|, p, r, true, []);
    assert file[..|file|] == file && [] + r == r;
    AllUnfold(file, p);
  }

  /** Whole records are read, and reading goes on behind them. */
  lemma {:induction false} ReadsBefore(file: Bytes, p: nat, off: nat, rs: seq<Bytes>)
    requires p <= |file| && off == p % BLOCK_SIZE && Holds(file, p, Written(off, rs))
    ensures p + |Written(off, rs)| <= |file|
    ensures ReadAll(file, p).0 == rs + ReadAll(file, p + |Written(off, rs)|).0
    decreases |rs|
  {
    hide Fragments;
    hide Written;
    hide Holds;
    hide ReadAll;
    HoldsFits(file, p, Written(off, rs));
    if rs == [] {
      EmptyWritten(off);
      assert [] + ReadAll(file, p).0 == ReadAll(file, p).0;
    } else {
      var f := Fragments(off, rs[0], true);
      var next := (off + |f|) % BLOCK_SIZE;
      WrittenUnfold(off, rs, 0);
      HoldsParts(file, p, f, Written(next, rs[1..]));
      WholeRead(file, p, rs[0]);
      NextOffset(p, off, |f|);
      ReadsBefore(file, p + |f|, next, rs[1..]);
      var more := ReadAll(file, p + |Written(off, rs)|).0;
      assert [rs[0]] + (rs[1..] + more) == rs + more;
    }
  }

  lemma HoldsFits(file: Bytes, p: nat, s: Bytes)
    requires Holds(file, p, s)
    ensures p + |s| <= |file|
  {
  }

  /** A record with a bad fragment: reading goes on where the bad fragment's block ends. */
  lemma {:induction false} HitFragment(bad: Bytes, p: nat, data: Bytes, begin: bool, scratch: Bytes, d: nat)
    requires HeaderAt(p % BLOCK_SIZE, data, d) && d <= |Fragments(p % BLOCK_SIZE, data, begin)|
    requires Holds(bad, p, Fragments(p % BLOCK_SIZE, data, begin)[..d])
    requires begin ==> scratch == []
    requires p + d <= |bad| && ReadPhys(bad, p + d).kind.Bad?
    ensures Reads(bad, p, scratch, !begin) == Reads(bad, ReadPhys(bad, p + d).at, [], false)
    decreases |data|, if p % BLOCK_SIZE == BLOCK_SIZE - HEADER_SIZE then 1 else 0
  {
    hide Physical;
    hide Fragments;
    hide ReadPhys;
    hide ReadLogical;
    hide Pad;
    hide Holds;
    hide HeaderAt;
    var off := p % BLOCK_SIZE;
    var n := FragmentLength(off, |data|);
    if d == |Pad(off)| {
      PastPad(bad, p);
      ReadsBad(bad, p, scratch, !begin);
    } else {
      HeaderNext(off, data, d);
      var t := FragmentType(begin, false);
      var first := Pad(off) + Physical(t, data[..n]);
      var more := Fragments(0, data[n..], false);
      FragmentsUnfold(off, data, begin);
      Front(first, more, d);
      HoldsParts(bad, p, first, more[..d - |first|]);
      HoldsFits(bad, p, first);
      ReadFragment(bad, |bad|, p, t, data[..n]);
      assert bad[..|bad|] == bad;
      LogicalStep(bad, p, p + |first|, t, data[..n], scratch, begin);
      EndOfFragment(p, n);
      HitFragment(bad, p + |first|, data[n..], false, scratch + data[..n], d - |first|);
    }
  }

  /** Padding is passed over. */
  lemma PastPad(file: Bytes, p: nat)
    requires p + |Pad(p % BLOCK_SIZE)| <= |file|
    ensures ReadPhys(file, p) == ReadPhys(file, p + |Pad(p % BLOCK_SIZE)|)
  {
    hide ReadPhys;
    if BLOCK_SIZE - p % BLOCK_SIZE < HEADER_SIZE {
      ReadTrailer(file, p);
    }
  }

  // ---- behind the damage ------------------------------------------------------------------------------------

  /** The later fragments of a record, its first ones lost: nothing is read of it. */
  lemma {:induction false} OrphansPassed(file: Bytes, p: nat, data: Bytes)
    requires p <= |file| && Holds(file, p, Fragments(p % BLOCK_SIZE, data, false))
    ensures p + |Fragments(p % BLOCK_SIZE, data, false)| <= |file|
    ensures Reads(file, p, [], false) == Reads(file, p + |Fragments(p % BLOCK_SIZE, data, false)|, [], false)
    decreases |data|, if p % BLOCK_SIZE == BLOCK_SIZE - HEADER_SIZE then 1 else 0
  {
    hide Physical;
    hide Fragments;
    hide ReadPhys;
    hide ReadLogical;
    hide Pad;
    hide Holds;
    var off := p % BLOCK_SIZE;
    var n := FragmentLength(off, |data|);
    var t := FragmentType(false, n == |data|);
    var first := Pad(off) + Physical(t, data[..n]);
    var more := if n == |data| then [] else Fragments(0, data[n..], false);
    FragmentsUnfold(off, data, false);
    HoldsParts(file, p, first, more);
    HoldsFits(file, p, first);
    ReadFragment(file, |file|, p, t, data[..n]);
    assert file[..|file|] == file;
    ReadsOrphan(file, p, p + |first|, t, data[..n]);
    if n < |data| {
      EndOfFragment(p, n);
      OrphansPassed(file, p + |first|, data[n..]);
    }
  }

  /** A fragment that starts before a block boundary ends there at the latest. */
  lemma FragmentEnds(p: nat, n: nat, e: nat)
    requires Start(p % BLOCK_SIZE) + HEADER_SIZE + n <= BLOCK_SIZE && p + HEADER_SIZE <= e && e % BLOCK_SIZE == 0
    ensures p + |Pad(p % BLOCK_SIZE)| + HEADER_SIZE + n <= e
  {
    var off, b := p % BLOCK_SIZE, p / BLOCK_SIZE;
    assert p == BLOCK_SIZE * b + off;
    assert e == BLOCK_SIZE * (e / BLOCK_SIZE);
  }

  lemma Boundaries(p: nat, e: nat)
    requires p % BLOCK_SIZE == 0 && e % BLOCK_SIZE == 0 && p < e
    ensures p + HEADER_SIZE <= e
  {
  }

  /** From a block boundary inside a record, reading goes on with the record after it. */
  lemma {:induction false} FromBoundary(bad: Bytes, p: nat, data: Bytes, begin: bool, e: nat)
    requires p + HEADER_SIZE <= e && e % BLOCK_SIZE == 0
    requires e < p + |Fragments(p % BLOCK_SIZE, data, begin)|
    requires Holds(bad, e, Fragments(p % BLOCK_SIZE, data, begin)[e - p..])
    ensures p + |Fragments(p % BLOCK_SIZE, data, begin)| <= |bad|
    ensures Reads(bad, e, [], false) == Reads(bad, p + |Fragments(p % BLOCK_SIZE, data, begin)|, [], false)
    decreases |data|, if p % BLOCK_SIZE == BLOCK_SIZE - HEADER_SIZE then 1 else 0
  {
    hide Physical;
    hide Fragments;
    hide ReadLogical;
    hide Pad;
    var off := p % BLOCK_SIZE;
    var n := FragmentLength(off, |data|);
    var first := Pad(off) + Physical(FragmentType(begin, n == |data|), data[..n]);
    FragmentsUnfold(off, data, begin);
    FragmentEnds(p, n, e);
    if n < |data| {
      var q := p + |first|;
      EndOfFragment(p, n);
      var more := Fragments(0, data[n..], false);
      assert (first + more)[e - p..] == more[e - q..];
      if q == e {
        assert more[0..] == more;
        OrphansPassed(bad, e, data[n..]);
      } else {
        Boundaries(q, e);
        FromBoundary(bad, q, data[n..], false, e);
      }
    }
  }

  /** How many of the records written from block offset off on have a header in the next n bytes. */
  function Reached(off: nat, rs: seq<Bytes>, n: int): (k: nat)
    requires off < BLOCK_SIZE
    ensures k <= |rs|
    decreases |rs|
  {
    if rs == [] || n < HEADER_SIZE then 0 else
      var f := |Fragments(off, rs[0], true)|;
      1 + Reached((off + f) % BLOCK_SIZE, rs[1..], n - f)
  }

  /** Exactly those that start at least a header before the end. */
  lemma {:induction false} ReachedExactly(off: nat, rs: seq<Bytes>, n: int, i: nat)
    requires off < BLOCK_SIZE && i < |rs|
    ensures i < Reached(off, rs, n) <==> |Written(off, rs[..i])| + HEADER_SIZE <= n
    decreases |rs|
  {
    hide Fragments;
    if i > 0 {
      var f := Fragments(off, rs[0], true);
      assert rs[..i][0] == rs[0] && rs[..i][1..] == rs[1..][..i - 1];
      ReachedExactly((off + |f|) % BLOCK_SIZE, rs[1..], n - |f|, i - 1);
    }
  }

  lemma ReachedUnfold(off: nat, rs: seq<Bytes>, n: int)
    requires off < BLOCK_SIZE && rs != [] && n >= HEADER_SIZE
    ensures var f := |Fragments(off, rs[0], true)|;
      Reached(off, rs, n) == 1 + Reached((off + f) % BLOCK_SIZE, rs[1..], n - f)
  {
    hide Fragments;
  }

  lemma ReachedNone(off: nat, rs: seq<Bytes>, n: int)
    requires off < BLOCK_SIZE && (rs == [] || n < HEADER_SIZE)
    ensures Reached(off, rs, n) == 0
  {
  }

  /** A record that starts with padding up to a boundary is written as if it started there. */
  lemma PadSplit(p: nat, e: nat, rs: seq<Bytes>)
    requires p <= e < p + HEADER_SIZE && e % BLOCK_SIZE == 0 && rs != []
    ensures |Written(p % BLOCK_SIZE, rs)| >= e - p && Written(p % BLOCK_SIZE, rs)[e - p..] == Written(0, rs)
  {
    hide Written;
    hide Pad;
    hide Fragments;
    var off := p % BLOCK_SIZE;
    if p < e {
      PadTo(p, e);
      PaddedFragments(off, rs[0]);
      WrittenUnfold(off, rs, 0);
      WrittenUnfold(0, rs, 0);
      var g := Fragments(0, rs[0], true);
      NextOffset(p, off, e - p + |g|);
      NextOffset(e, 0, |g|);
      Assoc(Pad(off), g, Written(|g| % BLOCK_SIZE, rs[1..]));
      DropFront(Pad(off), Written(0, rs));
    } else {
      DropFront([], Written(0, rs));
    }
  }

  lemma DropFront(a: Bytes, b: Bytes)
    ensures (a + b)[|a|..] == b && b[0..] == b
  {
  }

  lemma PaddedFragments(off: nat, data: Bytes)
    requires off < BLOCK_SIZE && BLOCK_SIZE - off < HEADER_SIZE
    ensures Fragments(off, data, true) == Pad(off) + Fragments(0, data, true)
  {
    hide Physical;
    hide Fragments;
    FragmentsUnfold(off, data, true);
    FragmentsUnfold(0, data, true);
    var n := FragmentLength(0, |data|);
    var part := Physical(FragmentType(true, n == |data|), data[..n]);
    var more := if n == |data| then [] else Fragments(0, data[n..], false);
    assert Pad(0) + part == part;
    Assoc(Pad(off), part, more);
  }

  lemma PadTo(p: nat, e: nat)
    requires p < e < p + HEADER_SIZE && e % BLOCK_SIZE == 0
    ensures BLOCK_SIZE - p % BLOCK_SIZE < HEADER_SIZE && |Pad(p % BLOCK_SIZE)| == e - p
  {
    var off, b := p % BLOCK_SIZE, p / BLOCK_SIZE;
    assert p == BLOCK_SIZE * b + off;
    assert e == BLOCK_SIZE * (e / BLOCK_SIZE);
  }

  lemma ReadsAllWritten(file: Bytes, p: nat, rs: seq<Bytes>)
    requires p <= |file| && p % BLOCK_SIZE < BLOCK_SIZE && file[p..] == Written(p % BLOCK_SIZE, rs)
    ensures ReadAll(file, p).0 == rs
  {
    hide Written;
    hide ReadAll;
    assert file[p..p + |Written(p % BLOCK_SIZE, rs)|] == file[p..];
    ReadsBefore(file, p, p % BLOCK_SIZE, rs);
    ReadNothing(file);
    AllOfNothing(file);
    assert rs + [] == rs;
  }

  lemma AllOfNothing(file: Bytes)
    ensures ReadAll(file, |file|).0 == []
  {
    ReadNothing(file);
  }

  /** Reading from the end of the damaged block gives the records that start behind it. */
  lemma {:induction false} AfterDamage(bad: Bytes, p: nat, rs: seq<Bytes>, e: nat)
    requires p + HEADER_SIZE <= e <= |bad| && (e % BLOCK_SIZE == 0 || e == |bad|) && rs != []
    requires |bad| == p + |Written(p % BLOCK_SIZE, rs)| && bad[e..] == Written(p % BLOCK_SIZE, rs)[e - p..]
    ensures ReadAll(bad, e).0 == rs[Reached(p % BLOCK_SIZE, rs, e - p)..]
    decreases |rs|
  {
    hide Fragments;
    hide Written;
    hide ReadAll;
    hide ReadLogical;
    hide Reached;
    var off := p % BLOCK_SIZE;
    var f := Fragments(off, rs[0], true);
    var q := p + |f|;
    var next := (off + |f|) % BLOCK_SIZE;
    WrittenUnfold(off, rs, 0);
    ReachedUnfold(off, rs, e - p);
    NextOffset(p, off, |f|);
    var w := Written(next, rs[1..]);
    if e < q {
      assert (f + w)[e - p..] == f[e - p..] + w;
      assert bad[e..q] == bad[e..][..q - e] == f[e - p..];
      FromBoundary(bad, p, rs[0], true, e);
      SameRest(bad, e, q);
      assert bad[q..] == bad[e..][q - e..] == w;
      ReadsAllWritten(bad, q, rs[1..]);
      ReachedNone(next, rs[1..], e - q);
    } else {
      assert (f + w)[e - p..] == w[e - q..];
      if rs[1..] == [] {
        EmptyWritten(next);
        AllOfNothing(bad);
        ReachedNone(next, rs[1..], e - q);
      } else if q + HEADER_SIZE <= e {
        AfterDamage(bad, q, rs[1..], e);
      } else {
        WrittenLong(next, rs[1..]);
        PadSplit(q, e, rs[1..]);
        ReadsAllWritten(bad, e, rs[1..]);
        ReachedNone(next, rs[1..], e - q);
      }
    }
  }

  lemma EmptyWritten(off: nat)
    requires off < BLOCK_SIZE
    ensures Written(off, []) == []
  {
  }

  lemma WrittenLong(off: nat, rs: seq<Bytes>)
    requires off < BLOCK_SIZE && rs != []
    ensures |Written(off, rs)| >= HEADER_SIZE
  {
    hide Fragments;
  }

  // ---- the whole log -----------------------------------------------------------------------------------------

  lemma {:induction false} WrittenSplit(off: nat, a: seq<Bytes>, b: seq<Bytes>)
    requires off < BLOCK_SIZE
    ensures Written(off, a + b) == Written(off, a) + Written((off + |Written(off, a)|) % BLOCK_SIZE, b)
    decreases |a|
  {
    hide Fragments;
    hide Written;
    if a == [] {
      assert a + b == b;
      EmptyWritten(off);
      assert [] + Written(off, b) == Written(off, b);
    } else {
      var f := Fragments(off, a[0], true);
      var next := (off + |f|) % BLOCK_SIZE;
      WrittenUnfold(off, a, 0);
      WrittenUnfold(off, a + b, 0);
      assert (a + b)[0] == a[0] && (a + b)[1..] == a[1..] + b;
      WrittenSplit(next, a[1..], b);
      var w := Written(next, a[1..]);
      OffsetSum(off + |f|, |w|);
      Assoc(f, w, Written((next + |w|) % BLOCK_SIZE, b));
    }
  }

  lemma Assoc(a: Bytes, b: Bytes, c: Bytes)
    ensures a + (b + c) == a + b + c
  {
  }

  lemma {:induction false} ReachedSplit(off: nat, a: seq<Bytes>, b: seq<Bytes>, n: nat)
    requires off < BLOCK_SIZE && |Written(off, a)| + HEADER_SIZE <= n
    ensures Reached(off, a + b, n) ==
      |a| + Reached((off + |Written(off, a)|) % BLOCK_SIZE, b, n - |Written(off, a)|)
    decreases |a|
  {
    hide Fragments;
    hide Written;
    hide Reached;
    if a == [] {
      assert a + b == b;
      EmptyWritten(off);
    } else {
      var f := Fragments(off, a[0], true);
      var next := (off + |f|) % BLOCK_SIZE;
      var w := |Written(next, a[1..])|;
      WrittenUnfold(off, a, 0);
      assert (a + b)[0] == a[0] && (a + b)[1..] == a[1..] + b;
      ReachedUnfold(off, a + b, n);
      ReachedSplit(next, a[1..], b, n - |f|);
      OffsetSum(off + |f|, w);
      assert n - |f| - w == n - |Written(off, a)|;
    }
  }

  /** bad is the log of rs with a fragment of record k, d bytes into it, that the reader refuses; behind the end of that
      fragment's block nothing is changed. */
  predicate Damaged(rs: seq<Bytes>, k: nat, d: nat, bad: Bytes) {
    var full := Written(0, rs);
    && k < |rs| && |bad| == |full|
    && var s := |Written(0, rs[..k])|;
    && HeaderAt(s % BLOCK_SIZE, rs[k], d) && s + d <= |full| && bad[..s + d] == full[..s + d]
    && ReadPhys(bad, s + d).kind.Bad? && bad[ReadPhys(bad, s + d).at..] == full[ReadPhys(bad, s + d).at..]
  }

  /** A bad fragment costs the records that have a part in its block from there on, and no others: the records before
      it and those that start behind its block are read as they were written. */
  lemma DamageStaysInBlock(rs: seq<Bytes>, k: nat, d: nat, bad: Bytes)
    requires Damaged(rs, k, d, bad)
    ensures var e := ReadPhys(bad, |Written(0, rs[..k])| + d).at;
      && Reached(0, rs, e) > k
      && (e % BLOCK_SIZE == 0 || e == |bad|) && e <= |Written(0, rs[..k])| + d + BLOCK_SIZE
      && ReadAll(bad, 0).0 == rs[..k] + rs[Reached(0, rs, e)..]
  {
    hide Fragments;
    hide Written;
    hide ReadAll;
    hide ReadLogical;
    hide ReadPhys;
    hide Reached;
    hide HeaderAt;
    var a, b := rs[..k], rs[k..];
    var s := |Written(0, a)|;
    var off := s % BLOCK_SIZE;
    var e := ReadPhys(bad, s + d).at;
    BadEnds(rs, k, d, bad);
    BadParts(rs, k, d, bad);
    ReadsBefore(bad, 0, 0, a);
    HitFragment(bad, s, rs[k], true, [], d);
    SameRest(bad, s, e);
    AfterDamage(bad, s, b, e);
    assert a + b == rs;
    ReachedSplit(0, a, b, e);
    ReachedUnfold(off, b, e - s);
    assert rs[Reached(0, rs, e)..] == b[Reached(off, b, e - s)..];
  }

  /** The log in parts: the records before, the front of the damaged one, and what lies behind its block. */
  lemma BadParts(rs: seq<Bytes>, k: nat, d: nat, bad: Bytes)
    requires Damaged(rs, k, d, bad)
    ensures var s := |Written(0, rs[..k])|;
      var f, v, e := Fragments(s % BLOCK_SIZE, rs[k], true), Written(s % BLOCK_SIZE, rs[k..]), ReadPhys(bad, s + d).at;
      && Holds(bad, 0, Written(0, rs[..k])) && d <= |f| && Holds(bad, s, f[..d])
      && |bad| == s + |v| && s <= e <= |bad| && bad[e..] == v[e - s..]
  {
    hide Fragments;
    hide Written;
    hide ReadPhys;
    hide HeaderAt;
    hide Holds;
    var a, b := rs[..k], rs[k..];
    var w := Written(0, a);
    var off := |w| % BLOCK_SIZE;
    assert a + b == rs;
    WrittenSplit(0, a, b);
    WrittenUnfold(off, b, 0);
    var f := Fragments(off, rs[k], true);
    HeaderInside(off, rs[k], true, d);
    var more := Written((off + |f|) % BLOCK_SIZE, b[1..]);
    Fronts(bad, w, f, more, |w| + d);
    DropMore(w, f + more, ReadPhys(bad, |w| + d).at);
  }

  lemma Fronts(bad: Bytes, w: Bytes, f: Bytes, more: Bytes, n: nat)
    requires |w| <= n <= |w| + |f| && n <= |bad| && bad[..n] == (w + (f + more))[..n]
    ensures Holds(bad, 0, w) && Holds(bad, |w|, f[..n - |w|])
  {
    var whole := (w + (f + more))[..n];
    assert bad[0..|w|] == bad[..n][..|w|] == whole[..|w|] == w;
    assert bad[|w|..n] == bad[..n][|w|..] == whole[|w|..] == f[..n - |w|];
  }

  lemma DropMore(a: Bytes, b: Bytes, n: nat)
    requires |a| <= n <= |a + b|
    ensures (a + b)[n..] == b[n - |a|..]
  {
  }

  /** The header of fragment d of record k, in the log as written. */
  lemma FragmentOf(rs: seq<Bytes>, k: nat, d: nat) returns (t: byte, part: Bytes)
    requires k < |rs| && HeaderAt(|Written(0, rs[..k])| % BLOCK_SIZE, rs[k], d)
    ensures var p := |Written(0, rs[..k])| + d;
      Fits(p, part) && Holds(Written(0, rs), p, Physical(t, part))
  {
    hide Fragments;
    hide Physical;
    hide Written;
    var a, b := rs[..k], rs[k..];
    var s := |Written(0, a)|;
    assert a + b == rs;
    WrittenSplit(0, a, b);
    WrittenUnfold(s % BLOCK_SIZE, b, 0);
    var f := Fragments(s % BLOCK_SIZE, rs[k], true);
    var full := Written(0, rs);
    assert full == full[0..|full|];
    HoldsParts(full, 0, Written(0, a), Written(s % BLOCK_SIZE, b));
    HoldsParts(full, s, f, Written((s % BLOCK_SIZE + |f|) % BLOCK_SIZE, b[1..]));
    t, part := FragmentThere(full, s, rs[k], true, d);
  }

  lemma BadEnds(rs: seq<Bytes>, k: nat, d: nat, bad: Bytes)
    requires Damaged(rs, k, d, bad)
    ensures var p := |Written(0, rs[..k])| + d;
      p + HEADER_SIZE <= |bad| && ReadPhys(bad, p).at == p + InBlock(bad, p) && HEADER_SIZE <= InBlock(bad, p)
  {
    hide Physical;
    hide Written;
    hide Fragments;
    var t, part := FragmentOf(rs, k, d);
    HoldsFits(Written(0, rs), |Written(0, rs[..k])| + d, Physical(t, part));
  }

  // ---- what the checksum finds -------------------------------------------------------------------------------

  lemma OctetsConcat(a: Bytes, b: Bytes)
    ensures Octets(a + b) == Octets(a) + Octets(b)
  {
  }

  lemma OctetsOneToOne(a: Bytes, b: Bytes)
    requires |a| == |b| && Octets(a) == Octets(b)
    ensures a == b
  {
    forall i | 0 <= i < |a|
      ensures a[i] == b[i]
    {
      assert Octets(a)[i] == Octets(b)[i];
      BitVectors.ByteBack(a[i]);
      BitVectors.ByteBack(b[i]);
    }
  }

  /** Up to four neighbouring bytes of type and payload changed, under the checksum stored for them. */
  lemma BodyDamage(stored: nat, front: Bytes, x: Bytes, y: Bytes, back: Bytes)
    requires stored < TWO_32 && |x| == |y| <= 4 && x != y && CrcMatches(stored, front + x + back)
    ensures !CrcMatches(stored, front + y + back)
  {
    hide Crc.Unmask;
    hide Crc.ExtendBytes;
    if Octets(x) == Octets(y) {
      OctetsOneToOne(x, y);
    }
    OctetsConcat(front + x, back);
    OctetsConcat(front, x);
    OctetsConcat(front + y, back);
    OctetsConcat(front, y);
    CrcErrors.DamageSeen(Crc.ZERO, Octets(front), Octets(x), Octets(y), Octets(back));
  }

  /** A fragment has one stored checksum. */
  lemma StoredOnce(a: nat, b: nat, body: Bytes)
    requires a < TWO_32 && b < TWO_32 && CrcMatches(a, body) && CrcMatches(b, body)
    ensures a == b
  {
    hide Crc.Unmask;
    hide Crc.Mask;
    hide Crc.Value;
    Crc.UnmaskMask(a as bv32);
    Crc.UnmaskMask(b as bv32);
    BitVectors.WordBack(a);
    BitVectors.WordBack(b);
  }

  lemma LowDigit(a: nat, x: nat, b: nat, y: nat)
    requires a < 256 && b < 256 && a + 256 * x == b + 256 * y
    ensures a == b && x == y
  {
  }

  lemma DigitsOneToOne(a: Bytes, b: Bytes)
    requires |a| >= 4 && |b| >= 4 && DecodeFixed32(a) == DecodeFixed32(b)
    ensures a[..4] == b[..4]
  {
    var x2, y2 := a[2] as int + 256 * a[3] as int, b[2] as int + 256 * b[3] as int;
    LowDigit(a[0], a[1] as int + 256 * x2, b[0], b[1] as int + 256 * y2);
    LowDigit(a[1], x2, b[1], y2);
    LowDigit(a[2], a[3], b[2], b[3]);
  }

  /** Up to four neighbouring bytes changed, from i on: y stands in their place. */
  predicate BytesChanged(full: Bytes, bad: Bytes, i: nat, y: Bytes) {
    && i + |y| <= |full| && |y| <= 4 && y != full[i..i + |y|]
    && bad == full[..i] + y + full[i + |y|..]
  }

  /** The reader refuses a fragment whose checksum, or type and payload, was changed so, and goes to the end of its
      block. */
  lemma DamageRefused(full: Bytes, p: nat, t: byte, part: Bytes, bad: Bytes, i: nat, y: Bytes)
    requires Fits(p, part) && Holds(full, p, Physical(t, part)) && BytesChanged(full, bad, i, y)
    requires (p <= i && i + |y| <= p + 4) || (p + 6 <= i && i + |y| <= p + HEADER_SIZE + |part|)
    ensures |bad| == |full| && p + HEADER_SIZE + |part| <= |full|
    ensures ReadPhys(bad, p).kind.Bad? && ReadPhys(bad, p).at == p + InBlock(full, p)
    ensures bad[..p] == full[..p] && bad[ReadPhys(bad, p).at..] == full[ReadPhys(bad, p).at..]
  {
    hide Physical;
    hide StoredCrc;
    hide CrcMatches;
    hide DecodeFixed32;
    hide ReadPhys;
    hide InBlock;
    hide LengthAt;
    hide Holds;
    HoldsFits(full, p, Physical(t, part));
    HeaderBack(full, p, t, part);
    if i < p + 6 {
      ChecksumChanged(full, p, t, part, bad, i, y);
    } else {
      BodyChanged(full, p, t, part, bad, i, y);
    }
    WrongChecksum(bad, p);
    SameBlock(full, bad, p);
    InBlockEnds(full, p, part);
    BeforeChange(full, bad, i, y, p);
    BehindChange(full, bad, i, y, p + InBlock(full, p));
  }

  lemma ChecksumChanged(full: Bytes, p: nat, t: byte, part: Bytes, bad: Bytes, i: nat, y: Bytes)
    requires |part| < 65536 && Holds(full, p, Physical(t, part)) && BytesChanged(full, bad, i, y)
    requires p <= i && i + |y| <= p + 4
    ensures |bad| == |full| && p + HEADER_SIZE + |part| <= |full| && LengthAt(bad, p) == |part|
    ensures !CrcMatches(DecodeFixed32(bad[p..]), bad[p + 6..p + HEADER_SIZE + |part|])
  {
    hide Physical;
    hide StoredCrc;
    hide CrcMatches;
    hide DecodeFixed32;
    HoldsFits(full, p, Physical(t, part));
    HeaderBack(full, p, t, part);
    StoredMatches(t, part);
    var z := p + HEADER_SIZE + |part|;
    BehindChange(full, bad, i, y, p + 4);
    DropSlice(full, bad, p + 4, p + 6, z);
    DropSlice(full, bad, p + 4, p + 4, p + 6);
    LengthSlice(full, bad, p);
    FrontOfDrop(full, p, 4);
    FrontOfDrop(bad, p, 4);
    SliceChanged(full, bad, i, y, p, p + 4);
    if CrcMatches(DecodeFixed32(bad[p..]), bad[p + 6..z]) {
      StoredOnce(DecodeFixed32(bad[p..]), StoredCrc(t, part), [t] + part);
      DigitsOneToOne(bad[p..], full[p..]);
    }
  }

  lemma FrontOfDrop(s: Bytes, p: nat, n: nat)
    requires p + n <= |s|
    ensures s[p..][..n] == s[p..p + n]
  {
  }

  lemma DropSlice(a: Bytes, b: Bytes, p: nat, i: nat, j: nat)
    requires p <= i <= j <= |a| == |b| && a[p..] == b[p..]
    ensures a[i..j] == b[i..j]
  {
    SliceOfSlice(a, p, |a|, i - p, j - p);
    SliceOfSlice(b, p, |b|, i - p, j - p);
    assert a[p..|a|] == a[p..] && b[p..|b|] == b[p..];
  }

  lemma LengthSlice(a: Bytes, b: Bytes, p: nat)
    requires p + HEADER_SIZE <= |a| == |b| && a[p + 4..p + 6] == b[p + 4..p + 6]
    ensures LengthAt(a, p) == LengthAt(b, p)
  {
    assert a[p + 4] == a[p + 4..p + 6][0] && a[p + 5] == a[p + 4..p + 6][1];
    assert b[p + 4] == b[p + 4..p + 6][0] && b[p + 5] == b[p + 4..p + 6][1];
  }

  lemma SliceChanged(full: Bytes, bad: Bytes, i: nat, y: Bytes, lo: nat, z: nat)
    requires BytesChanged(full, bad, i, y) && lo <= i && i + |y| <= z <= |full|
    ensures |bad| == |full| && bad[lo..z] != full[lo..z]
  {
    var j := i + |y|;
    assert bad[i..j] == y;
    SliceOfSlice(bad, lo, z, i - lo, j - lo);
    SliceOfSlice(full, lo, z, i - lo, j - lo);
  }

  lemma BodyChanged(full: Bytes, p: nat, t: byte, part: Bytes, bad: Bytes, i: nat, y: Bytes)
    requires |part| < 65536 && Holds(full, p, Physical(t, part)) && BytesChanged(full, bad, i, y)
    requires p + 6 <= i && i + |y| <= p + HEADER_SIZE + |part|
    ensures |bad| == |full| && p + HEADER_SIZE + |part| <= |full| && LengthAt(bad, p) == |part|
    ensures !CrcMatches(DecodeFixed32(bad[p..]), bad[p + 6..p + HEADER_SIZE + |part|])
  {
    hide Physical;
    hide StoredCrc;
    hide CrcMatches;
    hide DecodeFixed32;
    hide LengthAt;
    HoldsFits(full, p, Physical(t, part));
    HeaderBack(full, p, t, part);
    StoredMatches(t, part);
    var z, j := p + HEADER_SIZE + |part|, i + |y|;
    AroundChange(full, bad, i, y, p + 6, z);
    BeforeChange(full, bad, i, y, p + 6);
    BodyDamage(StoredCrc(t, part), full[p + 6..i], full[i..j], y, full[j..z]);
    SameHeader(full, bad, p);
  }

  lemma SameBlock(full: Bytes, bad: Bytes, p: nat)
    requires |bad| == |full| && p <= |full|
    ensures InBlock(bad, p) == InBlock(full, p)
  {
  }

  lemma InBlockEnds(full: Bytes, p: nat, part: Bytes)
    requires Fits(p, part) && p + HEADER_SIZE + |part| <= |full|
    ensures HEADER_SIZE + |part| <= InBlock(full, p) <= |full| - p
  {
  }

  lemma BehindChange(full: Bytes, bad: Bytes, i: nat, y: Bytes, z: nat)
    requires BytesChanged(full, bad, i, y) && i + |y| <= z <= |full|
    ensures |bad| == |full| && bad[z..] == full[z..]
  {
    var j := i + |y|;
    assert bad[j..] == full[j..];
    assert bad[z..] == bad[j..][z - j..] && full[z..] == full[j..][z - j..];
  }

  lemma BeforeChange(full: Bytes, bad: Bytes, i: nat, y: Bytes, lo: nat)
    requires BytesChanged(full, bad, i, y) && lo <= i
    ensures |bad| == |full| && bad[..lo] == full[..lo]
  {
  }

  lemma Middle(a: Bytes, b: Bytes, c: Bytes, lo: nat, z: nat)
    requires lo <= |a| && |a| + |b| <= z <= |a + b + c|
    ensures (a + b + c)[lo..z] == a[lo..] + b + c[..z - |a| - |b|]
  {
    var s := a + b + c;
    Assoc(a, b, c);
    assert s[lo..z] == s[lo..][..z - lo];
    assert (a + (b + c))[lo..] == a[lo..] + (b + c);
    Front(a[lo..], b + c, z - lo);
    Front(b, c, z - |a|);
    Assoc(a[lo..], b, c[..z - |a| - |b|]);
  }

  /** Between lo and z the change is all that is different. */
  lemma AroundChange(full: Bytes, bad: Bytes, i: nat, y: Bytes, lo: nat, z: nat)
    requires BytesChanged(full, bad, i, y) && lo <= i && i + |y| <= z <= |full|
    ensures |bad| == |full|
    ensures full[lo..z] == full[lo..i] + full[i..i + |y|] + full[i + |y|..z]
    ensures bad[lo..z] == full[lo..i] + y + full[i + |y|..z]
  {
    var j := i + |y|;
    var a, b, c := full[..i], full[i..j], full[j..];
    assert full == a + b + c;
    Middle(a, b, c, lo, z);
    Middle(a, y, c, lo, z);
    assert a[lo..] == full[lo..i] && c[..z - j] == full[j..z];
  }

  /** A whole record with the wrong checksum is refused, or is an empty one of type zero. */
  lemma WrongChecksum(file: Bytes, p: nat)
    requires p + HEADER_SIZE <= |file| && p % BLOCK_SIZE + HEADER_SIZE + LengthAt(file, p) <= BLOCK_SIZE
    requires p + HEADER_SIZE + LengthAt(file, p) <= |file|
    requires !CrcMatches(DecodeFixed32(file[p..]), file[p + 6..p + HEADER_SIZE + LengthAt(file, p)])
    ensures ReadPhys(file, p).kind.Bad? && ReadPhys(file, p).at == p + InBlock(file, p)
  {
    hide CrcMatches;
    hide DecodeFixed32;
    hide LengthAt;
  }

  lemma SameHeader(full: Bytes, bad: Bytes, p: nat)
    requires |bad| == |full| && p + HEADER_SIZE <= |full| && bad[..p + 6] == full[..p + 6]
    ensures LengthAt(bad, p) == LengthAt(full, p) && DecodeFixed32(bad[p..]) == DecodeFixed32(full[p..])
    ensures bad[..p] == full[..p]
  {
    assert forall j :: 0 <= j < p + 6 ==> bad[j] == bad[..p + 6][j] == full[j];
  }

  /** The main result on damage: whatever is written over up to four neighbouring bytes of a fragment's checksum, or of
      its type and payload, no record is read that was not written, and only those that reach into the rest of its
      block are lost. */
  lemma SmallDamage(rs: seq<Bytes>, k: nat, d: nat, bad: Bytes, i: nat, y: Bytes)
    requires k < |rs| && HeaderAt(|Written(0, rs[..k])| % BLOCK_SIZE, rs[k], d)
    requires var p := |Written(0, rs[..k])| + d;
      && BytesChanged(Written(0, rs), bad, i, y) && p + HEADER_SIZE <= |Written(0, rs)|
      && ((p <= i && i + |y| <= p + 4) || (p + 6 <= i && i + |y| <= p + HEADER_SIZE + LengthAt(Written(0, rs), p)))
    ensures var full, p := Written(0, rs), |Written(0, rs[..k])| + d;
      ReadAll(bad, 0).0 == rs[..k] + rs[Reached(0, rs, p + InBlock(full, p))..]
  {
    hide Written;
    hide ReadPhys;
    hide ReadAll;
    hide HeaderAt;
    hide Physical;
    hide InBlock;
    hide Reached;
    var full, p := Written(0, rs), |Written(0, rs[..k])| + d;
    var t, part := FragmentOf(rs, k, d);
    HeaderBack(full, p, t, part);
    DamageRefused(full, p, t, part, bad, i, y);
    DamageStaysInBlock(rs, k, d, bad);
  }

  // ---- what the reader makes of a header ---------------------------------------------------------------------

  /** The end of p's block, or of the file. */
  function BlockEndOf(file: Bytes, p: nat): nat
    requires p <= |file|
  {
    var e := p - p % 32768 + 32768;
    if e <= |file| then e else |file|
  }

  lemma MatchesMasked(stored: nat, body: Bytes)
    requires stored < TWO_32
    ensures CrcMatches(stored, body) <==> stored == Crc.Mask(Crc.Value(Octets(body))) as int
  {
    hide Crc.Unmask;
    hide Crc.Mask;
    hide Crc.Value;
    var c := Crc.Value(Octets(body));
    Crc.UnmaskMask(stored as bv32);
    Crc.UnmaskMask(c);
    BitVectors.WordBack(stored);
    ThereAndBack(Crc.Mask(c));
  }

  /** A length that runs past the block is an error, at the end of the file the mark of a writer that died; zeros where
      a header should be are passed over with nothing reported; for the rest the checksum decides. */
  lemma HeaderVerdict(file: Bytes, p: nat)
    requires p + 7 <= |file| && p % 32768 + 7 <= 32768
    ensures var e, t, z := BlockEndOf(file, p), file[p + 6], p + 7 + LengthAt(file, p);
      && (z > e ==> ReadPhys(file, p) == if e % 32768 == 0 then Phys(Bad, e, e - p) else Phys(Eof, e, 0))
      && (t == 0 && z == p + 7 ==> ReadPhys(file, p) == Phys(Bad, e, 0))
      && (z <= e && !(t == 0 && z == p + 7) ==>
            ReadPhys(file, p) ==
            if DecodeFixed32(file[p..]) == Crc.Mask(Crc.Value(Octets(file[p + 6..z]))) as int
            then Phys(Record(t, file[p + 7..z]), z, 0) else Phys(Bad, e, e - p))
  {
    hide CrcMatches;
    hide DecodeFixed32;
    hide LengthAt;
    hide Crc.Mask;
    hide Crc.Value;
    var e, z := BlockEndOf(file, p), p + 7 + LengthAt(file, p);
    BlockEndIs(file, p);
    if z <= e {
      MatchesMasked(DecodeFixed32(file[p..]), file[p + 6..z]);
    }
  }

  lemma BlockEndIs(file: Bytes, p: nat)
    requires p < |file|
    ensures BlockEndOf(file, p) == p + InBlock(file, p)
    ensures BlockComplete(file, p) <==> BlockEndOf(file, p) % 32768 == 0
  {
    var b := p / 32768;
    assert p == 32768 * b + p % 32768;
    BlockEnd(p, 32768 - p % 32768);
    if !BlockComplete(file, p) {
      BlockEnd(p, |file| - p);
    }
  }
}
