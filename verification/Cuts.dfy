/** What the readers of batches and manifest records refuse: forms cut short, unknown tags, levels that do not exist. */
module Cuts {
  import opened Keys
  import opened Coding
  import opened Store
  import opened WriteBatch
  import VersionEdit

  // ---- write batches --------------------------------------------------------------------------------------------

  lemma OpCut(op: Op, n: nat)
    requires OpFits(op) && 0 < n < |EncodeOp(op)|
    ensures DecodeOp(EncodeOp(op)[..n]) == None
  {
    hide ParsePiece;
    hide LengthPrefixed;
    var b := EncodeOp(op)[..n];
    match op
    case Put(k, v) =>
      assert b[1..] == (LengthPrefixed(k) + LengthPrefixed(v))[..n - 1];
      Front(LengthPrefixed(k), LengthPrefixed(v), n - 1);
      if n - 1 < |LengthPrefixed(k)| {
        PieceCut(k, n - 1);
      } else {
        PieceBack(k, LengthPrefixed(v)[..n - 1 - |LengthPrefixed(k)|]);
        PieceCut(v, n - 1 - |LengthPrefixed(k)|);
      }
    case Del(k) =>
      assert b[1..] == LengthPrefixed(k)[..n - 1];
      PieceCut(k, n - 1);
  }

  /** What follows whole operations is decoded behind them. */
  lemma {:induction false} OpsThen(ops: seq<Op>, tail: Bytes)
    requires OpsFit(ops)
    ensures DecodeOps(EncodeOps(ops) + tail) == (ops + DecodeOps(tail).0, DecodeOps(tail).1)
  {
    hide EncodeOp;
    hide DecodeOp;
    if ops == [] {
      assert EncodeOps(ops) + tail == tail && [] + DecodeOps(tail).0 == DecodeOps(tail).0;
    } else {
      var more := EncodeOps(ops[1..]) + tail;
      OpsThen(ops[1..], tail);
      OpNotEmpty(ops[0]);
      DecodeOpBack(ops[0], more);
      assert EncodeOps(ops) + tail == EncodeOp(ops[0]) + more;
      assert [ops[0]] + (ops[1..] + DecodeOps(tail).0) == ops + DecodeOps(tail).0;
    }
  }

  /** An operation cut off: those before it decode, and the batch is refused. */
  lemma OpsCut(ops: seq<Op>, op: Op, n: nat)
    requires OpsFit(ops) && OpFits(op) && 0 < n < |EncodeOp(op)|
    ensures DecodeOps(EncodeOps(ops) + EncodeOp(op)[..n]) == (ops, false)
  {
    hide EncodeOp;
    hide DecodeOp;
    OpsThen(ops, EncodeOp(op)[..n]);
    OpCut(op, n);
    assert ops + [] == ops;
  }

  /** A tag that is neither 0 nor 1: those before it decode, and the batch is refused. */
  lemma UnknownOp(ops: seq<Op>, tag: byte, rest: Bytes)
    requires OpsFit(ops) && tag > 1
    ensures DecodeOps(EncodeOps(ops) + ([tag] + rest)) == (ops, false)
  {
    OpsThen(ops, [tag] + rest);
    assert ops + [] == ops;
  }

  /** Every cut is between two operations or inside one. */
  lemma {:induction false} CutAt(ops: seq<Op>, n: nat) returns (k: nat, m: nat)
    requires n <= |EncodeOps(ops)|
    ensures k <= |ops| && (k == |ops| ==> m == 0) && (k < |ops| ==> m < |EncodeOp(ops[k])|)
    ensures EncodeOps(ops)[..n] == EncodeOps(ops[..k]) + (if k < |ops| then EncodeOp(ops[k])[..m] else [])
    ensures k == |ops| ==> n == |EncodeOps(ops)|
  {
    hide EncodeOp;
    k, m := 0, 0;
    if ops == [] {
      assert ops[..0] == [];
    } else {
      var f := EncodeOp(ops[0]);
      Front(f, EncodeOps(ops[1..]), n);
      if n < |f| {
        m := n;
        assert ops[..0] == [] && EncodeOps([]) + f[..n] == f[..n];
      } else {
        k, m := CutAt(ops[1..], n - |f|);
        k := k + 1;
        assert ops[..k][0] == ops[0] && ops[..k][1..] == ops[1..][..k - 1];
        var tail := if k < |ops| then EncodeOp(ops[k])[..m] else [];
        assert f + (EncodeOps(ops[1..][..k - 1]) + tail) == f + EncodeOps(ops[1..][..k - 1]) + tail;
      }
    }
  }

  /** A stored batch is accepted whole, and no proper prefix of it is. */
  lemma TruncatedBatch(r: Record, n: nat)
    requires r.first < TWO_64 && |r.ops| < TWO_32 && OpsFit(r.ops) && n <= |RecordBytes(r)|
    ensures WellFormed(RecordBytes(r)[..n]) <==> n == |RecordBytes(r)|
  {
    hide EncodeOp;
    hide EncodeOps;
    hide DecodeOps;
    hide Fixed32;
    hide Fixed64;
    hide DecodeFixed32;
    RecordBack(r);
    var b := RecordBytes(r);
    if n == |b| {
      assert b[..n] == b;
    } else if n >= HEADER {
      CountStands(r, n);
      var k, m := CutAt(r.ops, n - HEADER);
      if m > 0 {
        OpsCut(r.ops[..k], r.ops[k], m);
      } else {
        var f := EncodeOps(r.ops[..k]);
        assert b[..n][HEADER..] == f + [] == f;
        DecodeOpsBack(r.ops[..k]);
      }
    }
  }

  lemma CountStands(r: Record, n: nat)
    requires r.first < TWO_64 && |r.ops| < TWO_32 && HEADER <= n <= |RecordBytes(r)|
    ensures DecodeFixed32(RecordBytes(r)[..n][8..]) == |r.ops|
    ensures RecordBytes(r)[..n][HEADER..] == EncodeOps(r.ops)[..n - HEADER]
  {
    hide EncodeOps;
    hide Fixed32;
    hide Fixed64;
    hide DecodeFixed32;
    var b := RecordBytes(r);
    assert b[..n][8..] == Fixed32(|r.ops|) + EncodeOps(r.ops)[..n - HEADER];
    Fixed32RoundTrip(|r.ops|, EncodeOps(r.ops)[..n - HEADER]);
  }

  lemma HeaderParts(a: Bytes, b: Bytes, c: Bytes)
    requires |a| == 8 && |b| == 4
    ensures (a + b + c)[8..] == b + c && (a + b + c)[HEADER..] == c && |a + b + c| == HEADER + |c|
  {
  }

  /** The stored count must be the number of operations. */
  lemma WrongCountRefused(first: nat, count: nat, ops: seq<Op>)
    requires first < TWO_64 && count < TWO_32 && OpsFit(ops)
    ensures WellFormed(Fixed64(first) + Fixed32(count) + EncodeOps(ops)) <==> count == |ops|
  {
    hide EncodeOps;
    hide DecodeOps;
    hide Fixed32;
    hide Fixed64;
    hide DecodeFixed32;
    var b := Fixed64(first) + Fixed32(count) + EncodeOps(ops);
    HeaderParts(Fixed64(first), Fixed32(count), EncodeOps(ops));
    DecodeOpsBack(ops);
    Fixed32RoundTrip(count, EncodeOps(ops));
  }

  // ---- the set of deleted files ---------------------------------------------------------------------------------

  /** By level, then by number, each once. */
  predicate InOrder(ps: seq<VersionEdit.Pair>) {
    forall i, j :: 0 <= i < j < |ps| ==>
      ps[i].level < ps[j].level || (ps[i].level == ps[j].level && ps[i].number < ps[j].number)
  }

  lemma {:induction false} InsertInOrder(ps: seq<VersionEdit.Pair>, p: VersionEdit.Pair)
    requires InOrder(ps)
    ensures InOrder(VersionEdit.InsertPair(ps, p))
    ensures forall q :: q in VersionEdit.InsertPair(ps, p) <==> q in ps || q == p
  {
    if ps != [] && !VersionEdit.PairLess(p, ps[0]) && ps[0] != p {
      InsertInOrder(ps[1..], p);
      var r := VersionEdit.InsertPair(ps[1..], p);
      forall j | 0 <= j < |r|
        ensures VersionEdit.PairLess(ps[0], r[j])
      {
        if r[j] != p {
          assert r[j] in ps[1..];
        }
      }
    }
  }

  // ---- manifest records ------------------------------------------------------------------------------------------

  lemma FieldThen(f: VersionEdit.Field, more: Bytes)
    requires VersionEdit.FieldFits(f)
    ensures VersionEdit.ParseFields(VersionEdit.EncodeField(f) + more) ==
      ([f] + VersionEdit.ParseFields(more).0, VersionEdit.ParseFields(more).1)
  {
    hide Varint;
    hide ParseVarint;
    hide VersionEdit.Body;
    hide VersionEdit.EncodeField;
    hide VersionEdit.ParseField;
    hide VersionEdit.FieldFits;
    VersionEdit.EncodeIsTagged(f);
    var t, b := Varint(VersionEdit.TagOf(f)), VersionEdit.Body(f);
    assert t + b + more == t + (b + more);
    Varint32Back(VersionEdit.TagOf(f), b + more);
    VersionEdit.FieldBack(f, more);
  }

  /** What follows whole fields is decoded behind them. */
  lemma {:induction false} FieldsThen(fs: seq<VersionEdit.Field>, tail: Bytes)
    requires VersionEdit.FieldsFit(fs)
    ensures VersionEdit.ParseFields(VersionEdit.EncodeFields(fs) + tail) ==
      (fs + VersionEdit.ParseFields(tail).0, VersionEdit.ParseFields(tail).1)
  {
    hide VersionEdit.EncodeField;
    hide VersionEdit.ParseFields;
    hide VersionEdit.FieldFits;
    var p := VersionEdit.ParseFields(tail);
    if fs == [] {
      assert VersionEdit.EncodeFields(fs) + tail == tail && [] + p.0 == p.0;
    } else {
      var more := VersionEdit.EncodeFields(fs[1..]) + tail;
      FieldsThen(fs[1..], tail);
      FieldThen(fs[0], more);
      assert VersionEdit.EncodeFields(fs) + tail == VersionEdit.EncodeField(fs[0]) + more;
      assert [fs[0]] + (fs[1..] + p.0) == fs + p.0;
    }
  }

  lemma NumberCut(v: nat, n: nat)
    requires v < TWO_64 && n < |Varint(v)|
    ensures VersionEdit.Parse64(Varint(v)[..n]) == NoNumber
  {
    VarintCut(v, n, 10, TWO_64);
  }

  lemma LevelCut(level: nat, n: nat)
    requires n < |Varint(level)|
    ensures VersionEdit.ParseLevel(Varint(level)[..n]) == NoNumber
  {
    VarintCut(level, n, 5, TWO_32);
  }

  lemma PointerCut(level: nat, key: Bytes, n: nat)
    requires VersionEdit.FieldFits(VersionEdit.Pointer(level, key)) && n < |Varint(level) + LengthPrefixed(key)|
    ensures VersionEdit.ParsePointer((Varint(level) + LengthPrefixed(key))[..n]) == None
  {
    hide Varint;
    hide ParsePiece;
    hide LengthPrefixed;
    hide VersionEdit.ParseLevel;
    var a := Varint(level);
    Front(a, LengthPrefixed(key), n);
    if n < |a| {
      LevelCut(level, n);
    } else {
      VersionEdit.LevelBack(level, LengthPrefixed(key)[..n - |a|]);
      PieceCut(key, n - |a|);
    }
  }

  lemma DeletedCut(level: nat, number: nat, n: nat)
    requires VersionEdit.FieldFits(VersionEdit.Deleted(level, number)) && n < |Varint(level) + Varint(number)|
    ensures VersionEdit.ParseDeleted((Varint(level) + Varint(number))[..n]) == None
  {
    hide Varint;
    hide VersionEdit.Parse64;
    hide VersionEdit.ParseLevel;
    var a := Varint(level);
    Front(a, Varint(number), n);
    if n < |a| {
      LevelCut(level, n);
    } else {
      VersionEdit.LevelBack(level, Varint(number)[..n - |a|]);
      NumberCut(number, n - |a|);
    }
  }

  lemma BoundsCut(level: nat, m: VersionEdit.Meta, n: nat)
    requires |m.smallest| < TWO_32 && |m.largest| < TWO_32
    requires n < |LengthPrefixed(m.smallest) + LengthPrefixed(m.largest)|
    ensures VersionEdit.ParseBounds(level, m.number, m.size,
      (LengthPrefixed(m.smallest) + LengthPrefixed(m.largest))[..n]) == None
  {
    hide ParsePiece;
    hide LengthPrefixed;
    var a := LengthPrefixed(m.smallest);
    Front(a, LengthPrefixed(m.largest), n);
    if n < |a| {
      PieceCut(m.smallest, n);
    } else {
      PieceBack(m.smallest, LengthPrefixed(m.largest)[..n - |a|]);
      PieceCut(m.largest, n - |a|);
    }
  }

  lemma AddedCut(level: nat, m: VersionEdit.Meta, n: nat)
    requires VersionEdit.FieldFits(VersionEdit.Added(level, m)) && n < |VersionEdit.Body(VersionEdit.Added(level, m))|
    ensures VersionEdit.ParseAdded(VersionEdit.Body(VersionEdit.Added(level, m))[..n]) == None
  {
    hide Varint;
    hide LengthPrefixed;
    hide VersionEdit.Parse64;
    hide VersionEdit.ParseLevel;
    hide VersionEdit.ParseBounds;
    var a, b, c := Varint(level), Varint(m.number), Varint(m.size);
    var d := LengthPrefixed(m.smallest) + LengthPrefixed(m.largest);
    Front(a, b + (c + d), n);
    if n < |a| {
      LevelCut(level, n);
    } else {
      var n1 := n - |a|;
      VersionEdit.LevelBack(level, (b + (c + d))[..n1]);
      Front(b, c + d, n1);
      if n1 < |b| {
        NumberCut(m.number, n1);
      } else {
        var n2 := n1 - |b|;
        Number64(m.number, (c + d)[..n2]);
        Front(c, d, n2);
        if n2 < |c| {
          NumberCut(m.size, n2);
        } else {
          Number64(m.size, d[..n2 - |c|]);
          BoundsCut(level, m, n2 - |c|);
        }
      }
    }
  }

  lemma Number64(v: nat, rest: Bytes)
    requires v < TWO_64
    ensures VersionEdit.Parse64(Varint(v) + rest) == Number(v, rest)
  {
    Varint64Back(v, rest);
  }

  lemma BodyCut(f: VersionEdit.Field, n: nat)
    requires VersionEdit.FieldFits(f) && n < |VersionEdit.Body(f)|
    ensures VersionEdit.ParseField(VersionEdit.TagOf(f), VersionEdit.Body(f)[..n]) == None
  {
    hide Varint;
    hide ParsePiece;
    hide LengthPrefixed;
    hide VersionEdit.Parse64;
    hide VersionEdit.ParseAdded;
    hide VersionEdit.ParseDeleted;
    hide VersionEdit.ParsePointer;
    match f
    case Comparator(name) => PieceCut(name, n);
    case LogNumber(v) => NumberCut(v, n);
    case PrevLogNumber(v) => NumberCut(v, n);
    case NextFile(v) => NumberCut(v, n);
    case LastSequence(v) => NumberCut(v, n);
    case Pointer(level, key) => PointerCut(level, key, n);
    case Deleted(level, v) => DeletedCut(level, v, n);
    case Added(level, m) => AddedCut(level, m, n);
  }

  /** A field cut off anywhere behind its tag: those before it are read, and the record is refused. */
  lemma FieldsCut(fs: seq<VersionEdit.Field>, f: VersionEdit.Field, n: nat)
    requires VersionEdit.FieldsFit(fs) && VersionEdit.FieldFits(f) && 0 < n < |VersionEdit.EncodeField(f)|
    ensures VersionEdit.ParseFields(VersionEdit.EncodeFields(fs) + VersionEdit.EncodeField(f)[..n]) == (fs, false)
  {
    hide Varint;
    hide ParseVarint;
    hide VersionEdit.Body;
    hide VersionEdit.EncodeField;
    hide VersionEdit.EncodeFields;
    hide VersionEdit.ParseField;
    hide VersionEdit.FieldFits;
    var tag := VersionEdit.TagOf(f);
    var b := VersionEdit.Body(f);
    FieldsThen(fs, VersionEdit.EncodeField(f)[..n]);
    VersionEdit.EncodeIsTagged(f);
    TagIsByte(f);
    Front(Varint(tag), b, n);
    Varint32Back(tag, b[..n - 1]);
    BodyCut(f, n - 1);
    assert fs + [] == fs;
  }

  lemma TagIsByte(f: VersionEdit.Field)
    ensures |Varint(VersionEdit.TagOf(f))| == 1
  {
  }

  /** A tag the manifest does not have: 0, 8, and everything from 10 on. */
  lemma UnknownTag(fs: seq<VersionEdit.Field>, tag: nat, rest: Bytes)
    requires VersionEdit.FieldsFit(fs) && tag < TWO_32 && (tag == 0 || tag == 8 || tag > 9)
    ensures VersionEdit.ParseFields(VersionEdit.EncodeFields(fs) + (Varint(tag) + rest)) == (fs, false)
  {
    hide Varint;
    hide ParseVarint;
    hide VersionEdit.EncodeFields;
    FieldsThen(fs, Varint(tag) + rest);
    Varint32Back(tag, rest);
    VarintLong(tag);
    assert fs + [] == fs;
  }

  lemma VarintLong(v: nat)
    ensures |Varint(v)| > 0
  {
  }

  /** A compaction pointer, deletion or new file at a level that does not exist. */
  lemma UnknownLevel(fs: seq<VersionEdit.Field>, tag: nat, level: nat, rest: Bytes)
    requires VersionEdit.FieldsFit(fs) && tag in {5, 6, 7} && 7 <= level < TWO_32
    ensures VersionEdit.ParseFields(VersionEdit.EncodeFields(fs) + (Varint(tag) + (Varint(level) + rest))) ==
      (fs, false)
  {
    hide Varint;
    hide ParseVarint;
    hide VersionEdit.EncodeFields;
    var b := Varint(level) + rest;
    FieldsThen(fs, Varint(tag) + b);
    Varint32Back(tag, b);
    Varint32Back(level, rest);
    assert VersionEdit.ParseLevel(b) == NoNumber;
    assert fs + [] == fs;
  }
}
