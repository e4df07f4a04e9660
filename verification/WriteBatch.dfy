/** Write batches: their bytes, appending, iterating, and inserting into a memtable. */
module WriteBatch {
  import opened Keys
  import opened Format
  import opened Coding
  import opened Store
  import MemTable
  import SkipList

  const HEADER := 12

  function EncodeOp(op: Op): Bytes {
    match op
    case Put(k, v) => [1] + (LengthPrefixed(k) + LengthPrefixed(v))
    case Del(k) => [0] + LengthPrefixed(k)
  }

  function EncodeOps(ops: seq<Op>): Bytes {
    if ops == [] then [] else EncodeOp(ops[0]) + EncodeOps(ops[1..])
  }

  lemma {:induction false} EncodeOpsConcat(a: seq<Op>, b: seq<Op>)
    ensures EncodeOps(a + b) == EncodeOps(a) + EncodeOps(b)
  {
    hide EncodeOp;
    if a == [] {
      assert a + b == b;
    } else {
      EncodeOpsConcat(a[1..], b);
      assert (a + b)[0] == a[0] && (a + b)[1..] == a[1..] + b;
      Assoc(EncodeOp(a[0]), EncodeOps(a[1..]), EncodeOps(b));
    }
  }

  lemma Assoc(a: Bytes, b: Bytes, c: Bytes)
    ensures a + (b + c) == a + b + c
  {
  }

  predicate OpFits(op: Op) {
    |op.key| < TWO_32 && (op.Put? ==> |op.value| < TWO_32)
  }

  predicate OpsFit(ops: seq<Op>) {
    forall i :: 0 <= i < |ops| ==> OpFits(ops[i])
  }

  /** One operation at the head of b, and what follows; None when malformed. */
  function DecodeOp(b: Bytes): (r: Option<(Op, Bytes)>)
    requires b != []
    ensures r.Some? ==> |r.value.1| < |b|
  {
    if b[0] == 1 then
      match ParsePiece(b[1..])
      case NoPiece => None
      case Piece(k, rest) =>
        (match ParsePiece(rest)
         case NoPiece => None
         case Piece(v, more) => Some((Put(k, v), more)))
    else if b[0] == 0 then
      match ParsePiece(b[1..])
      case NoPiece => None
      case Piece(k, rest) => Some((Del(k), rest))
    else None
  }

  /** The operations of b up to the first malformed one, and whether that was all of b. */
  function DecodeOps(b: Bytes): (seq<Op>, bool)
    decreases |b|
  {
    if b == [] then ([], true) else
      match DecodeOp(b)
      case None => ([], false)
      case Some((op, rest)) => ([op] + DecodeOps(rest).0, DecodeOps(rest).1)
  }

  lemma DecodeOpBack(op: Op, rest: Bytes)
    requires OpFits(op)
    ensures DecodeOp(EncodeOp(op) + rest) == Some((op, rest))
  {
    hide ParsePiece;
    hide LengthPrefixed;
    var b := EncodeOp(op) + rest;
    match op {
      case Put(k, v) =>
        assert b[1..] == LengthPrefixed(k) + (LengthPrefixed(v) + rest);
        PieceBack(k, LengthPrefixed(v) + rest);
        PieceBack(v, rest);
      case Del(k) =>
        assert b[1..] == LengthPrefixed(k) + rest;
        PieceBack(k, rest);
    }
  }

  lemma {:induction false} DecodeOpsBack(ops: seq<Op>)
    requires OpsFit(ops)
    ensures DecodeOps(EncodeOps(ops)) == (ops, true)
  {
    if ops != [] {
      hide EncodeOp;
      hide DecodeOp;
      DecodeOpBack(ops[0], EncodeOps(ops[1..]));
      DecodeOpsBack(ops[1..]);
      OpNotEmpty(ops[0]);
      assert [ops[0]] + ops[1..] == ops;
    }
  }

  lemma OpNotEmpty(op: Op)
    ensures EncodeOp(op) != []
  {
  }

  // ---- the batch as a log record ----------------------------------------------------------------------

  /** The bytes of a record: sequence, count, operations. */
  function RecordBytes(r: Record): Bytes
    requires r.first < TWO_64 && |r.ops| < TWO_32
  {
    Fixed64(r.first) + Fixed32(|r.ops|) + EncodeOps(r.ops)
  }

  /** Sequence number, count and operations, read back from a record's bytes. */
  lemma RecordBack(r: Record)
    requires r.first < TWO_64 && |r.ops| < TWO_32 && OpsFit(r.ops)
    ensures var b := RecordBytes(r);
      && |b| >= HEADER && DecodeFixed64(b) == r.first && DecodeFixed32(b[8..]) == |r.ops|
      && b[HEADER..] == EncodeOps(r.ops) && DecodeOps(b[HEADER..]) == (r.ops, true)
  {
    hide Fixed32;
    hide Fixed64;
    hide DecodeFixed32;
    hide DecodeFixed64;
    hide EncodeOps;
    var b := RecordBytes(r);
    assert b == Fixed64(r.first) + (Fixed32(|r.ops|) + EncodeOps(r.ops));
    assert b[8..] == Fixed32(|r.ops|) + EncodeOps(r.ops);
    assert b[HEADER..] == b[8..][4..];
    Fixed64RoundTrip(r.first, Fixed32(|r.ops|) + EncodeOps(r.ops));
    Fixed32RoundTrip(|r.ops|, EncodeOps(r.ops));
    DecodeOpsBack(r.ops);
  }

  /** Replacing the first eight bytes replaces the sequence number and nothing else. */
  lemma Resequenced(r: Record, n: nat)
    requires r.first < TWO_64 && n < TWO_64 && |r.ops| < TWO_32
    ensures |RecordBytes(r)| >= 8 && Fixed64(n) + RecordBytes(r)[8..] == RecordBytes(r.(first := n))
  {
  }

  class WriteBatch {
    var rep: Bytes
    /** What the batch means: its sequence number and operations. */
    ghost var record: Record

    ghost predicate Valid()
      reads this
    {
      record.first < TWO_64 && |record.ops| < TWO_32 && OpsFit(record.ops) && rep == RecordBytes(record)
    }

    constructor ()
      ensures Valid() && record == Record(0, [])
    {
      rep := [0, 0, 0, 0, 0, 0, 0, 0, 0, 0, 0, 0];
      record := Record(0, []);
      new;
      assert rep == RecordBytes(record) + [];
    }

    method Count() returns (n: nat)
      requires Valid()
      ensures n == |record.ops|
    {
      RecordBack(record);
      n := DecodeFixed32(rep[8..]);
    }

    method Sequence() returns (n: nat)
      requires Valid()
      ensures n == record.first
    {
      RecordBack(record);
      n := DecodeFixed64(rep);
    }

    method SetSequence(n: nat)
      requires Valid() && n < TWO_64
      modifies this
      ensures Valid() && record == old(record).(first := n)
    {
      hide RecordBytes;
      Resequenced(record, n);
      rep := Fixed64(n) + rep[8..];
      record := record.(first := n);
    }

    /** Rewrite the count in place and append the encoding of more operations. */
    method Extend(more: nat, tail: Bytes, ghost ops: seq<Op>)
      requires Valid() && more == |ops| && |record.ops| + |ops| < TWO_32 && OpsFit(ops) && tail == EncodeOps(ops)
      modifies this
      ensures Valid() && record == Record(old(record.first), old(record.ops) + ops)
    {
      hide Fixed64;
      hide Fixed32;
      hide EncodeOps;
      var n := Count();
      rep := rep[..8] + Fixed32(n + more) + rep[HEADER..];
      rep := rep + tail;
      EncodeOpsConcat(record.ops, ops);
      record := Record(record.first, record.ops + ops);
      assert rep == RecordBytes(record);
    }

    method Put(key: Bytes, value: Bytes)
      requires Valid() && |record.ops| + 1 < TWO_32 && OpFits(Op.Put(key, value))
      modifies this
      ensures Valid() && record == Record(old(record.first), old(record.ops) + [Op.Put(key, value)])
    {
      OneOp(Op.Put(key, value));
      Extend(1, [1] + (LengthPrefixed(key) + LengthPrefixed(value)), [Op.Put(key, value)]);
    }

    method Delete(key: Bytes)
      requires Valid() && |record.ops| + 1 < TWO_32 && OpFits(Del(key))
      modifies this
      ensures Valid() && record == Record(old(record.first), old(record.ops) + [Del(key)])
    {
      OneOp(Del(key));
      Extend(1, [0] + LengthPrefixed(key), [Del(key)]);
    }

    /** Another batch's operations after this one's; the other's sequence number is dropped. */
    method Append(source: WriteBatch)
      requires Valid() && source.Valid() && |record.ops| + |source.record.ops| < TWO_32
      modifies this
      ensures Valid() && record == Record(old(record.first), old(record.ops) + old(source.record.ops))
    {
      RecordBack(source.record);
      var n := source.Count();
      Extend(n, source.rep[HEADER..], source.record.ops);
    }
  }

  lemma OneOp(op: Op)
    ensures EncodeOps([op]) == EncodeOp(op)
  {
  }

  // ---- inserting into a memtable --------------------------------------------------------------------------

  lemma InsertOpsNext(mem: seq<Entry>, r: Record, n: nat)
    requires n < |r.ops|
    ensures InsertOps(mem, r, n + 1) == Insert(InsertOps(mem, r, n), EntryOf(r.ops[n], r.first + n))
  {
  }

  lemma InsertMembers(es: seq<Entry>, e: Entry, o: Entry)
    requires o in Insert(es, e)
    ensures o == e || o in es
  {
  }

  lemma {:induction false} InsertedBelow(mem: seq<Entry>, r: Record, n: nat, e: Entry)
    requires n <= |r.ops| && e in InsertOps(mem, r, n) && forall o :: o in mem ==> o.ik.sn < r.first
    ensures e.ik.sn < r.first + n
  {
    hide Insert;
    if n > 0 {
      var last := EntryOf(r.ops[n - 1], r.first + n - 1);
      InsertOpsNext(mem, r, n - 1);
      InsertMembers(InsertOps(mem, r, n - 1), last, e);
      if e != last {
        InsertedBelow(mem, r, n - 1, e);
      }
    }
  }

  /** A header, operations up to the end, and as many as the header says. */
  predicate WellFormed(rep: Bytes) {
    |rep| >= HEADER && DecodeOps(rep[HEADER..]).1 && |DecodeOps(rep[HEADER..]).0| == DecodeFixed32(rep[8..])
  }

  /** WriteBatch::Iterate with the memtable inserter, on any bytes: the operations up to the first malformed one go in
      under consecutive sequence numbers, and the result is success only for a complete batch with the right count. */
  method InsertInto(rep: Bytes, mem: MemTable.MemTable, coin: nat -> bool) returns (ok: bool)
    requires mem.Valid() && (|rep| >= HEADER ==> forall e :: e in mem.Entries() ==> e.ik.sn < DecodeFixed64(rep))
    modifies mem.table
    ensures mem.Valid()
    ensures ok <==> WellFormed(rep)
    ensures |rep| < HEADER ==> mem.Entries() == old(mem.Entries())
    ensures |rep| >= HEADER ==>
      var d := DecodeOps(rep[HEADER..]);
      mem.Entries() == InsertRecord(old(mem.Entries()), Record(DecodeFixed64(rep), d.0))
  {
    if |rep| < HEADER {
      return false;
    }
    hide DecodeFixed64;
    hide DecodeFixed32;
    hide InsertOps;
    hide SkipList.Inv;
    hide DecodeOp;
    hide Insert;
    var first := DecodeFixed64(rep);
    InsertNone(mem.Entries(), Record(first, DecodeOps(rep[HEADER..]).0));
    var input, found := rep[HEADER..], 0;
    ghost var r, start := Record(first, DecodeOps(rep[HEADER..]).0), mem.Entries();
    while input != []
      invariant mem.Valid() && found <= |r.ops|
      invariant mem.Entries() == InsertOps(start, r, found)
      invariant DecodeOps(input) == (r.ops[found..], DecodeOps(rep[HEADER..]).1)
      decreases |input|
    {
      var d := DecodeOp(input);
      if d.None? {
        assert r.ops[found..] == [];
        return false;
      }
      var (op, rest) := d.value;
      InsertHead(r.ops, found, op, DecodeOps(rest).0);
      InsertOpsNext(start, r, found);
      InsertOne(op, found, mem, coin, start, r, first);
      found := found + 1;
      input := rest;
    }
    ok := found == DecodeFixed32(rep[8..]);
  }

  lemma InsertNone(mem: seq<Entry>, r: Record)
    ensures InsertOps(mem, r, 0) == mem
  {
  }

  /** MemTableInserter: operation n of the record, under sequence number first + n. */
  method InsertOne(op: Op, n: nat, mem: MemTable.MemTable, coin: nat -> bool, ghost start: seq<Entry>,
          ghost r: Record, first: nat)
    requires mem.Valid() && first == r.first && n < |r.ops| && r.ops[n] == op && mem.Entries() == InsertOps(start, r, n)
    requires forall e :: e in start ==> e.ik.sn < r.first
    modifies mem.table
    ensures mem.Valid() && mem.Entries() == Insert(InsertOps(start, r, n), EntryOf(op, r.first + n))
  {
    hide InsertOps;
    hide Insert;
    hide SkipList.Inv;
    forall e | e in mem.Entries()
      ensures e.ik.sn < r.first + n
    {
      InsertedBelow(start, r, n, e);
    }
    match op {
      case Put(k, v) => mem.Add(first + n, Value, k, v, coin);
      case Del(k) => mem.Add(first + n, Deletion, k, [], coin);
    }
  }

  lemma InsertHead(ops: seq<Op>, n: nat, op: Op, rest: seq<Op>)
    requires n <= |ops| && ops[n..] == [op] + rest
    ensures n < |ops| && ops[n] == op && ops[n + 1..] == rest
  {
  }

  /** A batch's own bytes insert exactly its operations. */
  lemma OwnBytes(r: Record, mem: seq<Entry>)
    requires r.first < TWO_64 && |r.ops| < TWO_32 && OpsFit(r.ops)
    ensures var b := RecordBytes(r);
      && InsertRecord(mem, Record(DecodeFixed64(b), DecodeOps(b[HEADER..]).0)) == InsertRecord(mem, r)
      && DecodeOps(b[HEADER..]).1 && |DecodeOps(b[HEADER..]).0| == DecodeFixed32(b[8..])
  {
    RecordBack(r);
  }
}
