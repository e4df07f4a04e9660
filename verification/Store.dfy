/** Batches, log records, and the memtable as the sorted list that replaying them builds. */
module Store {
  import opened Keys
  import opened Format
  import opened Levels

  // ---- batches and logs ---------------------------------------------------------

  datatype Op = Put(key: Bytes, value: Bytes) | Del(key: Bytes)

  /** One log record: a batch and the sequence number of its first operation. */
  datatype Record = Record(first: nat, ops: seq<Op>)

  function EntryOf(op: Op, sn: nat): Entry {
    match op
    case Put(k, v) => Entry(IKey(k, sn, Value), v)
    case Del(k) => Entry(IKey(k, sn, Deletion), [])
  }

  ghost function RecordEntries(r: Record): iset<Entry> {
    OpEntries(r, |r.ops|)
  }

  ghost function RecordsEntries(rs: seq<Record>): iset<Entry> {
    iset r, e | r in rs && e in RecordEntries(r) :: e
  }

  /** Records number their operations consecutively: rs covers exactly the sequence numbers lo+1 .. hi. */
  ghost predicate Consecutive(rs: seq<Record>, lo: nat, hi: nat) {
    if rs == [] then lo == hi else
      var r := rs[|rs| - 1];
      1 <= r.first && hi == r.first - 1 + |r.ops| && Consecutive(rs[..|rs| - 1], lo, r.first - 1)
  }

  // ---- the memtable: a sorted list under insertion ---------------------------------

  function Insert(es: seq<Entry>, e: Entry): seq<Entry> {
    var i := LowerBound(es, e.ik, 0);
    es[..i] + [e] + es[i..]
  }

  /** MemTableInserter over the first n operations of a batch. */
  function InsertOps(mem: seq<Entry>, r: Record, n: nat): seq<Entry>
    requires n <= |r.ops|
  {
    if n == 0 then mem else Insert(InsertOps(mem, r, n - 1), EntryOf(r.ops[n - 1], r.first + n - 1))
  }

  function InsertRecord(mem: seq<Entry>, r: Record): seq<Entry> {
    InsertOps(mem, r, |r.ops|)
  }

  function Replay(mem: seq<Entry>, rs: seq<Record>): seq<Entry> {
    if rs == [] then mem else InsertRecord(Replay(mem, rs[..|rs| - 1]), rs[|rs| - 1])
  }

  /** es is the memtable of a run of records: sorted, with exactly their entries, numbered in (lo, hi]. */
  ghost predicate TableOf(es: seq<Entry>, entries: iset<Entry>, lo: nat, hi: nat) {
    Sorted(es) && Elems(es) == entries && forall e :: e in es ==> lo < e.ik.sn <= hi
  }

  lemma InsertAt(es: seq<Entry>, e: Entry, i: nat)
    requires Sorted(es) && i <= |es|
    requires forall j :: 0 <= j < i ==> ILess(es[j].ik, e.ik)
    requires forall j :: i <= j < |es| ==> ILess(e.ik, es[j].ik)
    ensures Sorted(es[..i] + [e] + es[i..])
    ensures Elems(es[..i] + [e] + es[i..]) == Elems(es) + iset{e}
  {
    var r := es[..i] + [e] + es[i..];
    forall a, b | 0 <= a < b < |r|
      ensures ILess(r[a].ik, r[b].ik)
    {
      assert r[a] == if a < i then es[a] else if a == i then e else es[a - 1];
      assert r[b] == if b < i then es[b] else if b == i then e else es[b - 1];
    }
    assert es == es[..i] + es[i..];
  }

  lemma InsertKeeps(es: seq<Entry>, e: Entry)
    requires Sorted(es)
    requires forall o :: o in es ==> o.ik.sn < e.ik.sn
    ensures Sorted(Insert(es, e)) && Elems(Insert(es, e)) == Elems(es) + iset{e}
  {
    var i := LowerBound(es, e.ik, 0);
    forall j | i <= j < |es|
      ensures ILess(e.ik, es[j].ik)
    {
      assert es[i] in es;
      assert i == j || ILess(es[i].ik, es[j].ik);
    }
    InsertAt(es, e, i);
  }

  ghost function OpEntries(r: Record, n: nat): iset<Entry>
    requires n <= |r.ops|
  {
    iset i | 0 <= i < n :: EntryOf(r.ops[i], r.first + i)
  }

  lemma OpsGrow(r: Record, n: nat)
    requires 0 < n <= |r.ops|
    ensures OpEntries(r, n) == OpEntries(r, n - 1) + iset{EntryOf(r.ops[n - 1], r.first + n - 1)}
  {
  }

  lemma TableGrows(mem: seq<Entry>, after: seq<Entry>, entries: iset<Entry>, entries': iset<Entry>, e: Entry, lo: nat,
          hi: nat)
    requires TableOf(mem, entries, lo, hi) && e.ik.sn == hi + 1 && lo <= hi
    requires after == Insert(mem, e) && entries' == entries + iset{e}
    ensures TableOf(after, entries', lo, hi + 1)
  {
    InsertKeeps(mem, e);
    forall o | o in after
      ensures lo < o.ik.sn <= hi + 1
    {
      assert o in Elems(after);
      assert o in Elems(mem) || o == e;
    }
  }

  lemma InsertOpsStep(mem: seq<Entry>, r: Record, n: nat)
    requires 0 < n <= |r.ops|
    ensures InsertOps(mem, r, n) == Insert(InsertOps(mem, r, n - 1), EntryOf(r.ops[n - 1], r.first + n - 1))
  {
  }

  lemma {:induction false} InsertOpsTable(mem: seq<Entry>, entries: iset<Entry>, r: Record, n: nat, lo: nat, hi: nat)
    requires n <= |r.ops| && 1 <= r.first && lo <= hi == r.first - 1
    requires TableOf(mem, entries, lo, hi)
    ensures TableOf(InsertOps(mem, r, n), entries + OpEntries(r, n), lo, hi + n)
  {
    hide TableOf;
    hide OpEntries;
    hide Insert;
    if n == 0 {
      NoOps(r, entries);
    } else {
      InsertOpsTable(mem, entries, r, n - 1, lo, hi);
      InsertOpsStep(mem, r, n);
      OpsGrow(r, n);
      var e := EntryOf(r.ops[n - 1], r.first + n - 1);
      UnionAssoc(entries, OpEntries(r, n - 1), OpEntries(r, n), e);
      TableGrows(InsertOps(mem, r, n - 1), InsertOps(mem, r, n), entries + OpEntries(r, n - 1),
        entries + OpEntries(r, n), e, lo, hi + n - 1);
    }
  }

  lemma NoOps(r: Record, entries: iset<Entry>)
    ensures entries + OpEntries(r, 0) == entries
  {
  }

  lemma UnionAssoc(a: iset<Entry>, b: iset<Entry>, c: iset<Entry>, e: Entry)
    requires c == b + iset{e}
    ensures a + c == a + b + iset{e}
  {
  }

  lemma InsertRecordTable(mem: seq<Entry>, entries: iset<Entry>, r: Record, lo: nat)
    requires 1 <= r.first && lo < r.first && TableOf(mem, entries, lo, r.first - 1)
    ensures TableOf(InsertRecord(mem, r), entries + RecordEntries(r), lo, r.first - 1 + |r.ops|)
  {
    InsertOpsTable(mem, entries, r, |r.ops|, lo, r.first - 1);
  }

  lemma {:induction false} ConsecutiveBounds(rs: seq<Record>, lo: nat, hi: nat)
    requires Consecutive(rs, lo, hi)
    ensures lo <= hi
  {
    if rs != [] {
      ConsecutiveBounds(rs[..|rs| - 1], lo, rs[|rs| - 1].first - 1);
    }
  }

  lemma RecordsSplit(rs: seq<Record>)
    requires rs != []
    ensures RecordsEntries(rs) == RecordsEntries(rs[..|rs| - 1]) + RecordEntries(rs[|rs| - 1])
  {
    var n := |rs| - 1;
    assert rs == rs[..n] + [rs[n]];
  }

  /** Replaying a log rebuilds the memtable those writes built. */
  lemma {:induction false} ReplayTable(rs: seq<Record>, lo: nat, hi: nat)
    requires Consecutive(rs, lo, hi)
    ensures TableOf(Replay([], rs), RecordsEntries(rs), lo, hi)
  {
    if rs == [] {
      assert RecordsEntries(rs) == iset{};
    } else {
      var n := |rs| - 1;
      ReplayTable(rs[..n], lo, rs[n].first - 1);
      ConsecutiveBounds(rs[..n], lo, rs[n].first - 1);
      InsertRecordTable(Replay([], rs[..n]), RecordsEntries(rs[..n]), rs[n], lo);
      RecordsSplit(rs);
    }
  }

  lemma {:induction false} ConsecutiveConcat(a: seq<Record>, b: seq<Record>, lo: nat, mid: nat, hi: nat)
    requires Consecutive(a, lo, mid) && Consecutive(b, mid, hi)
    ensures Consecutive(a + b, lo, hi)
  {
    if b == [] {
      assert a + b == a;
    } else {
      var n := |b| - 1;
      ConsecutiveConcat(a, b[..n], lo, mid, b[n].first - 1);
      assert (a + b)[..|a + b| - 1] == a + b[..n];
    }
  }
}
