/** Recovery from the disk alone rebuilds a state with the same contents. */
module Recovery {
  import opened Format
  import opened Levels
  import opened LevelOrder
  import opened Store
  import opened Machine
  import opened Invariant

  // ---- which records are replayed ------------------------------------------------------

  lemma {:induction false} LogRecordsNone(logs: map<nat, seq<Record>>, from: nat, upto: nat)
    requires forall n :: n in logs ==> !(from <= n < upto)
    ensures LogRecords(logs, from, upto) == []
    decreases upto
  {
    if from < upto {
      LogRecordsNone(logs, from, upto - 1);
    }
  }

  lemma {:induction false} LogRecordsLast(logs: map<nat, seq<Record>>, from: nat, b: nat, upto: nat)
    requires from <= b < upto && b in logs
    requires forall n :: n in logs ==> !(b < n < upto)
    ensures LogRecords(logs, from, upto) == LogRecords(logs, from, b) + logs[b]
    decreases upto
  {
    if b < upto - 1 {
      LogRecordsLast(logs, from, b, upto - 1);
      assert upto - 1 !in logs;
    }
  }

  /** The logs from the recorded number up are the immutable memtable's, if any, and the memtable's. */
  lemma LogsReplayed(s: Db, newLog: nat)
    requires LogInv(s) && forall n :: n in s.disk.logs ==> n < newLog
    ensures LogRecords(s.disk.logs, s.logNumber, newLog) ==
      (if s.imm.Some? then s.disk.logs[s.logNumber] else []) + s.disk.logs[s.logFile]
  {
    hide Replay;
    hide Consecutive;
    var logs := s.disk.logs;
    LogRecordsLast(logs, s.logNumber, s.logFile, newLog);
    if s.imm.Some? {
      LogRecordsLast(logs, s.logNumber, s.logNumber, s.logFile);
      LogRecordsNone(logs, s.logNumber, s.logNumber);
    } else {
      LogRecordsNone(logs, s.logNumber, s.logFile);
    }
  }

  /** The logs from the recorded number up hold, in order, exactly the entries above cut0. */
  lemma ReplayedRecords(s: Db, newLog: nat)
    requires LogInv(s) && SeqInv(s) && forall n :: n in s.disk.logs ==> n < newLog
    ensures var rs := LogRecords(s.disk.logs, s.logNumber, newLog);
      && Consecutive(rs, s.cut0, s.Top())
      && RecordsEntries(rs) == Elems(s.mem) + (if s.imm.Some? then Elems(s.imm.value) else iset{}) + s.Inflight()
  {
    hide Replay;
    hide Consecutive;
    hide RecordsEntries;
    hide LogRecords;
    var logs := s.disk.logs;
    LogsReplayed(s, newLog);
    MemIsTable(s);
    CurrentLog(s);
    if s.imm.Some? {
      ConsecutiveConcat(logs[s.logNumber], logs[s.logFile], s.cut0, s.cut1, s.Top());
      ConcatEntries(logs[s.logNumber], logs[s.logFile]);
    } else {
      assert [] + logs[s.logFile] == logs[s.logFile];
    }
  }

  lemma CurrentLog(s: Db)
    requires LogInv(s)
    ensures Consecutive(s.disk.logs[s.logFile], s.cut1, s.Top())
    ensures RecordsEntries(s.disk.logs[s.logFile]) == RecordsEntries(MemRecords(s)) + s.Inflight()
  {
  }

  lemma ConcatEntries(a: seq<Record>, b: seq<Record>)
    ensures RecordsEntries(a + b) == RecordsEntries(a) + RecordsEntries(b)
  {
  }

  lemma {:induction false} ConsecutiveSplit(a: seq<Record>, b: seq<Record>, lo: nat, hi: nat) returns (mid: nat)
    requires Consecutive(a + b, lo, hi)
    ensures Consecutive(a, lo, mid) && Consecutive(b, mid, hi)
  {
    if b == [] {
      assert a + b == a;
      mid := hi;
    } else {
      var n := |b| - 1;
      assert (a + b)[..|a + b| - 1] == a + b[..n];
      assert (a + b)[|a + b| - 1] == b[n];
      mid := ConsecutiveSplit(a, b[..n], lo, b[n].first - 1);
    }
  }

  lemma {:induction false} LastIsTop(rs: seq<Record>, n: nat, lo: nat, hi: nat)
    requires Consecutive(rs, lo, hi) && lo <= n
    ensures LastOf(rs, n) == if hi > n then hi else n
  {
    if rs != [] {
      var k := |rs| - 1;
      LastIsTop(rs[..k], n, lo, rs[k].first - 1);
    }
  }

  // ---- the recovered tables --------------------------------------------------------------

  ghost function WithLevel0(v: LevelSets, fs: set<File>): (r: LevelSets)
    requires |v| > 0
    ensures |r| == |v|
  {
    v[0 := v[0] + fs]
  }

  /** What holds after the chunks cs, covering (lo, hi], have become level-0 tables on top of v. */
  ghost predicate Rebuilt(v: LevelSets, cs: seq<Chunk>, lo: nat, hi: nat, n: nat) {
    && |v| == NUM_LEVELS
    && var w := WithLevel0(v, ChunkFiles(cs));
    && VersionOk(w) && UniqueNumbers(w) && NumbersBelow(w, n)
    && Contents(w) == Contents(v) + RecordsEntries(ChunkRecords(cs))
    && (forall e :: e in Contents(w) ==> e.ik.sn <= hi)
  }

  lemma NoChunks(v: LevelSets, lo: nat, n: nat)
    requires VersionOk(v) && UniqueNumbers(v) && NumbersBelow(v, n)
    requires forall e :: e in Contents(v) ==> e.ik.sn <= lo
    ensures Rebuilt(v, [], lo, lo, n)
  {
    assert v[0] + {} == v[0];
    assert ChunkFiles([]) == {} && WithLevel0(v, {}) == v;
    assert RecordsEntries([]) == iset{};
    assert Contents(v) + iset{} == Contents(v);
  }

  lemma ChunkFileOk(c: Chunk, lo: nat, hi: nat)
    requires Consecutive(c.records, lo, hi) && ChunkTable(c) != []
    ensures FileOk(ChunkFile(c)) && Elems(ChunkFile(c).entries) == RecordsEntries(c.records)
    ensures forall e :: e in ChunkFile(c).entries ==> lo < e.ik.sn <= hi
  {
    ReplayTable(c.records, lo, hi);
  }

  lemma EmptyChunk(c: Chunk, lo: nat, hi: nat)
    requires Consecutive(c.records, lo, hi) && ChunkTable(c) == []
    ensures RecordsEntries(c.records) == iset{}
  {
    ReplayTable(c.records, lo, hi);
  }

  lemma AddOnTop(v: LevelSets, fs: set<File>, f: File)
    requires |v| > 0
    ensures AddFile(WithLevel0(v, fs), 0, f) == WithLevel0(v, fs + {f})
  {
    assert v[0] + fs + {f} == v[0] + (fs + {f});
  }

  lemma OneMoreTable(w: LevelSets, c: Chunk, mid: nat, hi: nat, n: nat)
    requires VersionOk(w) && UniqueNumbers(w) && NumbersBelow(w, n) && n <= c.number && mid <= hi
    requires forall e :: e in Contents(w) ==> e.ik.sn <= mid
    requires Consecutive(c.records, mid, hi) && ChunkTable(c) != []
    ensures var x := AddFile(w, 0, ChunkFile(c));
      VersionOk(x) && UniqueNumbers(x) && NumbersBelow(x, c.number + 1) &&
        Contents(x) == Contents(w) + RecordsEntries(c.records)
  {
    hide LevelOk;
    hide CrossNewer;
    hide FileOk;
    var f := ChunkFile(c);
    ChunkFileOk(c, mid, hi);
    FlushKeepsOrder(w, 0, f);
    AddUnique(w, 0, f);
    AddContents(w, 0, f);
  }

  lemma OneMoreChunk(v: LevelSets, cs: seq<Chunk>, lo: nat, mid: nat, hi: nat, n: nat, c: Chunk)
    requires Rebuilt(v, cs, lo, mid, n) && n <= c.number && mid <= hi
    requires Consecutive(c.records, mid, hi)
    ensures Rebuilt(v, cs + [c], lo, hi, c.number + 1)
  {
    hide VersionOk;
    hide UniqueNumbers;
    hide Consecutive;
    hide RecordsEntries;
    hide Contents;
    hide ChunkTable;
    var w := WithLevel0(v, ChunkFiles(cs));
    ConcatEntries(ChunkRecords(cs), c.records);
    assert (cs + [c])[..|cs|] == cs && ChunkRecords(cs + [c]) == ChunkRecords(cs) + c.records;
    if ChunkTable(c) == [] {
      EmptyChunk(c, mid, hi);
      assert ChunkFiles(cs + [c]) == ChunkFiles(cs);
    } else {
      OneMoreTable(w, c, mid, hi, n);
      AddOnTop(v, ChunkFiles(cs), ChunkFile(c));
      ChunkSequence(w, c, mid, hi);
    }
  }

  lemma ChunkSequence(w: LevelSets, c: Chunk, mid: nat, hi: nat)
    requires Consecutive(c.records, mid, hi) && ChunkTable(c) != [] && |w| > 0 && mid <= hi
    requires forall e :: e in Contents(w) ==> e.ik.sn <= mid
    ensures forall e :: e in Contents(AddFile(w, 0, ChunkFile(c))) ==> e.ik.sn <= hi
  {
    ChunkFileOk(c, mid, hi);
    AddContents(w, 0, ChunkFile(c));
  }

  /** Every chunk becomes a table newer than all before it, so level 0 stays ordered and nothing is lost or added. */
  lemma {:induction false} AllChunks(v: LevelSets, cs: seq<Chunk>, lo: nat, hi: nat, n: nat, end: nat)
    requires VersionOk(v) && UniqueNumbers(v) && NumbersBelow(v, n) && n <= end
    requires forall e :: e in Contents(v) ==> e.ik.sn <= lo
    requires Consecutive(ChunkRecords(cs), lo, hi)
    requires forall i :: 0 <= i < |cs| ==> n <= cs[i].number < end
    requires forall i, j :: 0 <= i < j < |cs| ==> cs[i].number < cs[j].number
    ensures Rebuilt(v, cs, lo, hi, end)
  {
    hide VersionOk;
    hide UniqueNumbers;
    hide Rebuilt;
    hide Consecutive;
    if cs == [] {
      EmptyRecords(lo, hi);
      NoChunks(v, lo, n);
      RebuiltGrows(v, cs, lo, hi, n, end);
    } else {
      var k := |cs| - 1;
      assert ChunkRecords(cs) == ChunkRecords(cs[..k]) + cs[k].records;
      var mid := ConsecutiveSplit(ChunkRecords(cs[..k]), cs[k].records, lo, hi);
      ConsecutiveBounds(cs[k].records, mid, hi);
      AllChunks(v, cs[..k], lo, mid, n, cs[k].number);
      OneMoreChunk(v, cs[..k], lo, mid, hi, cs[k].number, cs[k]);
      assert cs[..k] + [cs[k]] == cs;
      RebuiltGrows(v, cs, lo, hi, cs[k].number + 1, end);
    }
  }

  lemma EmptyRecords(lo: nat, hi: nat)
    requires Consecutive([], lo, hi)
    ensures lo == hi
  {
  }

  lemma NumbersGrow(v: LevelSets, n: nat, m: nat)
    requires NumbersBelow(v, n) && n <= m
    ensures NumbersBelow(v, m)
  {
  }

  lemma RebuiltGrows(v: LevelSets, cs: seq<Chunk>, lo: nat, hi: nat, n: nat, m: nat)
    requires Rebuilt(v, cs, lo, hi, n) && n <= m
    ensures Rebuilt(v, cs, lo, hi, m)
  {
  }

  lemma {:induction false} ChunkFilesFrom(cs: seq<Chunk>, f: File) returns (i: nat)
    requires f in ChunkFiles(cs)
    ensures i < |cs| && ChunkTable(cs[i]) != [] && f == ChunkFile(cs[i])
  {
    var k := |cs| - 1;
    if f in ChunkFiles(cs[..k]) {
      i := ChunkFilesFrom(cs[..k], f);
    } else {
      i := k;
    }
  }

  // ---- the recovered manifest ------------------------------------------------------------------

  lemma SnapshotIsEdit(m: Meta)
    requires |m.levels| == NUM_LEVELS
    ensures ApplyLevels(EMPTY_LEVELS, SnapshotEdit(m)) == m.levels
  {
    var w := ApplyLevels(EMPTY_LEVELS, SnapshotEdit(m));
    forall l | 0 <= l < NUM_LEVELS
      ensures w[l] == m.levels[l]
    {
      assert EMPTY_LEVELS[l] == {};
      forall f: File
        ensures f in w[l] <==> f in m.levels[l]
      {
        assert f in w[l] <==> (l, f) in SnapshotEdit(m).added;
      }
    }
  }

  lemma AddAllIsEdit(v: LevelSets, fs: set<File>, e: Edit)
    requires |v| > 0 && e.deleted == {} && e.added == Additions(0, fs)
    ensures ApplyLevels(v, e) == WithLevel0(v, fs)
  {
    var w := ApplyLevels(v, e);
    forall l | 0 <= l < |v|
      ensures w[l] == WithLevel0(v, fs)[l]
    {
      forall f: File
        ensures (l, f) in e.added <==> l == 0 && f in fs
      {
      }
      forall f: File
        ensures f in w[l] <==> f in WithLevel0(v, fs)[l]
      {
        assert f in w[l] <==> f in v[l] || (l, f) in e.added;
      }
    }
  }

  lemma RecoveredManifest(m: Meta, fs: set<File>, e: Edit)
    requires |m.levels| == NUM_LEVELS && e.deleted == {} && e.added == Additions(0, fs)
    ensures ReplayManifest([SnapshotEdit(m), e]) == Meta(WithLevel0(m.levels, fs), e.logNumber, e.nextFile, e.lastSeq)
  {
    ReplayOneMore([], SnapshotEdit(m));
    ReplayOneMore([SnapshotEdit(m)], e);
    assert [] + [SnapshotEdit(m)] == [SnapshotEdit(m)];
    assert [SnapshotEdit(m)] + [e] == [SnapshotEdit(m), e];
    SnapshotIsEdit(m);
    AddAllIsEdit(m.levels, fs, e);
  }

  // ---- the recovered state ------------------------------------------------------------------------

  /** What recovery rebuilds, in one place: the levels, the last sequence number, and the contents. */
  lemma RecoveredLevels(s: Db, cs: seq<Chunk>, newLog: nat, next: nat)
    requires SeqInv(s) && LogInv(s) && MetaInv(s) && OrderInv(s) && CanRecover(s.disk, cs, newLog, next)
    ensures var t := DoRecover(s, cs, newLog, next);
      && t.levels == WithLevel0(s.levels, ChunkFiles(cs)) && t.lastSeq == s.Top()
      && Rebuilt(s.levels, cs, s.cut0, s.Top(), newLog)
      && t.All() == s.All() + s.Inflight()
  {
    hide VersionOk;
    hide UniqueNumbers;
    var rs := LogRecords(s.disk.logs, s.logNumber, newLog);
    var m := ReplayManifest(s.disk.manifest);
    ReplayedRecords(s, newLog);
    ConsecutiveBounds(rs, s.cut0, s.Top());
    LastIsTop(rs, m.lastSeq, s.cut0, s.Top());
    VersionHasLevels(s.levels);
    AllChunks(s.levels, cs, s.cut0, s.Top(), m.nextFile, newLog);
    RecoveredAll(s, cs, newLog, next, rs);
  }

  lemma VersionHasLevels(v: LevelSets)
    requires VersionOk(v)
    ensures |v| == NUM_LEVELS
  {
  }

  lemma RecoveredAll(s: Db, cs: seq<Chunk>, newLog: nat, next: nat, rs: seq<Record>)
    requires CanRecover(s.disk, cs, newLog, next) && ReplayManifest(s.disk.manifest).levels == s.levels &&
      |s.levels| == NUM_LEVELS
    requires rs == ChunkRecords(cs)
    requires Contents(WithLevel0(s.levels, ChunkFiles(cs))) == Contents(s.levels) + RecordsEntries(rs)
    requires RecordsEntries(rs) == Elems(s.mem) + (if s.imm.Some? then Elems(s.imm.value) else iset{}) + s.Inflight()
    ensures DoRecover(s, cs, newLog, next).All() == s.All() + s.Inflight()
  {
    hide RecordsEntries;
    hide Contents;
    hide CanRecover;
    var t := DoRecover(s, cs, newLog, next);
    assert t.All() == Contents(t.levels);
  }

  lemma RecoverKeepsSeqLog(s: Db, cs: seq<Chunk>, newLog: nat, next: nat)
    requires SeqInv(s) && LogInv(s) && MetaInv(s) && OrderInv(s) && CanRecover(s.disk, cs, newLog, next)
    ensures var t := DoRecover(s, cs, newLog, next); SeqInv(t) && LogInv(t) && OrderInv(t) && FlushInv(t) && RunInv(t)
  {
    hide VersionOk;
    hide UniqueNumbers;
    hide ChunkFiles;
    hide ChunkRecords;
    hide LogRecords;
    hide LastOf;
    hide ReplayManifest;
    hide NumbersBelow;
    hide WithLevel0;
    hide SnapshotEdit;
    hide Numbers;
    hide RecordsEntries;
    RecoveredLevels(s, cs, newLog, next);
  }

  lemma RecoverKeepsMeta(s: Db, cs: seq<Chunk>, newLog: nat, next: nat)
    requires SeqInv(s) && LogInv(s) && MetaInv(s) && OrderInv(s) && CanRecover(s.disk, cs, newLog, next)
    ensures MetaInv(DoRecover(s, cs, newLog, next))
  {
    hide VersionOk;
    hide UniqueNumbers;
    hide LogInv;
    RecoveredLevels(s, cs, newLog, next);
    var t := DoRecover(s, cs, newLog, next);
    RecoveredManifest(ReplayManifest(s.disk.manifest), ChunkFiles(cs), t.disk.manifest[1]);
    NumbersGrow(t.levels, newLog, next);
  }

  lemma OneNumberOneFile(cs: seq<Chunk>, f: File, g: File)
    requires forall i, j :: 0 <= i < j < |cs| ==> cs[i].number < cs[j].number
    requires f in ChunkFiles(cs) && g in ChunkFiles(cs) && f.number == g.number
    ensures f == g
  {
  }

  /** The new tables take numbers above every referenced one, so no referenced table is overwritten. */
  lemma RecoverKeepsTables(s: Db, cs: seq<Chunk>, newLog: nat, next: nat)
    requires TableInv(s) && SeqInv(s) && LogInv(s) && MetaInv(s) && OrderInv(s) && CanRecover(s.disk, cs, newLog, next)
    ensures TableInv(DoRecover(s, cs, newLog, next))
  {
    hide VersionOk;
    hide UniqueNumbers;
    hide LogInv;
    hide SeqInv;
    RecoveredLevels(s, cs, newLog, next);
    var t := DoRecover(s, cs, newLog, next);
    forall l, f | 0 <= l < |t.levels| && f in t.levels[l]
      ensures Stored(t.disk.tables, f)
    {
      RecoveredStored(s, cs, newLog, next, l, f);
    }
    NumbersGrow(t.levels, newLog, next);
  }

  lemma RecoveredStored(s: Db, cs: seq<Chunk>, newLog: nat, next: nat, l: nat, f: File)
    requires TableInv(s) && MetaInv(s) && CanRecover(s.disk, cs, newLog, next)
    requires |s.levels| == NUM_LEVELS && l < NUM_LEVELS && f in WithLevel0(s.levels, ChunkFiles(cs))[l]
    ensures Stored(DoRecover(s, cs, newLog, next).disk.tables, f)
  {
    var fs := ChunkFiles(cs);
    if f in fs {
      assert f.number in Numbers(fs);
      forall g | g in fs && g.number == f.number
        ensures g == f
      {
        OneNumberOneFile(cs, f, g);
      }
    } else {
      assert Stored(s.disk.tables, f);
      forall g | g in fs
        ensures g.number != f.number
      {
        var i := ChunkFilesFrom(cs, g);
        assert f.number < ReplayManifest(s.disk.manifest).nextFile;
      }
    }
  }

  lemma RecoverKeepsReads(s: Db, cs: seq<Chunk>, newLog: nat, next: nat)
    requires ReadInv(s) && SeqInv(s) && LogInv(s) && MetaInv(s) && OrderInv(s) && CanRecover(s.disk, cs, newLog, next)
    ensures ReadInv(DoRecover(s, cs, newLog, next))
  {
    hide VersionOk;
    hide UniqueNumbers;
    hide LogInv;
    hide SeqInv;
    hide MetaInv;
    RecoveredLevels(s, cs, newLog, next);
    var t := DoRecover(s, cs, newLog, next);
    assert t.All() + t.Inflight() == s.All() + s.Inflight();
  }

  lemma RecoverKeeps(s: Db, cs: seq<Chunk>, newLog: nat, next: nat)
    requires Inv(s) && CanRecover(s.disk, cs, newLog, next)
    ensures Inv(DoRecover(s, cs, newLog, next))
  {
    hide SeqInv;
    hide LogInv;
    hide TableInv;
    hide MetaInv;
    hide OrderInv;
    hide FlushInv;
    hide RunInv;
    hide ReadInv;
    hide CanRecover;
    RecoverKeepsSeqLog(s, cs, newLog, next);
    RecoverKeepsMeta(s, cs, newLog, next);
    RecoverKeepsTables(s, cs, newLog, next);
    RecoverKeepsReads(s, cs, newLog, next);
  }
}
