/** What every reachable state of the database keeps, and that each step keeps it. */
module Invariant {
  import opened Keys
  import opened Format
  import opened Levels
  import opened Compaction
  import opened Inputs
  import opened LevelOrder
  import opened CompactionReads
  import opened Gaps
  import opened Store
  import opened Machine

  // ---- the parts ------------------------------------------------------------------------

  /** Tables, immutable memtable and memtable hold successive ranges of sequence numbers. */
  ghost predicate SeqInv(s: Db) {
    && s.cut0 <= s.cut1 <= s.lastSeq
    && (forall e :: e in Contents(s.levels) ==> e.ik.sn <= s.cut0)
    && (s.imm.None? ==> s.cut0 == s.cut1)
  }

  /** The records of the current log that the memtable has. */
  ghost function MemRecords(s: Db): seq<Record>
    requires s.logFile in s.disk.logs
  {
    var rs := s.disk.logs[s.logFile];
    if s.inflight.Some? && rs != [] then rs[..|rs| - 1] else rs
  }

  ghost predicate InflightLogged(s: Db)
    requires s.logFile in s.disk.logs
  {
    s.inflight.Some? ==>
      var rs := s.disk.logs[s.logFile];
      rs != [] && rs[|rs| - 1] == s.inflight.value && s.inflight.value.first == s.lastSeq + 1
  }

  /** The memtables are what their logs replay to, and from the recorded log number up there are no other logs. */
  ghost predicate LogInv(s: Db) {
    && s.logFile in s.disk.logs && s.logNumber in s.disk.logs && s.logNumber <= s.logFile
    && (forall n :: n in s.disk.logs ==> n < s.nextFile && (s.logNumber <= n ==> n == s.logNumber || n == s.logFile))
    && InflightLogged(s)
    && s.mem == Replay([], MemRecords(s)) && Consecutive(MemRecords(s), s.cut1, s.lastSeq)
    && (s.imm.None? ==> s.logNumber == s.logFile)
    && (s.imm.Some? ==>
          && s.logNumber < s.logFile
          && s.imm.value == Replay([], s.disk.logs[s.logNumber])
          && Consecutive(s.disk.logs[s.logNumber], s.cut0, s.cut1))
  }

  ghost predicate NumbersBelow(v: LevelSets, n: nat) {
    forall l, f :: 0 <= l < |v| && f in v[l] ==> f.number < n
  }

  ghost predicate UniqueNumbers(v: LevelSets) {
    forall l, m, f, g :: 0 <= l < |v| && 0 <= m < |v| && f in v[l] && g in v[m] && f.number == g.number ==>
      l == m && f == g
  }

  /** Every file a reader may reach is on disk, under a number no new file will take. */
  ghost predicate TableInv(s: Db) {
    && AllStored(s.disk.tables, s.levels) && NumbersBelow(s.levels, s.nextFile)
    && (forall v :: v in s.pinned ==> AllStored(s.disk.tables, v) && NumbersBelow(v, s.nextFile))
    && (s.flush.Built? ==> Stored(s.disk.tables, s.flush.file) && s.flush.file.number < s.nextFile)
    && (s.running.Some? ==> forall o :: o in s.running.value.outs ==>
          Stored(s.disk.tables, o) && o.number < s.nextFile && o.number in s.pending)
  }

  /** Replaying the manifest gives the current version and counters that bound what they must. */
  ghost predicate MetaInv(s: Db) {
    var m := ReplayManifest(s.disk.manifest);
    m.levels == s.levels && m.logNumber == s.logNumber && m.nextFile <= s.nextFile && NumbersBelow(s.levels, m.nextFile)
      && s.cut0 <= m.lastSeq <= s.lastSeq
  }

  ghost predicate OrderInv(s: Db) {
    VersionOk(s.levels) && UniqueNumbers(s.levels)
  }

  ghost predicate FlushInv(s: Db) {
    && (!s.flush.Idle? ==> s.imm.Some?)
    && (s.flush.Built? ==>
          var f := s.flush.file;
          && s.flush.level < NUM_LEVELS && FileOk(f) && f.entries == s.imm.value
          && (forall l, g :: 0 <= l < |s.levels| && g in s.levels[l] ==> g.number < f.number)
          && ClearDownTo(s.levels, s.flush.level, f)
          && (s.running.Some? ==> FlushClear(s.running.value, s.flush.level, f)))
    && (s.flush.Empty? ==> s.imm == Some([]))
  }

  /** The flushed table does not disturb the running compaction. */
  ghost predicate FlushClear(r: Running, level: nat, f: File) {
    && (level == r.level + 1 ==> Outlies(f, r.in0 + r.in1))
    && forall o :: o in r.outs ==> o.number != f.number
  }

  ghost predicate RunOk(v: LevelSets, r: Running) {
    && SafeInputs(v, r.level, r.in0, r.in1) && GoodOutputs(v, r.level, r.in0, r.in1, r.outs)
    && Sorted(r.input) && Elems(r.input) == FileEntries(r.in0 + r.in1)
    && FileEntries(r.outs) == Elems(Output(r.input, r.floor, r.base, r.level))
    && NoneResurrect(r.input, Contents(Without(v, r.level, r.in0, r.in1)), r.floor, r.base, r.level)
    && (forall o, l, f :: o in r.outs && 0 <= l < |v| && f in v[l] ==> o.number != f.number)
  }

  ghost predicate RunInv(s: Db) {
    s.running.Some? ==> RunOk(s.levels, s.running.value) && s.IsFloor(s.running.value.floor)
  }

  /** From the highest installed floor up, the database reads like the plain history of writes. */
  ghost predicate ReadInv(s: Db) {
    && Distinct(s.written) && s.All() + s.Inflight() <= s.written
    && (forall e :: e in s.written ==> e.ik.sn <= s.Top())
    && s.IsFloor(s.low) && (forall n :: n in s.snapshots ==> n <= s.lastSeq)
    && (forall n: nat :: s.low <= n ==> SameReads(s.All() + s.Inflight(), s.written, n))
  }

  ghost predicate Inv(s: Db) {
    SeqInv(s) && LogInv(s) && TableInv(s) && MetaInv(s) && OrderInv(s) && FlushInv(s) && RunInv(s) && ReadInv(s)
  }

  // ---- memtables -------------------------------------------------------------------------

  lemma MemIsTable(s: Db)
    requires LogInv(s)
    ensures TableOf(s.mem, RecordsEntries(MemRecords(s)), s.cut1, s.lastSeq)
    ensures s.imm.Some? ==> TableOf(s.imm.value, RecordsEntries(s.disk.logs[s.logNumber]), s.cut0, s.cut1)
  {
    ReplayTable(MemRecords(s), s.cut1, s.lastSeq);
    if s.imm.Some? {
      ReplayTable(s.disk.logs[s.logNumber], s.cut0, s.cut1);
    }
  }

  // ---- a write: append to the log ---------------------------------------------------------

  lemma LogKeepsLog(s: Db, ops: seq<Op>)
    requires LogInv(s) && CanLog(s)
    ensures LogInv(DoLog(s, ops))
  {
    var t := DoLog(s, ops);
    assert MemRecords(t) == MemRecords(s);
  }

  lemma RecordSequence(r: Record, e: Entry)
    requires e in RecordEntries(r)
    ensures r.first <= e.ik.sn < r.first + |r.ops|
  {
  }

  lemma RecordDistinct(r: Record)
    ensures Distinct(RecordEntries(r))
  {
  }

  /** Adding entries newer than n to both sides keeps every read equal. */
  lemma SameReadsGrow(a: iset<Entry>, b: iset<Entry>, x: iset<Entry>, n: nat, top: nat)
    requires Distinct(b + x) && a <= b && SameReads(a, b, n)
    requires forall e :: e in b ==> e.ik.sn <= top
    requires forall e :: e in x ==> top < e.ik.sn
    ensures SameReads(a + x, b + x, n)
  {
    forall k: Bytes
      ensures Read(a + x, k, n) == Read(b + x, k, n)
    {
      assert Read(a, k, n) == Read(b, k, n);
      var m := Newest(x, k, n);
      if m.Some? {
        NewestIs(a + x, k, n, m.value);
        NewestIs(b + x, k, n, m.value);
      } else {
        NewestOfLeft(a, x, k, n);
        NewestOfLeft(b, x, k, n);
      }
    }
  }

  lemma NewestOfLeft(a: iset<Entry>, x: iset<Entry>, k: Bytes, n: nat)
    requires Distinct(a + x) && Newest(x, k, n).None?
    ensures Newest(a + x, k, n) == Newest(a, k, n)
  {
  }

  lemma LogKeepsReads(s: Db, ops: seq<Op>)
    requires ReadInv(s) && CanLog(s)
    ensures ReadInv(DoLog(s, ops))
  {
    var t := DoLog(s, ops);
    var r := t.inflight.value;
    var x := RecordEntries(r);
    assert s.All() + s.Inflight() == s.All();
    assert t.All() == s.All() && t.Inflight() == x;
    forall e | e in x
      ensures s.lastSeq < e.ik.sn <= t.Top()
    {
      RecordSequence(r, e);
    }
    RecordDistinct(r);
    forall n: nat | s.low <= n
      ensures SameReads(t.All() + t.Inflight(), t.written, n)
    {
      SameReadsGrow(s.All(), s.written, x, n, s.lastSeq);
    }
  }

  lemma LogKeepsRest(s: Db, ops: seq<Op>)
    requires CanLog(s)
    ensures var t := DoLog(s, ops);
      && (SeqInv(s) ==> SeqInv(t)) && (TableInv(s) ==> TableInv(t)) && (MetaInv(s) ==> MetaInv(t))
      && (OrderInv(s) ==> OrderInv(t)) && (FlushInv(s) ==> FlushInv(t)) && (RunInv(s) ==> RunInv(t))
  {
  }

  lemma LogKeeps(s: Db, ops: seq<Op>)
    requires Inv(s) && CanLog(s)
    ensures Inv(DoLog(s, ops))
  {
    hide SeqInv;
    hide LogInv;
    hide TableInv;
    hide MetaInv;
    hide OrderInv;
    hide FlushInv;
    hide RunInv;
    hide ReadInv;
    LogKeepsLog(s, ops);
    LogKeepsReads(s, ops);
    LogKeepsRest(s, ops);
  }

  // ---- ... and apply it -------------------------------------------------------------------

  lemma ApplyKeepsLog(s: Db)
    requires LogInv(s) && s.inflight.Some?
    ensures LogInv(DoApply(s))
  {
  }

  lemma ApplyKeepsAll(s: Db)
    requires LogInv(s) && s.inflight.Some?
    ensures DoApply(s).All() + DoApply(s).Inflight() == s.All() + s.Inflight()
  {
    MemIsTable(s);
    ConsecutiveBounds(MemRecords(s), s.cut1, s.lastSeq);
    InsertRecordTable(s.mem, RecordsEntries(MemRecords(s)), s.inflight.value, s.cut1);
  }

  lemma ApplyKeepsReads(s: Db)
    requires ReadInv(s) && s.inflight.Some?
    requires DoApply(s).All() + DoApply(s).Inflight() == s.All() + s.Inflight()
    ensures ReadInv(DoApply(s))
  {
  }

  lemma ApplyKeepsRest(s: Db)
    requires s.inflight.Some?
    ensures var t := DoApply(s);
      && (SeqInv(s) ==> SeqInv(t)) && (TableInv(s) ==> TableInv(t)) && (MetaInv(s) ==> MetaInv(t))
      && (OrderInv(s) ==> OrderInv(t)) && (FlushInv(s) ==> FlushInv(t)) && (RunInv(s) ==> RunInv(t))
  {
  }

  lemma ApplyKeeps(s: Db)
    requires Inv(s) && s.inflight.Some?
    ensures Inv(DoApply(s))
  {
    hide SeqInv;
    hide LogInv;
    hide TableInv;
    hide MetaInv;
    hide OrderInv;
    hide FlushInv;
    hide RunInv;
    hide ReadInv;
    ApplyKeepsLog(s);
    ApplyKeepsAll(s);
    ApplyKeepsReads(s);
    ApplyKeepsRest(s);
  }

  // ---- switching memtables ------------------------------------------------------------------

  lemma SwitchKeepsLog(s: Db)
    requires LogInv(s) && SeqInv(s) && CanSwitch(s)
    ensures LogInv(DoSwitch(s))
  {
  }

  lemma SwitchKeepsReads(s: Db)
    requires ReadInv(s) && CanSwitch(s)
    ensures ReadInv(DoSwitch(s))
  {
    assert DoSwitch(s).All() == s.All() && DoSwitch(s).Inflight() == s.Inflight();
  }

  lemma SwitchKeepsRest(s: Db)
    requires CanSwitch(s)
    ensures var t := DoSwitch(s);
      && (SeqInv(s) ==> SeqInv(t)) && (TableInv(s) ==> TableInv(t)) && (MetaInv(s) ==> MetaInv(t))
      && (OrderInv(s) ==> OrderInv(t)) && (FlushInv(s) ==> FlushInv(t)) && (RunInv(s) ==> RunInv(t))
  {
  }

  lemma SwitchKeeps(s: Db)
    requires Inv(s) && CanSwitch(s)
    ensures Inv(DoSwitch(s))
  {
    hide SeqInv;
    hide LogInv;
    hide TableInv;
    hide MetaInv;
    hide OrderInv;
    hide FlushInv;
    hide RunInv;
    hide ReadInv;
    SwitchKeepsLog(s);
    SwitchKeepsReads(s);
    SwitchKeepsRest(s);
  }

  // ---- building a flush ---------------------------------------------------------------------

  lemma StoredStays(tables: map<nat, seq<Entry>>, v: LevelSets, n: nat, es: seq<Entry>)
    requires AllStored(tables, v) && NumbersBelow(v, n)
    ensures AllStored(tables[n := es], v) && NumbersBelow(v, n + 1)
  {
    forall l, f | 0 <= l < |v| && f in v[l]
      ensures Stored(tables[n := es], f)
    {
      assert Stored(tables, f) && f.number < n;
    }
  }

  lemma BuildFlushKeepsTables(s: Db, level: nat, size: nat)
    requires TableInv(s) && CanBuildFlush(s, level, size)
    ensures TableInv(DoBuildFlush(s, level, size))
  {
    if s.imm.value != [] {
      StoredStays(s.disk.tables, s.levels, s.nextFile, s.imm.value);
      forall v | v in s.pinned
        ensures AllStored(s.disk.tables[s.nextFile := s.imm.value], v) && NumbersBelow(v, s.nextFile + 1)
      {
        StoredStays(s.disk.tables, v, s.nextFile, s.imm.value);
      }
    }
  }

  lemma BuildFlushKeepsFlush(s: Db, level: nat, size: nat)
    requires TableInv(s) && LogInv(s) && OrderInv(s) && RunInv(s) && CanBuildFlush(s, level, size)
    ensures FlushInv(DoBuildFlush(s, level, size))
  {
    hide VersionOk;
    hide RunOk;
    hide AllStored;
    MemIsTable(s);
    if s.imm.value != [] && s.running.Some? && level == s.running.value.level + 1 {
      ClearMeansOutlies(s.levels, s.running.value, level, FlushFile(s, size));
    }
  }

  /** Off the gaps, a clear table lies to one side of the running compaction's inputs. */
  lemma ClearMeansOutlies(v: LevelSets, r: Running, level: nat, f: File)
    requires VersionOk(v) && RunOk(v, r) && level == r.level + 1 && FileOk(f) && ClearDownTo(v, level, f)
    requires !GapAt(r.in0 + r.in1, f.smallest.user)
    ensures Outlies(f, r.in0 + r.in1)
  {
    hide GapAt;
    assert LevelOk(r.level, v[r.level]) && LevelOk(level, v[level]);
    forall g | g in r.in0 + r.in1
      ensures (g in v[r.level] || g in v[level]) && RangeOk(g)
    {
      Bounds(g);
    }
    Bounds(f);
    OutliesUnlessGap(v, r.level, r.in0 + r.in1, f);
  }

  lemma BuildFlushKeepsRest(s: Db, level: nat, size: nat)
    requires CanBuildFlush(s, level, size)
    ensures var t := DoBuildFlush(s, level, size);
      && (SeqInv(s) ==> SeqInv(t)) && (LogInv(s) ==> LogInv(t)) && (MetaInv(s) ==> MetaInv(t))
      && (OrderInv(s) ==> OrderInv(t)) && (RunInv(s) ==> RunInv(t))
  {
  }

  lemma BuildFlushKeepsReads(s: Db, level: nat, size: nat)
    requires ReadInv(s) && CanBuildFlush(s, level, size)
    ensures ReadInv(DoBuildFlush(s, level, size))
  {
  }

  lemma BuildFlushKeeps(s: Db, level: nat, size: nat)
    requires Inv(s) && CanBuildFlush(s, level, size)
    ensures Inv(DoBuildFlush(s, level, size))
  {
    hide SeqInv;
    hide LogInv;
    hide TableInv;
    hide MetaInv;
    hide OrderInv;
    hide FlushInv;
    hide RunInv;
    hide ReadInv;
    BuildFlushKeepsTables(s, level, size);
    BuildFlushKeepsFlush(s, level, size);
    BuildFlushKeepsRest(s, level, size);
    BuildFlushKeepsReads(s, level, size);
  }

  // ---- installing it ---------------------------------------------------------------------------

  lemma ImmNewer(s: Db)
    requires SeqInv(s) && LogInv(s) && s.imm.Some?
    ensures forall e, o :: e in s.imm.value && o in Contents(s.levels) ==> o.ik.sn < e.ik.sn
  {
    MemIsTable(s);
  }

  lemma InstallFlushKeepsOrder(s: Db)
    requires SeqInv(s) && LogInv(s) && OrderInv(s) && FlushInv(s) && CanInstallFlush(s)
    ensures OrderInv(DoInstallFlush(s))
  {
    if s.flush.Built? {
      ImmNewer(s);
      FlushKeepsOrder(s.levels, s.flush.level, s.flush.file);
      AddUnique(s.levels, s.flush.level, s.flush.file);
    }
  }

  lemma AddUnique(v: LevelSets, level: nat, f: File)
    requires UniqueNumbers(v) && level < |v|
    requires forall l, g :: 0 <= l < |v| && g in v[l] ==> g.number < f.number
    ensures UniqueNumbers(AddFile(v, level, f))
  {
  }

  lemma InstallFlushKeepsSeq(s: Db)
    requires SeqInv(s) && LogInv(s) && FlushInv(s) && CanInstallFlush(s)
    ensures SeqInv(DoInstallFlush(s))
  {
    MemIsTable(s);
    if s.flush.Built? {
      AddContents(s.levels, s.flush.level, s.flush.file);
    }
  }

  lemma InstallFlushKeepsLog(s: Db)
    requires LogInv(s) && FlushInv(s) && CanInstallFlush(s)
    ensures LogInv(DoInstallFlush(s))
  {
  }

  lemma AddStored(tables: map<nat, seq<Entry>>, v: LevelSets, level: nat, f: File, n: nat)
    requires AllStored(tables, v) && NumbersBelow(v, n) && level < |v| && Stored(tables, f) && f.number < n
    ensures AllStored(tables, AddFile(v, level, f)) && NumbersBelow(AddFile(v, level, f), n)
  {
  }

  lemma InstallFlushKeepsTables(s: Db)
    requires TableInv(s) && CanInstallFlush(s)
    ensures TableInv(DoInstallFlush(s))
  {
  }

  lemma AddIsEdit(v: LevelSets, level: nat, f: File, logNumber: nat, nextFile: nat, lastSeq: nat)
    requires level < |v|
    ensures ApplyLevels(v, Edit({}, {(level, f)}, logNumber, nextFile, lastSeq)) == AddFile(v, level, f)
  {
    var w := ApplyLevels(v, Edit({}, {(level, f)}, logNumber, nextFile, lastSeq));
    forall l | 0 <= l < |v|
      ensures w[l] == AddFile(v, level, f)[l]
    {
      assert (level, f) in {(level, f)};
    }
  }

  lemma NoEdit(v: LevelSets, logNumber: nat, nextFile: nat, lastSeq: nat)
    ensures ApplyLevels(v, Edit({}, {}, logNumber, nextFile, lastSeq)) == v
  {
    var w := ApplyLevels(v, Edit({}, {}, logNumber, nextFile, lastSeq));
    forall l | 0 <= l < |v|
      ensures w[l] == v[l]
    {
    }
  }

  lemma InstallFlushKeepsMeta(s: Db)
    requires MetaInv(s) && TableInv(s) && SeqInv(s) && CanInstallFlush(s)
    ensures MetaInv(DoInstallFlush(s))
  {
    if s.flush.Built? {
      AddIsEdit(s.levels, s.flush.level, s.flush.file, s.logFile, s.nextFile, s.lastSeq);
      ReplayOneMore(s.disk.manifest, Edit({}, {(s.flush.level, s.flush.file)}, s.logFile, s.nextFile, s.lastSeq));
      AddStored(s.disk.tables, s.levels, s.flush.level, s.flush.file, s.nextFile);
    } else {
      NoEdit(s.levels, s.logFile, s.nextFile, s.lastSeq);
      ReplayOneMore(s.disk.manifest, Edit({}, {}, s.logFile, s.nextFile, s.lastSeq));
    }
  }

  lemma FlushLevelNewer(v: LevelSets, r: Running, level: nat, f: File)
    requires level < |v| && r.level < |v| && r.in0 <= v[r.level]
    requires forall g, h :: g in r.in0 && h in v[r.level] - r.in0 ==> Newer(h, g)
    requires forall e, o :: e in f.entries && o in Contents(v) ==> o.ik.sn < e.ik.sn
    ensures forall g, h :: g in r.in0 && h in AddFile(v, level, f)[r.level] - r.in0 ==> Newer(h, g)
  {
  }

  lemma FlushBelowApart(v: LevelSets, r: Running, level: nat, f: File)
    requires level < |v| && r.level + 1 < |v| && r.in0 <= v[r.level] && ClearDownTo(v, level, f)
    requires forall g, h :: g in r.in0 && h in v[r.level + 1] - r.in1 ==> Apart(g, h)
    ensures forall g, h :: g in r.in0 && h in AddFile(v, level, f)[r.level + 1] - r.in1 ==> Apart(g, h)
  {
    forall g | g in r.in0 && level == r.level + 1
      ensures Apart(g, f)
    {
      assert g in v[r.level];
      assert Apart(f, g);
    }
  }

  /** The flushed table leaves the running compaction's inputs as safe as they were. */
  lemma FlushKeepsInputs(v: LevelSets, r: Running, level: nat, f: File)
    requires SafeInputs(v, r.level, r.in0, r.in1)
    requires level < |v| && ClearDownTo(v, level, f) && FlushClear(r, level, f)
    requires forall e, o :: e in f.entries && o in Contents(v) ==> o.ik.sn < e.ik.sn
    ensures SafeInputs(AddFile(v, level, f), r.level, r.in0, r.in1)
  {
    hide Apart;
    hide Newer;
    hide Outlies;
    FlushLevelNewer(v, r, level, f);
    FlushBelowApart(v, r, level, f);
  }

  lemma FlushKeepsNone(v: LevelSets, r: Running, level: nat, f: File)
    requires r.level + 1 < |v| && r.in0 <= v[r.level] && r.in1 <= v[r.level + 1] && level < |v| && FileOk(f)
    requires NoneResurrect(r.input, Contents(Without(v, r.level, r.in0, r.in1)), r.floor, r.base, r.level)
    requires forall e, o :: e in f.entries && o in Contents(v) ==> o.ik.sn < e.ik.sn
    requires Elems(r.input) == FileEntries(r.in0 + r.in1) && Distinct(Contents(v) + Elems(f.entries))
    ensures NoneResurrect(r.input, Contents(Without(AddFile(v, level, f), r.level, r.in0, r.in1)), r.floor, r.base,
      r.level)
  {
    hide NoneResurrect;
    hide Distinct;
    var rest := Contents(Without(v, r.level, r.in0, r.in1));
    ContentsSplit(v, r.level, r.in0, r.in1, r.input);
    NotYetThere(v, f);
    AddThenWithout(v, r, level, f);
    AddContents(Without(v, r.level, r.in0, r.in1), level, f);
    assert Elems(r.input) + (rest + Elems(f.entries)) == Contents(v) + Elems(f.entries);
    forall t, e | t in r.input && e in Elems(f.entries) && t.ik.user == e.ik.user
      ensures t.ik.sn < e.ik.sn
    {
      assert t in Elems(r.input);
    }
    NewerResurrectNone(r.input, rest, Elems(f.entries), r.floor, r.base, r.level);
  }

  lemma AddThenWithout(v: LevelSets, r: Running, level: nat, f: File)
    requires r.level + 1 < |v| && level < |v| && f !in r.in0 && f !in r.in1
    ensures Without(AddFile(v, level, f), r.level, r.in0, r.in1) == AddFile(Without(v, r.level, r.in0, r.in1), level, f)
  {
    var x, y := Without(AddFile(v, level, f), r.level, r.in0, r.in1),
      AddFile(Without(v, r.level, r.in0, r.in1), level, f);
    forall l | 0 <= l < |v|
      ensures x[l] == y[l]
    {
    }
  }

  lemma NotYetThere(v: LevelSets, f: File)
    requires FileOk(f) && forall e, o :: e in f.entries && o in Contents(v) ==> o.ik.sn < e.ik.sn
    ensures forall l :: 0 <= l < |v| ==> f !in v[l]
  {
    forall l | 0 <= l < |v|
      ensures f !in v[l]
    {
      var e := f.entries[0];
      assert e in f.entries;
      assert f in v[l] ==> HasEntry(v, e);
    }
  }

  lemma FlushKeepsOutputs(v: LevelSets, r: Running, level: nat, f: File)
    requires r.level + 1 < |v| && level < |v| && GoodOutputs(v, r.level, r.in0, r.in1, r.outs) &&
      FlushClear(r, level, f)
    ensures GoodOutputs(AddFile(v, level, f), r.level, r.in0, r.in1, r.outs)
  {
    hide FileOk;
    hide FileEntries;
  }

  lemma FlushKeepsRunning(v: LevelSets, r: Running, level: nat, f: File)
    requires RunOk(v, r)
    requires level < |v| && ClearDownTo(v, level, f) && FlushClear(r, level, f)
    requires forall e, o :: e in f.entries && o in Contents(v) ==> o.ik.sn < e.ik.sn
    requires FileOk(f) && Distinct(Contents(v) + Elems(f.entries))
    ensures RunOk(AddFile(v, level, f), r)
  {
    hide NoneResurrect;
    hide FileOk;
    hide Distinct;
    hide GoodOutputs;
    hide Contents;
    hide Sorted;
    hide FileEntries;
    hide Output;
    FlushKeepsInputs(v, r, level, f);
    FlushKeepsNone(v, r, level, f);
    FlushKeepsOutputs(v, r, level, f);
  }

  lemma InstallFlushKeepsRun(s: Db)
    requires RunInv(s) && OrderInv(s) && FlushInv(s) && SeqInv(s) && LogInv(s) && ReadInv(s) && CanInstallFlush(s)
    ensures RunInv(DoInstallFlush(s))
  {
    hide RunOk;
    hide VersionOk;
    hide Distinct;
    if s.running.Some? && s.flush.Built? {
      ImmNewer(s);
      SubDistinct(Contents(s.levels) + Elems(s.flush.file.entries), s.written);
      FlushKeepsRunning(s.levels, s.running.value, s.flush.level, s.flush.file);
    }
  }

  lemma InstallFlushKeepsReads(s: Db)
    requires ReadInv(s) && FlushInv(s) && CanInstallFlush(s)
    ensures ReadInv(DoInstallFlush(s))
  {
    var t := DoInstallFlush(s);
    if s.flush.Built? {
      AddContents(s.levels, s.flush.level, s.flush.file);
    }
    assert t.All() == s.All() && t.Inflight() == s.Inflight();
  }

  lemma InstallFlushKeeps(s: Db)
    requires Inv(s) && CanInstallFlush(s)
    ensures Inv(DoInstallFlush(s))
  {
    hide SeqInv;
    hide LogInv;
    hide TableInv;
    hide MetaInv;
    hide OrderInv;
    hide FlushInv;
    hide RunInv;
    hide ReadInv;
    InstallFlushKeepsOrder(s);
    InstallFlushKeepsSeq(s);
    InstallFlushKeepsLog(s);
    InstallFlushKeepsTables(s);
    InstallFlushKeepsMeta(s);
    InstallFlushKeepsRun(s);
    InstallFlushKeepsReads(s);
    InstallFlushIdle(s);
  }

  lemma InstallFlushIdle(s: Db)
    requires CanInstallFlush(s)
    ensures FlushInv(DoInstallFlush(s))
  {
  }

  // ---- building a compaction ---------------------------------------------------------------------

  lemma WrittenStays(tables: map<nat, seq<Entry>>, v: LevelSets, n: nat, next: nat, outs: set<File>)
    requires AllStored(tables, v) && NumbersBelow(v, n) && n <= next
    requires forall f, g :: f in outs && g in outs && f != g ==> f.number != g.number
    requires forall o :: o in outs ==> n <= o.number < next
    ensures AllStored(WriteTables(tables, outs), v) && NumbersBelow(v, next)
  {
    forall l, f | 0 <= l < |v| && f in v[l]
      ensures Stored(WriteTables(tables, outs), f)
    {
      assert Stored(tables, f) && f.number < n;
      assert f.number !in Numbers(outs);
    }
  }

  lemma BuildCompactionKeepsTables(s: Db, r: Running, next: nat)
    requires TableInv(s) && CanBuildCompaction(s, r, next)
    ensures TableInv(DoBuildCompaction(s, r, next))
  {
    hide VersionOk;
    hide SafeInputs;
    hide Sorted;
    hide Output;
    hide Exposed;
    WrittenStays(s.disk.tables, s.levels, s.nextFile, next, r.outs);
    forall v | v in s.pinned
      ensures AllStored(WriteTables(s.disk.tables, r.outs), v) && NumbersBelow(v, next)
    {
      WrittenStays(s.disk.tables, v, s.nextFile, next, r.outs);
    }
    forall o | o in r.outs
      ensures Stored(WriteTables(s.disk.tables, r.outs), o) && o.number in Numbers(r.outs)
    {
    }
  }

  lemma OutputWithin(input: seq<Entry>, floor: nat, v: LevelSets, level: nat)
    ensures Elems(Output(input, floor, v, level)) <= Elems(input)
  {
  }

  lemma BuildCompactionStarts(v: LevelSets, r: Running, n: nat)
    requires VersionOk(v) && NumbersBelow(v, n) && r.base == v && Distinct(Contents(v))
    requires SafeInputs(v, r.level, r.in0, r.in1)
    requires forall k: Bytes :: !Exposed(v, r.level, r.in1, r.input, r.floor, k)
    requires Sorted(r.input) && Elems(r.input) == FileEntries(r.in0 + r.in1)
    requires FileEntries(r.outs) == Elems(Output(r.input, r.floor, r.base, r.level))
    requires forall o :: o in r.outs ==> FileOk(o) && n <= o.number
    requires forall o, p :: o in r.outs && p in r.outs && o != p ==>
      o.number != p.number && (Before(o, p) || Before(p, o))
    ensures RunOk(v, r)
  {
    hide VersionOk;
    hide Sorted;
    hide FileOk;
    hide Before;
    hide FileEntries;
    hide Exposed;
    hide Resurrects;
    hide Distinct;
    var rest := Contents(Without(v, r.level, r.in0, r.in1));
    forall k: Bytes
      ensures !Resurrects(r.input, rest, r.floor, r.base, r.level, k)
    {
      ExposedIff(v, r.level, r.in0, r.in1, r.input, r.floor, k);
    }
    OutputWithin(r.input, r.floor, r.base, r.level);
  }

  lemma BuildCompactionKeepsRun(s: Db, r: Running, next: nat)
    requires OrderInv(s) && TableInv(s) && ReadInv(s) && CanBuildCompaction(s, r, next)
    ensures RunInv(DoBuildCompaction(s, r, next))
  {
    hide VersionOk;
    hide RunOk;
    hide Sorted;
    hide SafeInputs;
    hide Exposed;
    hide Distinct;
    SubDistinct(Contents(s.levels), s.written);
    BuildCompactionStarts(s.levels, r, s.nextFile);
  }

  lemma BuildCompactionKeepsRest(s: Db, r: Running, next: nat)
    requires CanBuildCompaction(s, r, next)
    ensures var t := DoBuildCompaction(s, r, next);
      && (SeqInv(s) ==> SeqInv(t)) && (LogInv(s) ==> LogInv(t)) && (MetaInv(s) ==> MetaInv(t))
      && (OrderInv(s) ==> OrderInv(t)) && FlushInv(t)
  {
    hide VersionOk;
    hide SafeInputs;
    hide Sorted;
    hide Exposed;
    hide Before;
    hide FileOk;
    hide FileEntries;
    hide Output;
    hide Replay;
    hide Consecutive;
    hide ReplayManifest;
    hide UniqueNumbers;
  }

  lemma BuildCompactionKeepsReads(s: Db, r: Running, next: nat)
    requires ReadInv(s) && CanBuildCompaction(s, r, next)
    ensures ReadInv(DoBuildCompaction(s, r, next))
  {
  }

  lemma BuildCompactionKeeps(s: Db, r: Running, next: nat)
    requires Inv(s) && CanBuildCompaction(s, r, next)
    ensures Inv(DoBuildCompaction(s, r, next))
  {
    hide SeqInv;
    hide LogInv;
    hide TableInv;
    hide MetaInv;
    hide OrderInv;
    hide FlushInv;
    hide RunInv;
    hide ReadInv;
    hide CanBuildCompaction;
    BuildCompactionKeepsTables(s, r, next);
    BuildCompactionKeepsRun(s, r, next);
    BuildCompactionKeepsRest(s, r, next);
    BuildCompactionKeepsReads(s, r, next);
  }

  // ---- installing it -------------------------------------------------------------------------------

  lemma InstallUnique(v: LevelSets, level: nat, in0: set<File>, in1: set<File>, outs: set<File>)
    requires level + 1 < |v| && UniqueNumbers(v)
    requires forall o, p :: o in outs && p in outs && o != p ==> o.number != p.number
    requires forall o, l, f :: o in outs && 0 <= l < |v| && f in v[l] && !(l == level && f in in0) ==>
      o.number != f.number
    ensures UniqueNumbers(Install(v, level, in0, in1, outs))
  {
    var w := Install(v, level, in0, in1, outs);
    forall l: nat, m: nat, f: File, g: File | 0 <= l < |w| && 0 <= m < |w| && f in w[l] && g in w[m] &&
      f.number == g.number
      ensures l == m && f == g
    {
      assert (l == level + 1 && f in outs) || f in v[l];
      assert (m == level + 1 && g in outs) || g in v[m];
    }
  }

  lemma RunKeepsOrder(v: LevelSets, r: Running)
    requires VersionOk(v) && UniqueNumbers(v) && RunOk(v, r)
    ensures VersionOk(Install(v, r.level, r.in0, r.in1, r.outs))
    ensures UniqueNumbers(Install(v, r.level, r.in0, r.in1, r.outs))
    ensures Contents(Install(v, r.level, r.in0, r.in1, r.outs)) <= Contents(v)
  {
    hide VersionOk;
    hide UniqueNumbers;
    hide Sorted;
    hide Output;
    hide NoneResurrect;
    hide FileEntries;
    InstallKeepsOrder(v, r.level, r.in0, r.in1, r.outs);
    InstallUnique(v, r.level, r.in0, r.in1, r.outs);
  }

  lemma InstallKeepsOrderInv(s: Db)
    requires OrderInv(s) && SeqInv(s) && RunInv(s) && CanInstallCompaction(s)
    ensures OrderInv(DoInstallCompaction(s)) && SeqInv(DoInstallCompaction(s))
  {
    hide VersionOk;
    hide UniqueNumbers;
    hide RunOk;
    RunKeepsOrder(s.levels, s.running.value);
  }

  lemma InstallKeepsLog(s: Db)
    requires LogInv(s) && CanInstallCompaction(s)
    ensures LogInv(DoInstallCompaction(s)) && (FlushInv(s) ==> FlushInv(DoInstallCompaction(s))) &&
      RunInv(DoInstallCompaction(s))
  {
  }

  lemma InstallStored(tables: map<nat, seq<Entry>>, v: LevelSets, n: nat, level: nat, in0: set<File>, in1: set<File>,
          outs: set<File>)
    requires AllStored(tables, v) && NumbersBelow(v, n) && level + 1 < |v|
    requires forall o :: o in outs ==> Stored(tables, o) && o.number < n
    ensures AllStored(tables, Install(v, level, in0, in1, outs)) && NumbersBelow(Install(v, level, in0, in1, outs), n)
  {
  }

  lemma InstallKeepsTables(s: Db)
    requires TableInv(s) && CanInstallCompaction(s)
    ensures TableInv(DoInstallCompaction(s))
  {
  }

  /** The logged edit describes the installed version, because numbers identify files within a level. */
  lemma InstallIsEdit(v: LevelSets, level: nat, in0: set<File>, in1: set<File>, outs: set<File>, e: Edit)
    requires level + 1 < |v| && UniqueNumbers(v) && in0 <= v[level] && in1 <= v[level + 1]
    requires e.deleted == Deletions(level, in0, in1) && e.added == Additions(level + 1, outs)
    ensures ApplyLevels(v, e) == Install(v, level, in0, in1, outs)
  {
    var w, x := ApplyLevels(v, e), Install(v, level, in0, in1, outs);
    forall l | 0 <= l < |v|
      ensures w[l] == x[l]
    {
      forall f | f in v[l]
        ensures (l, f.number) in e.deleted <==> (l == level && f in in0) || (l == level + 1 && f in in1)
      {
        if (l, f.number) in e.deleted {
          DeletedFile(v, level, in0, in1, l, f);
        }
      }
      forall f: File
        ensures (l, f) in e.added <==> l == level + 1 && f in outs
      {
      }
      assert w[l] == (set f | f in v[l] && (l, f.number) !in e.deleted) + (set a | a in e.added && a.0 == l :: a.1);
      forall f: File
        ensures f in w[l] <==> f in x[l]
      {
        assert f in w[l] <==> (f in v[l] && (l, f.number) !in e.deleted) || (l, f) in e.added;
      }
    }
  }

  lemma DeletedFile(v: LevelSets, level: nat, in0: set<File>, in1: set<File>, l: nat, f: File)
    requires level + 1 < |v| && UniqueNumbers(v) && in0 <= v[level] && in1 <= v[level + 1]
    requires l < |v| && f in v[l] && (l, f.number) in Deletions(level, in0, in1)
    ensures (l == level && f in in0) || (l == level + 1 && f in in1)
  {
  }

  lemma InstallKeepsMeta(s: Db)
    requires MetaInv(s) && TableInv(s) && OrderInv(s) && RunInv(s) && SeqInv(s) && CanInstallCompaction(s)
    ensures MetaInv(DoInstallCompaction(s))
  {
    hide VersionOk;
    hide UniqueNumbers;
    hide SeqInv;
    hide Sorted;
    hide GoodOutputs;
    hide NoneResurrect;
    var r := s.running.value;
    var e := Edit(Deletions(r.level, r.in0, r.in1), Additions(r.level + 1, r.outs), s.logNumber, s.nextFile, s.lastSeq);
    InstallStored(s.disk.tables, s.levels, s.nextFile, r.level, r.in0, r.in1, r.outs);
    InstallIsEdit(s.levels, r.level, r.in0, r.in1, r.outs, e);
    ReplayOneMore(s.disk.manifest, e);
    assert s.cut0 <= s.lastSeq;
  }

  /** Everything but the inputs: what stays put while the compaction is installed. */
  ghost function Others(s: Db, r: Running): iset<Entry>
    requires r.level + 1 < |s.levels|
  {
    Elems(s.mem) + (if s.imm.Some? then Elems(s.imm.value) else iset{}) + s.Inflight()
      + Contents(Without(s.levels, r.level, r.in0, r.in1))
  }

  lemma InstallSplits(s: Db)
    requires CanInstallCompaction(s) && RunOk(s.levels, s.running.value)
    ensures var r := s.running.value;
      && s.All() + s.Inflight() == Elems(r.input) + Others(s, r)
      && DoInstallCompaction(s).All() + DoInstallCompaction(s).Inflight() ==
        Elems(Output(r.input, r.floor, r.base, r.level)) + Others(s, r)
  {
    hide Sorted;
    hide GoodOutputs;
    hide NoneResurrect;
    var r := s.running.value;
    InstallContents(s.levels, r.level, r.in0, r.in1, r.outs);
  }

  /** Entries in memory are newer than every input, so they bring nothing back either. */
  lemma OthersResurrectNone(s: Db)
    requires CanInstallCompaction(s) && RunOk(s.levels, s.running.value) && SeqInv(s) && LogInv(s)
    requires Distinct(Elems(s.running.value.input) + Others(s, s.running.value))
    ensures var r := s.running.value; NoneResurrect(r.input, Others(s, r), r.floor, r.base, r.level)
  {
    hide Sorted;
    hide GoodOutputs;
    hide Output;
    hide NoneResurrect;
    hide Distinct;
    var r := s.running.value;
    MemIsTable(s);
    ContentsSplit(s.levels, r.level, r.in0, r.in1, r.input);
    var rest := Contents(Without(s.levels, r.level, r.in0, r.in1));
    var more := Elems(s.mem) + (if s.imm.Some? then Elems(s.imm.value) else iset{}) + s.Inflight();
    assert Others(s, r) == rest + more;
    forall t, e | t in r.input && e in more && t.ik.user == e.ik.user
      ensures t.ik.sn < e.ik.sn
    {
      assert t in Elems(r.input);
      assert t.ik.sn <= s.cut0;
      if e in s.Inflight() {
        RecordSequence(s.inflight.value, e);
      }
    }
    NewerResurrectNone(r.input, rest, more, r.floor, r.base, r.level);
  }

  lemma SubDistinct(a: iset<Entry>, b: iset<Entry>)
    requires a <= b && Distinct(b)
    ensures Distinct(a)
  {
  }

  lemma InstallKeepsReads(s: Db)
    requires ReadInv(s) && SeqInv(s) && LogInv(s) && RunInv(s) && CanInstallCompaction(s)
    ensures ReadInv(DoInstallCompaction(s))
  {
    var r := s.running.value;
    var t := DoInstallCompaction(s);
    InstallSplits(s);
    SubDistinct(Elems(r.input) + Others(s, r), s.written);
    OthersResurrectNone(s);
    InstallReadsAll(s, t, r, Others(s, r));
  }

  lemma InstallReadsAll(s: Db, t: Db, r: Running, rest: iset<Entry>)
    requires ReadInv(s) && s.running == Some(r) && CanInstallCompaction(s) && t == DoInstallCompaction(s)
    requires s.IsFloor(r.floor) && Sorted(r.input)
    requires s.All() + s.Inflight() == Elems(r.input) + rest
    requires t.All() + t.Inflight() == Elems(Output(r.input, r.floor, r.base, r.level)) + rest
    requires NoneResurrect(r.input, rest, r.floor, r.base, r.level)
    ensures ReadInv(t)
  {
    OutputWithin(r.input, r.floor, r.base, r.level);
    SubDistinct(Elems(r.input) + rest, s.written);
    forall n: nat | t.low <= n
      ensures SameReads(t.All() + t.Inflight(), t.written, n)
    {
      ReadsPreserved(r.input, rest, r.floor, r.base, r.level, n);
      SameReadsTrans(t.All() + t.Inflight(), s.All() + s.Inflight(), s.written, n);
    }
  }

  lemma SameReadsTrans(a: iset<Entry>, b: iset<Entry>, c: iset<Entry>, n: nat)
    requires SameReads(a, b, n) && SameReads(b, c, n)
    ensures SameReads(a, c, n)
  {
  }

  lemma InstallCompactionKeeps(s: Db)
    requires Inv(s) && CanInstallCompaction(s)
    ensures Inv(DoInstallCompaction(s))
  {
    hide SeqInv;
    hide LogInv;
    hide TableInv;
    hide MetaInv;
    hide OrderInv;
    hide FlushInv;
    hide RunInv;
    hide ReadInv;
    InstallKeepsOrderInv(s);
    InstallKeepsLog(s);
    InstallKeepsTables(s);
    InstallKeepsMeta(s);
    InstallKeepsReads(s);
  }

  // ---- trivial move -------------------------------------------------------------------------------

  lemma MoveKeepsOrder(v: LevelSets, level: nat, f: File)
    requires VersionOk(v) && UniqueNumbers(v) && SafeInputs(v, level, {f}, {})
    ensures VersionOk(Install(v, level, {f}, {}, {f})) && UniqueNumbers(Install(v, level, {f}, {}, {f}))
    ensures Contents(Install(v, level, {f}, {}, {f})) == Contents(v)
  {
    assert f in v[level] && LevelOk(level, v[level]);
    assert {f} + {} == {f};
    assert GoodOutputs(v, level, {f}, {}, {f});
    hide LevelOk;
    hide GoodOutputs;
    InstallKeepsOrder(v, level, {f}, {}, {f});
    InstallUnique(v, level, {f}, {}, {f});
    InstallContents(v, level, {f}, {}, {f});
  }

  lemma MoveKeepsSets(s: Db, level: nat, f: File)
    requires OrderInv(s) && SeqInv(s) && ReadInv(s) && CanMove(s, level, f)
    ensures OrderInv(DoMove(s, level, f)) && SeqInv(DoMove(s, level, f)) && ReadInv(DoMove(s, level, f))
  {
    hide VersionOk;
    hide UniqueNumbers;
    MoveKeepsOrder(s.levels, level, f);
    var t := DoMove(s, level, f);
    assert t.All() == s.All() && t.Inflight() == s.Inflight();
  }

  lemma MoveKeepsTables(s: Db, level: nat, f: File)
    requires TableInv(s) && CanMove(s, level, f)
    ensures TableInv(DoMove(s, level, f))
  {
  }

  lemma MoveKeepsMeta(s: Db, level: nat, f: File)
    requires MetaInv(s) && OrderInv(s) && TableInv(s) && SeqInv(s) && CanMove(s, level, f)
    ensures MetaInv(DoMove(s, level, f))
  {
    hide VersionOk;
    hide UniqueNumbers;
    hide SeqInv;
    var e := Edit({(level, f.number)}, {(level + 1, f)}, s.logNumber, s.nextFile, s.lastSeq);
    InstallStored(s.disk.tables, s.levels, s.nextFile, level, {f}, {}, {f});
    assert Deletions(level, {f}, {}) == {(level, f.number)};
    assert Additions(level + 1, {f}) == {(level + 1, f)};
    InstallIsEdit(s.levels, level, {f}, {}, {f}, e);
    ReplayOneMore(s.disk.manifest, e);
    assert s.cut0 <= s.lastSeq;
  }

  lemma MoveKeepsRest(s: Db, level: nat, f: File)
    requires CanMove(s, level, f)
    ensures var t := DoMove(s, level, f); (LogInv(s) ==> LogInv(t)) && (FlushInv(s) ==> FlushInv(t)) && RunInv(t)
  {
  }

  lemma MoveKeeps(s: Db, level: nat, f: File)
    requires Inv(s) && CanMove(s, level, f)
    ensures Inv(DoMove(s, level, f))
  {
    hide SeqInv;
    hide LogInv;
    hide TableInv;
    hide MetaInv;
    hide OrderInv;
    hide FlushInv;
    hide RunInv;
    hide ReadInv;
    MoveKeepsSets(s, level, f);
    MoveKeepsTables(s, level, f);
    MoveKeepsMeta(s, level, f);
    MoveKeepsRest(s, level, f);
  }

  // ---- deleting obsolete files ------------------------------------------------------------------------

  lemma DeleteStored(tables: map<nat, seq<Entry>>, v: LevelSets, gone: set<nat>)
    requires AllStored(tables, v) && forall n :: n in gone ==> !LiveIn(v, n)
    ensures AllStored(tables - gone, v)
  {
    forall l, f | 0 <= l < |v| && f in v[l]
      ensures Stored(tables - gone, f)
    {
      assert LiveIn(v, f.number);
      assert Stored(tables, f);
    }
  }

  /** No table that a version, a reader or a running compaction needs is deleted. */
  lemma DeleteKeepsTables(s: Db, tables: set<nat>, logs: set<nat>)
    requires TableInv(s) && CanDelete(s, tables, logs)
    ensures TableInv(DoDelete(s, tables, logs))
  {
    DeleteStored(s.disk.tables, s.levels, tables);
    forall v | v in s.pinned
      ensures AllStored(s.disk.tables - tables, v)
    {
      assert forall n :: n in tables ==> !s.Live(n);
      DeleteStored(s.disk.tables, v, tables);
    }
    if s.running.Some? {
      forall o | o in s.running.value.outs
        ensures Stored(s.disk.tables - tables, o)
      {
        assert s.Live(o.number);
      }
    }
  }

  lemma DeleteKeepsRest(s: Db, tables: set<nat>, logs: set<nat>)
    requires CanDelete(s, tables, logs)
    ensures var t := DoDelete(s, tables, logs);
      && (SeqInv(s) ==> SeqInv(t)) && (LogInv(s) ==> LogInv(t)) && (MetaInv(s) ==> MetaInv(t))
      && (OrderInv(s) ==> OrderInv(t)) && (FlushInv(s) ==> FlushInv(t)) && (RunInv(s) ==> RunInv(t)) &&
        (ReadInv(s) ==> ReadInv(t))
  {
  }

  lemma DeleteKeeps(s: Db, tables: set<nat>, logs: set<nat>)
    requires Inv(s) && CanDelete(s, tables, logs)
    ensures Inv(DoDelete(s, tables, logs))
  {
    hide SeqInv;
    hide LogInv;
    hide TableInv;
    hide MetaInv;
    hide OrderInv;
    hide FlushInv;
    hide RunInv;
    hide ReadInv;
    DeleteKeepsTables(s, tables, logs);
    DeleteKeepsRest(s, tables, logs);
  }

  // ---- snapshots and iterators -----------------------------------------------------------------------------

  lemma SnapshotKeeps(s: Db)
    requires Inv(s)
    ensures Inv(DoSnapshot(s))
  {
    SnapshotKeepsRest(s);
    SnapshotKeepsReads(s);
    hide SeqInv;
    hide LogInv;
    hide TableInv;
    hide MetaInv;
    hide OrderInv;
    hide FlushInv;
    hide RunInv;
    hide ReadInv;
  }

  lemma SnapshotKeepsRest(s: Db)
    ensures var t := DoSnapshot(s);
      && (SeqInv(s) ==> SeqInv(t)) && (LogInv(s) ==> LogInv(t)) && (MetaInv(s) ==> MetaInv(t)) &&
        (TableInv(s) ==> TableInv(t))
      && (OrderInv(s) ==> OrderInv(t)) && (FlushInv(s) ==> FlushInv(t)) && (RunInv(s) ==> RunInv(t))
  {
  }

  lemma SnapshotKeepsReads(s: Db)
    requires ReadInv(s)
    ensures ReadInv(DoSnapshot(s))
  {
  }

  lemma ReleaseKeeps(s: Db, n: nat)
    requires Inv(s)
    ensures Inv(DoRelease(s, n))
  {
    ReleaseKeepsRest(s, n);
    ReleaseKeepsReads(s, n);
    hide SeqInv;
    hide LogInv;
    hide TableInv;
    hide MetaInv;
    hide OrderInv;
    hide FlushInv;
    hide RunInv;
    hide ReadInv;
  }

  lemma ReleaseKeepsRest(s: Db, n: nat)
    ensures var t := DoRelease(s, n);
      && (SeqInv(s) ==> SeqInv(t)) && (LogInv(s) ==> LogInv(t)) && (MetaInv(s) ==> MetaInv(t)) &&
        (TableInv(s) ==> TableInv(t))
      && (OrderInv(s) ==> OrderInv(t)) && (FlushInv(s) ==> FlushInv(t)) && (RunInv(s) ==> RunInv(t))
  {
  }

  lemma ReleaseKeepsReads(s: Db, n: nat)
    requires ReadInv(s)
    ensures ReadInv(DoRelease(s, n))
  {
  }

  lemma PinKeeps(s: Db)
    requires Inv(s)
    ensures Inv(DoPin(s))
  {
    PinKeepsTables(s);
    PinKeepsRest(s);
    hide SeqInv;
    hide LogInv;
    hide TableInv;
    hide MetaInv;
    hide OrderInv;
    hide FlushInv;
    hide RunInv;
    hide ReadInv;
  }

  lemma PinKeepsTables(s: Db)
    requires TableInv(s)
    ensures TableInv(DoPin(s))
  {
  }

  lemma PinKeepsRest(s: Db)
    ensures var t := DoPin(s);
      && (SeqInv(s) ==> SeqInv(t)) && (LogInv(s) ==> LogInv(t)) && (MetaInv(s) ==> MetaInv(t))
      && (OrderInv(s) ==> OrderInv(t)) && (FlushInv(s) ==> FlushInv(t)) && (RunInv(s) ==> RunInv(t)) &&
        (ReadInv(s) ==> ReadInv(t))
  {
  }

  lemma UnpinKeeps(s: Db, v: LevelSets)
    requires Inv(s)
    ensures Inv(DoUnpin(s, v))
  {
    UnpinKeepsTables(s, v);
    UnpinKeepsRest(s, v);
    hide SeqInv;
    hide LogInv;
    hide TableInv;
    hide MetaInv;
    hide OrderInv;
    hide FlushInv;
    hide RunInv;
    hide ReadInv;
  }

  lemma UnpinKeepsTables(s: Db, v: LevelSets)
    requires TableInv(s)
    ensures TableInv(DoUnpin(s, v))
  {
  }

  lemma UnpinKeepsRest(s: Db, v: LevelSets)
    ensures var t := DoUnpin(s, v);
      && (SeqInv(s) ==> SeqInv(t)) && (LogInv(s) ==> LogInv(t)) && (MetaInv(s) ==> MetaInv(t))
      && (OrderInv(s) ==> OrderInv(t)) && (FlushInv(s) ==> FlushInv(t)) && (RunInv(s) ==> RunInv(t)) &&
        (ReadInv(s) ==> ReadInv(t))
  {
  }
}
