/** The database as a state machine: memtables, levels, snapshots, logs, manifest, and every step that changes them. */
module Machine {
  import opened Keys
  import opened Format
  import opened Levels
  import opened Compaction
  import opened LevelOrder
  import opened CompactionReads
  import opened Gaps
  import opened Store

  // ---- the manifest -----------------------------------------------------------------

  /** A version edit as LogAndApply logs it. */
  datatype Edit = Edit(deleted: set<(nat, nat)>, added: set<(nat, File)>, logNumber: nat, nextFile: nat, lastSeq: nat)

  /** What replaying a manifest recovers. */
  datatype Meta = Meta(levels: LevelSets, logNumber: nat, nextFile: nat, lastSeq: nat)

  ghost function ApplyLevels(v: LevelSets, e: Edit): (r: LevelSets)
    ensures |r| == |v|
  {
    seq(|v|, l requires 0 <= l < |v| =>
      (set f | f in v[l] && (l, f.number) !in e.deleted) + (set a | a in e.added && a.0 == l :: a.1))
  }

  ghost function ApplyEdit(m: Meta, e: Edit): Meta {
    Meta(ApplyLevels(m.levels, e), e.logNumber, e.nextFile, e.lastSeq)
  }

  ghost const EMPTY_LEVELS: LevelSets := [{}, {}, {}, {}, {}, {}, {}]

  ghost function ReplayManifest(edits: seq<Edit>): Meta {
    if edits == [] then Meta(EMPTY_LEVELS, 0, 0, 0)
    else ApplyEdit(ReplayManifest(edits[..|edits| - 1]), edits[|edits| - 1])
  }

  lemma ReplayOneMore(edits: seq<Edit>, e: Edit)
    ensures ReplayManifest(edits + [e]) == ApplyEdit(ReplayManifest(edits), e)
  {
  }

  // ---- the state ---------------------------------------------------------------------

  datatype Disk = Disk(tables: map<nat, seq<Entry>>, logs: map<nat, seq<Record>>, manifest: seq<Edit>)

  /** A flush under way: nothing, an empty memtable, or a table written for a level. */
  datatype Flush = Idle | Empty | Built(level: nat, file: File)

  /** A compaction under way: its inputs, the version and floor it started from, and the tables it has written. */
  datatype Running = Running(level: nat, in0: set<File>, in1: set<File>, input: seq<Entry>, floor: nat,
    base: LevelSets, outs: set<File>)

  /** cut0 and cut1 split the sequence numbers: tables hold those up to cut0, the immutable memtable those up to cut1,
      the memtable the rest. written is every entry ever logged; low is the highest floor of an installed compaction. */
  datatype Db = Db(
    mem: seq<Entry>, imm: Option<seq<Entry>>, levels: LevelSets, lastSeq: nat, snapshots: multiset<nat>,
    logFile: nat, logNumber: nat, nextFile: nat, pending: set<nat>, pinned: multiset<LevelSets>,
    flush: Flush, running: Option<Running>, inflight: Option<Record>, disk: Disk,
    cut0: nat, cut1: nat, written: iset<Entry>, low: nat)
  {
    /** Entries the database holds. */
    ghost function All(): iset<Entry> {
      Elems(mem) + (if imm.Some? then Elems(imm.value) else iset{}) + Contents(levels)
    }

    /** Entries already logged but not yet in the memtable. */
    ghost function Inflight(): iset<Entry> {
      if inflight.Some? then RecordEntries(inflight.value) else iset{}
    }

    function Top(): nat {
      if inflight.Some? then lastSeq + |inflight.value.ops| else lastSeq
    }

    /** The sequence number a new compaction takes as its floor: the oldest snapshot, or the last write. */
    ghost predicate IsFloor(n: nat) {
      n <= lastSeq && (forall s :: s in snapshots ==> n <= s)
    }

    /** Table numbers DeleteObsoleteFiles must keep: pending outputs and every version still referenced. */
    ghost predicate Live(n: nat) {
      n in pending || LiveIn(levels, n) || exists v :: v in pinned && LiveIn(v, n)
    }
  }

  ghost predicate LiveIn(v: LevelSets, n: nat) {
    exists l, f :: 0 <= l < |v| && f in v[l] && f.number == n
  }

  ghost predicate Stored(tables: map<nat, seq<Entry>>, f: File) {
    f.number in tables && tables[f.number] == f.entries
  }

  ghost predicate AllStored(tables: map<nat, seq<Entry>>, v: LevelSets) {
    forall l, f :: 0 <= l < |v| && f in v[l] ==> Stored(tables, f)
  }

  // ---- the steps -----------------------------------------------------------------------

  /** LogAndApply: one more manifest record, carrying the counters as they are now. */
  ghost function LogEdit(s: Db, deleted: set<(nat, nat)>, added: set<(nat, File)>, logNumber: nat): seq<Edit> {
    s.disk.manifest + [Edit(deleted, added, logNumber, s.nextFile, s.lastSeq)]
  }

  /** A writer group appends its batch to the log. */
  ghost predicate CanLog(s: Db) {
    s.inflight.None? && s.logFile in s.disk.logs
  }

  ghost function DoLog(s: Db, ops: seq<Op>): Db
    requires CanLog(s)
  {
    var r := Record(s.lastSeq + 1, ops);
    s.(inflight := Some(r),
       disk := s.disk.(logs := s.disk.logs[s.logFile := s.disk.logs[s.logFile] + [r]]),
       written := s.written + RecordEntries(r))
  }

  /** ... then applies it to the memtable and publishes the new last sequence number. */
  ghost function DoApply(s: Db): Db
    requires s.inflight.Some?
  {
    s.(mem := InsertRecord(s.mem, s.inflight.value), lastSeq := s.Top(), inflight := None)
  }

  /** MakeRoomForWrite switches to a fresh memtable and log. */
  ghost predicate CanSwitch(s: Db) {
    s.imm.None? && s.inflight.None?
  }

  ghost function DoSwitch(s: Db): Db
    requires CanSwitch(s)
  {
    s.(mem := [], imm := Some(s.mem), logFile := s.nextFile, nextFile := s.nextFile + 1, cut1 := s.lastSeq,
       disk := s.disk.(logs := s.disk.logs[s.nextFile := []]))
  }

  /** The file WriteLevel0Table builds from the immutable memtable. */
  ghost function FlushFile(s: Db, size: nat): File
    requires s.imm.Some? && s.imm.value != []
  {
    var es := s.imm.value;
    File(s.nextFile, size, es[0].ik, es[|es| - 1].ik, es)
  }

  /** PickLevelForMemTableOutput chooses a clear level. While a compaction runs, a table for its output level must not
      start in a gap of its inputs. The code does not check this, and need not for the compactions it picks itself,
      which leave no gap; a manual compaction may (Hazards.FlushIntoGapOverlaps). */
  ghost predicate CanBuildFlush(s: Db, level: nat, size: nat) {
    && s.flush.Idle? && s.imm.Some? && level < NUM_LEVELS
    && (s.imm.value != [] ==>
          && ClearDownTo(s.levels, level, FlushFile(s, size))
          && (s.running.Some? && level == s.running.value.level + 1 ==>
                !GapAt(s.running.value.in0 + s.running.value.in1, FlushFile(s, size).smallest.user)))
  }

  ghost function DoBuildFlush(s: Db, level: nat, size: nat): Db
    requires CanBuildFlush(s, level, size)
  {
    if s.imm.value == [] then s.(flush := Empty, nextFile := s.nextFile + 1)
    else
      var f := FlushFile(s, size);
      s.(flush := Built(level, f), nextFile := s.nextFile + 1,
         disk := s.disk.(tables := s.disk.tables[f.number := f.entries]))
  }

  ghost predicate CanInstallFlush(s: Db) {
    !s.flush.Idle? && (s.flush.Built? ==> s.flush.level < |s.levels|)
  }

  ghost function DoInstallFlush(s: Db): Db
    requires CanInstallFlush(s)
  {
    var added := if s.flush.Built? then {(s.flush.level, s.flush.file)} else {};
    s.(levels := if s.flush.Built? then AddFile(s.levels, s.flush.level, s.flush.file) else s.levels,
       imm := None, flush := Idle, logNumber := s.logFile, cut0 := s.cut1,
       disk := s.disk.(manifest := LogEdit(s, {}, added, s.logFile)))
  }

  /** A compaction starts from selected inputs that expose no key: input selection does not ensure this
      (Hazards.OpenBoundaryResurrects). */
  ghost predicate CanBuildCompaction(s: Db, r: Running, next: nat) {
    && s.running.None? && s.flush.Idle? && s.nextFile <= next
    && r.base == s.levels && s.IsFloor(r.floor)
    && SafeInputs(s.levels, r.level, r.in0, r.in1)
    && (forall k: Bytes :: !Exposed(s.levels, r.level, r.in1, r.input, r.floor, k))
    && Sorted(r.input) && Elems(r.input) == FileEntries(r.in0 + r.in1)
    && FileEntries(r.outs) == Elems(Output(r.input, r.floor, r.base, r.level))
    && (forall o :: o in r.outs ==> FileOk(o) && s.nextFile <= o.number < next)
    && (forall o, p :: o in r.outs && p in r.outs && o != p ==> o.number != p.number && (Before(o, p) || Before(p, o)))
  }

  ghost function Numbers(fs: set<File>): set<nat> {
    set f | f in fs :: f.number
  }

  /** The tables map with the files of fs written. */
  ghost function WriteTables(tables: map<nat, seq<Entry>>, fs: set<File>): (r: map<nat, seq<Entry>>)
    requires forall f, g :: f in fs && g in fs && f != g ==> f.number != g.number
    ensures r.Keys == tables.Keys + Numbers(fs)
    ensures forall f :: f in fs ==> r[f.number] == f.entries
    ensures forall n :: n in tables && n !in Numbers(fs) ==> r[n] == tables[n]
  {
    map n | n in tables.Keys + Numbers(fs) ::
      if n in Numbers(fs) then (var f :| f in fs && f.number == n; f.entries) else tables[n]
  }

  ghost function DoBuildCompaction(s: Db, r: Running, next: nat): Db
    requires CanBuildCompaction(s, r, next)
  {
    s.(running := Some(r), nextFile := next, pending := s.pending + Numbers(r.outs),
       disk := s.disk.(tables := WriteTables(s.disk.tables, r.outs)))
  }

  ghost predicate CanInstallCompaction(s: Db) {
    s.running.Some? && s.flush.Idle? && s.running.value.level + 1 < |s.levels|
  }

  ghost function Deletions(level: nat, in0: set<File>, in1: set<File>): set<(nat, nat)> {
    (set f | f in in0 :: (level, f.number)) + (set f | f in in1 :: (level + 1, f.number))
  }

  ghost function Additions(level: nat, fs: set<File>): set<(nat, File)> {
    set f | f in fs :: (level, f)
  }

  ghost function DoInstallCompaction(s: Db): Db
    requires CanInstallCompaction(s)
  {
    var r := s.running.value;
    s.(levels := Install(s.levels, r.level, r.in0, r.in1, r.outs), running := None,
       pending := s.pending - Numbers(r.outs), low := if s.low < r.floor then r.floor else s.low,
       disk := s.disk.(manifest := LogEdit(s, Deletions(r.level, r.in0, r.in1), Additions(r.level + 1, r.outs),
         s.logNumber)))
  }

  /** A single input with nothing below it moves down as it is. */
  ghost predicate CanMove(s: Db, level: nat, f: File) {
    s.running.None? && s.flush.Idle? && SafeInputs(s.levels, level, {f}, {})
  }

  ghost function DoMove(s: Db, level: nat, f: File): Db
    requires CanMove(s, level, f)
  {
    s.(levels := Install(s.levels, level, {f}, {}, {f}),
       disk := s.disk.(manifest := LogEdit(s, {(level, f.number)}, {(level + 1, f)}, s.logNumber)))
  }

  /** DeleteObsoleteFiles, or as much of it as a crash lets happen. */
  ghost predicate CanDelete(s: Db, tables: set<nat>, logs: set<nat>) {
    && s.flush.Idle?
    && (forall n :: n in tables ==> !s.Live(n))
    && (forall n :: n in logs ==> n < s.logNumber)
  }

  ghost function DoDelete(s: Db, tables: set<nat>, logs: set<nat>): Db {
    s.(disk := s.disk.(tables := s.disk.tables - tables, logs := s.disk.logs - logs))
  }

  ghost function DoSnapshot(s: Db): Db {
    s.(snapshots := s.snapshots + multiset{s.lastSeq})
  }

  ghost function DoRelease(s: Db, n: nat): Db {
    s.(snapshots := s.snapshots - multiset{n})
  }

  /** An iterator takes or drops a reference to the current version. */
  ghost function DoPin(s: Db): Db {
    s.(pinned := s.pinned + multiset{s.levels})
  }

  ghost function DoUnpin(s: Db, v: LevelSets): Db {
    s.(pinned := s.pinned - multiset{v})
  }

  // ---- recovery --------------------------------------------------------------------------

  /** The records of the logs numbered from .. to-1, in ascending log order. */
  ghost function LogRecords(logs: map<nat, seq<Record>>, from: nat, upto: nat): seq<Record>
    decreases upto
  {
    if upto <= from then [] else LogRecords(logs, from, upto - 1) + (if upto - 1 in logs then logs[upto - 1] else [])
  }

  /** Part of the recovered records, written as one level-0 table. */
  datatype Chunk = Chunk(number: nat, size: nat, records: seq<Record>)

  ghost function ChunkRecords(cs: seq<Chunk>): seq<Record> {
    if cs == [] then [] else ChunkRecords(cs[..|cs| - 1]) + cs[|cs| - 1].records
  }

  ghost function ChunkTable(c: Chunk): seq<Entry> {
    Replay([], c.records)
  }

  ghost function ChunkFile(c: Chunk): File
    requires ChunkTable(c) != []
  {
    var es := ChunkTable(c);
    File(c.number, c.size, es[0].ik, es[|es| - 1].ik, es)
  }

  /** The tables the chunks become; a chunk without operations leaves none. */
  ghost function ChunkFiles(cs: seq<Chunk>): set<File> {
    if cs == [] then {} else
      ChunkFiles(cs[..|cs| - 1]) + (if ChunkTable(cs[|cs| - 1]) == [] then {} else {ChunkFile(cs[|cs| - 1])})
  }

  /** Recovery reads the disk only: it replays the manifest, then every log from the recorded log number up, in order,
      cutting the records into level-0 tables wherever the memtable fills up. File numbers are fresh and ascending. */
  ghost predicate CanRecover(d: Disk, cs: seq<Chunk>, newLog: nat, next: nat) {
    var m := ReplayManifest(d.manifest);
    && (forall n :: n in d.logs ==> n < newLog)
    && ChunkRecords(cs) == LogRecords(d.logs, m.logNumber, newLog)
    && (forall i :: 0 <= i < |cs| ==> m.nextFile <= cs[i].number < newLog)
    && (forall i, j :: 0 <= i < j < |cs| ==> cs[i].number < cs[j].number)
    && m.nextFile <= newLog < next
  }

  /** The last sequence number after replaying rs from the manifest's. */
  function LastOf(rs: seq<Record>, n: nat): nat {
    if rs == [] then n else
      var p := LastOf(rs[..|rs| - 1], n);
      var r := rs[|rs| - 1];
      if r.first - 1 + |r.ops| > p then r.first - 1 + |r.ops| else p
  }

  /** The manifest record that WriteSnapshot writes for a new manifest. */
  ghost function SnapshotEdit(m: Meta): Edit {
    Edit({}, set l, f | 0 <= l < |m.levels| && f in m.levels[l] :: (l, f), 0, 0, 0)
  }

  ghost function DoRecover(s: Db, cs: seq<Chunk>, newLog: nat, next: nat): Db
    requires CanRecover(s.disk, cs, newLog, next)
  {
    var d := s.disk;
    var m := ReplayManifest(d.manifest);
    var last := LastOf(LogRecords(d.logs, m.logNumber, newLog), m.lastSeq);
    var files := ChunkFiles(cs);
    var levels := if |m.levels| > 0 then m.levels[0 := m.levels[0] + files] else m.levels;
    var edit := Edit({}, Additions(0, files), newLog, next, last);
    Db([], None, levels, last, multiset{}, newLog, newLog, next, {}, multiset{}, Idle, None, None,
       Disk(map n | n in d.tables.Keys + Numbers(files) ::
              if n in Numbers(files) then (var f :| f in files && f.number == n; f.entries) else d.tables[n],
            d.logs[newLog := []], [SnapshotEdit(m), edit]),
       last, last, s.written, s.low)
  }
}
