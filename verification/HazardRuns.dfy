/** Runs from a fresh database that reach the two places where the code does not keep its own discipline. */
module HazardRuns {
  import opened Keys
  import opened Format
  import opened Levels
  import opened Compaction
  import opened CompactionReads
  import Database
  import opened Hazards
  import opened Layers
  import opened Invariant
  import opened LevelOrder
  import opened Store
  import opened Machine
  import opened Recovery
  import opened Runs
  import opened Selection
  import opened Setup

  // ---- runs between quiet states ----------------------------------------------------------------------------

  /** The run ends with no immutable memtable and nothing under way. */
  ghost predicate At(run: seq<Step>, mem: seq<Entry>, levels: LevelSets, last: nat, snapshots: multiset<nat>,
          next: nat) {
    Exec(run).Some? && Quiet(Exec(run).value, mem, levels, last, snapshots, next)
  }

  ghost predicate Quiet(s: Db, mem: seq<Entry>, levels: LevelSets, last: nat, snapshots: multiset<nat>, next: nat) {
    && s.mem == mem && s.levels == levels && s.lastSeq == last && s.snapshots == snapshots && s.nextFile == next
    && s.imm.None? && s.flush.Idle? && s.running.None? && s.inflight.None? && s.logFile in s.disk.logs
  }

  /** The current log is the only one recovery would read, and holds these records. */
  ghost predicate LogIs(run: seq<Step>, rs: seq<Record>) {
    Exec(run).Some? && (var s := Exec(run).value;
      s.logNumber == s.logFile && s.logFile in s.disk.logs && s.disk.logs[s.logFile] == rs)
  }

  lemma StartQuiet()
    ensures At([], [], EMPTY_LEVELS, 0, multiset{}, 4)
  {
  }

  lemma Write(run: seq<Step>, ops: seq<Op>, mem: seq<Entry>, levels: LevelSets, last: nat, snapshots: multiset<nat>,
          next: nat)
    requires At(run, mem, levels, last, snapshots, next)
    ensures At(run + [Log(ops)] + [Apply], InsertRecord(mem, Record(last + 1, ops)), levels, last + |ops|, snapshots,
      next)
  {
    hide Exec;
    hide InsertRecord;
    OneMoreStep(run, Log(ops));
    OneMoreStep(run + [Log(ops)], Apply);
  }

  lemma TakeSnapshot(run: seq<Step>, mem: seq<Entry>, levels: LevelSets, last: nat, snapshots: multiset<nat>, next: nat)
    requires At(run, mem, levels, last, snapshots, next)
    ensures At(run + [Snapshot], mem, levels, last, snapshots + multiset{last}, next)
  {
  }

  lemma DropSnapshot(run: seq<Step>, n: nat, mem: seq<Entry>, levels: LevelSets, last: nat, snapshots: multiset<nat>,
          next: nat)
    requires At(run, mem, levels, last, snapshots, next) && n in snapshots
    ensures At(run + [Release(n)], mem, levels, last, snapshots - multiset{n}, next)
  {
  }

  function TableFor(es: seq<Entry>, number: nat, size: nat): File
    requires es != []
  {
    File(number, size, es[0].ik, es[|es| - 1].ik, es)
  }

  /** The memtable goes to level 2: nothing above level 3 is in its way. */
  lemma FlushDown(run: seq<Step>, size: nat, mem: seq<Entry>, levels: LevelSets, last: nat, snapshots: multiset<nat>,
          next: nat)
    returns (after: seq<Step>)
    requires At(run, mem, levels, last, snapshots, next) && mem != [] && |levels| == NUM_LEVELS
    requires forall l :: 0 <= l <= 2 ==> levels[l] == {}
    ensures At(after, [], levels[2 := {TableFor(mem, next + 1, size)}], last, snapshots, next + 2) && LogIs(after, [])
  {
    hide Exec;
    var s := Exec(run).value;
    OneMoreStep(run, Switch);
    var a := run + [Switch];
    OneMoreStep(a, BuildFlush(2, size));
    var b := a + [BuildFlush(2, size)];
    OneMoreStep(b, InstallFlush);
    after := b + [InstallFlush];
    assert {} + {TableFor(mem, next + 1, size)} == {TableFor(mem, next + 1, size)};
  }

  lemma Compact(run: seq<Step>, r: Running, upto: nat, mem: seq<Entry>, levels: LevelSets, last: nat,
          snapshots: multiset<nat>, next: nat)
    returns (after: seq<Step>)
    requires At(run, mem, levels, last, snapshots, next) && CanBuildCompaction(Exec(run).value, r, upto)
    ensures At(after, mem, Install(levels, r.level, r.in0, r.in1, r.outs), last, snapshots, upto)
  {
    hide Exec;
    hide Output;
    hide Exposed;
    hide Sorted;
    OneMoreStep(run, BuildCompaction(r, upto));
    var a := run + [BuildCompaction(r, upto)];
    OneMoreStep(a, InstallCompaction);
    after := a + [InstallCompaction];
  }

  // ---- a deleted key across a boundary ------------------------------------------------------------------------

  /** put c, snapshot, delete c, put b, and after a flush and a compaction, put b again. */
  function SceneOf(b: Bytes, c: Bytes, x: Bytes, y: Bytes, z: Bytes, size: nat): Scene {
    Scene(EntryOf(Put(b, z), 4), EntryOf(Put(b, y), 3), EntryOf(Del(c), 2), EntryOf(Put(c, x), 1), 9, 6, 7, size)
  }

  lemma SceneMemtables(b: Bytes, c: Bytes, x: Bytes, y: Bytes, z: Bytes, size: nat)
    requires Less(b, c)
    ensures var s := SceneOf(b, c, x, y, z, size);
      && InsertRecord([], Record(1, [Put(c, x)])) == [s.o]
      && InsertRecord([s.o], Record(2, [Del(c), Put(b, y)])) == [s.q, s.d, s.o]
      && InsertRecord([], Record(4, [Put(b, z)])) == [s.p]
  {
    var s := SceneOf(b, c, x, y, z, size);
    assert Insert([], s.o) == [s.o];
    assert InsertOps([], Record(1, [Put(c, x)]), 0) == [];
    assert LowerBound([s.o], s.d.ik, 0) == 0;
    assert Insert([s.o], s.d) == [s.d, s.o];
    assert LowerBound([s.d, s.o], s.q.ik, 0) == 0;
    assert Insert([s.d, s.o], s.q) == [s.q, s.d, s.o];
    var r := Record(2, [Del(c), Put(b, y)]);
    assert InsertOps([s.o], r, 0) == [s.o];
    assert InsertOps([s.o], r, 1) == [s.d, s.o];
    assert InsertOps([s.o], r, 2) == [s.q, s.d, s.o];
    assert Insert([], s.p) == [s.p];
    assert InsertOps([], Record(4, [Put(b, z)]), 0) == [];
  }

  /** With the snapshot at 1 alive, the drop rules keep all three entries. */
  lemma SceneKept(s: Scene, v: LevelSets)
    requires SceneOk(s) && s.d.ik.sn == 2 && s.q.ik.sn == 3
    ensures Output([s.q, s.d, s.o], 1, v, 2) == [s.q, s.d, s.o]
  {
    hide BaseLevel;
    var input := [s.q, s.d, s.o];
    assert Keep(input, 0, 1, v, 2) && Keep(input, 1, 1, v, 2) && Keep(input, 2, 1, v, 2);
    assert Kept(input, 0, 1, v, 2) == [];
    assert Kept(input, 1, 1, v, 2) == [s.q];
    assert Kept(input, 2, 1, v, 2) == [s.q, s.d];
    assert Kept(input, 3, 1, v, 2) == [s.q, s.d, s.o];
  }

  lemma SceneSorted(s: Scene)
    requires SceneOk(s)
    ensures Sorted([s.q, s.d, s.o])
  {
  }

  /** That compaction may close its output file between the deletion and the put it hides. */
  lemma SceneSplits(d: Db, s: Scene, t: File)
    requires SceneOk(s) && s.d.ik.sn == 2 && s.q.ik.sn == 3 && s.fn == 6 && s.gn == 7
    requires t == TableFor([s.q, s.d, s.o], 5, s.size)
    requires Quiet(d, [], EMPTY_LEVELS[2 := {t}], 3, multiset{1}, 6)
    ensures CanBuildCompaction(d, Running(2, {t}, {}, [s.q, s.d, s.o], 1, d.levels, {F(s), G(s)}), 8)
  {
    hide Exposed;
    hide Output;
    hide Sorted;
    SceneFiles(s);
    SceneKept(s, d.levels);
    SceneSorted(s);
    OneFileEntries(t);
    TwoFileEntries(F(s), G(s));
    assert {t} + {} == {t};
    assert forall e :: e in [s.q, s.d, s.o] <==> e in [s.q, s.d] || e in [s.o];
    forall k: Bytes
      ensures !Exposed(d.levels, 2, {}, [s.q, s.d, s.o], 1, k)
    {
      ClosedExposesNothing(d.levels, 2, {}, [s.q, s.d, s.o], 1, k);
    }
  }

  /** Up to the flush of the three entries. */
  lemma SceneHalf(b: Bytes, c: Bytes, x: Bytes, y: Bytes, z: Bytes, size: nat) returns (run: seq<Step>)
    requires Less(b, c)
    ensures var s := SceneOf(b, c, x, y, z, size);
      At(run, [], EMPTY_LEVELS[2 := {TableFor([s.q, s.d, s.o], 5, size)}], 3, multiset{1}, 6)
  {
    hide At;
    hide InsertRecord;
    var s := SceneOf(b, c, x, y, z, size);
    SceneMemtables(b, c, x, y, z, size);
    StartQuiet();
    Write([], [Put(c, x)], [], EMPTY_LEVELS, 0, multiset{}, 4);
    run := [] + [Log([Put(c, x)])] + [Apply];
    TakeSnapshot(run, [s.o], EMPTY_LEVELS, 1, multiset{}, 4);
    assert multiset{} + multiset{1} == multiset{1};
    run := run + [Snapshot];
    Write(run, [Del(c), Put(b, y)], [s.o], EMPTY_LEVELS, 1, multiset{1}, 4);
    run := run + [Log([Del(c), Put(b, y)])] + [Apply];
    run := FlushDown(run, size, [s.q, s.d, s.o], EMPTY_LEVELS, 3, multiset{1}, 4);
  }

  /** A run to the scene, whatever the keys and values. */
  lemma SceneRun(b: Bytes, c: Bytes, x: Bytes, y: Bytes, z: Bytes, size: nat) returns (run: seq<Step>)
    requires Less(b, c)
    ensures var s := SceneOf(b, c, x, y, z, size);
      SceneOk(s) && At(run, [], ToSets(Tree7(U(s), F(s), G(s))), 4, multiset{}, 10)
  {
    hide InsertRecord;
    hide CanBuildCompaction;
    var s := SceneOf(b, c, x, y, z, size);
    var t := TableFor([s.q, s.d, s.o], 5, size);
    var flushed: LevelSets := EMPTY_LEVELS[2 := {t}];
    SceneMemtables(b, c, x, y, z, size);
    run := SceneHalf(b, c, x, y, z, size);
    var r := Running(2, {t}, {}, [s.q, s.d, s.o], 1, flushed, {F(s), G(s)});
    SceneSplits(Exec(run).value, s, t);
    run := Compact(run, r, 8, [], flushed, 3, multiset{1}, 6);
    hide At;
    var split := Install(flushed, 2, {t}, {}, {F(s), G(s)});
    SplitLevels(t, F(s), G(s), U(s));
    Write(run, [Put(b, z)], [], split, 3, multiset{1}, 8);
    run := run + [Log([Put(b, z)])] + [Apply];
    run := FlushDown(run, size, [s.p], split, 4, multiset{1}, 8);
    DropSnapshot(run, 1, [], split[2 := {U(s)}], 4, multiset{1}, 10);
    assert multiset{1} - multiset{1} == multiset{};
    run := run + [Release(1)];
  }

  lemma SplitLevels(t: File, f: File, g: File, u: File)
    ensures var v := Install(EMPTY_LEVELS[2 := {t}], 2, {t}, {}, {f, g});
      && |v| == NUM_LEVELS && (forall l :: 0 <= l <= 2 ==> v[l] == {}) && v[2 := {u}] == ToSets(Tree7(u, f, g))
  {
    var v := Install(EMPTY_LEVELS[2 := {t}], 2, {t}, {}, {f, g});
    TreeSets(u, f, g);
    assert {t} - {t} == {} && {} - {} + {f, g} == {f, g};
    var w := ToSets(Tree7(u, f, g));
    forall l | 0 <= l < NUM_LEVELS
      ensures v[2 := {u}][l] == w[l]
    {
    }
  }

  /** However the outputs are cut, once they replace the inputs k reads as x. */
  ghost predicate ReadsAfter(v: LevelSets, in0: set<File>, in1: set<File>, input: seq<Entry>, floor: nat, k: Bytes,
          x: Bytes)
    requires |v| > 3
  {
    forall outs :: FileEntries(outs) == Elems(Output(input, floor, v, 2)) ==>
      Read(Contents(Install(v, 2, in0, in1, outs)), k, floor) == Some(x)
  }

  ghost predicate OnlyChoice(upper: seq<File>, lower: seq<File>, in0: seq<File>, in1: seq<File>) {
    forall a, b :: Closed(2, upper, a) && CoveredBelow(lower, a, b) ==> a == in0 && b == in1
  }

  lemma SceneReadsAfter(s: Scene, v: LevelSets, floor: nat)
    requires SceneOk(s) && s.d.ik.sn <= floor && v == ToSets(Tree7(U(s), F(s), G(s)))
    ensures |v| > 3 && ReadsAfter(v, {U(s)}, {F(s)}, [s.p, s.q, s.d], floor, s.d.ik.user, s.o.value)
  {
    hide Exposed;
    hide SceneOk;
    forall outs | FileEntries(outs) == Elems(Output([s.p, s.q, s.d], floor, v, 2))
      ensures Read(Contents(Install(v, 2, {U(s)}, {F(s)}, outs)), s.d.ik.user, floor) == Some(s.o.value)
    {
      OpenBoundaryResurrects(s, v, floor, outs);
    }
  }

  lemma SceneOnlyChoice(s: Scene)
    requires SceneOk(s)
    ensures OnlyChoice([U(s)], [F(s), G(s)], [U(s)], [F(s)])
  {
    forall a, b | Closed(2, [U(s)], a) && CoveredBelow([F(s), G(s)], a, b)
      ensures a == [U(s)] && b == [F(s)]
    {
      OnlySelection(s, a, b);
    }
  }

  lemma SceneBefore(s: Scene, v: LevelSets, floor: nat)
    requires SceneOk(s) && s.d.ik.sn <= floor && v == ToSets(Tree7(U(s), F(s), G(s)))
    ensures Read(Contents(v), s.d.ik.user, floor) == None
    ensures Exposed(v, 2, {F(s)}, [s.p, s.q, s.d], floor, s.d.ik.user)
  {
    hide SceneOk;
    hide Exposed;
    hide Output;
    SceneIsLegal(s);
    TreeSets(U(s), F(s), G(s));
    SceneRest(s, v);
    SceneReads(s, v, floor);
    SceneExposed(s, v, floor);
  }

  lemma QuietContents(run: seq<Step>, levels: LevelSets, last: nat, next: nat, k: Bytes)
    requires At(run, [], levels, last, multiset{}, next)
    ensures LayeredGet(Exec(run).value, k, last) == Read(Contents(levels), k, last)
  {
    hide Exec;
    hide LayeredGet;
    hide Inv;
    ReachableInv(run);
    LayeredIsRead(Exec(run).value, k, last);
    assert Exec(run).value.All() == Contents(levels);
  }

  /** After that run, with no snapshot left and nothing under way, the deleted key c reads as absent; every way of
      choosing inputs at level 2 takes the one file there and leaves the hidden put behind; and compacting them makes it
      readable. */
  lemma DeletedKeyComesBack(b: Bytes, c: Bytes, x: Bytes, y: Bytes, z: Bytes, size: nat)
    returns (run: seq<Step>, sc: Scene)
    requires Less(b, c)
    ensures At(run, [], ToSets(Tree7(U(sc), F(sc), G(sc))), 4, multiset{}, 10) && Vectors(Tree7(U(sc), F(sc), G(sc)))
    ensures LayeredGet(Exec(run).value, c, 4) == None
    ensures OnlyChoice([U(sc)], [F(sc), G(sc)], [U(sc)], [F(sc)])
    ensures Exposed(Exec(run).value.levels, 2, {F(sc)}, [sc.p, sc.q, sc.d], 4, c)
    ensures ReadsAfter(Exec(run).value.levels, {U(sc)}, {F(sc)}, [sc.p, sc.q, sc.d], 4, c, x)
  {
    hide Exec;
    hide ReadsAfter;
    hide OnlyChoice;
    hide Exposed;
    hide LayeredGet;
    hide Vectors;
    hide Contents;
    sc := SceneOf(b, c, x, y, z, size);
    run := SceneRun(b, c, x, y, z, size);
    var v := ToSets(Tree7(U(sc), F(sc), G(sc)));
    SceneIsLegal(sc);
    SceneBefore(sc, v, 4);
    SceneReadsAfter(sc, v, 4);
    SceneOnlyChoice(sc);
    QuietContents(run, v, 4, 10, c);
  }

  // ---- a flush into a gap ----------------------------------------------------------------------------------------

  lemma WriteLogs(run: seq<Step>, ops: seq<Op>, rs: seq<Record>, mem: seq<Entry>, levels: LevelSets, last: nat,
          next: nat)
    requires At(run, mem, levels, last, multiset{}, next) && LogIs(run, rs)
    ensures LogIs(run + [Log(ops)] + [Apply], rs + [Record(last + 1, ops)])
  {
    hide Exec;
    hide InsertRecord;
    OneMoreStep(run, Log(ops));
    OneMoreStep(run + [Log(ops)], Apply);
  }

  lemma TwoChunks(c1: Chunk, c2: Chunk)
    requires ChunkTable(c1) != [] && ChunkTable(c2) != []
    ensures ChunkRecords([c1, c2]) == c1.records + c2.records && ChunkFiles([c1, c2]) == {ChunkFile(c1), ChunkFile(c2)}
  {
    hide ChunkTable;
    Database.OneMoreTable([], c1);
    Database.OneMoreTable([c1], c2);
    assert [] + [c1] == [c1] && [c1] + [c2] == [c1, c2];
    assert ChunkRecords([]) == [] && ChunkFiles([]) == {};
  }

  lemma OneLog(logs: map<nat, seq<Record>>, n: nat, upto: nat)
    requires n in logs && n < upto && forall k: nat :: k in logs && n <= k ==> k == n
    ensures LogRecords(logs, n, upto) == logs[n]
  {
  }

  lemma RecoverInTwo(s: Db, r1: Record, r2: Record, size: nat)
    requires LogInv(s) && MetaInv(s) && s.logNumber == s.logFile && s.logFile in s.disk.logs &&
      s.disk.logs[s.logFile] == [r1, r2]
    requires ChunkRecords([Chunk(s.nextFile, size, [r1]), Chunk(s.nextFile + 1, size, [r2])]) == [r1, r2]
    ensures CanRecover(s.disk, [Chunk(s.nextFile, size, [r1]), Chunk(s.nextFile + 1, size, [r2])], s.nextFile + 2,
      s.nextFile + 3)
  {
    hide LogRecords;
    hide ChunkRecords;
    hide ReplayManifest;
    hide Replay;
    hide Consecutive;
    OneLog(s.disk.logs, s.logNumber, s.nextFile + 2);
  }

  lemma RecoveredQuietly(s: Db, cs: seq<Chunk>, newLog: nat, upto: nat, fs: set<File>)
    requires Inv(s) && CanRecover(s.disk, cs, newLog, upto) && ChunkFiles(cs) == fs && s.inflight.None?
    ensures Quiet(DoRecover(s, cs, newLog, upto), [], WithLevel0(s.levels, fs), s.lastSeq, multiset{}, upto)
  {
    hide CanRecover;
    hide SeqInv;
    hide LogInv;
    hide MetaInv;
    hide OrderInv;
    hide TableInv;
    hide ChunkFiles;
    hide ReplayManifest;
    hide LogRecords;
    RecoveredLevels(s, cs, newLog, upto);
  }

  /** A crash, and a recovery that cuts the two records of the log into two level-0 tables. */
  lemma CrashInTwo(run: seq<Step>, r1: Record, r2: Record, size: nat, mem: seq<Entry>, levels: LevelSets, last: nat,
          next: nat)
    returns (after: seq<Step>)
    requires At(run, mem, levels, last, multiset{}, next) && LogIs(run, [r1, r2]) && |levels| == NUM_LEVELS
    requires ChunkTable(Chunk(next, size, [r1])) != [] && ChunkTable(Chunk(next + 1, size, [r2])) != []
    ensures var c1, c2 := Chunk(next, size, [r1]), Chunk(next + 1, size, [r2]);
      At(after, [], WithLevel0(levels, {ChunkFile(c1), ChunkFile(c2)}), last, multiset{}, next + 3)
  {
    hide Exec;
    hide Inv;
    hide ChunkFiles;
    hide ChunkRecords;
    hide ChunkFile;
    hide CanRecover;
    hide DoRecover;
    hide WithLevel0;
    hide ChunkTable;
    hide LogInv;
    hide MetaInv;
    hide OrderInv;
    hide SeqInv;
    hide History;
    var cs := [Chunk(next, size, [r1]), Chunk(next + 1, size, [r2])];
    var s := Exec(run).value;
    ReachableInv(run);
    InvParts(s);
    TwoChunks(cs[0], cs[1]);
    assert [r1] + [r2] == [r1, r2];
    RecoverInTwo(s, r1, r2, size);
    RecoveredQuietly(s, cs, next + 2, next + 3, {ChunkFile(cs[0]), ChunkFile(cs[1])});
    CrashStep(run, cs, next + 2, next + 3);
    after := run + [Crash(cs, next + 2, next + 3)];
  }

  /** put m, flushed to level 2; puts a and z, recovered into two level-0 tables; put m again. */
  function GapOf(a: (Bytes, Bytes), z: (Bytes, Bytes), k: Bytes, first: Bytes, second: Bytes, size: nat): Gap {
    Gap(EntryOf(Put(a.0, a.1), 2), EntryOf(Put(z.0, z.1), 3), EntryOf(Put(k, second), 4), EntryOf(Put(k, first), 1),
      6, 7, 5, size)
  }

  lemma OnePut(k: Bytes, v: Bytes, n: nat)
    ensures InsertRecord([], Record(n, [Put(k, v)])) == [EntryOf(Put(k, v), n)]
    ensures ChunkTable(Chunk(0, 0, [Record(n, [Put(k, v)])])) == [EntryOf(Put(k, v), n)]
  {
    var r := Record(n, [Put(k, v)]);
    assert InsertOps([], r, 0) == [];
    assert [r][..0] == [] && Replay([], []) == [];
  }

  lemma OneChunk(e: Entry, n: nat, size: nat, r: Record)
    requires ChunkTable(Chunk(0, 0, [r])) == [e]
    ensures ChunkTable(Chunk(n, size, [r])) != [] && ChunkFile(Chunk(n, size, [r])) == SingleFile(e, n, size)
  {
  }

  lemma GapRecovered(g: Gap, v: LevelSets)
    requires v == WithLevel0(EMPTY_LEVELS[2 := {DeepFile(g)}], {LeftFile(g), RightFile(g)})
    ensures v == ToSets(GapTree(g))
  {
    GapSets(g);
    var w := ToSets(GapTree(g));
    forall l | 0 <= l < NUM_LEVELS
      ensures v[l] == w[l]
    {
    }
  }

  /** Up to the second put of the key between. */
  lemma GapRun(a: (Bytes, Bytes), z: (Bytes, Bytes), k: Bytes, first: Bytes, second: Bytes, size: nat)
    returns (run: seq<Step>)
    ensures var g := GapOf(a, z, k, first, second, size); At(run, [g.m], ToSets(GapTree(g)), 4, multiset{}, 9)
  {
    hide At;
    hide LogIs;
    hide InsertRecord;
    hide ChunkTable;
    hide ChunkFile;
    hide WithLevel0;
    var g := GapOf(a, z, k, first, second, size);
    var r1, r2 := Record(2, [Put(a.0, a.1)]), Record(3, [Put(z.0, z.1)]);
    OnePut(k, first, 1);
    OnePut(a.0, a.1, 2);
    OnePut(z.0, z.1, 3);
    OnePut(k, second, 4);
    StartQuiet();
    Write([], [Put(k, first)], [], EMPTY_LEVELS, 0, multiset{}, 4);
    run := [] + [Log([Put(k, first)])] + [Apply];
    run := FlushDown(run, size, [g.h], EMPTY_LEVELS, 1, multiset{}, 4);
    var flushed: LevelSets := EMPTY_LEVELS[2 := {DeepFile(g)}];
    Write(run, [Put(a.0, a.1)], [], flushed, 1, multiset{}, 6);
    WriteLogs(run, [Put(a.0, a.1)], [], [], flushed, 1, 6);
    run := run + [Log([Put(a.0, a.1)])] + [Apply];
    assert [] + [r1] == [r1] && [r1] + [r2] == [r1, r2];
    Write(run, [Put(z.0, z.1)], [g.a], flushed, 2, multiset{}, 6);
    WriteLogs(run, [Put(z.0, z.1)], [r1], [g.a], flushed, 2, 6);
    run := run + [Log([Put(z.0, z.1)])] + [Apply];
    OneChunk(g.a, 6, size, r1);
    OneChunk(g.z, 7, size, r2);
    run := CrashInTwo(run, r1, r2, size, InsertRecord([g.a], r2), flushed, 3, 6);
    GapRecovered(g, WithLevel0(flushed, {LeftFile(g), RightFile(g)}));
    Write(run, [Put(k, second)], [], ToSets(GapTree(g)), 3, multiset{}, 9);
    run := run + [Log([Put(k, second)])] + [Apply];
  }

  /** The manual compaction of level 0, written as one file. */
  function GapCompaction(g: Gap, number: nat, v: LevelSets): Running {
    Running(0, {LeftFile(g), RightFile(g)}, {}, [g.a, g.z], 4, v, {WideFile(g, number, g.size)})
  }

  lemma GapCompacts(d: Db, g: Gap, mem: seq<Entry>)
    requires GapOk(g) && GapLevels(d.levels, g) && Quiet(d, mem, d.levels, 4, multiset{}, 9)
    ensures CanBuildCompaction(d, GapCompaction(g, 9, d.levels), 10)
  {
    hide Exposed;
    hide Output;
    hide Sorted;
    var o := WideFile(g, 9, g.size);
    GapOutput(g, 4, d.levels);
    GapIsClear(g, d.levels, 0);
    OneFileEntries(o);
    FlushIntoGapOverlaps(g, d.levels, 0, 9, g.size, g.m.ik.sn);
    forall k: Bytes
      ensures !Exposed(d.levels, 0, {}, [g.a, g.z], 4, k)
    {
      ClosedExposesNothing(d.levels, 0, {}, [g.a, g.z], 4, k);
    }
  }

  /** The compaction runs, the memtable [m] waits to be flushed, and level 1 is where its table may go as far as the
      code looks. The state machine says no; had it said yes, level 1 would end up with two overlapping files. */
  ghost predicate Trapped(s: Db, g: Gap, size: nat) {
    && s.levels == ToSets(GapTree(g)) && s.imm == Some([g.m]) && s.flush.Idle?
    && s.running == Some(GapCompaction(g, 9, s.levels))
    && ClearDownTo(s.levels, 1, FlushFile(s, size)) && !CanBuildFlush(s, 1, size)
    && var r := s.running.value;
       !VersionOk(Install(AddFile(s.levels, 1, FlushFile(s, size)), r.level, r.in0, r.in1, r.outs))
  }

  lemma GapTraps(s: Db, g: Gap)
    requires GapOk(g) && s.levels == ToSets(GapTree(g)) && s.imm == Some([g.m]) && s.flush.Idle? && s.nextFile == 11
    requires s.running == Some(GapCompaction(g, 9, s.levels))
    ensures Trapped(s, g, g.size)
  {
    hide VersionOk;
    GapSets(g);
    GapIsClear(g, s.levels, 11);
    FlushIntoGapOverlaps(g, s.levels, 11, 9, g.size, g.m.ik.sn);
    assert FlushFile(s, g.size) == SingleFile(g.m, 11, g.size);
    assert {LeftFile(g), RightFile(g)} + {} == {LeftFile(g), RightFile(g)};
  }

  /** A run to that state, whatever the keys and values. */
  lemma FlushReachesGap(a: (Bytes, Bytes), z: (Bytes, Bytes), k: Bytes, first: Bytes, second: Bytes, size: nat)
    returns (run: seq<Step>)
    requires Less(a.0, k) && Less(k, z.0)
    ensures Exec(run).Some? && Trapped(Exec(run).value, GapOf(a, z, k, first, second, size), size)
  {
    hide Exec;
    hide Trapped;
    hide CanBuildCompaction;
    var g := GapOf(a, z, k, first, second, size);
    run := GapRun(a, z, k, first, second, size);
    GapSets(g);
    GapCompacts(Exec(run).value, g, [g.m]);
    var r := GapCompaction(g, 9, Exec(run).value.levels);
    OneMoreStep(run, BuildCompaction(r, 10));
    run := run + [BuildCompaction(r, 10)];
    OneMoreStep(run, Switch);
    run := run + [Switch];
    GapTraps(Exec(run).value, g);
  }
}
