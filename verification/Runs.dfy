/** Whole runs of the database, and the plain map they implement. */
module Runs {
  import opened Keys
  import opened Format
  import opened Levels
  import opened Layers
  import opened Store
  import opened Machine
  import opened Invariant
  import opened Recovery

  // ---- runs -----------------------------------------------------------------------------

  datatype Step =
    | Log(ops: seq<Op>) | Apply | Switch
    | BuildFlush(level: nat, size: nat) | InstallFlush
    | BuildCompaction(r: Running, next: nat) | InstallCompaction | Move(from: nat, file: File)
    | Delete(tables: set<nat>, logs: set<nat>)
    | Snapshot | Release(n: nat) | Pin | Unpin(v: LevelSets)
    | Crash(chunks: seq<Chunk>, newLog: nat, upto: nat)

  /** A freshly created database: an empty manifest snapshot and one edit naming the first log. */
  ghost function Fresh(): Db {
    Db([], None, EMPTY_LEVELS, 0, multiset{}, 3, 3, 4, {}, multiset{}, Idle, None, None,
       Disk(map[], map[3 := []], [SnapshotEdit(ReplayManifest([])), Edit({}, {}, 3, 4, 0)]), 0, 0, iset{}, 0)
  }

  ghost predicate Enabled(s: Db, step: Step) {
    match step
    case Log(_) => CanLog(s)
    case Apply => s.inflight.Some?
    case Switch => CanSwitch(s)
    case BuildFlush(level, size) => CanBuildFlush(s, level, size)
    case InstallFlush => CanInstallFlush(s)
    case BuildCompaction(r, next) => CanBuildCompaction(s, r, next)
    case InstallCompaction => CanInstallCompaction(s)
    case Move(level, f) => CanMove(s, level, f)
    case Delete(tables, logs) => CanDelete(s, tables, logs)
    case Release(n) => n in s.snapshots
    case Unpin(v) => v in s.pinned
    case Crash(cs, newLog, next) => CanRecover(s.disk, cs, newLog, next)
    case _ => true
  }

  ghost function Do(s: Db, step: Step): Db
    requires Enabled(s, step)
  {
    match step
    case Log(ops) => DoLog(s, ops)
    case Apply => DoApply(s)
    case Switch => DoSwitch(s)
    case BuildFlush(level, size) => DoBuildFlush(s, level, size)
    case InstallFlush => DoInstallFlush(s)
    case BuildCompaction(r, next) => DoBuildCompaction(s, r, next)
    case InstallCompaction => DoInstallCompaction(s)
    case Move(level, f) => DoMove(s, level, f)
    case Delete(tables, logs) => DoDelete(s, tables, logs)
    case Snapshot => DoSnapshot(s)
    case Release(n) => DoRelease(s, n)
    case Pin => DoPin(s)
    case Unpin(v) => DoUnpin(s, v)
    case Crash(cs, newLog, next) => DoRecover(s, cs, newLog, next)
  }

  /** The state a run reaches from a fresh database, if every step of it is enabled. */
  ghost function Exec(run: seq<Step>): Option<Db> {
    if run == [] then Some(Fresh()) else
      match Exec(run[..|run| - 1])
      case None => None
      case Some(s) => if Enabled(s, run[|run| - 1]) then Some(Do(s, run[|run| - 1])) else None
  }

  // ---- every reachable state keeps the invariant --------------------------------------------

  lemma FreshVersion()
    ensures VersionOk(EMPTY_LEVELS) && Contents(EMPTY_LEVELS) == iset{}
  {
    assert forall l :: 0 <= l < NUM_LEVELS ==> EMPTY_LEVELS[l] == {};
  }

  lemma FreshManifest()
    ensures ReplayManifest(Fresh().disk.manifest) == Meta(EMPTY_LEVELS, 3, 4, 0)
  {
    var e := Edit({}, {}, 3, 4, 0);
    assert e.added == Additions(0, {});
    RecoveredManifest(ReplayManifest([]), {}, e);
    assert EMPTY_LEVELS[0] + {} == EMPTY_LEVELS[0];
    assert WithLevel0(EMPTY_LEVELS, {}) == EMPTY_LEVELS;
  }

  lemma FreshReads()
    ensures ReadInv(Fresh()) && SeqInv(Fresh())
  {
  }

  lemma FreshTables()
    ensures AllStored(map[], EMPTY_LEVELS) && NumbersBelow(EMPTY_LEVELS, 4) && UniqueNumbers(EMPTY_LEVELS)
  {
    assert forall l :: 0 <= l < |EMPTY_LEVELS| ==> EMPTY_LEVELS[l] == {};
  }

  lemma FreshOrder()
    ensures TableInv(Fresh()) && OrderInv(Fresh())
  {
    hide VersionOk;
    hide AllStored;
    hide NumbersBelow;
    hide UniqueNumbers;
    FreshVersion();
    FreshTables();
  }

  lemma FreshMeta()
    ensures MetaInv(Fresh())
  {
    FreshManifest();
    assert forall l :: 0 <= l < NUM_LEVELS ==> EMPTY_LEVELS[l] == {};
  }

  lemma FreshLogs()
    ensures LogInv(Fresh()) && FlushInv(Fresh()) && RunInv(Fresh())
  {
  }

  lemma FreshInv()
    ensures Inv(Fresh())
  {
    hide SeqInv;
    hide LogInv;
    hide TableInv;
    hide MetaInv;
    hide OrderInv;
    hide ReadInv;
    FreshReads();
    FreshOrder();
    FreshMeta();
    FreshLogs();
  }

  lemma StepKeeps(s: Db, step: Step)
    requires Inv(s) && Enabled(s, step)
    ensures Inv(Do(s, step))
  {
    hide Inv;
    match step
    case Log(ops) => LogKeeps(s, ops);
    case Apply => ApplyKeeps(s);
    case Switch => SwitchKeeps(s);
    case BuildFlush(level, size) => BuildFlushKeeps(s, level, size);
    case InstallFlush => InstallFlushKeeps(s);
    case BuildCompaction(r, next) => BuildCompactionKeeps(s, r, next);
    case InstallCompaction => InstallCompactionKeeps(s);
    case Move(level, f) => MoveKeeps(s, level, f);
    case Delete(tables, logs) => DeleteKeeps(s, tables, logs);
    case Snapshot => SnapshotKeeps(s);
    case Release(n) => ReleaseKeeps(s, n);
    case Pin => PinKeeps(s);
    case Unpin(v) => UnpinKeeps(s, v);
    case Crash(cs, newLog, next) => RecoverKeeps(s, cs, newLog, next);
  }

  lemma {:induction false} ReachableInv(run: seq<Step>)
    requires Exec(run).Some?
    ensures Inv(Exec(run).value)
  {
    hide Inv;
    hide Enabled;
    hide Do;
    if run == [] {
      FreshInv();
    } else {
      ReachableInv(run[..|run| - 1]);
      StepKeeps(Exec(run[..|run| - 1]).value, run[|run| - 1]);
    }
  }

  // ---- the plain map ----------------------------------------------------------------------------

  /** Every operation ever logged, oldest first: operation i has sequence number i + 1. */
  ghost function History(run: seq<Step>): seq<Op> {
    if run == [] then [] else
      History(run[..|run| - 1]) + (if run[|run| - 1].Log? then run[|run| - 1].ops else [])
  }

  /** The specification: a map, updated by one operation after another. */
  function MapAt(ops: seq<Op>, n: nat): map<Bytes, Bytes>
    requires n <= |ops|
  {
    if n == 0 then map[] else
      var m := MapAt(ops, n - 1);
      match ops[n - 1]
      case Put(k, v) => m[k := v]
      case Del(k) => m - {k}
  }

  function Lookup(m: map<Bytes, Bytes>, k: Bytes): Option<Bytes> {
    if k in m then Some(m[k]) else None
  }

  ghost function HistoryEntries(ops: seq<Op>): iset<Entry> {
    iset i | 0 <= i < |ops| :: EntryOf(ops[i], i + 1)
  }

  lemma HistoryGrows(ops: seq<Op>, more: seq<Op>)
    ensures HistoryEntries(ops + more) == HistoryEntries(ops) + RecordEntries(Record(|ops| + 1, more))
  {
    var all := ops + more;
    forall e: Entry
      ensures e in HistoryEntries(all) <==> e in HistoryEntries(ops) + RecordEntries(Record(|ops| + 1, more))
    {
      if e in HistoryEntries(all) {
        var i :| 0 <= i < |all| && e == EntryOf(all[i], i + 1);
        if |ops| <= i {
          var r := Record(|ops| + 1, more);
          assert e == EntryOf(r.ops[i - |ops|], r.first + (i - |ops|));
        }
      }
      if e in HistoryEntries(ops) {
        var i :| 0 <= i < |ops| && e == EntryOf(ops[i], i + 1);
        assert e == EntryOf(all[i], i + 1);
      }
      if e in RecordEntries(Record(|ops| + 1, more)) {
        var i :| 0 <= i < |more| && e == EntryOf(more[i], |ops| + 1 + i);
        assert e == EntryOf(all[|ops| + i], |ops| + i + 1);
      }
    }
  }

  /** The newest entry at n of the history is what the plain map says after n operations. */
  lemma {:induction false} HistoryReads(ops: seq<Op>, k: Bytes, n: nat)
    requires n <= |ops|
    ensures Read(HistoryEntries(ops), k, n) == Lookup(MapAt(ops, n), k)
  {
    var es := HistoryEntries(ops);
    if n > 0 {
      HistoryReads(ops, k, n - 1);
      var e := EntryOf(ops[n - 1], n);
      assert e in es;
      if ops[n - 1].key == k {
        NewestIs(es, k, n, e);
      } else {
        HistoryStep(ops, k, n);
      }
    } else {
      NewestNone(es, k, 0);
    }
  }

  lemma HistoryStep(ops: seq<Op>, k: Bytes, n: nat)
    requires 0 < n <= |ops| && ops[n - 1].key != k
    ensures Newest(HistoryEntries(ops), k, n) == Newest(HistoryEntries(ops), k, n - 1)
  {
  }

  lemma LogHistory(s: Db, ops: seq<Op>, more: seq<Op>)
    requires CanLog(s) && s.written == HistoryEntries(ops) && s.Top() == |ops|
    ensures DoLog(s, more).written == HistoryEntries(ops + more) && DoLog(s, more).Top() == |ops + more|
  {
    HistoryGrows(ops, more);
  }

  /** Only a logged batch adds to what was written; every other step, a crash included, leaves it. */
  lemma StepHistory(s: Db, step: Step, ops: seq<Op>)
    requires Inv(s) && Enabled(s, step)
    requires s.written == HistoryEntries(ops) && s.Top() == |ops|
    ensures var ops' := ops + (if step.Log? then step.ops else []);
      Do(s, step).written == HistoryEntries(ops') && Do(s, step).Top() == |ops'|
  {
    hide Inv;
    hide HistoryEntries;
    if step.Log? {
      LogHistory(s, ops, step.ops);
    } else {
      hide Enabled;
      hide Do;
      assert ops + [] == ops;
      StepWrites(s, step);
    }
  }

  lemma CrashWrites(s: Db, cs: seq<Chunk>, newLog: nat, next: nat)
    requires Inv(s) && CanRecover(s.disk, cs, newLog, next)
    ensures DoRecover(s, cs, newLog, next).written == s.written && DoRecover(s, cs, newLog, next).Top() == s.Top()
  {
    hide Inv;
    hide CanRecover;
    hide LogInv;
    hide MetaInv;
    InvParts(s);
    RecoveredLevels(s, cs, newLog, next);
  }

  lemma StepWrites(s: Db, step: Step)
    requires Inv(s) && Enabled(s, step) && !step.Log?
    ensures Do(s, step).written == s.written && Do(s, step).Top() == s.Top()
  {
    hide Inv;
    hide CanRecover;
    hide DoRecover;
    if step.Crash? {
      CrashWrites(s, step.chunks, step.newLog, step.upto);
    } else {
      QuietStep(s, step);
    }
  }

  lemma QuietFlush(s: Db, level: nat, size: nat)
    ensures s.inflight.Some? ==> DoApply(s).written == s.written && DoApply(s).Top() == s.Top()
    ensures CanSwitch(s) ==> DoSwitch(s).written == s.written && DoSwitch(s).Top() == s.Top()
    ensures CanInstallFlush(s) ==> DoInstallFlush(s).written == s.written && DoInstallFlush(s).Top() == s.Top()
    ensures CanBuildFlush(s, level, size) ==>
      DoBuildFlush(s, level, size).written == s.written && DoBuildFlush(s, level, size).Top() == s.Top()
  {
  }

  lemma QuietCompaction(s: Db, r: Running, next: nat, level: nat, f: File)
    ensures CanInstallCompaction(s) ==>
      DoInstallCompaction(s).written == s.written && DoInstallCompaction(s).Top() == s.Top()
    ensures CanBuildCompaction(s, r, next) ==>
      DoBuildCompaction(s, r, next).written == s.written && DoBuildCompaction(s, r, next).Top() == s.Top()
    ensures CanMove(s, level, f) ==> DoMove(s, level, f).written == s.written && DoMove(s, level, f).Top() == s.Top()
  {
    hide CanBuildCompaction;
    hide CanMove;
  }

  lemma QuietStep(s: Db, step: Step)
    requires Enabled(s, step) && !step.Log? && !step.Crash?
    ensures Do(s, step).written == s.written && Do(s, step).Top() == s.Top()
  {
    hide CanRecover;
    hide DoRecover;
    hide CanBuildFlush;
    hide CanInstallFlush;
    hide CanBuildCompaction;
    hide CanInstallCompaction;
    hide CanMove;
    hide DoBuildFlush;
    hide DoInstallFlush;
    hide DoBuildCompaction;
    hide DoInstallCompaction;
    hide DoMove;
    hide DoApply;
    hide DoSwitch;
    hide DoLog;
    if step.BuildCompaction? {
      QuietCompaction(s, step.r, step.next, 0, File(0, 0, LookupKey([], 0), LookupKey([], 0), []));
    } else if step.InstallCompaction? {
      QuietCompaction(s, Running(0, {}, {}, [], 0, [], {}), 0, 0, File(0, 0, LookupKey([], 0), LookupKey([], 0), []));
    } else if step.Move? {
      QuietCompaction(s, Running(0, {}, {}, [], 0, [], {}), 0, step.from, step.file);
    } else if step.BuildFlush? {
      QuietFlush(s, step.level, step.size);
    } else {
      QuietFlush(s, 0, 0);
    }
  }

  lemma InvParts(s: Db)
    requires Inv(s)
    ensures SeqInv(s) && LogInv(s) && MetaInv(s) && OrderInv(s)
  {
  }

  lemma {:induction false} RunHistory(run: seq<Step>)
    requires Exec(run).Some?
    ensures Exec(run).value.written == HistoryEntries(History(run)) && Exec(run).value.Top() == |History(run)|
  {
    hide Inv;
    hide Enabled;
    hide Do;
    if run == [] {
      assert HistoryEntries([]) == iset{};
    } else {
      var before := run[..|run| - 1];
      ReachableInv(before);
      RunHistory(before);
      StepHistory(Exec(before).value, run[|run| - 1], History(before));
    }
  }

  // ---- the main results ------------------------------------------------------------------------------

  /** A reader may ask for the last published sequence number or for a live snapshot. */
  ghost predicate Readable(s: Db, n: nat) {
    n == s.lastSeq || n in s.snapshots
  }

  lemma InflightUnseen(s: Db, k: Bytes, n: nat)
    requires LogInv(s) && ReadInv(s) && n <= s.lastSeq
    ensures Read(s.All(), k, n) == Read(s.All() + s.Inflight(), k, n)
  {
    forall e | e in s.Inflight()
      ensures n < e.ik.sn
    {
      RecordSequence(s.inflight.value, e);
    }
    NewestNone(s.Inflight(), k, n);
    NewestOfLeft(s.All(), s.Inflight(), k, n);
  }

  /** Whatever was flushed, compacted, moved, deleted or recovered along the way, a lookup through the layers at a live
      snapshot or at the last sequence number answers like the plain map after that many operations. */
  lemma ReadsLikeMap(run: seq<Step>, n: nat, k: Bytes)
    requires Exec(run).Some? && Readable(Exec(run).value, n)
    ensures n <= |History(run)|
    ensures LayeredGet(Exec(run).value, k, n) == Lookup(MapAt(History(run), n), k)
  {
    hide LayeredGet;
    var s := Exec(run).value;
    ReachableInv(run);
    RunHistory(run);
    assert ReadInv(s);
    InflightUnseen(s, k, n);
    assert SameReads(s.All() + s.Inflight(), s.written, n);
    HistoryReads(History(run), k, n);
    LayeredIsRead(s, k, n);
  }

  lemma OneMoreStep(run: seq<Step>, step: Step)
    requires Exec(run).Some? && Enabled(Exec(run).value, step)
    ensures Exec(run + [step]) == Some(Do(Exec(run).value, step))
    ensures !step.Log? ==> History(run + [step]) == History(run)
  {
    hide Enabled;
    hide Do;
    assert (run + [step])[..|run|] == run;
    assert History(run) + [] == History(run);
  }

  lemma CrashStep(run: seq<Step>, cs: seq<Chunk>, newLog: nat, next: nat)
    requires Exec(run).Some? && CanRecover(Exec(run).value.disk, cs, newLog, next)
    ensures var after := run + [Crash(cs, newLog, next)];
      Exec(after) == Some(DoRecover(Exec(run).value, cs, newLog, next)) && History(after) == History(run)
  {
    hide CanRecover;
    hide DoRecover;
    hide Exec;
    hide History;
    OneMoreStep(run, Crash(cs, newLog, next));
  }

  lemma RecoveredQuiet(s: Db, cs: seq<Chunk>, newLog: nat, next: nat)
    requires CanRecover(s.disk, cs, newLog, next)
    ensures DoRecover(s, cs, newLog, next).Top() == DoRecover(s, cs, newLog, next).lastSeq
  {
  }

  /** Durability: crash after any run, and lookups in the recovered database answer like the plain map after every
      logged operation. */
  lemma Durable(run: seq<Step>, cs: seq<Chunk>, newLog: nat, next: nat, k: Bytes)
    requires Exec(run).Some? && CanRecover(Exec(run).value.disk, cs, newLog, next)
    ensures var t := DoRecover(Exec(run).value, cs, newLog, next);
      t.lastSeq == |History(run)| && LayeredGet(t, k, t.lastSeq) == Lookup(MapAt(History(run), |History(run)|), k)
  {
    hide CanRecover;
    hide DoRecover;
    hide Exec;
    hide Inv;
    hide LayeredGet;
    CrashStep(run, cs, newLog, next);
    var after := run + [Crash(cs, newLog, next)];
    RunHistory(after);
    RecoveredQuiet(Exec(run).value, cs, newLog, next);
    ReadsLikeMap(after, |History(run)|, k);
  }

  /** No needed file is ever deleted: every table the manifest names, every table of a version a reader holds, and
      every log from the recorded number up that a memtable came from, is on disk. */
  lemma NothingNeededDeleted(run: seq<Step>)
    requires Exec(run).Some?
    ensures var s := Exec(run).value;
      && AllStored(s.disk.tables, ReplayManifest(s.disk.manifest).levels)
      && (forall v :: v in s.pinned ==> AllStored(s.disk.tables, v))
      && s.logFile in s.disk.logs && ReplayManifest(s.disk.manifest).logNumber in s.disk.logs
  {
    ReachableInv(run);
  }

  lemma {:induction false} LogsBounded(logs: map<nat, seq<Record>>, n: nat) returns (b: nat)
    ensures n <= b && forall k :: k in logs ==> k < b
    decreases |logs|
  {
    if logs == map[] {
      b := n;
    } else {
      var k :| k in logs;
      assert |logs - {k}| < |logs| by {
        assert (logs - {k}).Keys == logs.Keys - {k};
        assert |(logs - {k}).Keys| == |logs - {k}| && |logs.Keys| == |logs|;
      }
      var c := LogsBounded(logs - {k}, n);
      b := if k < c then c else k + 1;
      forall j | j in logs
        ensures j < b
      {
        assert j == k || j in logs - {k};
      }
    }
  }

  /** Whatever is on disk, recovery can run on it: Durable is never vacuous. */
  lemma CanAlwaysRecover(d: Disk)
    ensures exists cs, newLog, next :: CanRecover(d, cs, newLog, next)
  {
    var m := ReplayManifest(d.manifest);
    var b := LogsBounded(d.logs, m.nextFile);
    var c := Chunk(m.nextFile, 0, LogRecords(d.logs, m.logNumber, b + 1));
    var cs := [c];
    assert cs[..0] == [];
    assert ChunkRecords(cs) == LogRecords(d.logs, m.logNumber, b + 1);
    assert CanRecover(d, cs, b + 1, b + 2);
  }
}
