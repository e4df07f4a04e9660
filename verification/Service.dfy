/** The running database object inside the state machine: opening it, keeping its file lists, and what its Get
    answers. */
module Service {
  import opened Keys
  import opened Levels
  import opened Layers
  import opened Store
  import opened Machine
  import opened Invariant
  import opened Recovery
  import opened Runs
  import opened Database
  import opened ManifestBuilder
  import opened ManifestRuns

  // ---- reads ------------------------------------------------------------------------------------------------

  /** DBImpl::Get after any run, at a live snapshot or the last sequence number: the plain map's answer. */
  method GetLikeMap(d: DBImpl, k: Bytes, snapshot: Option<nat>, ghost run: seq<Step>) returns (r: Option<Bytes>)
    requires d.Valid() && Exec(run) == Some(d.db) && (snapshot.Some? ==> snapshot.value in d.db.snapshots)
    ensures var n := if snapshot.Some? then snapshot.value else d.db.lastSeq;
      n <= |History(run)| && r == Lookup(MapAt(History(run), n), k)
  {
    hide Inv;
    hide LayeredGet;
    r := d.Get(k, snapshot);
    ghost var n := if snapshot.Some? then snapshot.value else d.db.lastSeq;
    LayeredIsRead(d.db, k, n);
    ReadsLikeMap(run, n, k);
  }

  // ---- file lists of every reachable version -------------------------------------------------------------------

  lemma {:induction false} SortedList(fs: set<File>) returns (r: seq<File>)
    requires forall f, g :: f in fs && g in fs && f.number == g.number ==> f == g
    ensures Strict(r) && forall f :: f in r <==> f in fs
    decreases |fs|
  {
    hide InsertFile;
    hide BySmallestKey;
    if fs == {} {
      r := [];
    } else {
      var f :| f in fs;
      var front := SortedList(fs - {f});
      InsertFileKeeps(front, f);
      r := InsertFile(front, f);
    }
  }

  lemma LevelLists(v: LevelSets) returns (files: seq<seq<File>>)
    requires UniqueNumbers(v)
    ensures IsVersion(files, v)
  {
    hide Strict;
    files := [];
    for l := 0 to |v|
      invariant |files| == l
      invariant forall m :: 0 <= m < l ==> Strict(files[m]) && forall f :: f in files[m] <==> f in v[m]
    {
      var r := SortedList(v[l]);
      files := files + [r];
    }
  }

  /** Every reachable version has file lists: one sorted vector for each level. */
  lemma FileLists(run: seq<Step>) returns (files: seq<seq<File>>)
    requires Exec(run).Some?
    ensures IsVersion(files, Exec(run).value.levels)
  {
    hide Exec;
    hide IsVersion;
    ReachableInv(run);
    files := LevelLists(Exec(run).value.levels);
  }

  lemma {:induction false} ReplayedDepth(edits: seq<Edit>)
    ensures |ReplayManifest(edits).levels| == NUM_LEVELS
  {
    if edits != [] {
      ReplayedDepth(edits[..|edits| - 1]);
    }
  }

  lemma {:induction false} LevelsWereAdded(edits: seq<Edit>, l: nat, f: File)
    requires l < |ReplayManifest(edits).levels| && f in ReplayManifest(edits).levels[l]
    ensures AddedBy(edits, l, f.number)
  {
    if edits != [] {
      var n := |edits| - 1;
      var before, e := ReplayManifest(edits[..n]).levels, edits[n];
      assert edits == edits[..n] + [e];
      if (l, f) in e.added {
        assert AddsNumber(e, l, f.number);
      } else {
        assert f in before[l];
        LevelsWereAdded(edits[..n], l, f);
      }
      AddedByMore(edits[..n], e, l, f.number);
    }
  }

  /** The edit a step logs adds no number the version already has at that level. */
  lemma LoggedEditIsNew(edits: seq<Edit>, e: Edit)
    requires AddedOnce(EMPTY_LEVELS, edits + [e])
    ensures AddsNew(ReplayManifest(edits).levels, [], e)
  {
    hide AddsNumber;
    hide ReplayManifest;
    var all := edits + [e];
    assert all[..|edits|] == edits && all[|edits|] == e;
    ReplayedDepth(edits);
    AddedOncePrefix(EMPTY_LEVELS, all, |edits|);
    forall a, g | a in e.added && g in ReplayManifest(edits).levels[a.0]
      ensures g.number != a.1.number
    {
      LevelsWereAdded(edits, a.0, g);
    }
  }

  lemma StepEdit(run: seq<Step>, step: Step, e: Edit)
    requires Exec(run).Some? && Enabled(Exec(run).value, step)
    requires Do(Exec(run).value, step).disk.manifest == Exec(run).value.disk.manifest + [e]
    ensures var s := Exec(run).value;
      && Exec(run + [step]) == Some(Do(s, step)) && VersionOk(s.levels)
      && Do(s, step).levels == ApplyLevels(s.levels, e) && AddsNew(s.levels, [], e)
  {
    hide Enabled;
    hide Do;
    hide AddedOnce;
    hide AddsNew;
    hide VersionOk;
    hide Exec;
    var s := Exec(run).value;
    OneMoreStep(run, step);
    VersionParts(run);
    VersionParts(run + [step]);
    ReplayOneMore(s.disk.manifest, e);
    LoggedEditIsNew(s.disk.manifest, e);
  }

  /** VersionSet::LogAndApply at any step that logs an edit: the builder turns the file lists of the version before into
      those of the version after. */
  method LogAndApply(current: seq<seq<File>>, edit: FileEdit, ghost run: seq<Step>, ghost step: Step, ghost e: Edit)
    returns (files: seq<seq<File>>)
    requires Exec(run).Some? && Enabled(Exec(run).value, step) && IsVersion(current, Exec(run).value.levels)
    requires Do(Exec(run).value, step).disk.manifest == Exec(run).value.disk.manifest + [e]
    requires InLevels(edit) && Lists(edit, e)
    ensures Exec(run + [step]).Some? && IsVersion(files, Exec(run + [step]).value.levels)
  {
    hide Enabled;
    hide Do;
    hide Exec;
    hide AddsNew;
    hide VersionOk;
    StepEdit(run, step, e);
    SavedIsVersion(current, Exec(run).value.levels);
    files := InstallOne(current, edit, e);
  }

  // ---- opening after a crash --------------------------------------------------------------------------------------

  ghost predicate LogBelow(edits: seq<Edit>) {
    ReplayManifest(edits).logNumber < ReplayManifest(edits).nextFile
  }

  lemma EditLogBelow(edits: seq<Edit>, e: Edit)
    requires e.logNumber < e.nextFile
    ensures LogBelow(edits + [e])
  {
  }

  lemma StepLogBelow(s: Db, step: Step)
    requires Inv(s) && Enabled(s, step) && LogBelow(s.disk.manifest)
    ensures LogBelow(Do(s, step).disk.manifest)
  {
    hide LogBelow;
    hide CanBuildFlush;
    hide CanBuildCompaction;
    hide CanMove;
    hide CanRecover;
    hide TableInv;
    hide MetaInv;
    hide OrderInv;
    hide FlushInv;
    hide RunInv;
    hide ReadInv;
    hide SeqInv;
    hide Replay;
    hide Consecutive;
    var t := Do(s, step);
    if step.Crash? {
      CrashLogBelow(s, step.chunks, step.newLog, step.upto);
    } else if t.disk.manifest != s.disk.manifest {
      EditLogBelow(s.disk.manifest, t.disk.manifest[|s.disk.manifest|]);
    }
  }

  lemma CrashLogBelow(s: Db, cs: seq<Chunk>, newLog: nat, next: nat)
    requires CanRecover(s.disk, cs, newLog, next)
    ensures LogBelow(DoRecover(s, cs, newLog, next).disk.manifest)
  {
  }

  lemma {:induction false} RunLogBelow(run: seq<Step>)
    requires Exec(run).Some?
    ensures LogBelow(Exec(run).value.disk.manifest)
  {
    hide Enabled;
    hide Do;
    hide Inv;
    hide LogBelow;
    if run == [] {
      FreshLogBelow();
    } else {
      RunLogBelow(run[..|run| - 1]);
      ReachableInv(run[..|run| - 1]);
      StepLogBelow(Exec(run[..|run| - 1]).value, run[|run| - 1]);
    }
  }

  lemma FreshLogBelow()
    ensures LogBelow(Fresh().disk.manifest)
  {
  }

  lemma {:induction false} ConsecutiveFirst(rs: seq<Record>, lo: nat, hi: nat, r: Record)
    requires Consecutive(rs, lo, hi) && r in rs
    ensures 1 <= r.first
  {
    var n := |rs| - 1;
    if r != rs[n] {
      ConsecutiveFirst(rs[..n], lo, rs[n].first - 1, r);
    }
  }

  lemma LoggedFirst(s: Db, n: nat, r: Record)
    requires LogInv(s) && n in s.disk.logs && s.logNumber <= n && r in s.disk.logs[n]
    ensures 1 <= r.first
  {
    if n == s.logFile {
      if r in MemRecords(s) {
        ConsecutiveFirst(MemRecords(s), s.cut1, s.lastSeq, r);
      }
    } else {
      ConsecutiveFirst(s.disk.logs[n], s.cut0, s.cut1, r);
    }
  }

  /** What a crash leaves is what log recovery asks for. */
  lemma CrashedDisk(run: seq<Step>)
    requires Exec(run).Some?
    ensures var d := Exec(run).value.disk; var m := ReplayManifest(d.manifest);
      && m.logNumber < m.nextFile && m.levels == Exec(run).value.levels
      && (forall n: nat, r :: n in d.logs && m.logNumber <= n && r in d.logs[n] ==> 1 <= r.first)
  {
    hide Exec;
    hide ReplayManifest;
    hide SeqInv;
    hide TableInv;
    hide OrderInv;
    hide FlushInv;
    hide RunInv;
    hide ReadInv;
    hide LogInv;
    RunLogBelow(run);
    ReachableInv(run);
    var s := Exec(run).value;
    forall n: nat, r | n in s.disk.logs && s.logNumber <= n && r in s.disk.logs[n]
      ensures 1 <= r.first
    {
      LoggedFirst(s, n, r);
    }
  }

  /** The level-0 tables of recovery, as the edit lists them. */
  method ListTables(files: set<File>) returns (added: seq<(nat, File)>)
    ensures forall a :: a in added <==> a in Additions(0, files)
  {
    added := [];
    var rest := files;
    while rest != {}
      invariant rest <= files
      invariant forall a :: a in added <==> a in Additions(0, files - rest)
      decreases rest
    {
      var f :| f in rest;
      assert files - (rest - {f}) == files - rest + {f};
      added := added + [(0, f)];
      rest := rest - {f};
    }
    assert files - rest == files;
  }

  /** The edit recovery logs, and the version it makes, are the state machine's. */
  lemma RecoveryEdit(s: Db, cs: seq<Chunk>, newLog: nat, next: nat)
    requires Inv(s) && CanRecover(s.disk, cs, newLog, next)
    ensures var t := DoRecover(s, cs, newLog, next);
      var e := Edit({}, Additions(0, ChunkFiles(cs)), newLog, next, t.lastSeq);
      && Inv(t) && AddsNew(s.levels, [], e) && t.levels == ApplyLevels(s.levels, e)
      && t.mem == [] && t.imm == None && t.pending == {} && t.pinned == multiset{} && t.logNumber == newLog
      && t.lastSeq == LastOf(LogRecords(s.disk.logs, ReplayManifest(s.disk.manifest).logNumber, newLog),
        ReplayManifest(s.disk.manifest).lastSeq)
      && t.levels == WithLevel0(s.levels, ChunkFiles(cs)) && s.levels == ReplayManifest(s.disk.manifest).levels
  {
    hide SeqInv;
    hide LogInv;
    hide TableInv;
    hide FlushInv;
    hide RunInv;
    hide ReadInv;
    hide ChunkFiles;
    hide LogRecords;
    hide ChunkRecords;
    hide ReplayManifest;
    hide VersionOk;
    hide UniqueNumbers;
    RecoverKeeps(s, cs, newLog, next);
    InvParts(s);
    VersionHasLevels(s.levels);
    RecoveredLevels(s, cs, newLog, next);
    RecoveredFiles(s.disk, cs, newLog, next);
    var e := Edit({}, Additions(0, ChunkFiles(cs)), newLog, next, DoRecover(s, cs, newLog, next).lastSeq);
    BelowCounter(s);
    NewTables(s.levels, ChunkFiles(cs), ReplayManifest(s.disk.manifest).nextFile, e);
    AddAllIsEdit(s.levels, ChunkFiles(cs), e);
  }

  lemma NewTables(v: LevelSets, files: set<File>, first: nat, e: Edit)
    requires |v| == NUM_LEVELS && NumbersBelow(v, first) && e.added == Additions(0, files)
    requires forall f :: f in files ==> first <= f.number
    requires forall f, g :: f in files && g in files && f.number == g.number ==> f == g
    ensures AddsNew(v, [], e)
  {
  }

  lemma ListsTables(added: seq<(nat, File)>, files: set<File>, e: Edit)
    requires e.deleted == {} && e.added == Additions(0, files) && forall a :: a in added <==> a in Additions(0, files)
    ensures InLevels(FileEdit([], added)) && Lists(FileEdit([], added), e)
  {
  }

  lemma SavedIsSane(v: seq<seq<File>>, sets: LevelSets)
    requires IsVersion(v, sets) && |sets| == NUM_LEVELS
    ensures Sane(v)
  {
  }

  /** DB::Open on what a crash left: the manifest's edits through one builder, the logs replayed into level-0 tables,
      and one more edit for those. The object stands for the state machine's recovered state. */
  method Open(d: Disk, m: Meta, edits: seq<FileEdit>, numbers: seq<nat>, full: (nat, nat) -> bool, size: nat,
          ghost run: seq<Step>)
    returns (db: DBImpl, ghost after: seq<Step>)
    requires Exec(run).Some? && d == Exec(run).value.disk && m == ReplayManifest(d.manifest) &&
      ListsAll(edits, d.manifest)
    requires forall i, j :: 0 <= i < j < |numbers| ==> numbers[i] < numbers[j]
    requires forall n: nat :: n in numbers <==> n in d.logs && m.logNumber <= n
    ensures fresh(db) && db.Valid() && Exec(after) == Some(db.db) && History(after) == History(run)
    ensures db.db.lastSeq == |History(run)|
  {
    hide *;
    CrashedDisk(run);
    var q := RecoverLogs(d, m, numbers, full, size);
    ReachableInv(run);
    RecoveryEdit(Exec(run).value, q.chunks, q.next, q.next + 1);
    VersionParts(run);
    var files := InstallAll(edits, d.manifest);
    SavedIsVersion(files, m.levels);
    SavedIsSane(files, m.levels);
    var added := ListTables(q.files);
    ghost var t := DoRecover(Exec(run).value, q.chunks, q.next, q.next + 1);
    ghost var e := Edit({}, Additions(0, q.files), q.next, q.next + 1, t.lastSeq);
    ListsTables(added, q.files, e);
    files := InstallOne(files, FileEdit([], added), e);
    CrashStep(run, q.chunks, q.next, q.next + 1);
    after := run + [Crash(q.chunks, q.next, q.next + 1)];
    VersionParts(after);
    SavedIsVersion(files, t.levels);
    db := new DBImpl(files, q.last, q.next, t);
    RunHistory(after);
    RecoveredQuiet(Exec(run).value, q.chunks, q.next, q.next + 1);
  }

  /** Durability end to end: open the database on what a crash left and ask for a key, and the answer is the plain map's
      after every operation ever logged. */
  method GetAfterCrash(d: Disk, m: Meta, edits: seq<FileEdit>, numbers: seq<nat>, full: (nat, nat) -> bool, size: nat,
          k: Bytes,
                       ghost run: seq<Step>)
    returns (r: Option<Bytes>)
    requires Exec(run).Some? && d == Exec(run).value.disk && m == ReplayManifest(d.manifest) &&
      ListsAll(edits, d.manifest)
    requires forall i, j :: 0 <= i < j < |numbers| ==> numbers[i] < numbers[j]
    requires forall n: nat :: n in numbers <==> n in d.logs && m.logNumber <= n
    ensures r == Lookup(MapAt(History(run), |History(run)|), k)
  {
    hide Exec;
    hide History;
    hide MapAt;
    var db;
    ghost var after;
    db, after := Open(d, m, edits, numbers, full, size, run);
    r := GetLikeMap(db, k, None, after);
  }
}
