/** In every run of the database the manifest adds each file number at most once per level, so one builder over the
    whole manifest recovers exactly the current version. */
module ManifestRuns {
  import opened Format
  import opened Levels
  import opened Compaction
  import opened LevelOrder
  import opened Machine
  import opened Invariant
  import opened Recovery
  import opened Runs
  import opened ManifestBuilder

  /** Numbers once added stay below the counter, a file never sits above a level it was added to, and files under
      construction have numbers no edit has added. */
  ghost predicate NumberInv(s: Db) {
    && AddedOnce(EMPTY_LEVELS, s.disk.manifest)
    && (forall l: nat, n: nat :: AddedBy(s.disk.manifest, l, n) ==> n < s.nextFile)
    && (forall l: nat, m, f :: 0 <= m < |s.levels| && f in s.levels[m] && AddedBy(s.disk.manifest, l, f.number) ==>
      l <= m)
    && (s.flush.Built? ==> forall l: nat :: !AddedBy(s.disk.manifest, l, s.flush.file.number))
    && (s.running.Some? ==> forall l: nat, o :: o in s.running.value.outs ==> !AddedBy(s.disk.manifest, l, o.number))
  }

  lemma AddedByOneMore(done: seq<Edit>, e: Edit, l: nat, n: nat)
    ensures AddedBy(done + [e], l, n) <==> AddedBy(done, l, n) || AddsNumber(e, l, n)
  {
    hide AddsNumber;
    var all := done + [e];
    if AddedBy(done, l, n) || AddsNumber(e, l, n) {
      AddedByMore(done, e, l, n);
    }
    if AddedBy(all, l, n) {
      var i :| 0 <= i < |all| && AddsNumber(all[i], l, n);
      assert i < |done| ==> AddsNumber(done[i], l, n);
    }
  }

  /** Every addition of e is new to its level, and e names no number twice. */
  ghost predicate FreshEdit(done: seq<Edit>, e: Edit, next: nat) {
    && (forall a :: a in e.added ==> a.0 < NUM_LEVELS && a.1.number < next && !AddedBy(done, a.0, a.1.number))
    && (forall a, b :: a in e.added && b in e.added && a.1.number == b.1.number ==> a == b)
  }

  lemma FreshIsNew(done: seq<Edit>, e: Edit, next: nat)
    requires AddedOnce(EMPTY_LEVELS, done) && FreshEdit(done, e, next)
    ensures AddedOnce(EMPTY_LEVELS, done + [e])
  {
    hide AddsNumber;
    assert (done + [e])[..|done|] == done;
    assert forall l :: 0 <= l < NUM_LEVELS ==> EMPTY_LEVELS[l] == {};
    forall a, i | a in e.added && 0 <= i < |done|
      ensures !AddsNumber(done[i], a.0, a.1.number)
    {
      assert !AddedBy(done, a.0, a.1.number);
    }
  }

  /** A file of w is one of v that e does not renumber, or one e adds below wherever its number was before. */
  ghost predicate Placed(v: LevelSets, w: LevelSets, done: seq<Edit>, e: Edit) {
    |v| == |w| && forall m, f :: 0 <= m < |w| && f in w[m] ==>
      || (f in v[m] && forall a :: a in e.added ==> a.1.number != f.number)
      || ((m, f) in e.added && forall l: nat :: AddedBy(done, l, f.number) ==> l <= m)
  }

  lemma EditKeepsLevels(v: LevelSets, w: LevelSets, done: seq<Edit>, e: Edit, next: nat)
    requires FreshEdit(done, e, next) && Placed(v, w, done, e)
    requires forall l: nat, m, f :: 0 <= m < |v| && f in v[m] && AddedBy(done, l, f.number) ==> l <= m
    ensures forall l: nat, m, f :: 0 <= m < |w| && f in w[m] && AddedBy(done + [e], l, f.number) ==> l <= m
  {
    hide AddedBy;
    forall l: nat, m, f | 0 <= m < |w| && f in w[m] && AddedBy(done + [e], l, f.number)
      ensures l <= m
    {
      AddedByOneMore(done, e, l, f.number);
      if AddsNumber(e, l, f.number) {
        var g :| (l, g) in e.added && g.number == f.number;
        assert (l, g).1.number == f.number;
        assert (m, f).1.number == f.number;
      }
    }
  }

  lemma EditKeeps(s: Db, t: Db, e: Edit)
    requires NumberInv(s) && t.disk.manifest == s.disk.manifest + [e] && s.nextFile <= t.nextFile
    requires FreshEdit(s.disk.manifest, e, t.nextFile) && Placed(s.levels, t.levels, s.disk.manifest, e)
    requires t.flush.Idle?
    requires t.running.Some? ==>
      t.running == s.running && forall o, a :: o in t.running.value.outs && a in e.added ==> o.number != a.1.number
    ensures NumberInv(t)
  {
    hide AddedBy;
    hide AddedOnce;
    hide Placed;
    var done := s.disk.manifest;
    FreshIsNew(done, e, t.nextFile);
    EditKeepsLevels(s.levels, t.levels, done, e, t.nextFile);
    forall l: nat, n: nat
      ensures AddedBy(t.disk.manifest, l, n) <==> AddedBy(done, l, n) || AddsNumber(e, l, n)
    {
      AddedByOneMore(done, e, l, n);
    }
    EditNumbers(e, t.nextFile, done);
  }

  lemma EditNumbers(e: Edit, next: nat, done: seq<Edit>)
    requires FreshEdit(done, e, next)
    ensures forall l: nat, n: nat :: AddsNumber(e, l, n) ==> n < next && exists a :: a in e.added && a.1.number == n
  {
    hide AddedBy;
    forall l: nat, n: nat | AddsNumber(e, l, n)
      ensures n < next && exists a :: a in e.added && a.1.number == n
    {
      var f :| (l, f) in e.added && f.number == n;
      assert (l, f).1.number == n;
    }
  }

  lemma InstallFlushNumbers(s: Db)
    requires Inv(s) && NumberInv(s) && CanInstallFlush(s)
    ensures NumberInv(DoInstallFlush(s))
  {
    hide SeqInv;
    hide LogInv;
    hide MetaInv;
    hide ReadInv;
    hide RunInv;
    hide VersionOk;
    hide UniqueNumbers;
    hide AddedBy;
    hide AddedOnce;
    hide AllStored;
    var t := DoInstallFlush(s);
    var e := t.disk.manifest[|s.disk.manifest|];
    assert t.disk.manifest == s.disk.manifest + [e];
    EditKeeps(s, t, e);
  }

  lemma InstallCompactionNumbers(s: Db)
    requires Inv(s) && NumberInv(s) && CanInstallCompaction(s)
    ensures NumberInv(DoInstallCompaction(s))
  {
    hide SeqInv;
    hide LogInv;
    hide MetaInv;
    hide ReadInv;
    hide VersionOk;
    hide UniqueNumbers;
    hide AddedBy;
    hide AddedOnce;
    hide AllStored;
    hide Output;
    hide NoneResurrect;
    hide Sorted;
    hide FileOk;
    hide Before;
    hide FileEntries;
    var t := DoInstallCompaction(s);
    var e := t.disk.manifest[|s.disk.manifest|];
    assert t.disk.manifest == s.disk.manifest + [e];
    EditKeeps(s, t, e);
  }

  lemma MoveNumbers(s: Db, level: nat, f: File)
    requires Inv(s) && NumberInv(s) && CanMove(s, level, f)
    ensures NumberInv(DoMove(s, level, f))
  {
    hide SeqInv;
    hide LogInv;
    hide ReadInv;
    hide RunInv;
    hide VersionOk;
    hide AddedBy;
    hide AddedOnce;
    hide AllStored;
    hide Sorted;
    hide FileOk;
    hide Before;
    hide FileEntries;
    var t := DoMove(s, level, f);
    var e := t.disk.manifest[|s.disk.manifest|];
    assert t.disk.manifest == s.disk.manifest + [e];
    EditKeeps(s, t, e);
  }

  lemma BuildNumbers(s: Db, level: nat, size: nat, r: Running, next: nat)
    requires NumberInv(s)
    ensures CanBuildFlush(s, level, size) ==> NumberInv(DoBuildFlush(s, level, size))
    ensures CanBuildCompaction(s, r, next) ==> NumberInv(DoBuildCompaction(s, r, next))
  {
    hide AddedBy;
    hide AddedOnce;
  }

  /** The steps that touch neither levels nor manifest, nor take a number for a file. */
  lemma QuietNumbers(s: Db, t: Db)
    requires NumberInv(s) && t.disk.manifest == s.disk.manifest && t.levels == s.levels && s.nextFile <= t.nextFile
    requires t.flush == s.flush && t.running == s.running
    ensures NumberInv(t)
  {
    hide AddedBy;
    hide AddedOnce;
  }

  // ---- after a crash ------------------------------------------------------------------------------------------

  lemma NewManifest(snap: Edit, e: Edit, next: nat)
    requires FreshEdit([], snap, next) && FreshEdit([snap], e, next)
    ensures AddedOnce(EMPTY_LEVELS, [snap, e])
    ensures forall l: nat, n: nat :: AddedBy([snap, e], l, n) <==> AddsNumber(snap, l, n) || AddsNumber(e, l, n)
  {
    hide AddsNumber;
    FreshIsNew([], snap, next);
    assert [] + [snap] == [snap] && [snap] + [e] == [snap, e];
    FreshIsNew([snap], e, next);
    forall l: nat, n: nat
      ensures AddedBy([snap, e], l, n) <==> AddsNumber(snap, l, n) || AddsNumber(e, l, n)
    {
      AddedByOneMore([], snap, l, n);
      AddedByOneMore([snap], e, l, n);
    }
  }

  /** The snapshot record names each file of the version once, and the recovered tables have newer numbers. */
  lemma SnapshotNumbers(v: LevelSets, files: set<File>, snap: Edit, e: Edit, first: nat, next: nat)
    requires |v| == NUM_LEVELS && UniqueNumbers(v) && NumbersBelow(v, first) && first <= next
    requires forall f :: f in files ==> first <= f.number < next
    requires forall f, g :: f in files && g in files && f.number == g.number ==> f == g
    requires snap.added == set l, f | 0 <= l < |v| && f in v[l] :: (l, f)
    requires e.added == Additions(0, files)
    ensures FreshEdit([], snap, next) && FreshEdit([snap], e, next)
    ensures forall l: nat, n: nat :: AddsNumber(snap, l, n) <==> exists f :: 0 <= l < |v| && f in v[l] && f.number == n
    ensures forall l: nat, n: nat :: AddsNumber(e, l, n) <==> l == 0 && exists f :: f in files && f.number == n
  {
    forall l: nat, n: nat
      ensures AddsNumber(snap, l, n) <==> exists f :: 0 <= l < |v| && f in v[l] && f.number == n
      ensures AddsNumber(e, l, n) <==> l == 0 && exists f :: f in files && f.number == n
    {
      if exists f :: f in files && f.number == n && l == 0 {
        var f :| f in files && f.number == n;
        assert (0, f) in e.added;
      }
      if exists f :: 0 <= l < |v| && f in v[l] && f.number == n {
        var f :| 0 <= l < |v| && f in v[l] && f.number == n;
        assert (l, f) in snap.added;
      }
    }
    hide AddsNumber;
    hide NumbersBelow;
    forall a | a in e.added
      ensures !AddedBy([snap], a.0, a.1.number)
    {
      assert AddedBy([snap], a.0, a.1.number) ==> AddsNumber(snap, a.0, a.1.number);
      OldNumbers(v, first, a.0, a.1.number);
    }
    SnapshotFresh(v, snap, first, next);
  }

  lemma OldNumbers(v: LevelSets, first: nat, l: nat, n: nat)
    requires NumbersBelow(v, first) && first <= n
    ensures !(exists f :: 0 <= l < |v| && f in v[l] && f.number == n)
  {
  }

  lemma SnapshotFresh(v: LevelSets, snap: Edit, first: nat, next: nat)
    requires |v| == NUM_LEVELS && UniqueNumbers(v) && NumbersBelow(v, first) && first <= next
    requires snap.added == set l, f | 0 <= l < |v| && f in v[l] :: (l, f)
    ensures FreshEdit([], snap, next)
  {
  }

  lemma CrashNumbers(s: Db, cs: seq<Chunk>, newLog: nat, next: nat)
    requires Inv(s) && CanRecover(s.disk, cs, newLog, next)
    ensures NumberInv(DoRecover(s, cs, newLog, next))
  {
    hide NumberInv;
    hide SeqInv;
    hide LogInv;
    hide MetaInv;
    hide TableInv;
    hide FlushInv;
    hide RunInv;
    hide ReadInv;
    hide CanRecover;
    hide DoRecover;
    hide VersionOk;
    hide UniqueNumbers;
    hide NumbersBelow;
    InvParts(s);
    VersionHasLevels(s.levels);
    RecoveredLevels(s, cs, newLog, next);
    RecoveredFiles(s.disk, cs, newLog, next);
    BelowCounter(s);
    var t := DoRecover(s, cs, newLog, next);
    RecoverShape(s, cs, newLog, next);
    RecoveredNumbers(s.levels, t, ReplayManifest(s.disk.manifest), ChunkFiles(cs), next);
  }

  lemma RecoveredFiles(d: Disk, cs: seq<Chunk>, newLog: nat, next: nat)
    requires CanRecover(d, cs, newLog, next)
    ensures var first := ReplayManifest(d.manifest).nextFile;
      first <= next && forall f :: f in ChunkFiles(cs) ==> first <= f.number < next
    ensures forall f, g :: f in ChunkFiles(cs) && g in ChunkFiles(cs) && f.number == g.number ==> f == g
  {
    hide ChunkFiles;
    hide LogRecords;
    hide ChunkRecords;
    hide ReplayManifest;
    var first := ReplayManifest(d.manifest).nextFile;
    forall f | f in ChunkFiles(cs)
      ensures first <= f.number < next
    {
      var i := ChunkFilesFrom(cs, f);
    }
    forall f, g | f in ChunkFiles(cs) && g in ChunkFiles(cs) && f.number == g.number
      ensures f == g
    {
      OneNumberOneFile(cs, f, g);
    }
  }

  lemma RecoverShape(s: Db, cs: seq<Chunk>, newLog: nat, next: nat)
    requires CanRecover(s.disk, cs, newLog, next)
    ensures var t := DoRecover(s, cs, newLog, next); var m := ReplayManifest(s.disk.manifest);
      && |t.disk.manifest| == 2 && t.disk.manifest == [SnapshotEdit(m), t.disk.manifest[1]]
      && t.disk.manifest[1].added == Additions(0, ChunkFiles(cs))
      && t.nextFile == next && t.flush.Idle? && t.running.None?
  {
    hide CanRecover;
    hide ChunkFiles;
    hide ReplayManifest;
    hide Numbers;
  }

  lemma RecoveredNumbers(v: LevelSets, t: Db, m: Meta, files: set<File>, next: nat)
    requires |v| == NUM_LEVELS && m.levels == v && UniqueNumbers(v) && NumbersBelow(v, m.nextFile) && m.nextFile <= next
    requires forall f :: f in files ==> m.nextFile <= f.number < next
    requires forall f, g :: f in files && g in files && f.number == g.number ==> f == g
    requires t.levels == WithLevel0(v, files) && t.nextFile == next && t.flush.Idle? && t.running.None?
    requires |t.disk.manifest| == 2 && t.disk.manifest == [SnapshotEdit(m), t.disk.manifest[1]]
    requires t.disk.manifest[1].added == Additions(0, files)
    ensures NumberInv(t)
  {
    hide AddedOnce;
    hide AddedBy;
    hide AddsNumber;
    hide UniqueNumbers;
    hide NumbersBelow;
    hide FreshEdit;
    var snap, e := SnapshotEdit(m), t.disk.manifest[1];
    SnapshotNumbers(v, files, snap, e, m.nextFile, next);
    NewManifest(snap, e, next);
    RecoveredPlaces(v, t.levels, files, m.nextFile, next, t.disk.manifest);
  }

  lemma BelowCounter(s: Db)
    requires MetaInv(s)
    ensures NumbersBelow(s.levels, ReplayManifest(s.disk.manifest).nextFile)
  {
  }

  lemma RecoveredPlaces(v: LevelSets, w: LevelSets, files: set<File>, first: nat, next: nat, man: seq<Edit>)
    requires |v| == NUM_LEVELS && w == WithLevel0(v, files) && UniqueNumbers(v) && NumbersBelow(v, first) &&
      first <= next
    requires forall f :: f in files ==> first <= f.number < next
    requires forall l: nat, n: nat :: AddedBy(man, l, n) <==>
      (exists f :: 0 <= l < |v| && f in v[l] && f.number == n) || (l == 0 && exists f :: f in files && f.number == n)
    ensures forall l: nat, n: nat :: AddedBy(man, l, n) ==> n < next
    ensures forall l: nat, m, f :: 0 <= m < |w| && f in w[m] && AddedBy(man, l, f.number) ==> l <= m
  {
    hide AddedBy;
    forall l: nat, m, f | 0 <= m < |w| && f in w[m] && AddedBy(man, l, f.number)
      ensures l <= m
    {
      if g :| 0 <= l < |v| && g in v[l] && g.number == f.number {
        assert g.number < first;
        assert f in v[m];
      }
    }
  }

  // ---- every run ---------------------------------------------------------------------------------------------------

  lemma FreshNumbers()
    ensures NumberInv(Fresh())
  {
    hide AddsNumber;
    var snap, e := SnapshotEdit(ReplayManifest([])), Edit({}, {}, 3, 4, 0);
    assert forall l :: 0 <= l < NUM_LEVELS ==> EMPTY_LEVELS[l] == {};
    assert e.added == Additions(0, {});
    SnapshotNumbers(EMPTY_LEVELS, {}, snap, e, 0, 4);
    NewManifest(snap, e, 4);
  }

  lemma StepNumbers(s: Db, step: Step)
    requires Inv(s) && NumberInv(s) && Enabled(s, step)
    ensures NumberInv(Do(s, step))
  {
    hide Inv;
    hide NumberInv;
    hide CanBuildFlush;
    hide CanBuildCompaction;
    hide CanInstallCompaction;
    hide CanInstallFlush;
    hide CanMove;
    hide CanRecover;
    hide DoBuildFlush;
    hide DoInstallFlush;
    hide DoBuildCompaction;
    hide DoInstallCompaction;
    hide DoMove;
    hide DoRecover;
    match step
    case BuildFlush(level, size) => BuildNumbers(s, level, size, Running(0, {}, {}, [], 0, [], {}), 0);
    case InstallFlush => InstallFlushNumbers(s);
    case BuildCompaction(r, next) => BuildNumbers(s, 0, 0, r, next);
    case InstallCompaction => InstallCompactionNumbers(s);
    case Move(level, f) => MoveNumbers(s, level, f);
    case Crash(cs, newLog, next) => CrashNumbers(s, cs, newLog, next);
    case _ => QuietNumbers(s, Do(s, step));
  }

  lemma {:induction false} ReachableNumbers(run: seq<Step>)
    requires Exec(run).Some?
    ensures NumberInv(Exec(run).value)
  {
    hide Inv;
    hide NumberInv;
    hide Enabled;
    hide Do;
    if run == [] {
      FreshNumbers();
    } else {
      var before := run[..|run| - 1];
      ReachableInv(before);
      ReachableNumbers(before);
      StepNumbers(Exec(before).value, run[|run| - 1]);
    }
  }

  lemma VersionParts(run: seq<Step>)
    requires Exec(run).Some?
    ensures var s := Exec(run).value;
      && ReplayManifest(s.disk.manifest).levels == s.levels && AddedOnce(EMPTY_LEVELS, s.disk.manifest)
      && VersionOk(s.levels) && Distinct(Contents(s.levels))
  {
    ReachableInv(run);
    ReachableNumbers(run);
    var s := Exec(run).value;
    assert Contents(s.levels) <= s.All();
  }

  /** After any run, reading the manifest's edits back through one builder gives a version with exactly the current
      files, each level sorted, ready for lookups. */
  method ReopenVersion(edits: seq<FileEdit>, ghost run: seq<Step>) returns (v: Version)
    requires Exec(run).Some? && ListsAll(edits, Exec(run).value.disk.manifest)
    ensures v.Valid() && IsVersion(v.files, Exec(run).value.levels)
  {
    hide Exec;
    hide AddedOnce;
    hide ReplayManifest;
    hide VersionOk;
    VersionParts(run);
    ghost var s := Exec(run).value;
    var files := InstallAll(edits, s.disk.manifest);
    SavedIsVersion(files, s.levels);
    v := new Version(files);
  }

  lemma SavedIsVersion(v: seq<seq<File>>, sets: LevelSets)
    requires IsVersion(v, sets) && VersionOk(sets)
    ensures ToSets(v) == sets && |v| == NUM_LEVELS
    ensures forall l :: 1 <= l < NUM_LEVELS ==> Ordered(v[l])
  {
    hide Strict;
    forall l | 0 <= l < |v|
      ensures ToSets(v)[l] == sets[l]
    {
      assert forall f :: f in ToSets(v)[l] <==> f in v[l];
    }
    assert ToSets(v) == sets;
    hide VersionOk;
    forall l: nat | 1 <= l < NUM_LEVELS
      ensures Ordered(v[l])
    {
      SavedIsOrdered(v, sets, l);
    }
  }
}
