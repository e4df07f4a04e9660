/** A background compaction from start to finish: selection, the merging iterator over the inputs, the loop, and the
    files it leaves, joined into a step the state machine allows. */
module Background {
  import opened Keys
  import opened Format
  import opened Levels
  import opened Compaction
  import opened CompactionReads
  import opened CompactionWork
  import opened Cursors
  import opened Database
  import opened Gaps
  import opened Inputs
  import opened LevelOrder
  import opened Machine
  import opened Selection
  import opened Setup
  import ManifestBuilder
  import ManifestRuns
  import Merger
  import opened Invariant
  import opened Runs

  // ---- the runs of entries behind the inputs ----------------------------------------------------------

  function Tables(fs: seq<File>): (r: seq<seq<Entry>>)
    ensures |r| == |fs| && forall i :: 0 <= i < |fs| ==> r[i] == fs[i].entries
  {
    seq(|fs|, i requires 0 <= i < |fs| => fs[i].entries)
  }

  /** One run for each level-0 file; the files of a sorted level make a single run. */
  function InputRuns(level: nat, in0: seq<File>, in1: seq<File>): seq<seq<Entry>> {
    (if in0 == [] then [] else if level == 0 then Tables(in0) else [Flatten(Tables(in0))])
    + (if in1 == [] then [] else [Flatten(Tables(in1))])
  }

  lemma FlattenHolds(fs: seq<File>, e: Entry)
    ensures e in Flatten(Tables(fs)) <==> exists f :: f in fs && e in f.entries
  {
    var parts := Tables(fs);
    if e in Flatten(parts) {
      var n := InSomePart(parts, e);
      assert fs[n] in fs && e in fs[n].entries;
    }
    if f :| f in fs && e in f.entries {
      var i :| 0 <= i < |fs| && fs[i] == f;
      PartIn(parts, i, e);
    }
  }

  /** Files in key order concatenate to a sorted run. */
  lemma {:induction false} OrderedFlatten(fs: seq<File>)
    requires Ordered(fs)
    ensures Sorted(Flatten(Tables(fs)))
  {
    if fs != [] {
      var n := |fs| - 1;
      var front := fs[..n];
      assert Ordered(front);
      OrderedFlatten(front);
      assert Tables(fs)[..n] == Tables(front);
      var a, b := Flatten(Tables(front)), fs[n].entries;
      forall i, j | 0 <= i < |a| && 0 <= j < |b|
        ensures ILess(a[i].ik, b[j].ik)
      {
        FlattenHolds(front, a[i]);
        var f :| f in front && a[i] in f.entries;
        EntriesFollow(f, fs[n], a[i], b[j]);
      }
      SortedConcat(a, b);
    }
  }

  lemma EntriesFollow(f: File, g: File, x: Entry, y: Entry)
    requires FileOk(f) && FileOk(g) && Before(f, g) && x in f.entries && y in g.entries
    ensures ILess(x.ik, y.ik)
  {
  }

  lemma SortedConcat(a: seq<Entry>, b: seq<Entry>)
    requires Sorted(a) && Sorted(b) && forall i, j :: 0 <= i < |a| && 0 <= j < |b| ==> ILess(a[i].ik, b[j].ik)
    ensures Sorted(a + b)
  {
  }

  /** What the version order says about the selected files. */
  ghost predicate Mergeable(level: nat, in0: seq<File>, in1: seq<File>) {
    && FilesOk(in0) && Ordered(in1)
    && (if level == 0 then
          forall i, j :: 0 <= i < |in0| && 0 <= j < |in0| && i != j ==> KeysDiffer(in0[i], in0[j])
        else Ordered(in0))
    && forall f, g :: f in in0 && g in in1 ==> KeysDiffer(f, g)
  }

  ghost predicate KeysDiffer(f: File, g: File) {
    Merger.KeysApart(f.entries, g.entries)
  }

  lemma FileRunsDiffer(f: File, in1: seq<File>)
    requires forall g :: g in in1 ==> KeysDiffer(f, g)
    ensures Merger.KeysApart(f.entries, Flatten(Tables(in1))) && Merger.KeysApart(Flatten(Tables(in1)), f.entries)
  {
    forall y | y in Flatten(Tables(in1))
      ensures exists g :: g in in1 && y in g.entries
    {
      FlattenHolds(in1, y);
    }
  }

  lemma LevelRunsDiffer(in0: seq<File>, in1: seq<File>)
    requires forall f, g :: f in in0 && g in in1 ==> KeysDiffer(f, g)
    ensures Merger.KeysApart(Flatten(Tables(in0)), Flatten(Tables(in1)))
    ensures Merger.KeysApart(Flatten(Tables(in1)), Flatten(Tables(in0)))
  {
    forall x, y | x in Flatten(Tables(in0)) && y in Flatten(Tables(in1))
      ensures x.ik != y.ik
    {
      FlattenHolds(in0, x);
      FlattenHolds(in1, y);
      var f :| f in in0 && x in f.entries;
      var g :| g in in1 && y in g.entries;
      assert KeysDiffer(f, g);
    }
  }

  /** Each run is sorted and no two share a key, as the merging iterator asks of its children. */
  ghost predicate RunsApart(runs: seq<seq<Entry>>) {
    && (forall i :: 0 <= i < |runs| ==> Sorted(runs[i]))
    && forall i, j :: 0 <= i < |runs| && 0 <= j < |runs| && i != j ==> Merger.KeysApart(runs[i], runs[j])
  }

  lemma InputRunsApart(level: nat, in0: seq<File>, in1: seq<File>)
    requires Mergeable(level, in0, in1)
    ensures RunsApart(InputRuns(level, in0, in1))
  {
    hide FileOk;
    hide Merger.KeysApart;
    hide Flatten;
    var runs := InputRuns(level, in0, in1);
    OrderedFlatten(in1);
    if level == 0 {
      forall i | 0 <= i < |in0|
        ensures Sorted(in0[i].entries) && Merger.KeysApart(in0[i].entries, Flatten(Tables(in1)))
        ensures Merger.KeysApart(Flatten(Tables(in1)), in0[i].entries)
      {
        TableSorted(in0[i]);
        FileRunsDiffer(in0[i], in1);
      }
    } else {
      OrderedFlatten(in0);
      LevelRunsDiffer(in0, in1);
    }
  }

  lemma TableSorted(f: File)
    requires FileOk(f)
    ensures Sorted(f.entries)
  {
  }

  /** Together the runs hold the inputs' entries. */
  lemma InputRunsHold(level: nat, in0: seq<File>, in1: seq<File>, e: Entry)
    ensures (exists i :: 0 <= i < |InputRuns(level, in0, in1)| && e in InputRuns(level, in0, in1)[i])
      <==> e in FileEntries(SetOf(in0) + SetOf(in1))
  {
    hide Flatten;
    var runs := InputRuns(level, in0, in1);
    FlattenHolds(in0, e);
    FlattenHolds(in1, e);
    if e in FileEntries(SetOf(in0) + SetOf(in1)) {
      var f :| f in SetOf(in0) + SetOf(in1) && e in f.entries;
      if f in in1 {
        assert runs[|runs| - 1] == Flatten(Tables(in1));
      } else if level == 0 {
        var i :| 0 <= i < |in0| && in0[i] == f;
        assert runs[i] == f.entries;
      } else {
        assert runs[0] == Flatten(Tables(in0));
      }
    }
    if i :| 0 <= i < |runs| && e in runs[i] {
      var f: File;
      if in1 != [] && i == |runs| - 1 {
        f :| f in in1 && e in f.entries;
      } else if level == 0 {
        f := in0[i];
      } else {
        f :| f in in0 && e in f.entries;
      }
      assert f in SetOf(in0) + SetOf(in1);
    }
  }

  // ---- the merging iterator over them -------------------------------------------------------------------

  method OpenCursors(runs: seq<seq<Entry>>) returns (cs: seq<Cursor>)
    requires forall i :: 0 <= i < |runs| ==> Sorted(runs[i])
    ensures |cs| == |runs| && forall i :: 0 <= i < |cs| ==> fresh(cs[i]) && cs[i].Ok() && cs[i].items == runs[i]
    ensures forall i, j :: 0 <= i < j < |cs| ==> cs[i] != cs[j]
  {
    hide Sorted;
    cs := [];
    for n := 0 to |runs|
      invariant |cs| == n && forall i :: 0 <= i < n ==> fresh(cs[i]) && cs[i].Ok() && cs[i].items == runs[i]
      invariant forall i, j :: 0 <= i < j < n ==> cs[i] != cs[j]
    {
      var c := new Cursor(runs[n]);
      cs := cs + [c];
    }
  }

  /** VersionSet::MakeInputIterator: the merge of all input files. */
  method MakeInputIterator(level: nat, in0: seq<File>, in1: seq<File>) returns (it: Merger.MergingIterator)
    requires Mergeable(level, in0, in1)
    ensures it.Ok() && fresh(it.Footprint())
    ensures forall e :: it.Holds(e) <==> e in FileEntries(SetOf(in0) + SetOf(in1))
  {
    hide Mergeable;
    hide InputRuns;
    hide FileEntries;
    hide Sorted;
    InputRunsApart(level, in0, in1);
    var runs := InputRuns(level, in0, in1);
    var cs := OpenCursors(runs);
    it := new Merger.MergingIterator(cs);
    forall e
      ensures it.Holds(e) <==> e in FileEntries(SetOf(in0) + SetOf(in1))
    {
      InputRunsHold(level, in0, in1, e);
      assert it.Holds(e) <==> exists i :: 0 <= i < |runs| && e in runs[i];
    }
  }

  // ---- what selection gives can be merged ----------------------------------------------------------------

  lemma NewerDiffers(f: File, g: File)
    requires Newer(f, g) || Newer(g, f)
    ensures KeysDiffer(f, g)
  {
  }

  lemma SliceOrdered(files: seq<File>, sel: seq<File>, a: nat)
    requires Ordered(files) && Slice(files, sel, a)
    ensures Ordered(sel)
  {
  }

  lemma Level0Differ(files: seq<File>, sel: seq<File>)
    requires LevelOk(0, set f | f in files) && NoRepeats(sel) && forall f :: f in sel ==> f in files
    ensures forall i, j :: 0 <= i < |sel| && 0 <= j < |sel| && i != j ==> KeysDiffer(sel[i], sel[j])
  {
  }

  /** The version order makes any selection mergeable. */
  lemma SelectedMergeable(files: seq<seq<File>>, level: nat, in0: seq<File>, in1: seq<File>)
    requires Vectors(files) && VersionOk(ToSets(files)) && level + 1 < NUM_LEVELS
    requires Closed(level, files[level], in0) && NoRepeats(in0) && CoveredBelow(files[level + 1], in0, in1)
    ensures Mergeable(level, in0, in1)
  {
    hide FileOk;
    var v := ToSets(files);
    InputsWithin(level, files[level], in0);
    CoveredWithin(files[level + 1], in0, in1);
    BelowOrdered(files[level + 1], in0, in1);
    if level == 0 {
      assert LevelOk(0, v[0]);
      Level0Differ(files[0], in0);
    } else {
      var a :| CleanSlice(files[level], in0, a);
      SliceOrdered(files[level], in0, a);
    }
    forall i | 0 <= i < |in0|
      ensures FileOk(in0[i])
    {
      assert in0[i] in files[level];
    }
    forall f, g | f in in0 && g in in1
      ensures KeysDiffer(f, g)
    {
      CrossPair(v, level, level + 1, f, g);
      NewerDiffers(f, g);
    }
  }

  lemma BelowOrdered(next: seq<File>, in0: seq<File>, in1: seq<File>)
    requires Ordered(next) && CoveredBelow(next, in0, in1)
    ensures Ordered(in1)
  {
    OkRanges(next);
    var lo, hi :| LeastKey(in0, lo) && GreatestKey(in0, hi) && in1 == Overlapping(next, Some(lo.user), Some(hi.user));
    var x, y := OverlappingIsSlice(next, Some(lo.user), Some(hi.user));
    SliceOrdered(next, in1, x);
  }

  /** The saved file lists of a version are the vectors input selection expects. */
  lemma SavedIsVectors(files: seq<seq<File>>, v: LevelSets)
    requires ManifestBuilder.IsVersion(files, v) && VersionOk(v)
    ensures ToSets(files) == v && Vectors(files)
  {
    hide ManifestBuilder.Strict;
    ManifestRuns.SavedIsVersion(files, v);
    forall l, i | 0 <= l < NUM_LEVELS && 0 <= i < |files[l]|
      ensures FileOk(files[l][i])
    {
      assert LevelOk(l, v[l]) && files[l][i] in v[l];
    }
    StrictNoRepeats(files[0]);
  }

  lemma StrictNoRepeats(fs: seq<File>)
    requires ManifestBuilder.Strict(fs)
    ensures NoRepeats(fs)
  {
  }

  // ---- one compaction --------------------------------------------------------------------------------------

  /** What the version set and the snapshot list offer a compaction: the current file lists, the next file number. */
  ghost predicate Offered(s: Db, files: seq<seq<File>>, first: nat) {
    && VersionOk(s.levels) && Distinct(Contents(s.levels)) && ManifestBuilder.IsVersion(files, s.levels)
    && s.running.None? && s.flush.Idle? && first == s.nextFile
  }

  ghost predicate Selected(files: seq<seq<File>>, level: nat, in0: seq<File>, in1: seq<File>) {
    && |files| == NUM_LEVELS && level + 1 < NUM_LEVELS
    && Closed(level, files[level], in0) && NoRepeats(in0) && CoveredBelow(files[level + 1], in0, in1)
  }

  /** DoCompactionWork on selected inputs: merge them, run the loop, number the outputs. The state machine allows the
      result as a compaction if and only if it exposes no key. */
  method RunCompaction(files: seq<seq<File>>, level: nat, in0: seq<File>, in1: seq<File>, floor: nat, first: nat,
                       cutBefore: nat -> bool, cutAfter: nat -> bool, size: nat -> nat, ghost s: Db)
    returns (outs: set<File>, next: nat, ghost input: seq<Entry>)
    requires Offered(s, files, first) && Selected(files, level, in0, in1) && s.IsFloor(floor) && floor < MAX_SEQUENCE
    ensures SafeInputs(s.levels, level, SetOf(in0), SetOf(in1))
    ensures Sorted(input) && Elems(input) == FileEntries(SetOf(in0) + SetOf(in1))
    ensures FileEntries(outs) == Elems(Output(input, floor, s.levels, level))
    ensures CanBuildCompaction(s, Running(level, SetOf(in0), SetOf(in1), input, floor, s.levels, outs), next) <==>
            forall k: Bytes :: !Exposed(s.levels, level, SetOf(in1), input, floor, k)
  {
    hide VersionOk;
    hide Distinct;
    hide Exposed;
    hide SafeInputs;
    hide Closed;
    hide CoveredBelow;
    hide Mergeable;
    hide FileEntries;
    hide OutputFiles;
    hide ManifestBuilder.IsVersion;
    hide Output;
    hide Sorted;
    SavedIsVectors(files, s.levels);
    SelectedInputsAreSafe(files, level, in0, in1);
    SelectedMergeable(files, level, in0, in1);
    var it := MakeInputIterator(level, in0, in1);
    var c := new BaseLevelCursor(level, files);
    var parts;
    parts, input := DoCompactionWork(c, it, floor, cutBefore, cutAfter);
    assert Elems(input) == FileEntries(SetOf(in0) + SetOf(in1));
    outs, next := NumberOutputs(parts, first, size);
    OutputFilesEntries(parts, first, size);
    if forall k: Bytes :: !Exposed(s.levels, level, SetOf(in1), input, floor, k) {
      CompactionFits(s, level, SetOf(in0), SetOf(in1), input, floor, parts, size);
    }
  }

  /** The snapshot list is in the order the snapshots were taken. */
  ghost predicate ListsSnapshots(s: Db, snapshots: seq<nat>) {
    && multiset(snapshots) == s.snapshots && (forall i, j :: 0 <= i < j < |snapshots| ==> snapshots[i] <= snapshots[j])
    && forall n :: n in snapshots ==> n <= s.lastSeq
  }

  /** The floor of a compaction: the oldest snapshot, or else the last sequence number. */
  method SmallestSnapshot(snapshots: seq<nat>, lastSequence: nat, ghost s: Db) returns (floor: nat)
    requires ListsSnapshots(s, snapshots) && lastSequence == s.lastSeq
    ensures s.IsFloor(floor) && floor <= lastSequence && (floor == lastSequence || floor in s.snapshots)
  {
    floor := if snapshots == [] then lastSequence else snapshots[0];
    assert snapshots != [] ==> snapshots[0] in snapshots;
    forall n | n in s.snapshots
      ensures floor <= n
    {
      assert n in multiset(snapshots);
    }
  }

  /** The files two levels down in the range of the inputs. */
  function Grandparents(files: seq<seq<File>>, level: nat, f: File): seq<File>
    requires level < |files|
  {
    if level + 2 < |files| then Overlapping(files[level + 2], Some(f.smallest.user), Some(f.largest.user)) else []
  }

  /** Compaction::IsTrivialMove. */
  method IsTrivialMove(files: seq<seq<File>>, level: nat, in0: seq<File>, in1: seq<File>, maxOverlap: nat)
    returns (r: bool)
    requires level + 1 < |files|
    ensures r <==> |in0| == 1 && in1 == [] && TotalFileSize(Grandparents(files, level, in0[0])) <= maxOverlap
  {
    if |in0| != 1 || in1 != [] {
      return false;
    }
    var grandparents := [];
    if level + 2 < |files| {
      grandparents := GetOverlappingInputs(level + 2, files[level + 2], Some(in0[0].smallest.user),
        Some(in0[0].largest.user));
    }
    r := TotalFileSize(grandparents) <= maxOverlap;
  }

  datatype Request =
    | Automatic(level: nat, index: nat)
    | Manual(level: nat, begin: Option<Bytes>, end: Option<Bytes>)

  /** How far a manual selection, a widened selection and the overlap under a moved file may go, in bytes. */
  datatype Limits = Limits(manual: nat, expanded: nat, grandparents: nat)

  datatype Outcome =
    | Nothing
    | Moved(file: File)
    | Compacted(in0: seq<File>, in1: seq<File>, floor: nat, outs: set<File>, next: nat)

  predicate RequestOk(files: seq<seq<File>>, q: Request) {
    |files| == NUM_LEVELS && q.level + 1 < NUM_LEVELS && (q.Automatic? ==> q.index < |files[q.level]|)
  }

  /** The inputs are safe, input is what they merge to, the outputs hold what the drop rules keep of it, and the state
      machine allows the compaction if and only if no key is exposed. */
  ghost predicate Began(s: Db, level: nat, r: Outcome, input: seq<Entry>)
    requires r.Compacted?
  {
    && SafeInputs(s.levels, level, SetOf(r.in0), SetOf(r.in1))
    && FileEntries(r.outs) == Elems(Output(input, r.floor, s.levels, level))
    && s.IsFloor(r.floor) && Sorted(input) && Elems(input) == FileEntries(SetOf(r.in0) + SetOf(r.in1))
    && (CanBuildCompaction(s, Running(level, SetOf(r.in0), SetOf(r.in1), input, r.floor, s.levels, r.outs), r.next) <==>
          forall k: Bytes :: !Exposed(s.levels, level, SetOf(r.in1), input, r.floor, k))
  }

  /** What one round of background work may do to the state machine: nothing, exactly when a manual range is empty; a
      move that is safe; or a compaction with safe inputs, allowed if and only if it exposes no key, and without a gap
      unless it was asked for by hand. */
  ghost predicate Allowed(s: Db, files: seq<seq<File>>, q: Request, r: Outcome)
    requires RequestOk(files, q)
  {
    match r
    case Nothing => q.Manual? && forall f :: f in files[q.level] ==> !Overlaps(f, q.begin, q.end)
    case Moved(f) => q.Automatic? && f == files[q.level][q.index] && CanMove(s, q.level, f)
    case Compacted(in0, in1, _, _, _) =>
      && (exists input :: Began(s, q.level, r, input))
      && (q.Automatic? ==> files[q.level][q.index] in in0 && Gapless(SetOf(in0) + SetOf(in1)))
      && (q.Manual? ==> exists f :: f in files[q.level] && Overlaps(f, q.begin, q.end))
  }

  /** PickCompaction or CompactRange. */
  method SelectInputs(files: seq<seq<File>>, q: Request, limits: Limits) returns (r: Option<(seq<File>, seq<File>)>)
    requires Vectors(files) && RequestOk(files, q)
    ensures r.Some? ==> Selected(files, q.level, r.value.0, r.value.1)
    ensures q.Automatic? ==>
      r.Some? && files[q.level][q.index] in r.value.0 && Gapless(SetOf(r.value.0) + SetOf(r.value.1))
    ensures q.Manual? ==> (r.None? <==> forall f :: f in files[q.level] ==> !Overlaps(f, q.begin, q.end))
  {
    hide Gapless;
    hide Closed;
    hide CoveredBelow;
    VectorsAreTree(files);
    hide Tree;
    hide Vectors;
    if q.Automatic? {
      var in0, in1 := PickCompaction(files, q.level, q.index, limits.expanded);
      r := Some((in0, in1));
    } else {
      r := CompactRange(files, q.level, q.begin, q.end, limits.manual, limits.expanded);
    }
  }

  lemma MoveIsSafe(s: Db, files: seq<seq<File>>, level: nat, f: File, first: nat)
    requires Offered(s, files, first) && Selected(files, level, [f], [])
    ensures CanMove(s, level, f)
  {
    hide VersionOk;
    hide Distinct;
    hide Closed;
    hide CoveredBelow;
    hide ManifestBuilder.IsVersion;
    SavedIsVectors(files, s.levels);
    SelectedInputsAreSafe(files, level, [f], []);
    assert SetOf([f]) == {f} && SetOf([]) == {};
  }

  /** DBImpl::BackgroundCompaction, once no immutable memtable is waiting. */
  method BackgroundCompaction(files: seq<seq<File>>, q: Request, limits: Limits, snapshots: seq<nat>,
          lastSequence: nat, first: nat, cutBefore: nat -> bool, cutAfter: nat -> bool, size: nat -> nat, ghost s: Db)
    returns (r: Outcome)
    requires Offered(s, files, first) && RequestOk(files, q) && ListsSnapshots(s, snapshots)
    requires lastSequence == s.lastSeq < MAX_SEQUENCE
    ensures Allowed(s, files, q, r)
  {
    hide VersionOk;
    hide Distinct;
    hide Exposed;
    hide SafeInputs;
    hide Closed;
    hide CoveredBelow;
    hide Gapless;
    hide ManifestBuilder.IsVersion;
    hide CanBuildCompaction;
    hide CanMove;
    SavedIsVectors(files, s.levels);
    hide Vectors;
    hide Sorted;
    hide FileEntries;
    hide Output;
    var selected := SelectInputs(files, q, limits);
    if selected.None? {
      return Nothing;
    }
    var (in0, in1) := selected.value;
    var trivial := IsTrivialMove(files, q.level, in0, in1, limits.grandparents);
    if q.Automatic? && trivial {
      assert in0 == [files[q.level][q.index]];
      MoveIsSafe(s, files, q.level, in0[0], first);
      r := Moved(in0[0]);
    } else {
      var floor := SmallestSnapshot(snapshots, lastSequence, s);
      var outs, next;
      ghost var input;
      outs, next, input := RunCompaction(files, q.level, in0, in1, floor, first, cutBefore, cutAfter, size, s);
      r := Compacted(in0, in1, floor, outs, next);
      assert Began(s, q.level, r, input);
    }
  }

  // ---- over whole runs -------------------------------------------------------------------------------------

  /** Any reachable state with no flush or compaction under way offers what a round of background work asks for. */
  lemma ReachableOffers(run: seq<Step>, files: seq<seq<File>>)
    requires Exec(run).Some? && ManifestBuilder.IsVersion(files, Exec(run).value.levels)
    requires Exec(run).value.running.None? && Exec(run).value.flush.Idle?
    ensures Offered(Exec(run).value, files, Exec(run).value.nextFile)
  {
    hide Exec;
    hide ManifestBuilder.IsVersion;
    ManifestRuns.VersionParts(run);
  }

  /** Every compaction of the run has inputs without a gap, as those the database picks itself do. */
  ghost predicate GaplessRun(run: seq<Step>) {
    forall step :: step in run && step.BuildCompaction? ==> Gapless(step.r.in0 + step.r.in1)
  }

  lemma GaplessStep(s: Db, step: Step)
    requires Enabled(s, step) && (s.running.Some? ==> Gapless(s.running.value.in0 + s.running.value.in1))
    requires step.BuildCompaction? ==> Gapless(step.r.in0 + step.r.in1)
    ensures Do(s, step).running.Some? ==> Gapless(Do(s, step).running.value.in0 + Do(s, step).running.value.in1)
  {
  }

  lemma {:induction false} RunningIsGapless(run: seq<Step>)
    requires Exec(run).Some? && GaplessRun(run)
    ensures var s := Exec(run).value; s.running.Some? ==> Gapless(s.running.value.in0 + s.running.value.in1)
  {
    hide Gapless;
    hide Enabled;
    hide Do;
    if run != [] {
      RunningIsGapless(run[..|run| - 1]);
      GaplessStep(Exec(run[..|run| - 1]).value, run[|run| - 1]);
    }
  }

  /** As long as the database picks its compactions itself, a flush needs no more than the level its choice of level
      gives: the machine's extra condition on flushes is then no condition. */
  lemma FlushUnhindered(run: seq<Step>, level: nat, size: nat)
    requires Exec(run).Some? && GaplessRun(run)
    ensures var s := Exec(run).value;
      CanBuildFlush(s, level, size) <==>
        s.flush.Idle? && s.imm.Some? && level < NUM_LEVELS &&
          (s.imm.value != [] ==> ClearDownTo(s.levels, level, FlushFile(s, size)))
  {
    hide GapAt;
    hide Exec;
    RunningIsGapless(run);
  }

  lemma ReachableBounded(run: seq<Step>, files: seq<seq<File>>)
    requires Exec(run).Some? && ManifestBuilder.IsVersion(files, Exec(run).value.levels) &&
      Exec(run).value.lastSeq <= MAX_SEQUENCE
    ensures Vectors(files) && ToSets(files) == Exec(run).value.levels
    ensures forall l :: 0 <= l < NUM_LEVELS ==> BoundedKeys(files[l])
  {
    hide Exec;
    hide ManifestBuilder.IsVersion;
    ReachableInv(run);
    var s := Exec(run).value;
    assert SeqInv(s) && OrderInv(s);
    SavedIsVectors(files, s.levels);
    forall l, i | 0 <= l < NUM_LEVELS && 0 <= i < |files[l]|
      ensures files[l][i].largest.sn <= MAX_SEQUENCE
    {
      var f := files[l][i];
      assert FileOk(f) && f in s.levels[l];
      ContentsOf(s.levels, l, f, f.entries[|f.entries| - 1]);
    }
  }

  /** The level WriteLevel0Table picks for a flushed memtable is one the state machine allows, a compaction of the
      database's own choosing running or not. */
  method PickFlushLevel(files: seq<seq<File>>, es: seq<Entry>, maxOverlap: nat, ghost size: nat, ghost run: seq<Step>)
    returns (level: nat)
    requires Exec(run).Some? && GaplessRun(run) && ManifestBuilder.IsVersion(files, Exec(run).value.levels)
    requires Exec(run).value.lastSeq <= MAX_SEQUENCE
    requires Exec(run).value.flush.Idle? && Exec(run).value.imm == Some(es) && es != []
    ensures CanBuildFlush(Exec(run).value, level, size)
  {
    hide Exec;
    hide GaplessRun;
    hide Vectors;
    hide BoundedKeys;
    hide ManifestBuilder.IsVersion;
    ReachableBounded(run, files);
    level := PickLevelForMemTableOutput(files, es[0].ik.user, es[|es| - 1].ik.user, maxOverlap);
    VectorsAreTree(files);
    PickedLevelIsClear(files, level, FlushFile(Exec(run).value, size));
    FlushUnhindered(run, level, size);
  }
}
