/** The database object: reads through its three layers, file deletion, log recovery, and the files a compaction
    leaves. */
module Database {
  import opened Keys
  import opened Format
  import opened Levels
  import opened Compaction
  import opened CompactionWork
  import opened Layers
  import opened LevelOrder
  import opened CompactionReads
  import opened Store
  import opened Machine
  import opened Invariant
  import MemTable

  /** Names in the database directory. */
  datatype FileName =
    | LogFile(number: nat) | DescriptorFile(number: nat) | TableFile(number: nat) | TempFile(number: nat)
    | CurrentFile | LockFile | InfoLogFile | Unparsed

  class DBImpl {
    var mem: MemTable.MemTable
    var imm: MemTable.MemTable?
    var current: Version
    var versions: seq<seq<seq<File>>>
    var pending: set<nat>
    var lastSequence: nat
    var logNumber: nat
    /** The state-machine state this object stands for. */
    ghost var db: Db

    ghost predicate Valid()
      reads this, current, mem, mem.table, imm, if imm != null then {imm.table} else {}
    {
      && Inv(db) && current.Valid()
      && mem.Valid() && mem.Entries() == db.mem && (imm == null <==> db.imm.None?)
      && (imm != null ==> imm.Valid() && db.imm == Some(imm.Entries()))
      && ToSets(current.files) == db.levels
      && lastSequence == db.lastSeq && logNumber == db.logNumber && pending == db.pending
      && (exists i :: 0 <= i < |versions| && versions[i] == current.files)
      && (forall v :: v in db.pinned ==> exists i :: 0 <= i < |versions| && ToSets(versions[i]) == v)
    }

    /** Open: recovery leaves empty memtables and one version. */
    constructor (files: seq<seq<File>>, last: nat, log: nat, ghost d: Db)
      requires Inv(d) && d.mem == [] && d.imm == None && d.pending == {} && d.pinned == multiset{}
      requires last == d.lastSeq && log == d.logNumber && ToSets(files) == d.levels
      requires |files| == NUM_LEVELS && forall l :: 1 <= l < NUM_LEVELS ==> Ordered(files[l])
      ensures Valid() && db == d
    {
      OpenVersion(d);
      mem := new MemTable.MemTable();
      imm, pending := null, {};
      lastSequence, logNumber := last, log;
      versions := [files];
      current := new Version(files);
      db := d;
      new;
      assert versions[0] == current.files;
    }

    /** Memtable, then immutable memtable, then the levels: the newest visible entry of the whole database. */
    method Get(k: Bytes, snapshot: Option<nat>) returns (r: Option<Bytes>)
      requires Valid()
      ensures r == Read(db.All(), k, if snapshot.Some? then snapshot.value else db.lastSeq)
    {
      var s := if snapshot.Some? then snapshot.value else lastSequence;
      LayersSplit(db);
      AllDistinct(db);
      LayersDecide(db, k, s);
      var done;
      done, r := mem.Get(k, s);
      if done {
        return;
      }
      if imm != null {
        done, r := imm.Get(k, s);
        if done {
          return;
        }
      }
      r := current.Get(k, s);
    }

    /** Table n is being written, or belongs to a version some reader may still use. */
    ghost predicate Referenced(n: nat)
      reads `pending, `versions
    {
      n in pending || exists i :: 0 <= i < |versions| && LiveIn(ToSets(versions[i]), n)
    }

    /** VersionSet::AddLiveFiles, one level of one version at a time. */
    method AddLiveFiles() returns (live: set<nat>)
      ensures forall n: nat :: n in live <==> Referenced(n)
    {
      live := pending;
      for i := 0 to |versions|
        invariant forall n: nat :: n in live <==>
          n in pending || exists j :: 0 <= j < i && LiveIn(ToSets(versions[j]), n)
      {
        var more := VersionNumbers(versions[i]);
        live := live + more;
      }
    }

    /** Everything live is pending or in a version some reader still holds. */
    lemma LiveListed(n: nat)
      requires Valid() && db.Live(n)
      ensures Referenced(n)
    {
      hide Inv;
      if n !in db.pending {
        if LiveIn(db.levels, n) {
          var i :| 0 <= i < |versions| && versions[i] == current.files;
          assert LiveIn(ToSets(versions[i]), n);
        } else {
          var v :| v in db.pinned && LiveIn(v, n);
          var i :| 0 <= i < |versions| && ToSets(versions[i]) == v;
          assert LiveIn(ToSets(versions[i]), n);
        }
      }
    }

    /** Deletes the directory's tables and logs that nothing needs, and no others. */
    method DeleteObsoleteFiles(dir: seq<FileName>) returns (tables: set<nat>, logs: set<nat>)
      requires Valid() && db.flush.Idle?
      modifies `db
      ensures CanDelete(old(db), tables, logs) && db == DoDelete(old(db), tables, logs) && Inv(db)
      ensures forall n: nat :: n in logs <==> LogFile(n) in dir && n < logNumber
      ensures forall n: nat :: n in tables <==> TableFile(n) in dir && !Referenced(n)
    {
      hide Inv;
      hide Referenced;
      var live := AddLiveFiles();
      tables, logs := Sweep(dir, live, logNumber);
      forall n | n in tables
        ensures !db.Live(n)
      {
        if db.Live(n) {
          LiveListed(n);
        }
      }
      DeleteKeeps(db, tables, logs);
      db := DoDelete(db, tables, logs);
    }
  }

  /** The pass over the directory: tables not live, and logs below the recorded number. */
  method Sweep(dir: seq<FileName>, live: set<nat>, logNumber: nat) returns (tables: set<nat>, logs: set<nat>)
    ensures forall n: nat :: n in tables <==> TableFile(n) in dir && n !in live
    ensures forall n: nat :: n in logs <==> LogFile(n) in dir && n < logNumber
  {
    tables, logs := {}, {};
    for i := 0 to |dir|
      invariant forall n: nat :: n in tables <==> TableFile(n) in dir[..i] && n !in live
      invariant forall n: nat :: n in logs <==> LogFile(n) in dir[..i] && n < logNumber
    {
      assert dir[..i + 1] == dir[..i] + [dir[i]];
      match dir[i] {
        case LogFile(n) =>
          if n < logNumber {
            logs := logs + {n};
          }
        case TableFile(n) =>
          if n !in live {
            tables := tables + {n};
          }
        case _ =>
      }
    }
    assert dir[..|dir|] == dir;
  }

  method VersionNumbers(files: seq<seq<File>>) returns (r: set<nat>)
    ensures forall n: nat :: n in r <==> LiveIn(ToSets(files), n)
  {
    r := {};
    for l := 0 to |files|
      invariant forall n: nat :: n in r <==> exists k, f :: 0 <= k < l && f in files[k] && f.number == n
    {
      var before := r;
      for i := 0 to |files[l]|
        invariant forall n: nat :: n in r <==> n in before || exists f :: f in files[l][..i] && f.number == n
      {
        assert files[l][..i + 1] == files[l][..i] + [files[l][i]];
        r := r + {files[l][i].number};
      }
      assert files[l][..|files[l]|] == files[l];
    }
    forall n
      ensures n in r <==> LiveIn(ToSets(files), n)
    {
      if LiveIn(ToSets(files), n) {
        var l, f :| 0 <= l < |files| && f in ToSets(files)[l] && f.number == n;
        assert f in files[l];
      }
      if n in r {
        var l, f :| 0 <= l < |files| && f in files[l] && f.number == n;
        assert f in ToSets(files)[l];
      }
    }
  }

  // ---- recovery, as the code runs it ----------------------------------------------------------

  /** What log replay has produced so far: the level-0 files of the edit, the next file number, and the highest
      sequence number seen; chunks tells which records went into each new table. */
  datatype Replayed = Replayed(files: set<File>, next: nat, last: nat, chunks: seq<Chunk>)

  /** The tables written so far hold exactly the records rs, under fresh ascending numbers. */
  ghost predicate TablesOk(p: Replayed, rs: seq<Record>, first: nat) {
    && ChunkRecords(p.chunks) == rs && p.files == ChunkFiles(p.chunks) && Numbered(p.chunks, first, p.next)
  }

  ghost predicate Numbered(cs: seq<Chunk>, first: nat, next: nat) {
    && first <= next
    && (forall i :: 0 <= i < |cs| ==> first <= cs[i].number < next)
    && (forall i, j :: 0 <= i < j < |cs| ==> cs[i].number < cs[j].number)
  }

  ghost predicate ReplayedOk(p: Replayed, rs: seq<Record>, first: nat, base: nat) {
    TablesOk(p, rs, first) && p.last == LastOf(rs, base)
  }

  lemma OneMoreTable(cs: seq<Chunk>, c: Chunk)
    ensures ChunkRecords(cs + [c]) == ChunkRecords(cs) + c.records
    ensures ChunkTable(c) == [] ==> ChunkFiles(cs + [c]) == ChunkFiles(cs)
    ensures ChunkTable(c) != [] ==> ChunkFiles(cs + [c]) == ChunkFiles(cs) + {ChunkFile(c)}
  {
    assert (cs + [c])[..|cs|] == cs;
  }

  /** WriteLevel0Table during recovery: a table under a fresh number at level 0, or nothing if the memtable is empty. */
  method WriteLevel0Table(p: Replayed, mem: seq<Entry>, size: nat, open: seq<Record>, ghost rs: seq<Record>,
          ghost first: nat)
    returns (q: Replayed)
    requires TablesOk(p, rs, first) && mem == Replay([], open)
    ensures TablesOk(q, rs + open, first) && q.last == p.last && q.next == p.next + 1
  {
    hide Replay;
    hide ChunkFiles;
    hide ChunkRecords;
    var c := Chunk(p.next, size, open);
    OneMoreTable(p.chunks, c);
    assert ChunkTable(c) == mem;
    if mem == [] {
      q := p.(next := p.next + 1, chunks := p.chunks + [c]);
    } else {
      var f := File(p.next, size, mem[0].ik, mem[|mem| - 1].ik, mem);
      q := p.(files := p.files + {f}, next := p.next + 1, chunks := p.chunks + [c]);
    }
  }

  lemma AppendRecord(open: seq<Record>, r: Record)
    ensures Replay([], open + [r]) == InsertRecord(Replay([], open), r)
  {
    assert (open + [r])[..|open|] == open;
  }

  /** The variables of the log-reading loop: the memtable, if one is open, and the records it holds. */
  datatype Reading = Reading(p: Replayed, mem: Option<seq<Entry>>, open: seq<Record>)

  ghost predicate ReadingOk(w: Reading, done: seq<Record>, rs: seq<Record>, first: nat, base: nat) {
    && (if w.mem.Some? then w.mem.value == Replay([], w.open) else w.open == [])
    && done + w.open == rs && TablesOk(w.p, done, first) && w.p.last == LastOf(rs, base)
  }

  lemma LastOneMore(rs: seq<Record>, r: Record, base: nat)
    ensures LastOf(rs + [r], base) == (var p := LastOf(rs, base);
      if r.first - 1 + |r.ops| > p then r.first - 1 + |r.ops| else p)
  {
    assert (rs + [r])[..|rs|] == rs;
  }

  /** One record: insert it, remember the highest sequence number, and write the table if the buffer is full. */
  method ReadOne(w: Reading, r: Record, full: bool, size: nat, ghost done: seq<Record>, ghost rs: seq<Record>,
          ghost first: nat, ghost base: nat)
    returns (w': Reading)
    requires ReadingOk(w, done, rs, first, base) && 1 <= r.first
    ensures ReadingOk(w', if full then rs + [r] else done, rs + [r], first, base)
    ensures w.p.next <= w'.p.next
  {
    hide Replay;
    hide LastOf;
    hide TablesOk;
    EmptyReplay();
    AppendRecord(w.open, r);
    LastOneMore(rs, r, base);
    var mem := InsertRecord(if w.mem.Some? then w.mem.value else [], r);
    var last := r.first - 1 + |r.ops|;
    var p := w.p.(last := if last > w.p.last then last else w.p.last);
    TablesIgnoreLast(w.p, p, done, first);
    assert done + (w.open + [r]) == rs + [r];
    if full {
      p := WriteLevel0Table(p, mem, size, w.open + [r], done, first);
      assert rs + [r] + [] == rs + [r];
      w' := Reading(p, None, []);
    } else {
      w' := Reading(p, Some(mem), w.open + [r]);
    }
  }

  lemma EmptyReplay()
    ensures Replay([], []) == []
  {
  }

  lemma TablesIgnoreLast(p: Replayed, q: Replayed, rs: seq<Record>, first: nat)
    requires TablesOk(p, rs, first) && q == p.(last := q.last)
    ensures TablesOk(q, rs, first)
  {
  }

  /** Reads one log's records into a memtable, writing a table whenever full says the buffer is over its limit, and
      once more at the end. */
  method RecoverLogFile(p: Replayed, log: seq<Record>, full: nat -> bool, size: nat, ghost rs: seq<Record>,
          ghost first: nat, ghost base: nat)
    returns (q: Replayed)
    requires ReplayedOk(p, rs, first, base) && forall r :: r in log ==> 1 <= r.first
    ensures ReplayedOk(q, rs + log, first, base)
    ensures p.next <= q.next
  {
    hide TablesOk;
    hide LastOf;
    hide Replay;
    var w := Reading(p, None, []);
    ghost var done := rs;
    assert rs + [] == rs && rs + log[..0] == rs;
    for i := 0 to |log|
      invariant ReadingOk(w, done, rs + log[..i], first, base)
      invariant p.next <= w.p.next
    {
      assert rs + log[..i + 1] == rs + log[..i] + [log[i]];
      w := ReadOne(w, log[i], full(i), size, done, rs + log[..i], first, base);
      done := if full(i) then rs + log[..i + 1] else done;
    }
    assert log[..|log|] == log;
    q := w.p;
    if w.mem.Some? {
      q := WriteLevel0Table(w.p, w.mem.value, size, w.open, done, first);
    } else {
      assert done + [] == done;
    }
  }

  /** The rest of DBImpl::Recover: the logs from the recorded number up, in ascending order, each one's number marked
      as used. What comes out is a recovery the state machine allows. */
  method RecoverLogs(d: Disk, m: Meta, numbers: seq<nat>, full: (nat, nat) -> bool, size: nat) returns (q: Replayed)
    requires m == ReplayManifest(d.manifest)
    requires forall i, j :: 0 <= i < j < |numbers| ==> numbers[i] < numbers[j]
    requires forall n: nat :: n in numbers <==> n in d.logs && m.logNumber <= n
    requires forall n: nat :: n in d.logs && n < m.logNumber ==> n < m.nextFile
    requires forall n: nat, r :: n in d.logs && m.logNumber <= n && r in d.logs[n] ==> 1 <= r.first
    ensures CanRecover(d, q.chunks, q.next, q.next + 1)
    ensures q.files == ChunkFiles(q.chunks)
    ensures q.last == LastOf(LogRecords(d.logs, m.logNumber, q.next), m.lastSeq)
  {
    hide LogRecords;
    hide LastOf;
    hide ChunkFiles;
    hide ChunkRecords;
    hide Numbered;
    hide ReplayManifest;
    q := NothingReplayed(m.nextFile, m.lastSeq);
    NoRecords(d.logs, m.logNumber);
    var done: nat := 0;
    for i := 0 to |numbers|
      invariant done == (if i == 0 then 0 else numbers[i - 1] + 1)
      invariant ReplayedOk(q, LogRecords(d.logs, m.logNumber, done), m.nextFile, m.lastSeq)
      invariant done <= q.next && m.nextFile <= q.next
    {
      var n: nat := numbers[i];
      assert n in d.logs;
      forall k: nat | k in d.logs && m.logNumber <= k
        ensures !(done <= k < n)
      {
        var j :| 0 <= j < |numbers| && numbers[j] == k;
      }
      NextLog(d.logs, m.logNumber, done, n);
      q := RecoverLogFile(q, d.logs[n], (j: nat) => full(n, j), size,
        LogRecords(d.logs, m.logNumber, done), m.nextFile, m.lastSeq);
      q := MarkFileNumberUsed(q, n, LogRecords(d.logs, m.logNumber, n + 1), m.nextFile, m.lastSeq);
      done := n + 1;
    }
    forall k: nat | k in d.logs && m.logNumber <= k
      ensures k < done
    {
      var j :| 0 <= j < |numbers| && numbers[j] == k;
    }
    NoMoreLogs(d.logs, m.logNumber, done, q.next);
    ReplayIsRecovery(d, m, q);
  }

  method NothingReplayed(next: nat, last: nat) returns (q: Replayed)
    ensures ReplayedOk(q, [], next, last) && q.next == next
  {
    q := Replayed({}, next, last, []);
  }

  method MarkFileNumberUsed(p: Replayed, n: nat, ghost rs: seq<Record>, ghost first: nat, ghost base: nat)
    returns (q: Replayed)
    requires ReplayedOk(p, rs, first, base)
    ensures ReplayedOk(q, rs, first, base) && q.next == (if p.next <= n then n + 1 else p.next)
  {
    q := p.(next := if p.next <= n then n + 1 else p.next);
  }

  lemma NoRecords(logs: map<nat, seq<Record>>, from: nat)
    ensures LogRecords(logs, from, 0) == []
  {
  }

  lemma ReplayIsRecovery(d: Disk, m: Meta, q: Replayed)
    requires m == ReplayManifest(d.manifest) && forall n :: n in d.logs ==> n < q.next
    requires ReplayedOk(q, LogRecords(d.logs, m.logNumber, q.next), m.nextFile, m.lastSeq)
    ensures CanRecover(d, q.chunks, q.next, q.next + 1)
  {
  }

  lemma NextLog(logs: map<nat, seq<Record>>, from: nat, a: nat, n: nat)
    requires a <= n && from <= n && n in logs && forall k: nat :: k in logs && from <= k ==> !(a <= k < n)
    ensures LogRecords(logs, from, n + 1) == LogRecords(logs, from, a) + logs[n]
  {
    NoMoreLogs(logs, from, a, n);
  }

  lemma {:induction false} NoMoreLogs(logs: map<nat, seq<Record>>, from: nat, a: nat, b: nat)
    requires a <= b && forall k: nat :: k in logs && from <= k ==> !(a <= k < b)
    ensures LogRecords(logs, from, b) == LogRecords(logs, from, a)
    decreases b
  {
    if a < b {
      NoMoreLogs(logs, from, a, b - 1);
    }
  }

  // ---- the files a compaction leaves ------------------------------------------------------------

  function OutputFile(part: seq<Entry>, number: nat, size: nat): File
    requires part != []
  {
    File(number, size, part[0].ik, part[|part| - 1].ik, part)
  }

  ghost function OutputFiles(parts: seq<seq<Entry>>, first: nat, size: nat -> nat): set<File>
    requires NonEmpty(parts)
  {
    set i | 0 <= i < |parts| :: OutputFile(parts[i], first + i, size(i))
  }

  /** OpenCompactionOutputFile and FinishCompactionOutputFile number the outputs and record their bounds. */
  method NumberOutputs(parts: seq<seq<Entry>>, first: nat, size: nat -> nat) returns (outs: set<File>, next: nat)
    requires NonEmpty(parts)
    ensures outs == OutputFiles(parts, first, size) && next == first + |parts|
  {
    outs, next := {}, first;
    for i := 0 to |parts|
      invariant next == first + i
      invariant outs == set j | 0 <= j < i :: OutputFile(parts[j], first + j, size(j))
    {
      outs := outs + {OutputFile(parts[i], next, size(i))};
      next := next + 1;
    }
  }

  lemma OutputFileOk(parts: seq<seq<Entry>>, first: nat, size: nat -> nat, i: nat)
    requires NonEmpty(parts) && Sorted(Flatten(parts)) && i < |parts|
    ensures FileOk(OutputFile(parts[i], first + i, size(i)))
  {
    PartsOrdered(parts, i, i);
  }

  lemma OutputFilesApart(parts: seq<seq<Entry>>, first: nat, size: nat -> nat, i: nat, j: nat)
    requires NonEmpty(parts) && Sorted(Flatten(parts)) && i < j < |parts|
    ensures Before(OutputFile(parts[i], first + i, size(i)), OutputFile(parts[j], first + j, size(j)))
  {
    PartsOrdered(parts, i, j);
    assert parts[i][|parts[i]| - 1] in parts[i] && parts[j][0] in parts[j];
  }

  lemma OutputFilesEntries(parts: seq<seq<Entry>>, first: nat, size: nat -> nat)
    requires NonEmpty(parts)
    ensures FileEntries(OutputFiles(parts, first, size)) == Elems(Flatten(parts))
  {
    var outs := OutputFiles(parts, first, size);
    forall e | e in Flatten(parts)
      ensures e in FileEntries(outs)
    {
      var i := InSomePart(parts, e);
      assert OutputFile(parts[i], first + i, size(i)) in outs;
    }
    forall e | e in FileEntries(outs)
      ensures e in Flatten(parts)
    {
      var f :| f in outs && e in f.entries;
      var i :| 0 <= i < |parts| && f == OutputFile(parts[i], first + i, size(i));
      PartIn(parts, i, e);
    }
  }

  lemma OutputFrom(parts: seq<seq<Entry>>, first: nat, size: nat -> nat, o: File) returns (i: nat)
    requires NonEmpty(parts) && o in OutputFiles(parts, first, size)
    ensures i < |parts| && o == OutputFile(parts[i], first + i, size(i))
  {
    i :| 0 <= i < |parts| && o == OutputFile(parts[i], first + i, size(i));
  }

  lemma OutputFilesGood(parts: seq<seq<Entry>>, first: nat, size: nat -> nat)
    requires NonEmpty(parts) && Sorted(Flatten(parts))
    ensures var outs := OutputFiles(parts, first, size);
      && (forall o :: o in outs ==> FileOk(o) && first <= o.number < first + |parts|)
      && (forall o, p :: o in outs && p in outs && o != p ==> o.number != p.number && (Before(o, p) || Before(p, o)))
  {
    hide Sorted;
    hide Flatten;
    hide FileOk;
    hide Before;
    hide OutputFiles;
    var outs := OutputFiles(parts, first, size);
    forall o | o in outs
      ensures FileOk(o) && first <= o.number < first + |parts|
    {
      var i := OutputFrom(parts, first, size, o);
      OutputFileOk(parts, first, size, i);
    }
    forall o, p | o in outs && p in outs && o != p
      ensures o.number != p.number && (Before(o, p) || Before(p, o))
    {
      var i := OutputFrom(parts, first, size, o);
      var j := OutputFrom(parts, first, size, p);
      if i < j {
        OutputFilesApart(parts, first, size, i, j);
      } else {
        OutputFilesApart(parts, first, size, j, i);
      }
    }
  }

  /** However the loop's output is cut into files, they are outputs the state machine can install. */
  lemma CompactionFits(s: Db, level: nat, in0: set<File>, in1: set<File>, input: seq<Entry>, floor: nat,
                       parts: seq<seq<Entry>>, size: nat -> nat)
    requires s.running.None? && s.flush.Idle? && s.IsFloor(floor)
    requires SafeInputs(s.levels, level, in0, in1) &&
      (forall k: Bytes :: !Exposed(s.levels, level, in1, input, floor, k))
    requires Sorted(input) && Elems(input) == FileEntries(in0 + in1)
    requires NonEmpty(parts) && Flatten(parts) == Output(input, floor, s.levels, level)
    ensures CanBuildCompaction(s, Running(level, in0, in1, input, floor, s.levels,
      OutputFiles(parts, s.nextFile, size)), s.nextFile + |parts|)
  {
    hide SafeInputs;
    hide Exposed;
    hide OutputFiles;
    hide Flatten;
    hide FileEntries;
    hide FileOk;
    hide Before;
    hide Sorted;
    hide Kept;
    hide NonEmpty;
    KeptSorted(input, |input|, floor, s.levels, level);
    OutputFilesGood(parts, s.nextFile, size);
    OutputFilesEntries(parts, s.nextFile, size);
  }
}
