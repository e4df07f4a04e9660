/** The compaction loop itself, with its base-level cursor, and the files it cuts its output into. */
module CompactionWork {
  import opened Keys
  import opened Format
  import opened Levels
  import opened Compaction
  import Merger

  class BaseLevelCursor {
    const level: nat
    const files: seq<seq<File>>
    const ptrs: array<nat>
    ghost var seen: Option<Bytes>

    /** Every file a pointer has passed ends before the last key asked about. */
    ghost predicate Valid()
      reads this, ptrs
    {
      && |files| == NUM_LEVELS == ptrs.Length
      && (forall l :: 1 <= l < NUM_LEVELS ==> Ordered(files[l]))
      && (forall l :: 0 <= l < NUM_LEVELS ==> ptrs[l] <= |files[l]|)
      && (forall l, i :: 0 <= l < NUM_LEVELS && 0 <= i < ptrs[l] ==>
            seen.Some? && Rank(files[l][i].largest.user) < Rank(seen.value))
    }

    constructor (level: nat, files: seq<seq<File>>)
      requires |files| == NUM_LEVELS
      requires forall l :: 1 <= l < NUM_LEVELS ==> Ordered(files[l])
      ensures Valid() && this.level == level && this.files == files && seen == None
      ensures fresh(ptrs)
    {
      this.level := level;
      this.files := files;
      seen := None;
      ptrs := new nat[NUM_LEVELS](_ => 0);
    }

    /** One level's part of IsBaseLevelForKey: move the pointer past files that end before k, then look at one file. */
    method LevelHolds(lvl: nat, k: Bytes) returns (r: bool)
      requires Valid() && 1 <= lvl < NUM_LEVELS && seen == Some(k)
      modifies ptrs
      ensures Valid()
      ensures r <==> exists f :: f in files[lvl] && Covers(f, k)
    {
      while ptrs[lvl] < |files[lvl]|
        invariant Valid()
        decreases |files[lvl]| - ptrs[lvl]
      {
        var f := files[lvl][ptrs[lvl]];
        if Rank(k) <= Rank(f.largest.user) {
          r := Rank(k) >= Rank(f.smallest.user);
          NoOtherCovers(files[lvl], ptrs[lvl], k);
          return;
        }
        ptrs[lvl] := ptrs[lvl] + 1;
      }
      NoneCovers(files[lvl], k);
      r := false;
    }

    static lemma NoneCovers(fs: seq<File>, k: Bytes)
      requires forall i :: 0 <= i < |fs| ==> Rank(fs[i].largest.user) < Rank(k)
      ensures forall f :: f in fs ==> !Covers(f, k)
    {
    }

    static lemma NoOtherCovers(fs: seq<File>, p: nat, k: Bytes)
      requires Ordered(fs) && p < |fs|
      requires forall i :: 0 <= i < p ==> Rank(fs[i].largest.user) < Rank(k)
      requires Rank(k) <= Rank(fs[p].largest.user)
      ensures (exists f :: f in fs && Covers(f, k)) <==> Rank(fs[p].smallest.user) <= Rank(k)
    {
      if Rank(fs[p].smallest.user) <= Rank(k) {
        assert fs[p] in fs && Covers(fs[p], k);
      } else {
        forall f | f in fs
          ensures !Covers(f, k)
        {
          var j :| 0 <= j < |fs| && fs[j] == f;
          Bounds(fs[j]);
          if p < j {
            assert Before(fs[p], fs[j]);
          }
        }
      }
    }

    /** Correct because a compaction asks about user keys in ascending order. */
    method IsBaseLevelForKey(k: Bytes) returns (r: bool)
      requires Valid()
      requires seen.Some? ==> Rank(seen.value) <= Rank(k)
      modifies this`seen, ptrs
      ensures Valid() && seen == Some(k)
      ensures r <==> BaseLevel(ToSets(files), level, k)
    {
      seen := Some(k);
      var lvl := level + 2;
      while lvl < NUM_LEVELS
        invariant level + 2 <= lvl && Valid() && seen == Some(k)
        invariant forall l, f :: level + 2 <= l < lvl && l < NUM_LEVELS && f in files[l] ==> !Covers(f, k)
      {
        var holds := LevelHolds(lvl, k);
        if holds {
          ghost var f :| f in files[lvl] && Covers(f, k);
          assert f in ToSets(files)[lvl];
          return false;
        }
        lvl := lvl + 1;
      }
      assert forall l, f :: level + 2 <= l < NUM_LEVELS && f in ToSets(files)[l] ==> f in files[l];
      r := true;
    }
  }

  function Flatten(parts: seq<seq<Entry>>): seq<Entry> {
    if parts == [] then [] else Flatten(parts[..|parts| - 1]) + parts[|parts| - 1]
  }

  lemma FlattenAppend(parts: seq<seq<Entry>>, p: seq<Entry>)
    ensures Flatten(parts + [p]) == Flatten(parts) + p
  {
  }

  /** The branch on one entry: last is the sequence number of the previous entry of the same user key. */
  method ShouldDrop(c: BaseLevelCursor, e: Entry, ghost input: seq<Entry>, floor: nat, last: nat) returns (drop: bool)
    requires c.Valid() && floor < MAX_SEQUENCE
    requires c.seen.Some? ==> Rank(c.seen.value) <= Rank(e.ik.user)
    requires last == if input != [] && input[|input| - 1].ik.user == e.ik.user then input[|input| - 1].ik.sn
      else MAX_SEQUENCE
    modifies c`seen, c.ptrs
    ensures c.Valid()
    ensures c.seen == old(c.seen) || c.seen == Some(e.ik.user)
    ensures drop <==> !Keep(input + [e], |input|, floor, ToSets(c.files), c.level)
  {
    if last <= floor {
      drop := true;
    } else if e.ik.kind.Deletion? && e.ik.sn <= floor {
      drop := c.IsBaseLevelForKey(e.ik.user);
    } else {
      drop := false;
    }
  }

  /** FinishCompactionOutputFile: the open file, if any, joins the outputs. */
  method FinishOutput(outputs: seq<seq<Entry>>, builder: seq<Entry>) returns (r: seq<seq<Entry>>)
    requires NonEmpty(outputs)
    ensures NonEmpty(r) && Flatten(r) == Flatten(outputs) + builder
  {
    if builder == [] {
      r := outputs;
    } else {
      FlattenAppend(outputs, builder);
      r := outputs + [builder];
    }
  }

  /** Add one surviving entry, closing the file before or after it as the size limits ask. */
  method Emit(outputs: seq<seq<Entry>>, builder: seq<Entry>, e: Entry, close: bool)
    returns (r: seq<seq<Entry>>, open: seq<Entry>)
    requires NonEmpty(outputs)
    ensures NonEmpty(r) && Flatten(r) + open == Flatten(outputs) + builder + [e]
  {
    if close {
      r := FinishOutput(outputs, builder + [e]);
      open := [];
    } else {
      r, open := outputs, builder + [e];
    }
  }

  predicate NonEmpty(parts: seq<seq<Entry>>) {
    forall p :: p in parts ==> |p| > 0
  }

  /** The loop's variables: finished files, the open file, and the last user key and sequence number met. */
  datatype Work = Work(outputs: seq<seq<Entry>>, builder: seq<Entry>, current: Option<Bytes>, last: nat)

  /** The loop has handled the entries of input. */
  ghost predicate Progress(c: BaseLevelCursor, w: Work, input: seq<Entry>, floor: nat)
    reads c, c.ptrs
  {
    && c.Valid()
    && w.current == (if input == [] then None else Some(input[|input| - 1].ik.user))
    && (input != [] ==> w.last == input[|input| - 1].ik.sn)
    && (c.seen.Some? ==> w.current.Some? && Rank(c.seen.value) <= Rank(w.current.value))
    && Flatten(w.outputs) + w.builder == Output(input, floor, ToSets(c.files), c.level)
    && NonEmpty(w.outputs)
  }

  lemma {:induction false} KeptAgain(input: seq<Entry>, e: Entry, n: nat, floor: nat, v: LevelSets, level: nat)
    requires n <= |input|
    ensures Kept(input + [e], n, floor, v, level) == Kept(input, n, floor, v, level)
  {
    if n > 0 {
      KeptAgain(input, e, n - 1, floor, v, level);
    }
  }

  lemma OutputGrows(input: seq<Entry>, e: Entry, floor: nat, v: LevelSets, level: nat)
    ensures Output(input + [e], floor, v, level) ==
      Output(input, floor, v, level) + (if Keep(input + [e], |input|, floor, v, level) then [e] else [])
  {
    KeptAgain(input, e, |input|, floor, v, level);
  }

  /** One turn of the loop, on the next entry. */
  method Step(c: BaseLevelCursor, w: Work, e: Entry, ghost input: seq<Entry>, floor: nat, before: bool, after: bool)
    returns (w': Work)
    requires Sorted(input + [e]) && floor < MAX_SEQUENCE
    requires Progress(c, w, input, floor)
    modifies c`seen, c.ptrs
    ensures Progress(c, w', input + [e], floor)
  {
    var outputs, builder := w.outputs, w.builder;
    if before && builder != [] {
      outputs := FinishOutput(outputs, builder);
      builder := [];
    }
    var last := w.last;
    if w.current != Some(e.ik.user) {
      last := MAX_SEQUENCE;
    }
    assert input != [] ==> ILess((input + [e])[|input| - 1].ik, (input + [e])[|input|].ik);
    var drop := ShouldDrop(c, e, input, floor, last);
    OutputGrows(input, e, floor, ToSets(c.files), c.level);
    if !drop {
      outputs, builder := Emit(outputs, builder, e, after);
    }
    w' := Work(outputs, builder, Some(e.ik.user), e.ik.sn);
  }

  // ---- the loop over the merged inputs ---------------------------------------------------------

  /** input is what an iterator over all, now at an entry or at its end, has passed: sorted, and everything else
      ahead. */
  ghost predicate Passed(all: set<Entry>, at: Option<Entry>, input: seq<Entry>) {
    && Sorted(input) && (at.Some? ==> at.value in all)
    && (forall e :: e in input ==> e in all && (at.Some? ==> ILess(e.ik, at.value.ik)))
    && (forall e :: e in all && e !in input ==> at.Some? && ILeq(at.value.ik, e.ik))
  }

  ghost predicate OnePerKey(all: set<Entry>) {
    forall x, y :: x in all && y in all && x.ik == y.ik ==> x == y
  }

  /** next is the first entry of all past at, or there is none. */
  ghost predicate Follows(all: set<Entry>, at: Entry, next: Option<Entry>) {
    && (next.Some? ==> next.value in all && ILess(at.ik, next.value.ik))
    && (forall e :: e in all && ILess(at.ik, e.ik) ==> next.Some? && ILeq(next.value.ik, e.ik))
  }

  lemma PassOne(all: set<Entry>, at: Entry, next: Option<Entry>, input: seq<Entry>)
    requires Passed(all, Some(at), input) && OnePerKey(all) && Follows(all, at, next)
    ensures Passed(all, next, input + [at])
    ensures at !in input
  {
  }

  ghost function Left(all: set<Entry>, input: seq<Entry>): set<Entry> {
    set e | e in all && e !in input
  }

  lemma OneFewer(all: set<Entry>, input: seq<Entry>, e: Entry)
    requires e in all && e !in input
    ensures Left(all, input + [e]) < Left(all, input)
  {
    assert e in Left(all, input) && e !in Left(all, input + [e]);
  }

  /** Next, as the loop uses it. */
  method Advance(it: Merger.MergingIterator, ghost input: seq<Entry>)
    requires it.Ok() && it.Valid() && Passed(it.All(), it.At(), input)
    modifies it.Footprint()
    ensures it.Ok() && Passed(it.All(), it.At(), input + [old(it.Current())])
    ensures Left(it.All(), input + [old(it.Current())]) < Left(it.All(), input)
    ensures Sorted(input + [old(it.Current())])
  {
    hide Passed;
    ghost var e := it.Current();
    it.UnionKeys();
    it.Next();
    assert Follows(it.All(), e, it.At());
    PassOne(it.All(), e, it.At(), input);
    OneFewer(it.All(), input, e);
    PassedSorted(it.All(), it.At(), input + [e]);
  }

  lemma PassedSorted(all: set<Entry>, at: Option<Entry>, input: seq<Entry>)
    requires Passed(all, at, input)
    ensures Sorted(input) && (at.None? ==> forall e :: e in input <==> e in all)
  {
  }

  lemma NonePassed(all: set<Entry>, at: Option<Entry>)
    requires at.Some? ==> at.value in all
    requires forall e :: e in all ==> at.Some? && ILeq(at.value.ik, e.ik)
    ensures Passed(all, at, [])
  {
  }

  /** The loop's invariant: input has been read off the iterator and handled. */
  ghost predicate Working(c: BaseLevelCursor, it: Merger.MergingIterator, w: Work, input: seq<Entry>, floor: nat)
    reads c, c.ptrs, it.Footprint()
  {
    it.Ok() && Passed(it.All(), it.At(), input) && Progress(c, w, input, floor)
  }

  method BeginWork(c: BaseLevelCursor, it: Merger.MergingIterator, ghost floor: nat) returns (w: Work)
    requires c.Valid() && c.seen == None && it.Ok() && {c, c.ptrs} !! it.Footprint()
    modifies it.Footprint()
    ensures Working(c, it, w, [], floor)
  {
    it.SeekToFirst();
    NonePassed(it.All(), it.At());
    w := Work([], [], None, MAX_SEQUENCE);
  }

  method Turn(c: BaseLevelCursor, it: Merger.MergingIterator, w: Work, ghost input: seq<Entry>, floor: nat,
          before: bool, after: bool)
    returns (w': Work, ghost input': seq<Entry>)
    requires Working(c, it, w, input, floor) && it.Valid() && {c, c.ptrs} !! it.Footprint() && floor < MAX_SEQUENCE
    modifies c`seen, c.ptrs, it.Footprint()
    ensures Working(c, it, w', input', floor)
    ensures Left(it.All(), input') < Left(it.All(), input)
  {
    hide Passed;
    hide Progress;
    hide Sorted;
    var e := it.Current();
    input' := input + [e];
    Advance(it, input);
    w' := Step(c, w, e, input, floor, before, after);
  }

  method EndWork(c: BaseLevelCursor, it: Merger.MergingIterator, w: Work, ghost input: seq<Entry>, ghost floor: nat)
    returns (outputs: seq<seq<Entry>>)
    requires Working(c, it, w, input, floor) && !it.Valid()
    ensures Sorted(input) && forall e :: e in input <==> it.Holds(e)
    ensures Flatten(outputs) == Output(input, floor, ToSets(c.files), c.level) && NonEmpty(outputs)
  {
    PassedSorted(it.All(), it.At(), input);
    outputs := FinishOutput(w.outputs, w.builder);
  }

  /** The loop of DoCompactionWork: it drains the merging iterator and writes what the drop rules keep. The size limits
      that close an output file are the two oracles cutBefore (ShouldStopBefore) and cutAfter (the file reached its
      maximum size). input tells what the iterator yielded. */
  method DoCompactionWork(c: BaseLevelCursor, it: Merger.MergingIterator, floor: nat, cutBefore: nat -> bool,
          cutAfter: nat -> bool)
    returns (outputs: seq<seq<Entry>>, ghost input: seq<Entry>)
    requires c.Valid() && c.seen == None && it.Ok() && {c, c.ptrs} !! it.Footprint()
    requires floor < MAX_SEQUENCE
    modifies c`seen, c.ptrs, it.Footprint()
    ensures Sorted(input) && forall e :: e in input <==> it.Holds(e)
    ensures Flatten(outputs) == Output(input, floor, ToSets(c.files), c.level)
    ensures NonEmpty(outputs)
  {
    hide *;
    var w := BeginWork(c, it, floor);
    var i := 0;
    input := [];
    while it.Valid()
      invariant Working(c, it, w, input, floor)
      decreases Left(it.All(), input)
    {
      w, input := Turn(c, it, w, input, floor, cutBefore(i), cutAfter(i));
      i := i + 1;
    }
    outputs := EndWork(c, it, w, input, floor);
  }

  // ---- the output files --------------------------------------------------

  lemma {:induction false} PartIn(parts: seq<seq<Entry>>, n: nat, e: Entry)
    requires n < |parts| && e in parts[n]
    ensures e in Flatten(parts)
  {
    if n < |parts| - 1 {
      PartIn(parts[..|parts| - 1], n, e);
    }
  }

  lemma {:induction false} InSomePart(parts: seq<seq<Entry>>, e: Entry) returns (n: nat)
    requires e in Flatten(parts)
    ensures n < |parts| && e in parts[n]
  {
    if e in parts[|parts| - 1] {
      n := |parts| - 1;
    } else {
      n := InSomePart(parts[..|parts| - 1], e);
    }
  }

  /** Cutting a sorted run anywhere yields sorted files, each wholly before the next. */
  lemma {:induction false} PartsOrdered(parts: seq<seq<Entry>>, n: nat, m: nat)
    requires Sorted(Flatten(parts)) && n <= m < |parts|
    ensures n == m ==> Sorted(parts[n])
    ensures n < m ==> forall a, b :: a in parts[n] && b in parts[m] ==> ILess(a.ik, b.ik)
  {
    var k := |parts| - 1;
    var front := parts[..k];
    var all := Flatten(parts);
    assert all == Flatten(front) + parts[k];
    if m < k {
      assert forall i :: 0 <= i < |Flatten(front)| ==> Flatten(front)[i] == all[i];
      PartsOrdered(front, n, m);
    } else if n == m {
      assert forall i :: 0 <= i < |parts[k]| ==> parts[k][i] == all[|Flatten(front)| + i];
    } else {
      forall a, b | a in parts[n] && b in parts[m]
        ensures ILess(a.ik, b.ik)
      {
        PartIn(front, n, a);
        var i :| 0 <= i < |Flatten(front)| && Flatten(front)[i] == a;
        var j :| 0 <= j < |parts[k]| && parts[k][j] == b;
        assert all[i] == a && all[|Flatten(front)| + j] == b;
      }
    }
  }
}
