/** The selected inputs are safe to compact, and where a flushed table may go. */
module Selection {
  import opened Keys
  import opened Format
  import opened Levels
  import opened Inputs
  import opened Gaps
  import opened Setup
  import opened LevelOrder

  /** What a version's vectors look like: sorted levels below level 0, actual bounds, distinct numbers at level 0. */
  ghost predicate Vectors(files: seq<seq<File>>) {
    && |files| == NUM_LEVELS
    && (forall l :: 0 <= l < NUM_LEVELS ==> FilesOk(files[l]))
    && NoRepeats(files[0])
    && (forall l :: 1 <= l < NUM_LEVELS ==> Ordered(files[l]))
  }

  lemma VectorsAreTree(files: seq<seq<File>>)
    requires Vectors(files)
    ensures Tree(files)
  {
  }

  // ---- the level the inputs leave ---------------------------------------------

  /** In one sorted run, the file that comes first holds the newer entries of a shared user key. */
  lemma BeforeIsNewer(g: File, f: File, all: iset<Entry>)
    requires FileOk(f) && FileOk(g) && Before(g, f)
    requires Distinct(all) && Elems(f.entries) <= all && Elems(g.entries) <= all
    ensures Newer(g, f)
  {
  }

  lemma SliceMember(files: seq<File>, sel: seq<File>, a: nat, j: nat)
    requires Slice(files, sel, a) && j < |files|
    ensures a <= j < a + |sel| ==> files[j] in sel
  {
    if a <= j < a + |sel| {
      assert sel[j - a] == files[j];
    }
  }

  lemma AfterSlice(files: seq<File>, sel: seq<File>, a: nat, t: nat, j: nat)
    requires Run(files) && CleanSlice(files, sel, a) && t < |sel| && a + |sel| <= j < |files|
    ensures Apart(files[a + t], files[j])
  {
  }

  lemma LeftAtLevel(files: seq<File>, in0: seq<File>, a: nat, t: nat, j: nat, all: iset<Entry>)
    requires Ordered(files) && CleanSlice(files, in0, a)
    requires t < |in0| && j < |files| && files[j] !in in0
    requires Distinct(all) && Elems(files[a + t].entries) <= all && Elems(files[j].entries) <= all
    ensures Newer(files[j], files[a + t])
  {
    OkRanges(files);
    SliceMember(files, in0, a, j);
    if j < a {
      assert Before(files[j], files[a + t]);
      BeforeIsNewer(files[j], files[a + t], all);
    } else {
      AfterSlice(files, in0, a, t, j);
      ApartShareNothing(files[a + t], files[j]);
    }
  }

  // ---- the level the inputs enter ----------------------------------------------

  /** A file of the next level that is not an input lies before or after all inputs. */
  lemma LeftBelow(next: seq<File>, in0: seq<File>, in1: seq<File>, g: File)
    requires Ordered(next) && CoveredBelow(next, in0, in1) && RangesOk(in0)
    requires g in next && g !in in1
    ensures forall f :: f in in0 ==> Apart(f, g)
    ensures (forall f :: f in in0 + in1 ==> Before(g, f)) || (forall f :: f in in0 + in1 ==> Before(f, g))
  {
    OkRanges(next);
    var lo, hi :| LeastKey(in0, lo) && GreatestKey(in0, hi) && in1 == Overlapping(next, Some(lo.user), Some(hi.user));
    var x, y := OverlappingIsSlice(next, Some(lo.user), Some(hi.user));
    var j: nat :| j < |next| && next[j] == g;
    SliceMember(next, in1, x, j);
    if j < x {
      EarlySide(next, in0, in1, x, j, lo, hi);
    } else {
      LateSide(next, in0, in1, x, j, lo, hi);
    }
  }

  lemma EarlySide(next: seq<File>, in0: seq<File>, in1: seq<File>, x: nat, j: nat, lo: IKey, hi: IKey)
    requires Run(next) && RangesOk(in0) && LeastKey(in0, lo) && GreatestKey(in0, hi)
    requires Slice(next, in1, x) && j < x && TooEarly(next[j], Some(lo.user))
    ensures forall f :: f in in0 ==> Apart(f, next[j])
    ensures forall f :: f in in0 + in1 ==> Before(next[j], f)
  {
  }

  lemma LateSide(next: seq<File>, in0: seq<File>, in1: seq<File>, x: nat, j: nat, lo: IKey, hi: IKey)
    requires Run(next) && RangesOk(in0) && LeastKey(in0, lo) && GreatestKey(in0, hi)
    requires Slice(next, in1, x) && x + |in1| <= j < |next| && TooLate(next[j], Some(hi.user))
    ensures forall f :: f in in0 ==> Apart(f, next[j])
    ensures forall f :: f in in0 + in1 ==> Before(f, next[j])
  {
  }

  /** Whatever PickCompaction or CompactRange select can be compacted without breaking the level order. */
  lemma SelectedInputsAreSafe(files: seq<seq<File>>, level: nat, in0: seq<File>, in1: seq<File>)
    requires Vectors(files) && Distinct(Contents(ToSets(files))) && level + 1 < NUM_LEVELS
    requires Closed(level, files[level], in0) && CoveredBelow(files[level + 1], in0, in1)
    ensures SafeInputs(ToSets(files), level, SetOf(in0), SetOf(in1))
  {
    InputsWithin(level, files[level], in0);
    CoveredWithin(files[level + 1], in0, in1);
    LeftAboveNewer(files, level, in0);
    LeftBelowAll(files[level + 1], in0, in1, ToSets(files)[level + 1] - SetOf(in1));
  }

  lemma LeftAboveNewer(files: seq<seq<File>>, level: nat, in0: seq<File>)
    requires Vectors(files) && Distinct(Contents(ToSets(files))) && level + 1 < NUM_LEVELS
    requires Closed(level, files[level], in0)
    ensures forall f, g :: f in SetOf(in0) && g in ToSets(files)[level] - SetOf(in0) ==> Newer(g, f)
  {
    forall f, g | f in SetOf(in0) && g in ToSets(files)[level] - SetOf(in0)
      ensures Newer(g, f)
    {
      SelectedLevel(files, level, in0, f, g);
    }
  }

  lemma LeftBelowOutlies(next: seq<File>, in0: seq<File>, in1: seq<File>, g: File)
    requires Ordered(next) && RangesOk(in0) && CoveredBelow(next, in0, in1)
    requires g in next && g !in in1
    ensures Outlies(g, SetOf(in0) + SetOf(in1))
    ensures forall f :: f in SetOf(in0) ==> Apart(f, g)
  {
    LeftBelow(next, in0, in1, g);
    assert forall f :: f in SetOf(in0) + SetOf(in1) ==> f in in0 + in1;
  }

  lemma LeftBelowAll(next: seq<File>, in0: seq<File>, in1: seq<File>, left: set<File>)
    requires Ordered(next) && RangesOk(in0) && CoveredBelow(next, in0, in1)
    requires forall g :: g in left ==> g in next && g !in in1
    ensures forall g :: g in left ==> Outlies(g, SetOf(in0) + SetOf(in1))
    ensures forall f, g :: f in SetOf(in0) && g in left ==> Apart(f, g)
  {
    forall g | g in left
      ensures Outlies(g, SetOf(in0) + SetOf(in1))
      ensures forall f :: f in SetOf(in0) ==> Apart(f, g)
    {
      LeftBelowOutlies(next, in0, in1, g);
    }
  }

  lemma InputsWithin(level: nat, files: seq<File>, in0: seq<File>)
    requires FilesOk(files) && Closed(level, files, in0)
    ensures forall f :: f in in0 ==> f in files
    ensures RangesOk(in0)
  {
    OkRanges(files);
    forall i | 0 <= i < |in0|
      ensures in0[i] in files && RangeOk(in0[i])
    {
      ClosedIn(level, files, in0, in0[i]);
      var j :| 0 <= j < |files| && files[j] == in0[i];
    }
  }

  lemma CoveredWithin(next: seq<File>, in0: seq<File>, in1: seq<File>)
    requires CoveredBelow(next, in0, in1)
    ensures forall f :: f in in1 ==> f in next
  {
    var lo, hi :| LeastKey(in0, lo) && GreatestKey(in0, hi) && in1 == Overlapping(next, Some(lo.user), Some(hi.user));
    OverlappingExactly(next, Some(lo.user), Some(hi.user));
  }

  lemma FileContents(files: seq<seq<File>>, level: nat, f: File)
    requires level < |files| && f in files[level]
    ensures Elems(f.entries) <= Contents(ToSets(files))
  {
    assert f in ToSets(files)[level];
  }

  lemma SelectedLevel(files: seq<seq<File>>, level: nat, in0: seq<File>, f: File, g: File)
    requires Vectors(files) && Distinct(Contents(ToSets(files))) && level + 1 < NUM_LEVELS
    requires Closed(level, files[level], in0)
    requires f in in0 && g in files[level] && g !in in0
    ensures Newer(g, f)
  {
    ClosedIn(level, files[level], in0, f);
    assert FilesOk(files[level]);
    if level == 0 {
      ApartShareNothing(f, g);
    } else {
      var a :| CleanSlice(files[level], in0, a);
      FileContents(files, level, f);
      FileContents(files, level, g);
      var t: nat :| t < |in0| && in0[t] == f;
      var j: nat :| j < |files[level]| && files[level][j] == g;
      LeftAtLevel(files[level], in0, a, t, j, Contents(ToSets(files)));
    }
  }

  // ---- flush placement ------------------------------------------------------------

  /** Sequence numbers fit in 56 bits, so the seek key (k, MAX_SEQUENCE, Value) comes before every stored key of k. */
  ghost predicate BoundedKeys(files: seq<File>) {
    forall i :: 0 <= i < |files| ==> files[i].largest.sn <= MAX_SEQUENCE
  }

  /** In a sorted run, if file p is the first that does not end before lo, it decides the overlap. */
  lemma FirstDecides(files: seq<File>, p: nat, lo: Option<Bytes>, hi: Option<Bytes>)
    requires Run(files) && p <= |files|
    requires forall i :: 0 <= i < p ==> TooEarly(files[i], lo)
    requires forall i :: p <= i < |files| ==> !TooEarly(files[i], lo)
    ensures (exists f :: f in files && Overlaps(f, lo, hi)) <==> p < |files| && !TooLate(files[p], hi)
  {
    forall f | f in files && Overlaps(f, lo, hi)
      ensures p < |files| && !TooLate(files[p], hi)
    {
      var i :| 0 <= i < |files| && files[i] == f;
      assert p <= i;
      OrderedUsers(files, p, i);
    }
    if p < |files| && !TooLate(files[p], hi) {
      assert files[p] in files && Overlaps(files[p], lo, hi);
    }
  }

  /** Linear over overlapping files, by binary search over a sorted level. */
  method SomeFileOverlapsRange(disjointSorted: bool, files: seq<File>, lo: Option<Bytes>, hi: Option<Bytes>)
    returns (r: bool)
    requires FilesOk(files) && BoundedKeys(files) && (disjointSorted ==> Ordered(files))
    ensures r <==> exists f :: f in files && Overlaps(f, lo, hi)
  {
    if !disjointSorted {
      for i := 0 to |files|
        invariant forall j :: 0 <= j < i ==> !Overlaps(files[j], lo, hi)
      {
        if Overlaps(files[i], lo, hi) {
          assert files[i] in files;
          return true;
        }
      }
      return false;
    }
    OkRanges(files);
    var index := 0;
    if lo.Some? {
      index := FindFile(files, IKey(lo.value, MAX_SEQUENCE, Value));
    }
    FirstDecides(files, index, lo, hi);
    r := index < |files| && !TooLate(files[index], hi);
  }

  /** Some file of level l has keys in the range. */
  predicate InTheWay(files: seq<seq<File>>, l: nat, lo: Bytes, hi: Bytes)
    requires l < |files|
  {
    exists f :: f in files[l] && Overlaps(f, Some(lo), Some(hi))
  }

  /** From level l the table may go one further: nothing in its way there, and not too much one level below that. */
  predicate MayPush(files: seq<seq<File>>, l: nat, lo: Bytes, hi: Bytes, maxOverlap: nat)
    requires l + 2 < |files|
  {
    !InTheWay(files, l + 1, lo, hi) && TotalFileSize(Overlapping(files[l + 2], Some(lo), Some(hi))) <= maxOverlap
  }

  /** Push the table down while the next level holds nothing in its range and the level after not too much. */
  method PickLevelForMemTableOutput(files: seq<seq<File>>, lo: Bytes, hi: Bytes, maxOverlap: nat) returns (level: nat)
    requires Vectors(files) && forall l :: 0 <= l < NUM_LEVELS ==> BoundedKeys(files[l])
    ensures level <= MAX_MEM_COMPACT_LEVEL
    ensures level > 0 ==> forall l, f :: 0 <= l <= level && f in files[l] ==> !Overlaps(f, Some(lo), Some(hi))
    ensures InTheWay(files, 0, lo, hi) ==> level == 0
    ensures !InTheWay(files, 0, lo, hi) ==> forall l :: 0 <= l < level ==> MayPush(files, l, lo, hi, maxOverlap)
    ensures !InTheWay(files, 0, lo, hi) && level < MAX_MEM_COMPACT_LEVEL ==> !MayPush(files, level, lo, hi, maxOverlap)
  {
    level := 0;
    var overlap := SomeFileOverlapsRange(false, files[0], Some(lo), Some(hi));
    if !overlap {
      while level < MAX_MEM_COMPACT_LEVEL
        invariant level <= MAX_MEM_COMPACT_LEVEL
        invariant forall l, f :: 0 <= l <= level && f in files[l] ==> !Overlaps(f, Some(lo), Some(hi))
        invariant forall l :: 0 <= l < level ==> MayPush(files, l, lo, hi, maxOverlap)
      {
        overlap := SomeFileOverlapsRange(true, files[level + 1], Some(lo), Some(hi));
        if overlap {
          break;
        }
        var below := GetOverlappingInputs(level + 2, files[level + 2], Some(lo), Some(hi));
        if TotalFileSize(below) > maxOverlap {
          break;
        }
        level := level + 1;
      }
    }
  }

  const MAX_MEM_COMPACT_LEVEL := 2

  /** The picked level is one where FlushKeepsOrder applies. */
  lemma PickedLevelIsClear(files: seq<seq<File>>, level: nat, f: File)
    requires level < |files|
    requires level > 0 ==> forall l, g :: 0 <= l <= level && g in files[l] ==>
      !Overlaps(g, Some(f.smallest.user), Some(f.largest.user))
    ensures ClearDownTo(ToSets(files), level, f)
  {
    forall l, g | 0 <= l <= level && g in ToSets(files)[l] && level > 0
      ensures Apart(f, g)
    {
      assert g in files[l];
      assert !Overlaps(g, Some(f.smallest.user), Some(f.largest.user));
      assert TooEarly(g, Some(f.smallest.user)) || TooLate(g, Some(f.largest.user));
    }
  }
}
