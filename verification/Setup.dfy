/** PickCompaction, CompactRange and SetupOtherInputs: which files a compaction reads, and why that set is safe. */
module Setup {
  import opened Keys
  import opened Format
  import opened Levels
  import opened Inputs
  import opened Gaps

  ghost predicate Tree(files: seq<seq<File>>) {
    && |files| == NUM_LEVELS
    && RangesOk(files[0]) && NoRepeats(files[0])
    && forall l :: 1 <= l < NUM_LEVELS ==> Run(files[l])
  }

  function TotalFileSize(files: seq<File>): nat {
    if files == [] then 0 else files[0].size + TotalFileSize(files[1..])
  }

  /** What the first selection gives: a closed set at level 0, a block of consecutive files elsewhere. */
  ghost predicate Seed(level: nat, files: seq<File>, sel: seq<File>) {
    && sel != [] && NoRepeats(sel) && RangesOk(sel)
    && (level == 0 ==> UserClosed(files, sel))
    && (level > 0 ==> exists a :: Slice(files, sel, a))
  }

  /** A block whose next file starts with a later user key than the block ends with. */
  ghost predicate CleanSlice(files: seq<File>, sel: seq<File>, a: nat) {
    && sel != [] && Slice(files, sel, a)
    && (a + |sel| < |files| ==> Rank(files[a + |sel| - 1].largest.user) < Rank(files[a + |sel|].smallest.user))
  }

  ghost predicate Closed(level: nat, files: seq<File>, sel: seq<File>) {
    && sel != []
    && (level == 0 ==> UserClosed(files, sel))
    && (level > 0 ==> exists a :: CleanSlice(files, sel, a))
  }

  lemma OrderedNoRepeats(files: seq<File>)
    requires Run(files)
    ensures NoRepeats(files)
  {
    forall i, j | 0 <= i < j < |files|
      ensures files[i] != files[j]
    {
      OrderedUsers(files, i, j);
    }
  }

  /** Among the first n files: x end too early, then those overlapping, then those that start too late. */
  ghost predicate Cut(files: seq<File>, n: nat, b: Option<Bytes>, e: Option<Bytes>, x: nat, y: nat) {
    && x <= y <= n <= |files|
    && (forall i :: 0 <= i < x ==> TooEarly(files[i], b))
    && (forall i :: x <= i < y ==> Overlaps(files[i], b, e))
    && (forall i :: y <= i < n ==> TooLate(files[i], e) && !TooEarly(files[i], b))
  }

  /** The user-key bounds of consecutive files of a sorted run. */
  lemma NeighbourBounds(files: seq<File>, n: nat)
    requires Run(files) && n < |files|
    ensures Rank(files[n].smallest.user) <= Rank(files[n].largest.user)
    ensures 0 < n ==> Rank(files[n - 1].smallest.user) <= Rank(files[n - 1].largest.user)
    ensures 0 < n ==> Rank(files[n - 1].largest.user) <= Rank(files[n].smallest.user)
  {
  }

  lemma CutStep(files: seq<File>, n: nat, b: Option<Bytes>, e: Option<Bytes>, x: nat, y: nat) returns (x': nat, y': nat)
    requires n < |files| && Cut(files, n, b, e, x, y)
    requires Rank(files[n].smallest.user) <= Rank(files[n].largest.user)
    requires 0 < n ==> Rank(files[n - 1].smallest.user) <= Rank(files[n - 1].largest.user)
    requires 0 < n ==> Rank(files[n - 1].largest.user) <= Rank(files[n].smallest.user)
    ensures Cut(files, n + 1, b, e, x', y')
  {
    x', y' := x, y;
    if y == n && x == n && TooEarly(files[n], b) {
      x', y' := n + 1, n + 1;
    } else if y == n && !TooLate(files[n], e) {
      y' := n + 1;
    }
  }

  lemma {:induction false} CutIsOverlapping(files: seq<File>, n: nat, b: Option<Bytes>, e: Option<Bytes>, x: nat,
          y: nat)
    requires Cut(files, n, b, e, x, y)
    ensures |OverlappingFirst(files, n, b, e)| == y - x
    ensures Slice(files, OverlappingFirst(files, n, b, e), x)
  {
    if n > 0 {
      if y < n {
        CutIsOverlapping(files, n - 1, b, e, x, y);
      } else if x == n {
        CutIsOverlapping(files, n - 1, b, e, n - 1, n - 1);
      } else {
        CutIsOverlapping(files, n - 1, b, e, x, n - 1);
      }
    }
  }

  /** In a sorted run the files overlapping a range are consecutive, those before end too early, those after start too
      late. */
  lemma OverlappingIsSlice(files: seq<File>, b: Option<Bytes>, e: Option<Bytes>) returns (x: nat, y: nat)
    requires Run(files)
    ensures x <= y <= |files| && |Overlapping(files, b, e)| == y - x
    ensures Slice(files, Overlapping(files, b, e), x)
    ensures forall i :: 0 <= i < x ==> TooEarly(files[i], b)
    ensures forall i :: y <= i < |files| ==> TooLate(files[i], e)
  {
    x, y := 0, 0;
    for n := 0 to |files|
      invariant Cut(files, n, b, e, x, y)
    {
      NeighbourBounds(files, n);
      x, y := CutStep(files, n, b, e, x, y);
    }
    CutIsOverlapping(files, |files|, b, e, x, y);
  }

  lemma {:induction false} OverlappingNoRepeats(files: seq<File>, n: nat, b: Option<Bytes>, e: Option<Bytes>)
    requires NoRepeats(files) && n <= |files|
    ensures NoRepeats(OverlappingFirst(files, n, b, e))
  {
    if n > 0 {
      OverlappingNoRepeats(files, n - 1, b, e);
      OverlappingFirstExactly(files, n - 1, b, e, files[n - 1]);
    }
  }

  lemma OverlappingClosed(files: seq<File>, b: Option<Bytes>, e: Option<Bytes>)
    requires RangeClosed(files, b, e)
    ensures UserClosed(files, Overlapping(files, b, e))
  {
    var sel := Overlapping(files, b, e);
    forall f, g | f in sel && g in files && g !in sel
      ensures Apart(f, g)
    {
      OverlappingFirstExactly(files, |files|, b, e, f);
      OverlappingFirstExactly(files, |files|, b, e, g);
    }
    forall f | f in sel
      ensures f in files
    {
      OverlappingFirstExactly(files, |files|, b, e, f);
    }
  }

  lemma OverlappingRangesOk(files: seq<File>, b: Option<Bytes>, e: Option<Bytes>)
    requires RangesOk(files)
    ensures RangesOk(Overlapping(files, b, e))
  {
    var sel := Overlapping(files, b, e);
    forall i | 0 <= i < |sel|
      ensures RangeOk(sel[i])
    {
      OverlappingFirstExactly(files, |files|, b, e, sel[i]);
    }
  }

  /** Both first selections come from GetOverlappingInputs; this is why each is a seed. */
  lemma OverlappingSeed(level: nat, files: seq<File>, b: Option<Bytes>, e: Option<Bytes>)
    requires RangesOk(files) && NoRepeats(files)
    requires level == 0 ==> RangeClosed(files, b, e)
    requires level > 0 ==> Run(files)
    requires Overlapping(files, b, e) != []
    ensures Seed(level, files, Overlapping(files, b, e))
  {
    OverlappingNoRepeats(files, |files|, b, e);
    OverlappingRangesOk(files, b, e);
    if level == 0 {
      OverlappingClosed(files, b, e);
    } else {
      var x, y := OverlappingIsSlice(files, b, e);
      assert Slice(files, Overlapping(files, b, e), x);
    }
  }

  // ---- AddBoundaryInputs closes a seed -------------------------------------

  lemma SliceIsClean(files: seq<File>, sel: seq<File>, a: nat, k: IKey)
    requires Run(files) && sel != [] && Slice(files, sel, a) && GreatestKey(sel, k)
    requires forall f :: f in files ==> !Boundary(f, k)
    ensures CleanSlice(files, sel, a)
  {
    GreatestOfSlice(files, sel, a, k);
    var n := a + |sel|;
    if n < |files| {
      OrderedUsers(files, n - 1, n);
      assert Before(files[n - 1], files[n]);
      assert files[n] in files;
    }
  }

  /** AddBoundaryInputs on a seed. */
  method CloseInputs(files: seq<seq<File>>, level: nat, seed: seq<File>) returns (r: seq<File>)
    requires Tree(files) && level < NUM_LEVELS && Seed(level, files[level], seed)
    ensures Closed(level, files[level], r) && seed <= r
    ensures NoRepeats(r) && RangesOk(r)
    ensures forall i :: |seed| <= i < |r| ==> Continues(files[level], r[..i], r[i])
  {
    ghost var a: nat := 0;
    if level > 0 {
      a :| Slice(files[level], seed, a);
    }
    r := AddBoundaryInputs(files[level], seed, a);
    if level > 0 {
      ghost var k :| GreatestKey(r, k) && forall f :: f in files[level] ==> !Boundary(f, k);
      SliceIsClean(files[level], r, a, k);
    }
  }

  // ---- the two halves of the input ------------------------------------------

  /** in1 is exactly the next level's files overlapping the user-key range of in0. */
  ghost predicate CoveredBelow(next: seq<File>, in0: seq<File>, in1: seq<File>) {
    exists lo, hi :: LeastKey(in0, lo) && GreatestKey(in0, hi) && in1 == Overlapping(next, Some(lo.user), Some(hi.user))
  }

  /** The level+1 files for a set of level files (GetRange, then GetOverlappingInputs). */
  method OverlapBelow(files: seq<seq<File>>, level: nat, in0: seq<File>) returns (in1: seq<File>)
    requires level + 1 < |files| && in0 != []
    ensures CoveredBelow(files[level + 1], in0, in1)
  {
    var lo := FindSmallestKey(in0);
    var hi := FindLargestKey(in0);
    in1 := GetOverlappingInputs(level + 1, files[level + 1], Some(lo.user), Some(hi.value.user));
  }

  lemma InOwnRange(sel: seq<File>, f: File, lo: IKey, hi: IKey)
    requires f in sel && RangeOk(f) && LeastKey(sel, lo) && GreatestKey(sel, hi)
    ensures Overlaps(f, Some(lo.user), Some(hi.user))
  {
  }

  /** r has every level file that overlaps the user-key range of the files in both. */
  ghost predicate CoversBoth(files: seq<File>, both: seq<File>, r: seq<File>) {
    exists lo, hi :: LeastKey(both, lo) && GreatestKey(both, hi) &&
      forall f :: f in files && Overlaps(f, Some(lo.user), Some(hi.user)) ==> f in r
  }

  lemma SeedCovers(files: seq<File>, both: seq<File>, seed: seq<File>, r: seq<File>, lo: IKey, hi: IKey,
          b: Option<Bytes>, e: Option<Bytes>)
    requires LeastKey(both, lo) && GreatestKey(both, hi) && seed == Overlapping(files, b, e) && seed <= r
    requires Includes(b, e, Some(lo.user), Some(hi.user))
    ensures CoversBoth(files, both, r)
  {
    hide Overlapping;
    OverlappingExactly(files, b, e);
    forall f | f in files && Overlaps(f, Some(lo.user), Some(hi.user))
      ensures f in r
    {
      assert f in seed;
    }
  }

  /** The wider choice opens no gap either: it reaches into the range of both halves, or grows from what does. */
  lemma ExpansionIsGapless(files: seq<seq<File>>, level: nat, in0: seq<File>, in1: seq<File>, seed: seq<File>,
          r: seq<File>,
                           lo: IKey, hi: IKey, b: Option<Bytes>, e: Option<Bytes>)
    requires Tree(files) && level < NUM_LEVELS && Closed(level, files[level], in0)
    requires LeastKey(in0 + in1, lo) && GreatestKey(in0 + in1, hi) && seed <= r && RangesOk(r)
    requires ExactInputs(level, files[level], Some(lo.user), Some(hi.user), b, e, seed)
    requires forall i :: |seed| <= i < |r| ==> Continues(files[level], r[..i], r[i])
    ensures (forall f :: f in in1 ==> RangeOk(f)) && Gapless(SetOf(in0 + in1)) ==> Gapless(SetOf(in0 + in1) + SetOf(r))
  {
    hide Continues;
    hide Gapless;
    hide Closed;
    if (forall f :: f in in1 ==> RangeOk(f)) && Gapless(SetOf(in0 + in1)) {
      forall f | f in in0 + in1
        ensures RangeOk(f)
      {
        if f in in0 {
          ClosedIn(level, files[level], in0, f);
          TreeFile(files, level, f);
        }
      }
      HullOf(in0 + in1, lo, hi);
      SelectionIsGapless(files, level, SetOf(in0 + in1), lo.user, hi.user, b, e, seed);
      BoundaryIsGapless(files[level], SetOf(in0 + in1), seed, r);
    }
  }

  /** What GetOverlappingInputs selects around a gapless set opens no gap. */
  lemma SelectionIsGapless(files: seq<seq<File>>, level: nat, s: set<File>, lo: Bytes, hi: Bytes, b: Option<Bytes>,
          e: Option<Bytes>, seed: seq<File>)
    requires Tree(files) && level < NUM_LEVELS && Gapless(s) && Hull(s, lo, hi)
    requires ExactInputs(level, files[level], Some(lo), Some(hi), b, e, seed)
    ensures Gapless(s + SetOf(seed))
  {
    hide Gapless;
    hide Hull;
    if level == 0 {
      ClosureIsGapless(files[0], s, lo, hi, b, e, seed);
    } else {
      OverlappingExactly(files[level], b, e);
      forall h | h in SetOf(seed)
        ensures Meets(h, s)
      {
        TreeFile(files, level, h);
        OverlappingMeets(s, lo, hi, h);
      }
      GaplessGrows(s, SetOf(seed));
    }
  }

  /** The files below that overlap the inputs open no gap. */
  lemma BelowIsGapless(next: seq<File>, s: set<File>, in0: seq<File>, in1: seq<File>)
    requires RangesOk(next) && CoveredBelow(next, in0, in1) && (forall f :: f in in0 ==> RangeOk(f))
    requires Gapless(s) && SetOf(in0) <= s
    ensures Gapless(s + SetOf(in1))
    ensures forall f :: f in in1 ==> RangeOk(f)
  {
    hide Gapless;
    var lo, hi :| LeastKey(in0, lo) && GreatestKey(in0, hi) && in1 == Overlapping(next, Some(lo.user), Some(hi.user));
    OverlappingExactly(next, Some(lo.user), Some(hi.user));
    HullOf(in0, lo, hi);
    forall h | h in SetOf(in1)
      ensures Meets(h, s)
    {
      OverlappingMeets(SetOf(in0), lo.user, hi.user, h);
    }
    GaplessGrows(s, SetOf(in1));
  }

  lemma FirstChoiceIsGapless(files: seq<seq<File>>, level: nat, seed: seq<File>, in0: seq<File>, in1: seq<File>)
    requires Tree(files) && level + 1 < NUM_LEVELS && Closed(level, files[level], in0) &&
      CoveredBelow(files[level + 1], in0, in1)
    requires seed <= in0 && RangesOk(in0) && forall i :: |seed| <= i < |in0| ==>
      Continues(files[level], in0[..i], in0[i])
    ensures Gapless(SetOf(seed)) ==> Gapless(SetOf(in0) + SetOf(in1)) && Gapless(SetOf(in0 + in1))
    ensures forall f :: f in in1 ==> RangeOk(f)
  {
    hide Continues;
    hide Gapless;
    hide CoveredBelow;
    BelowRanges(files[level + 1], in0, in1);
    if Gapless(SetOf(seed)) {
      assert {} + SetOf(seed) == SetOf(seed) && {} + SetOf(in0) == SetOf(in0);
      BoundaryIsGapless(files[level], {}, seed, in0);
      BelowIsGapless(files[level + 1], SetOf(in0), in0, in1);
      assert SetOf(in0 + in1) == SetOf(in0) + SetOf(in1);
    }
  }

  lemma BelowRanges(next: seq<File>, in0: seq<File>, in1: seq<File>)
    requires RangesOk(next) && CoveredBelow(next, in0, in1)
    ensures forall f :: f in in1 ==> f in next && RangeOk(f)
  {
    var lo, hi :| LeastKey(in0, lo) && GreatestKey(in0, hi) && in1 == Overlapping(next, Some(lo.user), Some(hi.user));
    OverlappingExactly(next, Some(lo.user), Some(hi.user));
  }

  lemma WiderBelow(next: seq<File>, in0: seq<File>, in1: seq<File>, x0: seq<File>, x1: seq<File>)
    requires CoveredBelow(next, in0, in1) && CoveredBelow(next, x0, x1) && forall f :: f in in0 ==> f in x0
    ensures forall f :: f in in1 ==> f in x1
  {
    hide Overlapping;
    hide LeastKey;
    hide GreatestKey;
    var lo, hi :| LeastKey(in0, lo) && GreatestKey(in0, hi) && in1 == Overlapping(next, Some(lo.user), Some(hi.user));
    var xlo, xhi :| LeastKey(x0, xlo) && GreatestKey(x0, xhi) &&
      x1 == Overlapping(next, Some(xlo.user), Some(xhi.user));
    OverlappingExactly(next, Some(lo.user), Some(hi.user));
    OverlappingExactly(next, Some(xlo.user), Some(xhi.user));
    RangesNest(in0, x0, lo, hi, xlo, xhi);
  }

  lemma RangesNest(in0: seq<File>, x0: seq<File>, lo: IKey, hi: IKey, xlo: IKey, xhi: IKey)
    requires LeastKey(in0, lo) && GreatestKey(in0, hi) && LeastKey(x0, xlo) && GreatestKey(x0, xhi) &&
      forall f :: f in in0 ==> f in x0
    ensures Rank(xlo.user) <= Rank(lo.user) && Rank(hi.user) <= Rank(xhi.user)
  {
  }

  lemma WiderChoiceIsGapless(files: seq<seq<File>>, level: nat, in0: seq<File>, in1: seq<File>, x0: seq<File>,
          x1: seq<File>)
    requires Tree(files) && level + 1 < NUM_LEVELS && Closed(level, files[level], x0)
    requires CoveredBelow(files[level + 1], in0, in1) && CoveredBelow(files[level + 1], x0, x1) &&
      forall f :: f in in0 ==> f in x0
    ensures Gapless(SetOf(in0 + in1) + SetOf(x0)) ==> Gapless(SetOf(x0) + SetOf(x1))
  {
    hide Gapless;
    hide CoveredBelow;
    hide Closed;
    if Gapless(SetOf(in0 + in1) + SetOf(x0)) {
      forall f | f in x0
        ensures RangeOk(f)
      {
        ClosedIn(level, files[level], x0, f);
        TreeFile(files, level, f);
      }
      BelowIsGapless(files[level + 1], SetOf(in0 + in1) + SetOf(x0), x0, x1);
      WiderBelow(files[level + 1], in0, in1, x0, x1);
      assert SetOf(in0 + in1) + SetOf(x0) + SetOf(x1) == SetOf(x0) + SetOf(x1);
    }
  }

  /** The first choice, and when the wider one x0 replaces it: more files at level, as many below, within the limit. */
  ghost predicate Chosen(files: seq<seq<File>>, level: nat, seed: seq<File>, limit: nat, b0: seq<File>, b1: seq<File>,
          x0: seq<File>,
                         in0: seq<File>, in1: seq<File>)
    requires level + 1 < |files|
  {
    var bigger := |x0| > |b0| && TotalFileSize(b1) + TotalFileSize(x0) < limit;
    && Closed(level, files[level], b0) && seed <= b0 && CoveredBelow(files[level + 1], b0, b1)
    && (b1 != [] ==> Closed(level, files[level], x0) && CoversBoth(files[level], b0 + b1, x0))
    && if b1 != [] && bigger && in0 == x0 then CoveredBelow(files[level + 1], x0, in1) && |in1| == |b1|
       else in0 == b0 && in1 == b1 && (b1 != [] && bigger ==>
         exists x1 :: CoveredBelow(files[level + 1], x0, x1) && |x1| != |b1|)
  }

  ghost predicate ChosenFrom(files: seq<seq<File>>, level: nat, seed: seq<File>, limit: nat, in0: seq<File>,
                             in1: seq<File>)
    requires level + 1 < |files|
  {
    exists b0, b1, x0 :: Chosen(files, level, seed, limit, b0, b1, x0, in0, in1)
  }

  /** Every level file in the range of both halves, with its boundary files. */
  method ExpandInputs(files: seq<seq<File>>, level: nat, in0: seq<File>, in1: seq<File>) returns (r: seq<File>)
    requires Tree(files) && level + 1 < NUM_LEVELS && Closed(level, files[level], in0)
    ensures Closed(level, files[level], r) && NoRepeats(r)
    ensures forall f :: f in in0 ==> f in r
    ensures CoversBoth(files[level], in0 + in1, r)
    ensures (forall f :: f in in1 ==> RangeOk(f)) && Gapless(SetOf(in0 + in1)) ==> Gapless(SetOf(in0 + in1) + SetOf(r))
  {
    var lo := FindSmallestKey(in0 + in1);
    var hi := FindLargestKey(in0 + in1);
    var seed := GetOverlappingInputs(level, files[level], Some(lo.user), Some(hi.value.user));
    ghost var b, e :| ExactInputs(level, files[level], Some(lo.user), Some(hi.value.user), b, e, seed);
    ExpandedSeed(files, level, in0, in1, lo, hi.value, b, e);
    r := CloseInputs(files, level, seed);
    SeedCovers(files[level], in0 + in1, seed, r, lo, hi.value, b, e);
    ExpansionIsGapless(files, level, in0, in1, seed, r, lo, hi.value, b, e);
  }

  /** The inputs at level may grow to every file in the range of both halves, if that keeps the count at level+1
      and stays under the size limit. */
  method SetupOtherInputs(files: seq<seq<File>>, level: nat, seed: seq<File>, limit: nat)
    returns (in0: seq<File>, in1: seq<File>)
    requires Tree(files) && level + 1 < NUM_LEVELS && Seed(level, files[level], seed)
    ensures Closed(level, files[level], in0) && NoRepeats(in0)
    ensures CoveredBelow(files[level + 1], in0, in1)
    ensures forall f :: f in seed ==> f in in0
    ensures ChosenFrom(files, level, seed, limit, in0, in1)
    ensures Gapless(SetOf(seed)) ==> Gapless(SetOf(in0) + SetOf(in1))
  {
    hide Gapless;
    hide Continues;
    hide Closed;
    hide CoveredBelow;
    hide CoversBoth;
    in0 := CloseInputs(files, level, seed);
    ClosedNotEmpty(level, files[level], in0);
    in1 := OverlapBelow(files, level, in0);
    ghost var b0, b1, x0 := in0, in1, in0;
    FirstChoiceIsGapless(files, level, seed, in0, in1);
    if in1 != [] {
      var expanded0 := ExpandInputs(files, level, in0, in1);
      ClosedNotEmpty(level, files[level], expanded0);
      if |expanded0| > |in0| && TotalFileSize(in1) + TotalFileSize(expanded0) < limit {
        var expanded1 := OverlapBelow(files, level, expanded0);
        if |expanded1| == |in1| {
          WiderChoiceIsGapless(files, level, in0, in1, expanded0, expanded1);
          in0, in1 := expanded0, expanded1;
        }
      }
      x0 := expanded0;
    }
    assert Chosen(files, level, seed, limit, b0, b1, x0, in0, in1);
  }

  lemma ClosedNotEmpty(level: nat, files: seq<File>, sel: seq<File>)
    requires Closed(level, files, sel)
    ensures sel != []
  {
  }

  lemma ClosedIn(level: nat, files: seq<File>, sel: seq<File>, f: File)
    requires Closed(level, files, sel) && f in sel
    ensures f in files
  {
  }

  lemma ExpandedSeed(files: seq<seq<File>>, level: nat, in0: seq<File>, in1: seq<File>, lo: IKey, hi: IKey,
                     b: Option<Bytes>, e: Option<Bytes>)
    requires Tree(files) && level + 1 < NUM_LEVELS && Closed(level, files[level], in0)
    requires LeastKey(in0 + in1, lo) && GreatestKey(in0 + in1, hi)
    requires Includes(b, e, Some(lo.user), Some(hi.user))
    requires level == 0 ==> RangeClosed(files[level], b, e)
    ensures Seed(level, files[level], Overlapping(files[level], b, e))
    ensures forall f :: f in in0 ==> f in Overlapping(files[level], b, e)
  {
    forall f | f in in0
      ensures f in Overlapping(files[level], b, e)
    {
      ClosedIn(level, files[level], in0, f);
      TreeFile(files, level, f);
      InOwnRange(in0 + in1, f, lo, hi);
      OverlappingFirstExactly(files[level], |files[level]|, b, e, f);
    }
    assert in0[0] in in0;
    if level > 0 {
      OrderedNoRepeats(files[level]);
    }
    OverlappingSeed(level, files[level], b, e);
  }

  lemma TreeFile(files: seq<seq<File>>, level: nat, f: File)
    requires Tree(files) && level < NUM_LEVELS && f in files[level]
    ensures RangeOk(f)
  {
  }

  /** What an automatic compaction starts from: the file, or at level 0 all files in its closed range. */
  ghost predicate Picked(files: seq<seq<File>>, level: nat, f: File, seed: seq<File>)
    requires level < |files|
  {
    if level > 0 then seed == [f]
    else exists b, e :: ExactInputs(0, files[0], Some(f.smallest.user), Some(f.largest.user), b, e, seed)
  }

  /** PickCompaction once a level and a file are chosen. Its inputs leave no gap. */
  method PickCompaction(files: seq<seq<File>>, level: nat, i: nat, limit: nat) returns (in0: seq<File>, in1: seq<File>)
    requires Tree(files) && level + 1 < NUM_LEVELS && i < |files[level]|
    ensures Closed(level, files[level], in0) && NoRepeats(in0) && CoveredBelow(files[level + 1], in0, in1)
    ensures files[level][i] in in0
    ensures exists seed ::
      Picked(files, level, files[level][i], seed) && ChosenFrom(files, level, seed, limit, in0, in1)
    ensures Gapless(SetOf(in0) + SetOf(in1))
  {
    hide Gapless;
    hide Seed;
    hide Closed;
    hide CoveredBelow;
    hide Chosen;
    hide ExactInputs;
    hide Run;
    hide ChosenFrom;
    var f := files[level][i];
    var seed := [f];
    if level == 0 {
      seed := GetOverlappingInputs(0, files[0], Some(f.smallest.user), Some(f.largest.user));
      ghost var b, e :| ExactInputs(0, files[0], Some(f.smallest.user), Some(f.largest.user), b, e, seed);
      SeedAtLevel0(files, f, b, e, seed);
    } else {
      SeedOfOne(files, level, i);
    }
    assert Picked(files, level, f, seed);
    in0, in1 := SetupOtherInputs(files, level, seed, limit);
  }

  lemma SeedAtLevel0(files: seq<seq<File>>, f: File, b: Option<Bytes>, e: Option<Bytes>, seed: seq<File>)
    requires Tree(files) && f in files[0] && ExactInputs(0, files[0], Some(f.smallest.user), Some(f.largest.user), b,
      e, seed)
    ensures Seed(0, files[0], seed) && f in seed && Gapless(SetOf(seed))
  {
    hide Gapless;
    hide Seed;
    TreeFile(files, 0, f);
    OverlappingFirstExactly(files[0], |files[0]|, b, e, f);
    OverlappingSeed(0, files[0], b, e);
    OneIsGapless(f);
    SelectionIsGapless(files, 0, {f}, f.smallest.user, f.largest.user, b, e, seed);
    assert {f} + SetOf(seed) == SetOf(seed);
  }

  lemma SeedOfOne(files: seq<seq<File>>, level: nat, i: nat)
    requires Tree(files) && 0 < level < NUM_LEVELS && i < |files[level]|
    ensures Seed(level, files[level], [files[level][i]]) && Gapless(SetOf([files[level][i]]))
  {
    OneIsGapless(files[level][i]);
    assert SetOf([files[level][i]]) == {files[level][i]};
    assert Slice(files[level], [files[level][i]], i);
  }

  /** n files are the fewest whose total size reaches the limit, or all of them. */
  ghost predicate Truncated(inputs: seq<File>, limit: nat, n: nat) {
    && 0 < n <= |inputs| && (n < |inputs| ==> TotalFileSize(inputs[..n]) >= limit)
    && forall k :: 0 < k < n ==> TotalFileSize(inputs[..k]) < limit
  }

  /** What a manual compaction starts from: the files in the range, above level 0 only as many as the limit allows. */
  ghost predicate Requested(level: nat, files: seq<File>, begin: Option<Bytes>, end: Option<Bytes>, limit: nat,
                            seed: seq<File>) {
    exists b, e, inputs, n: nat :: ExactInputs(level, files, begin, end, b, e, inputs) && n <= |inputs| &&
      seed == inputs[..n] && if level == 0 then n == |inputs| else Truncated(inputs, limit, n)
  }

  /** A manual compaction above level 0 stops adding files once their total size reaches the limit. */
  method TruncateInputs(inputs: seq<File>, limit: nat) returns (n: nat)
    requires inputs != []
    ensures Truncated(inputs, limit, n)
  {
    var total := 0;
    var i := 0;
    while i < |inputs|
      invariant i <= |inputs| && total == TotalFileSize(inputs[..i])
      invariant forall k :: 0 < k <= i ==> TotalFileSize(inputs[..k]) < limit
    {
      TotalAppend(inputs[..i], inputs[i]);
      assert inputs[..i + 1] == inputs[..i] + [inputs[i]];
      total := total + inputs[i].size;
      if total >= limit {
        return i + 1;
      }
      i := i + 1;
    }
    n := |inputs|;
  }

  lemma {:induction false} TotalAppend(files: seq<File>, f: File)
    ensures TotalFileSize(files + [f]) == TotalFileSize(files) + f.size
  {
    if files != [] {
      assert (files + [f])[1..] == files[1..] + [f];
      TotalAppend(files[1..], f);
    }
  }

  /** Nothing in the range asked for, nothing selected: the least closed range is then that range itself. */
  lemma SomethingOverlaps(level: nat, files: seq<File>, begin: Option<Bytes>, end: Option<Bytes>, b: Option<Bytes>,
          e: Option<Bytes>, inputs: seq<File>)
    requires ExactInputs(level, files, begin, end, b, e, inputs) && inputs != []
    ensures exists f :: f in files && Overlaps(f, begin, end)
  {
    OverlappingExactly(files, b, e);
    assert inputs[0] in inputs;
    if forall f :: f in files ==> !Overlaps(f, begin, end) {
      assert RangeClosed(files, begin, end);
    }
  }

  method CompactRange(files: seq<seq<File>>, level: nat, begin: Option<Bytes>, end: Option<Bytes>, fileLimit: nat,
          limit: nat)
    returns (r: Option<(seq<File>, seq<File>)>)
    requires Tree(files) && level + 1 < NUM_LEVELS
    ensures r.Some? ==> Closed(level, files[level], r.value.0) && NoRepeats(r.value.0) &&
                        CoveredBelow(files[level + 1], r.value.0, r.value.1)
    ensures r.None? <==> forall f :: f in files[level] ==> !Overlaps(f, begin, end)
    ensures r.Some? && level == 0 ==> forall f :: f in files[0] && Overlaps(f, begin, end) ==> f in r.value.0
    ensures r.Some? ==> exists seed :: Requested(level, files[level], begin, end, fileLimit, seed) &&
                          ChosenFrom(files, level, seed, limit, r.value.0, r.value.1)
  {
    hide Closed;
    hide CoveredBelow;
    hide Chosen;
    hide Gapless;
    hide Run;
    hide ExactInputs;
    hide ChosenFrom;
    hide Truncated;
    var inputs := GetOverlappingInputs(level, files[level], begin, end);
    ghost var b, e :| ExactInputs(level, files[level], begin, end, b, e, inputs);
    RangeTaken(level, files[level], begin, end, b, e, inputs);
    if inputs == [] {
      return None;
    }
    SomethingOverlaps(level, files[level], begin, end, b, e, inputs);
    RangeSeed(files, level, begin, end, b, e, inputs);
    var seed := inputs;
    assert inputs[..|inputs|] == inputs;
    if level > 0 {
      var n := TruncateInputs(inputs, fileLimit);
      TruncatedSeed(files, level, inputs, fileLimit, n);
      seed := inputs[..n];
    }
    assert Requested(level, files[level], begin, end, fileLimit, seed);
    inputs := seed;
    var in0, in1 := SetupOtherInputs(files, level, inputs, limit);
    r := Some((in0, in1));
  }

  lemma TruncatedSeed(files: seq<seq<File>>, level: nat, inputs: seq<File>, limit: nat, n: nat)
    requires 0 < level < NUM_LEVELS == |files| && Seed(level, files[level], inputs) && Truncated(inputs, limit, n)
    ensures n <= |inputs| && Seed(level, files[level], inputs[..n])
  {
    var x :| Slice(files[level], inputs, x);
    assert Slice(files[level], inputs[..n], x);
  }

  lemma RangeTaken(level: nat, files: seq<File>, begin: Option<Bytes>, end: Option<Bytes>, b: Option<Bytes>,
          e: Option<Bytes>, inputs: seq<File>)
    requires ExactInputs(level, files, begin, end, b, e, inputs)
    ensures forall f :: f in files && Overlaps(f, begin, end) ==> f in inputs
  {
    OverlappingExactly(files, b, e);
  }

  lemma RangeSeed(files: seq<seq<File>>, level: nat, begin: Option<Bytes>, end: Option<Bytes>, b: Option<Bytes>,
          e: Option<Bytes>, inputs: seq<File>)
    requires Tree(files) && level < NUM_LEVELS && ExactInputs(level, files[level], begin, end, b, e, inputs) &&
      inputs != []
    ensures Seed(level, files[level], inputs)
  {
    if level > 0 {
      OrderedNoRepeats(files[level]);
    }
    OverlappingSeed(level, files[level], b, e);
  }
}
