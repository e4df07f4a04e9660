/** Gaps inside the key range of a compaction: where a flushed table could land, and why automatic compactions leave
    none. */
module Gaps {
  import opened Keys
  import opened Format
  import opened Levels
  import opened Inputs
  import opened LevelOrder

  ghost function SetOf(s: seq<File>): set<File> {
    set f | f in s
  }

  /** Some input ends before k and some starts after it, but none covers it. */
  ghost predicate GapAt(inputs: set<File>, k: Bytes) {
    && (exists f :: f in inputs && Rank(f.largest.user) < Rank(k))
    && (exists f :: f in inputs && Rank(k) < Rank(f.smallest.user))
    && forall f :: f in inputs ==> !Covers(f, k)
  }

  ghost predicate Gapless(inputs: set<File>) {
    forall k: Bytes :: !GapAt(inputs, k)
  }

  // ---- what a gap means for a flush -----------------------------------------------------------------

  /** No file of levels 0 to l shares a user key with f, even by range. */
  ghost predicate ClearOf(v: LevelSets, l: nat, f: File) {
    forall m, g :: 0 <= m <= l && m < |v| && g in v[m] ==> Apart(f, g)
  }

  ghost predicate CoveredAbove(v: LevelSets, l: nat, k: Bytes) {
    exists m, g :: 0 <= m <= l && m < |v| && g in v[m] && Covers(g, k)
  }

  ghost predicate InputsOf(v: LevelSets, level: nat, inputs: set<File>) {
    level + 1 < |v| && forall f :: f in inputs ==> (f in v[level] || f in v[level + 1]) && RangeOk(f)
  }

  /** A clear table lies to one side of the inputs unless its first key is in a gap. */
  lemma OutliesUnlessGap(v: LevelSets, level: nat, inputs: set<File>, f: File)
    requires InputsOf(v, level, inputs) && RangeOk(f) && ClearOf(v, level + 1, f) && !GapAt(inputs, f.smallest.user)
    ensures Outlies(f, inputs)
  {
    forall g | g in inputs
      ensures Apart(f, g) && !Covers(g, f.smallest.user)
    {
    }
  }

  lemma ClearIsUncovered(v: LevelSets, l: nat, f: File)
    requires RangeOk(f) && ClearOf(v, l, f)
    ensures !CoveredAbove(v, l, f.smallest.user)
  {
    forall m, g | 0 <= m <= l && m < |v| && g in v[m]
      ensures !Covers(g, f.smallest.user)
    {
      assert Apart(f, g);
    }
  }

  /** The table with the one key k. */
  function Lone(k: Bytes): File {
    var e := Entry(LookupKey(k, 0), []);
    File(0, 0, e.ik, e.ik, [e])
  }

  lemma LoneInGap(v: LevelSets, level: nat, inputs: set<File>, k: Bytes)
    requires InputsOf(v, level, inputs) && GapAt(inputs, k) && !CoveredAbove(v, level + 1, k)
    ensures FileOk(Lone(k)) && ClearOf(v, level + 1, Lone(k)) && !Outlies(Lone(k), inputs)
  {
    forall m, g | 0 <= m <= level + 1 && m < |v| && g in v[m]
      ensures Apart(Lone(k), g)
    {
      assert !Covers(g, k);
    }
  }

  /** Every table clear of the levels down to the one below the compaction lies to one side of its inputs IF AND ONLY IF
      every gap of the inputs is covered by some file of those levels. */
  lemma OutliesIffCovered(v: LevelSets, level: nat, inputs: set<File>)
    requires InputsOf(v, level, inputs)
    ensures (forall f :: FileOk(f) && ClearOf(v, level + 1, f) ==> Outlies(f, inputs))
      <==> (forall k: Bytes :: GapAt(inputs, k) ==> CoveredAbove(v, level + 1, k))
  {
    hide GapAt;
    if forall k: Bytes :: GapAt(inputs, k) ==> CoveredAbove(v, level + 1, k) {
      forall f | FileOk(f) && ClearOf(v, level + 1, f)
        ensures Outlies(f, inputs)
      {
        Bounds(f);
        ClearIsUncovered(v, level + 1, f);
        OutliesUnlessGap(v, level, inputs, f);
      }
    } else {
      var k: Bytes :| GapAt(inputs, k) && !CoveredAbove(v, level + 1, k);
      LoneInGap(v, level, inputs, k);
      assert FileOk(Lone(k)) && ClearOf(v, level + 1, Lone(k));
    }
  }

  // ---- sets that leave none ------------------------------------------------------------------------------

  lemma OneIsGapless(f: File)
    requires RangeOk(f)
    ensures Gapless({f})
  {
  }

  /** h reaches into the key range of s. */
  ghost predicate Meets(h: File, s: set<File>) {
    && RangeOk(h)
    && (exists g :: g in s && Rank(g.smallest.user) <= Rank(h.largest.user))
    && (exists g :: g in s && Rank(h.smallest.user) <= Rank(g.largest.user))
  }

  /** Files that reach into the range open no gap. */
  lemma GaplessGrows(s: set<File>, more: set<File>)
    requires Gapless(s) && forall h :: h in more ==> Meets(h, s)
    ensures Gapless(s + more)
  {
    forall k: Bytes
      ensures !GapAt(s + more, k)
    {
      if GapAt(s + more, k) {
        var f :| f in s + more && Rank(f.largest.user) < Rank(k);
        var g :| g in s + more && Rank(k) < Rank(g.smallest.user);
        if f in more {
          var x :| x in s && Rank(x.smallest.user) <= Rank(f.largest.user);
          assert !Covers(x, k);
        }
        if g in more {
          var x :| x in s && Rank(g.smallest.user) <= Rank(x.largest.user);
          assert !Covers(x, k);
        }
        assert GapAt(s, k);
      }
    }
  }

  /** [lo, hi] is the user-key range of s. */
  ghost predicate Hull(s: set<File>, lo: Bytes, hi: Bytes) {
    && (exists f :: f in s && f.smallest.user == lo) && (exists f :: f in s && f.largest.user == hi)
    && forall f :: f in s ==> RangeOk(f) && Rank(lo) <= Rank(f.smallest.user) && Rank(f.largest.user) <= Rank(hi)
  }

  /** A key of the range in no gap is covered. */
  lemma InHullCovered(s: set<File>, lo: Bytes, hi: Bytes, k: Bytes)
    requires Hull(s, lo, hi) && !GapAt(s, k) && Rank(lo) <= Rank(k) <= Rank(hi)
    ensures exists f :: f in s && Covers(f, k)
  {
  }

  lemma OverlappingMeets(s: set<File>, lo: Bytes, hi: Bytes, h: File)
    requires Hull(s, lo, hi) && RangeOk(h) && Overlaps(h, Some(lo), Some(hi))
    ensures Meets(h, s)
  {
  }

  /** A key past the range of s but before a file of the level-0 closure would cut the closure short. */
  lemma ClosureHasNoGapAbove(files: seq<File>, s: set<File>, lo: Bytes, hi: Bytes, b: Option<Bytes>, e: Option<Bytes>,
          inputs: seq<File>, k: Bytes, g: File)
    requires Hull(s, lo, hi) && RangesOk(files) && ExactInputs(0, files, Some(lo), Some(hi), b, e, inputs)
    requires Rank(hi) < Rank(k) && g in inputs && Rank(k) < Rank(g.smallest.user)
    ensures exists f :: f in inputs && Covers(f, k)
  {
    OverlappingExactly(files, b, e);
    assert Within(g, b, e);
    if forall f :: f in inputs ==> !Covers(f, k) {
      forall f | f in files && Overlaps(f, b, Some(k))
        ensures Within(f, b, Some(k))
      {
        assert f in inputs;
      }
      assert Includes(b, Some(k), Some(lo), Some(hi)) && RangeClosed(files, b, Some(k));
    }
  }

  lemma ClosureHasNoGapBelow(files: seq<File>, s: set<File>, lo: Bytes, hi: Bytes, b: Option<Bytes>, e: Option<Bytes>,
          inputs: seq<File>, k: Bytes, g: File)
    requires Hull(s, lo, hi) && RangesOk(files) && ExactInputs(0, files, Some(lo), Some(hi), b, e, inputs)
    requires Rank(k) < Rank(lo) && g in inputs && Rank(g.largest.user) < Rank(k)
    ensures exists f :: f in inputs && Covers(f, k)
  {
    OverlappingExactly(files, b, e);
    assert Within(g, b, e);
    if forall f :: f in inputs ==> !Covers(f, k) {
      forall f | f in files && Overlaps(f, Some(k), e)
        ensures Within(f, Some(k), e)
      {
        assert f in inputs;
      }
      assert Includes(Some(k), e, Some(lo), Some(hi)) && RangeClosed(files, Some(k), e);
    }
  }

  /** The level-0 closure of a gapless range opens no gap. */
  lemma ClosureIsGapless(files: seq<File>, s: set<File>, lo: Bytes, hi: Bytes, b: Option<Bytes>, e: Option<Bytes>,
          inputs: seq<File>)
    requires Gapless(s) && Hull(s, lo, hi) && RangesOk(files) && ExactInputs(0, files, Some(lo), Some(hi), b, e, inputs)
    ensures Gapless(s + SetOf(inputs))
  {
    hide ExactInputs;
    hide Hull;
    forall k: Bytes
      ensures !GapAt(s + SetOf(inputs), k)
    {
      assert !GapAt(s, k);
      if GapAt(s + SetOf(inputs), k) {
        GapInClosure(files, s, lo, hi, b, e, inputs, k);
      }
    }
  }

  lemma GapInClosure(files: seq<File>, s: set<File>, lo: Bytes, hi: Bytes, b: Option<Bytes>, e: Option<Bytes>,
          inputs: seq<File>, k: Bytes)
    requires Hull(s, lo, hi) && RangesOk(files) && ExactInputs(0, files, Some(lo), Some(hi), b, e, inputs) &&
      !GapAt(s, k)
    requires (exists f :: f in s + SetOf(inputs) && Rank(f.largest.user) < Rank(k)) &&
      exists f :: f in s + SetOf(inputs) && Rank(k) < Rank(f.smallest.user)
    ensures exists f :: f in s + SetOf(inputs) && Covers(f, k)
  {
    hide ExactInputs;
    hide GapAt;
    var f :| f in s + SetOf(inputs) && Rank(f.largest.user) < Rank(k);
    var g :| g in s + SetOf(inputs) && Rank(k) < Rank(g.smallest.user);
    var h: File;
    if Rank(hi) < Rank(k) {
      OutsideHull(s, lo, hi, k, g);
      ClosureHasNoGapAbove(files, s, lo, hi, b, e, inputs, k, g);
      h :| h in inputs && Covers(h, k);
    } else if Rank(k) < Rank(lo) {
      OutsideHull(s, lo, hi, k, f);
      ClosureHasNoGapBelow(files, s, lo, hi, b, e, inputs, k, f);
      h :| h in inputs && Covers(h, k);
    } else {
      InHullCovered(s, lo, hi, k);
      h :| h in s && Covers(h, k);
    }
    assert h in s + SetOf(inputs);
  }

  lemma OutsideHull(s: set<File>, lo: Bytes, hi: Bytes, k: Bytes, f: File)
    requires Hull(s, lo, hi)
    ensures Rank(hi) < Rank(k) && Rank(k) < Rank(f.smallest.user) ==> f !in s
    ensures Rank(k) < Rank(lo) && Rank(f.largest.user) < Rank(k) ==> f !in s
  {
  }

  /** Boundary files touch what they continue. */
  lemma {:induction false} BoundaryIsGapless(levelFiles: seq<File>, s: set<File>, files: seq<File>, r: seq<File>)
    requires files <= r && RangesOk(r) && Gapless(s + SetOf(files))
    requires forall i :: |files| <= i < |r| ==> Continues(levelFiles, r[..i], r[i])
    ensures Gapless(s + SetOf(r))
    decreases |r|
  {
    hide Gapless;
    hide Continues;
    hide Meets;
    if |files| == |r| {
      assert files == r;
    } else {
      var n := |r| - 1;
      var front := r[..n];
      forall i | |files| <= i < n
        ensures Continues(levelFiles, front[..i], front[i])
      {
        assert front[..i] == r[..i];
        assert Continues(levelFiles, r[..i], r[i]);
      }
      BoundaryIsGapless(levelFiles, s, files, front);
      BoundaryMeets(levelFiles, s, front, r[n]);
      GaplessGrows(s + SetOf(front), {r[n]});
      assert r == front + [r[n]];
      assert s + SetOf(r) == s + SetOf(front) + {r[n]};
    }
  }

  lemma BoundaryMeets(levelFiles: seq<File>, s: set<File>, front: seq<File>, f: File)
    requires RangesOk(front) && RangeOk(f) && Continues(levelFiles, front, f)
    ensures Meets(f, s + SetOf(front))
  {
  }

  lemma HullOf(files: seq<File>, lo: IKey, hi: IKey)
    requires LeastKey(files, lo) && GreatestKey(files, hi) && forall f :: f in files ==> RangeOk(f)
    ensures Hull(SetOf(files), lo.user, hi.user)
  {
  }
}
