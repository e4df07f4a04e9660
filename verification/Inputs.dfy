/** Choosing the inputs of a compaction. */
module Inputs {
  import opened Keys
  import opened Format
  import opened Levels

  /** Input selection looks at file bounds only: smallest <= largest is all it needs of a file. */
  predicate RangeOk(f: File) {
    ILeq(f.smallest, f.largest)
  }

  ghost predicate RangesOk(files: seq<File>) {
    forall i :: 0 <= i < |files| ==> RangeOk(files[i])
  }

  /** A sorted level, as its bounds show it. */
  ghost predicate Run(files: seq<File>) {
    RangesOk(files) && forall i, j :: 0 <= i < j < |files| ==> Before(files[i], files[j])
  }

  lemma OkRanges(files: seq<File>)
    requires FilesOk(files)
    ensures RangesOk(files) && (Ordered(files) ==> Run(files))
  {
  }

  // ---- overlap with a user-key range; None means unbounded ----------------

  predicate TooEarly(f: File, b: Option<Bytes>) {
    b.Some? && Rank(f.largest.user) < Rank(b.value)
  }

  predicate TooLate(f: File, e: Option<Bytes>) {
    e.Some? && Rank(f.smallest.user) > Rank(e.value)
  }

  predicate Overlaps(f: File, b: Option<Bytes>, e: Option<Bytes>) {
    !TooEarly(f, b) && !TooLate(f, e)
  }

  predicate Within(f: File, b: Option<Bytes>, e: Option<Bytes>) {
    (b.Some? ==> Rank(b.value) <= Rank(f.smallest.user)) && (e.Some? ==> Rank(f.largest.user) <= Rank(e.value))
  }

  /** The range [b, e] includes the range [b', e']. */
  predicate Includes(b: Option<Bytes>, e: Option<Bytes>, b': Option<Bytes>, e': Option<Bytes>) {
    (b.Some? ==> b'.Some? && Rank(b.value) <= Rank(b'.value)) &&
      (e.Some? ==> e'.Some? && Rank(e'.value) <= Rank(e.value))
  }

  /** No file sticks out of the range it overlaps. */
  ghost predicate RangeClosed(files: seq<File>, b: Option<Bytes>, e: Option<Bytes>) {
    forall f :: f in files && Overlaps(f, b, e) ==> Within(f, b, e)
  }

  /** Every closed range around [b, e] includes [b', e']. */
  ghost predicate Least(files: seq<File>, b: Option<Bytes>, e: Option<Bytes>, b': Option<Bytes>, e': Option<Bytes>) {
    forall x, y :: Includes(x, y, b, e) && RangeClosed(files, x, y) ==> Includes(x, y, b', e')
  }

  function OverlappingFirst(files: seq<File>, n: nat, b: Option<Bytes>, e: Option<Bytes>): seq<File>
    requires n <= |files|
  {
    if n == 0 then [] else
      OverlappingFirst(files, n - 1, b, e) + (if Overlaps(files[n - 1], b, e) then [files[n - 1]] else [])
  }

  /** The files that overlap the range, in level order. */
  function Overlapping(files: seq<File>, b: Option<Bytes>, e: Option<Bytes>): seq<File> {
    OverlappingFirst(files, |files|, b, e)
  }

  lemma {:induction false} OverlappingFirstExactly(files: seq<File>, n: nat, b: Option<Bytes>, e: Option<Bytes>,
          f: File)
    requires n <= |files|
    ensures f in OverlappingFirst(files, n, b, e) <==> Overlaps(f, b, e) && exists i :: 0 <= i < n && files[i] == f
  {
    if n > 0 {
      OverlappingFirstExactly(files, n - 1, b, e, f);
    }
  }

  lemma OverlappingExactly(files: seq<File>, b: Option<Bytes>, e: Option<Bytes>)
    ensures forall f :: f in Overlapping(files, b, e) <==> f in files && Overlaps(f, b, e)
  {
    forall f: File
      ensures f in Overlapping(files, b, e) <==> f in files && Overlaps(f, b, e)
    {
      OverlappingFirstExactly(files, |files|, b, e, f);
    }
  }

  /** How far the range can still grow: files that stick out on either side. */
  function Outside(files: seq<File>, b: Option<Bytes>, e: Option<Bytes>): nat {
    if files == [] then 0 else
      (if b.Some? && Rank(files[0].smallest.user) < Rank(b.value) then 1 else 0)
      + (if e.Some? && Rank(files[0].largest.user) > Rank(e.value) then 1 else 0)
      + Outside(files[1..], b, e)
  }

  lemma {:induction false} OutsideMonotone(files: seq<File>, b: Option<Bytes>, e: Option<Bytes>, b': Option<Bytes>,
          e': Option<Bytes>)
    requires Includes(b', e', b, e) && (b.Some? <==> b'.Some?) && (e.Some? <==> e'.Some?)
    ensures Outside(files, b', e') <= Outside(files, b, e)
  {
    if files != [] {
      OutsideMonotone(files[1..], b, e, b', e');
    }
  }

  /** Widening the range to take in a file that stuck out leaves fewer files sticking out. */
  lemma {:induction false} OutsideShrinks(files: seq<File>, i: nat, b: Option<Bytes>, e: Option<Bytes>,
          b': Option<Bytes>, e': Option<Bytes>)
    requires i < |files|
    requires Includes(b', e', b, e) && (b.Some? <==> b'.Some?) && (e.Some? <==> e'.Some?)
    requires (b.Some? && Rank(files[i].smallest.user) < Rank(b.value) && b' == Some(files[i].smallest.user))
          || (e.Some? && Rank(files[i].largest.user) > Rank(e.value) && e' == Some(files[i].largest.user))
    ensures Outside(files, b', e') < Outside(files, b, e)
  {
    if i == 0 {
      OutsideMonotone(files[1..], b, e, b', e');
    } else {
      OutsideShrinks(files[1..], i - 1, b, e, b', e');
    }
  }

  /** The range after meeting an overlapping file: its start first, then its end. */
  function Widen(f: File, b: Option<Bytes>, e: Option<Bytes>): (Option<Bytes>, Option<Bytes>) {
    if b.Some? && Rank(f.smallest.user) < Rank(b.value) then (Some(f.smallest.user), e)
    else if e.Some? && Rank(f.largest.user) > Rank(e.value) then (b, Some(f.largest.user))
    else (b, e)
  }

  /** What the scan keeps about its range. */
  ghost predicate RangeSoFar(level: nat, files: seq<File>, begin: Option<Bytes>, end: Option<Bytes>, b: Option<Bytes>,
          e: Option<Bytes>) {
    && Includes(b, e, begin, end) && (begin.Some? <==> b.Some?) && (end.Some? <==> e.Some?)
    && (if level == 0 then Least(files, begin, end, b, e) else b == begin && e == end)
  }

  lemma WidenStep(files: seq<File>, i: nat, begin: Option<Bytes>, end: Option<Bytes>, b: Option<Bytes>,
          e: Option<Bytes>)
    requires i < |files| && Overlaps(files[i], b, e) && !Within(files[i], b, e)
    requires RangeSoFar(0, files, begin, end, b, e)
    ensures var (b', e') := Widen(files[i], b, e);
      RangeSoFar(0, files, begin, end, b', e') && Outside(files, b', e') < Outside(files, b, e)
  {
    var (b', e') := Widen(files[i], b, e);
    OutsideShrinks(files, i, b, e, b', e');
    LeastGrows(files, files[i], begin, end, b, e, b', e');
  }

  /** The scan's state: the range, the files taken so far, and how many files have been looked at. */
  datatype Scan = Scan(b: Option<Bytes>, e: Option<Bytes>, inputs: seq<File>, i: nat)

  ghost predicate ScanOk(level: nat, files: seq<File>, begin: Option<Bytes>, end: Option<Bytes>, s: Scan) {
    && s.i <= |files|
    && s.inputs == OverlappingFirst(files, s.i, s.b, s.e)
    && RangeSoFar(level, files, begin, end, s.b, s.e)
    && (level == 0 ==> forall j :: 0 <= j < s.i && Overlaps(files[j], s.b, s.e) ==> Within(files[j], s.b, s.e))
  }

  /** Look at one file: skip it, take it, or, at level 0, widen the range and start again. */
  method ScanStep(level: nat, files: seq<File>, ghost begin: Option<Bytes>, ghost end: Option<Bytes>, s: Scan)
    returns (t: Scan)
    requires ScanOk(level, files, begin, end, s) && s.i < |files|
    ensures ScanOk(level, files, begin, end, t)
    ensures Outside(files, t.b, t.e) < Outside(files, s.b, s.e) || (t.b == s.b && t.e == s.e && t.i == s.i + 1)
  {
    var f := files[s.i];
    if !Overlaps(f, s.b, s.e) {
      t := s.(i := s.i + 1);
    } else if level == 0 && !Within(f, s.b, s.e) {
      WidenStep(files, s.i, begin, end, s.b, s.e);
      var (b, e) := Widen(f, s.b, s.e);
      t := Scan(b, e, [], 0);
    } else {
      t := s.(inputs := s.inputs + [f], i := s.i + 1);
    }
  }

  /** inputs are exactly the files overlapping [b, e]: the range asked for, or at level 0 the least range around it
      that no overlapping file sticks out of. */
  ghost predicate ExactInputs(level: nat, files: seq<File>, begin: Option<Bytes>, end: Option<Bytes>,
                              b: Option<Bytes>, e: Option<Bytes>, inputs: seq<File>) {
    && inputs == Overlapping(files, b, e)
    && Includes(b, e, begin, end)
    && (if level == 0 then RangeClosed(files, b, e) && Least(files, begin, end, b, e) else b == begin && e == end)
  }

  /** At level 0 a file that sticks out widens the range and restarts the scan; elsewhere the range stays.
      The result is exactly the files overlapping the least closed range around [begin, end]. */
  method GetOverlappingInputs(level: nat, files: seq<File>, begin: Option<Bytes>, end: Option<Bytes>)
    returns (inputs: seq<File>)
    ensures exists b, e :: ExactInputs(level, files, begin, end, b, e, inputs)
  {
    var s := Scan(begin, end, [], 0);
    while s.i < |files|
      invariant ScanOk(level, files, begin, end, s)
      decreases Outside(files, s.b, s.e), |files| - s.i
    {
      s := ScanStep(level, files, begin, end, s);
    }
    inputs := s.inputs;
    assert ExactInputs(level, files, begin, end, s.b, s.e, inputs);
  }

  lemma LeastGrows(files: seq<File>, f: File, begin: Option<Bytes>, end: Option<Bytes>,
                   b: Option<Bytes>, e: Option<Bytes>, b': Option<Bytes>, e': Option<Bytes>)
    requires Least(files, begin, end, b, e) && f in files && Overlaps(f, b, e)
    requires (b' == b || (b.Some? && b' == Some(f.smallest.user))) &&
      (e' == e || (e.Some? && e' == Some(f.largest.user)))
    ensures Least(files, begin, end, b', e')
  {
    forall x, y | Includes(x, y, begin, end) && RangeClosed(files, x, y)
      ensures Includes(x, y, b', e')
    {
      assert Overlaps(f, x, y);
    }
  }

  // ---- boundary files ----------------------------------------------------

  /** f starts with the user key of the largest selected key, but after it. */
  predicate Boundary(f: File, largest: IKey) {
    ILess(largest, f.smallest) && f.smallest.user == largest.user
  }

  ghost predicate GreatestKey(files: seq<File>, k: IKey) {
    (exists f :: f in files && f.largest == k) && forall f :: f in files ==> ILeq(f.largest, k)
  }

  ghost predicate LeastKey(files: seq<File>, k: IKey) {
    (exists f :: f in files && f.smallest == k) && forall f :: f in files ==> ILeq(k, f.smallest)
  }

  method FindLargestKey(files: seq<File>) returns (r: Option<IKey>)
    ensures r.None? <==> files == []
    ensures r.Some? ==> GreatestKey(files, r.value)
  {
    if files == [] {
      return None;
    }
    var m := 0;
    for i := 1 to |files|
      invariant m < |files|
      invariant forall j :: 0 <= j < i ==> ILeq(files[j].largest, files[m].largest)
    {
      if ILess(files[m].largest, files[i].largest) {
        m := i;
      }
    }
    r := Some(files[m].largest);
  }

  method FindSmallestKey(files: seq<File>) returns (k: IKey)
    requires files != []
    ensures LeastKey(files, k)
  {
    var m := 0;
    for i := 1 to |files|
      invariant m < |files|
      invariant forall j :: 0 <= j < i ==> ILeq(files[m].smallest, files[j].smallest)
    {
      if ILess(files[i].smallest, files[m].smallest) {
        m := i;
      }
    }
    k := files[m].smallest;
  }

  method FindSmallestBoundaryFile(files: seq<File>, largest: IKey) returns (r: Option<File>)
    ensures r.None? ==> forall f :: f in files ==> !Boundary(f, largest)
    ensures r.Some? ==> r.value in files && Boundary(r.value, largest)
    ensures r.Some? ==> forall f :: f in files && Boundary(f, largest) ==> !ILess(f.smallest, r.value.smallest)
  {
    r := None;
    for i := 0 to |files|
      invariant r.None? ==> forall f :: f in files[..i] ==> !Boundary(f, largest)
      invariant r.Some? ==> r.value in files && Boundary(r.value, largest)
      invariant r.Some? ==> forall f :: f in files[..i] && Boundary(f, largest) ==> !ILess(f.smallest, r.value.smallest)
    {
      assert files[..i + 1] == files[..i] + [files[i]];
      if Boundary(files[i], largest) {
        if r.None? || ILess(files[i].smallest, r.value.smallest) {
          r := Some(files[i]);
        }
      }
    }
    assert files[..|files|] == files;
  }

  predicate NoRepeats(files: seq<File>) {
    forall i, j :: 0 <= i < j < |files| ==> files[i] != files[j]
  }

  function BeyondCount(files: seq<File>, k: IKey): nat {
    if files == [] then 0 else (if ILess(k, files[0].smallest) then 1 else 0) + BeyondCount(files[1..], k)
  }

  lemma {:induction false} BeyondShrinks(files: seq<File>, k: IKey, k': IKey)
    requires ILess(k, k')
    ensures BeyondCount(files, k') <= BeyondCount(files, k)
    ensures (exists f :: f in files && ILess(k, f.smallest) && !ILess(k', f.smallest)) ==>
      BeyondCount(files, k') < BeyondCount(files, k)
  {
    if files != [] {
      BeyondShrinks(files[1..], k, k');
    }
  }

  /** The two files hold no user key in common, even by range. */
  predicate Apart(f: File, g: File) {
    Rank(f.largest.user) < Rank(g.smallest.user) || Rank(g.largest.user) < Rank(f.smallest.user)
  }

  /** Level 0: no unselected file overlaps a selected one. */
  ghost predicate UserClosed(files: seq<File>, sel: seq<File>) {
    (forall f :: f in sel ==> f in files) && forall f, g :: f in sel && g in files && g !in sel ==> Apart(f, g)
  }

  /** sel is a block of consecutive files, the first at position a. */
  ghost predicate Slice(files: seq<File>, sel: seq<File>, a: nat) {
    a + |sel| <= |files| && forall t :: 0 <= t < |sel| ==> sel[t] == files[a + t]
  }

  lemma GreatestOfExtended(r: seq<File>, k: IKey, f: File)
    requires GreatestKey(r, k) && ILess(k, f.largest)
    ensures GreatestKey(r + [f], f.largest)
  {
  }

  lemma NotSelected(r: seq<File>, k: IKey, f: File)
    requires RangesOk(r) && GreatestKey(r, k) && Boundary(f, k)
    ensures f !in r
  {
  }

  lemma OrderedUsers(files: seq<File>, i: nat, j: nat)
    requires Run(files) && i < |files| && j < |files|
    ensures i < j ==> Rank(files[i].largest.user) <= Rank(files[j].smallest.user)
    ensures i < j ==> ILess(files[i].smallest, files[j].smallest) && ILess(files[i].largest, files[j].largest)
  {
  }

  lemma GreatestUnique(files: seq<File>, k: IKey, m: IKey)
    requires GreatestKey(files, k) && GreatestKey(files, m)
    ensures k == m
  {
  }

  lemma GreatestOfSlice(files: seq<File>, sel: seq<File>, a: nat, k: IKey)
    requires Run(files) && sel != [] && Slice(files, sel, a) && GreatestKey(sel, k)
    ensures k == files[a + |sel| - 1].largest
  {
    var last := |sel| - 1;
    assert sel[last] in sel;
    forall i | 0 <= i < |sel|
      ensures ILeq(sel[i].largest, sel[last].largest)
    {
      OrderedUsers(files, a + i, a + last);
    }
    GreatestUnique(sel, k, sel[last].largest);
  }

  /** In a sorted run, the least boundary file of a block is the file right after it. */
  lemma NextInSlice(files: seq<File>, b: nat, g: File)
    requires Run(files) && 0 < b <= |files| && g in files
    requires Boundary(g, files[b - 1].largest)
    requires forall f :: f in files && Boundary(f, files[b - 1].largest) ==> !ILess(f.smallest, g.smallest)
    ensures b < |files| && g == files[b]
  {
  }

  /** What holds of the selection r, with greatest key k, while boundary files are being added to files. */
  ghost predicate Grown(levelFiles: seq<File>, files: seq<File>, r: seq<File>, k: IKey, a: nat) {
    && files <= r && NoRepeats(r) && RangesOk(r) && GreatestKey(r, k)
    && (UserClosed(levelFiles, files) ==> r == files)
    && (Run(levelFiles) && Slice(levelFiles, files, a) ==> Slice(levelFiles, r, a))
  }

  lemma GrowClosed(levelFiles: seq<File>, files: seq<File>, k: IKey, f: File)
    requires RangesOk(levelFiles) && RangesOk(files) && GreatestKey(files, k) && f in levelFiles && Boundary(f, k)
    ensures !UserClosed(levelFiles, files)
  {
  }

  lemma GrowSlice(levelFiles: seq<File>, r: seq<File>, k: IKey, a: nat, f: File)
    requires Run(levelFiles) && r != [] && Slice(levelFiles, r, a) && GreatestKey(r, k) && f in levelFiles &&
      Boundary(f, k)
    requires forall g :: g in levelFiles && Boundary(g, k) ==> !ILess(g.smallest, f.smallest)
    ensures Slice(levelFiles, r + [f], a)
  {
    GreatestOfSlice(levelFiles, r, a, k);
    NextInSlice(levelFiles, a + |r|, f);
  }

  lemma GrowByOne(levelFiles: seq<File>, files: seq<File>, r: seq<File>, k: IKey, a: nat, f: File)
    requires RangesOk(levelFiles) && Grown(levelFiles, files, r, k, a) && f in levelFiles && Boundary(f, k)
    requires forall g :: g in levelFiles && Boundary(g, k) ==> !ILess(g.smallest, f.smallest)
    ensures Grown(levelFiles, files, r + [f], f.largest, a)
  {
    NotSelected(r, k, f);
    GreatestOfExtended(r, k, f);
    if r == files {
      GrowClosed(levelFiles, files, k, f);
    }
    if Run(levelFiles) && Slice(levelFiles, files, a) {
      GrowSlice(levelFiles, r, k, a, f);
    }
  }

  /** f is the smallest boundary file of what is selected. */
  ghost predicate Continues(levelFiles: seq<File>, sel: seq<File>, f: File) {
    exists k :: GreatestKey(sel, k) && f in levelFiles && Boundary(f, k) &&
      forall g :: g in levelFiles && Boundary(g, k) ==> !ILess(g.smallest, f.smallest)
  }

  lemma OneContinues(levelFiles: seq<File>, files: seq<File>, r: seq<File>, k: IKey, f: File)
    requires GreatestKey(r, k) && f in levelFiles && Boundary(f, k) && |files| <= |r|
    requires forall g :: g in levelFiles && Boundary(g, k) ==> !ILess(g.smallest, f.smallest)
    requires forall i :: |files| <= i < |r| ==> Continues(levelFiles, r[..i], r[i])
    ensures var r' := r + [f]; forall i :: |files| <= i < |r'| ==> Continues(levelFiles, r'[..i], r'[i])
  {
    hide ILess;
    hide GreatestKey;
    var r' := r + [f];
    forall i | |files| <= i < |r'|
      ensures Continues(levelFiles, r'[..i], r'[i])
    {
      if i < |r| {
        assert r'[..i] == r[..i];
      } else {
        assert r'[..i] == r;
      }
    }
  }

  /** The selected files, followed by boundary files until none continues the last selected user key.
      a is the position of the first selected file, when the selection is a block of a sorted level. */
  method AddBoundaryInputs(levelFiles: seq<File>, files: seq<File>, ghost a: nat) returns (r: seq<File>)
    requires NoRepeats(files) && RangesOk(files) && RangesOk(levelFiles)
    ensures files <= r && NoRepeats(r) && RangesOk(r)
    ensures files == [] ==> r == []
    ensures files != [] ==> exists k :: GreatestKey(r, k) && forall f :: f in levelFiles ==> !Boundary(f, k)
    ensures forall i :: |files| <= i < |r| ==> Continues(levelFiles, r[..i], r[i])
    ensures UserClosed(levelFiles, files) ==> r == files
    ensures Run(levelFiles) && Slice(levelFiles, files, a) ==> Slice(levelFiles, r, a)
  {
    r := files;
    var largest := FindLargestKey(files);
    if largest.None? {
      return;
    }
    var k := largest.value;
    var searching := true;
    while searching
      invariant Grown(levelFiles, files, r, k, a)
      invariant !searching ==> forall f :: f in levelFiles ==> !Boundary(f, k)
      invariant forall i :: |files| <= i < |r| ==> Continues(levelFiles, r[..i], r[i])
      decreases BeyondCount(levelFiles, k), searching
    {
      var b := FindSmallestBoundaryFile(levelFiles, k);
      if b.Some? {
        GrowByOne(levelFiles, files, r, k, a, b.value);
        BeyondShrinks(levelFiles, k, b.value.largest);
        OneContinues(levelFiles, files, r, k, b.value);
        r := r + [b.value];
        k := b.value.largest;
      } else {
        searching := false;
      }
    }
  }
}
