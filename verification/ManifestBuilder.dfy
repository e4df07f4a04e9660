/** VersionSet::Builder: a run of edits gathered over one version, then saved as sorted file lists. */
module ManifestBuilder {
  import opened Format
  import opened Levels
  import opened Machine

  // ---- file lists in the order of their smallest keys -------------------------------------------------

  predicate BySmallestKey(f: File, g: File) {
    ILess(f.smallest, g.smallest) || (f.smallest == g.smallest && f.number < g.number)
  }

  predicate SameKey(f: File, g: File) {
    f.smallest == g.smallest && f.number == g.number
  }

  predicate Strict(fs: seq<File>) {
    forall i, j :: 0 <= i < j < |fs| ==> BySmallestKey(fs[i], fs[j])
  }

  lemma Trichotomy(f: File, g: File)
    ensures BySmallestKey(f, g) || SameKey(f, g) || BySmallestKey(g, f)
    ensures !(BySmallestKey(f, g) && BySmallestKey(g, f)) && (SameKey(f, g) ==> !BySmallestKey(f, g))
  {
  }

  lemma Transitive(f: File, g: File, h: File)
    requires BySmallestKey(f, g) && BySmallestKey(g, h)
    ensures BySmallestKey(f, h)
  {
  }

  /** A strictly sorted list is determined by its files. */
  lemma {:induction false} SortedListsAgree(a: seq<File>, b: seq<File>)
    requires Strict(a) && Strict(b) && forall f :: f in a <==> f in b
    ensures a == b
    decreases |a|
  {
    hide BySmallestKey;
    if |a| > 0 {
      assert a[0] in a && a[0] in b;
    }
    if |b| > 0 {
      assert b[0] in b && b[0] in a;
    }
    if |a| > 0 && |b| > 0 {
      FirstsAgree(a, b);
      forall f
        ensures f in a[1..] <==> f in b[1..]
      {
        RestWithout(a, f);
        RestWithout(b, f);
      }
      SortedListsAgree(a[1..], b[1..]);
      assert a == [a[0]] + a[1..] && b == [b[0]] + b[1..];
    }
  }

  lemma RestWithout(a: seq<File>, f: File)
    requires Strict(a) && a != []
    ensures f in a[1..] <==> f in a && f != a[0]
  {
  }

  lemma FirstsAgree(a: seq<File>, b: seq<File>)
    requires Strict(a) && Strict(b) && a != [] && b != [] && a[0] in b && b[0] in a
    ensures a[0] == b[0]
  {
  }

  // ---- the set of added files ----------------------------------------------------------------------------

  function LowerPlace(fs: seq<File>, f: File, i: nat): (r: nat)
    requires i <= |fs|
    ensures i <= r <= |fs|
    ensures forall j :: i <= j < r ==> BySmallestKey(fs[j], f)
    ensures r < |fs| ==> !BySmallestKey(fs[r], f)
    decreases |fs| - i
  {
    if i == |fs| || !BySmallestKey(fs[i], f) then i else LowerPlace(fs, f, i + 1)
  }

  /** std::set::insert: an equivalent element already there stays, and the new one is dropped. */
  function InsertFile(fs: seq<File>, f: File): seq<File> {
    var i := LowerPlace(fs, f, 0);
    if i < |fs| && SameKey(fs[i], f) then fs else fs[..i] + [f] + fs[i..]
  }

  ghost predicate Holds(fs: seq<File>, f: File) {
    exists g :: g in fs && SameKey(g, f)
  }

  lemma InsertFileKeeps(fs: seq<File>, f: File)
    requires Strict(fs)
    ensures Strict(InsertFile(fs, f))
    ensures Holds(fs, f) ==> InsertFile(fs, f) == fs
    ensures !Holds(fs, f) ==> forall g :: g in InsertFile(fs, f) <==> g == f || g in fs
  {
    hide BySmallestKey;
    var i := LowerPlace(fs, f, 0);
    forall j | i <= j < |fs|
      ensures BySmallestKey(f, fs[j]) || (j == i && SameKey(fs[i], f))
    {
      Trichotomy(f, fs[i]);
      if i < j && BySmallestKey(f, fs[i]) {
        Transitive(f, fs[i], fs[j]);
      } else if i < j {
        assert BySmallestKey(fs[i], fs[j]);
        SameKeyOrder(fs[i], f, fs[j]);
      }
    }
    if i < |fs| && SameKey(fs[i], f) {
      assert fs[i] in fs;
    } else {
      NotHeld(fs, f, i);
      PlacedStrict(fs, f, i);
      assert fs == fs[..i] + fs[i..];
    }
  }

  lemma SameKeyOrder(g: File, f: File, h: File)
    requires SameKey(g, f) && BySmallestKey(g, h)
    ensures BySmallestKey(f, h)
  {
  }

  lemma NotHeld(fs: seq<File>, f: File, i: nat)
    requires i <= |fs| && forall j :: 0 <= j < i ==> BySmallestKey(fs[j], f)
    requires forall j :: i <= j < |fs| ==> BySmallestKey(f, fs[j])
    ensures !Holds(fs, f)
  {
  }

  lemma PlacedStrict(fs: seq<File>, f: File, i: nat)
    requires Strict(fs) && i <= |fs| && forall j :: 0 <= j < i ==> BySmallestKey(fs[j], f)
    requires forall j :: i <= j < |fs| ==> BySmallestKey(f, fs[j])
    ensures Strict(fs[..i] + [f] + fs[i..])
  {
  }

  // ---- one level of the builder -----------------------------------------------------------------------------

  datatype LevelState = LevelState(deleted: set<nat>, added: seq<File>)

  /** The files a level keeps when the builder saves: of the base and the added ones, those not marked deleted. */
  ghost function Saved(base: set<File>, st: LevelState): set<File> {
    set f | f in base + (set g | g in st.added) && f.number !in st.deleted
  }

  /** A new file is unmarked and added. */
  function AddTo(st: LevelState, f: File): LevelState {
    LevelState(st.deleted - {f.number}, InsertFile(st.added, f))
  }

  /** Unmarking f's number also brings back another file that had it. */
  ghost predicate Resurrects(base: set<File>, st: LevelState, f: File) {
    f.number in st.deleted && exists g :: (g in base || g in st.added) && g != f && g.number == f.number
  }

  /** Another file with f's number and smallest key is in its place. */
  ghost predicate Displaced(base: set<File>, st: LevelState, f: File) {
    f !in base && f !in st.added && Holds(st.added, f)
  }

  /** Adding to the builder adds exactly f to what the level will be if and only if no file there is brought back or
      stands in f's place: reusing a number at a level is what breaks it. */
  lemma AddIsExactIff(base: set<File>, st: LevelState, f: File)
    requires Strict(st.added)
    ensures Saved(base, AddTo(st, f)) == Saved(base, st) + {f} <==> !Resurrects(base, st, f) && !Displaced(base, st, f)
  {
    hide InsertFile;
    hide BySmallestKey;
    hide Strict;
    InsertFileKeeps(st.added, f);
    var after, want := Saved(base, AddTo(st, f)), Saved(base, st) + {f};
    if Displaced(base, st, f) {
      assert f !in after && f in want;
    } else if Resurrects(base, st, f) {
      var g :| (g in base || g in st.added) && g != f && g.number == f.number;
      assert g in after && g !in want;
    } else {
      forall g
        ensures g in after <==> g in want
      {
        AddedOrKept(base, st, f, g);
      }
    }
  }

  lemma AddedOrKept(base: set<File>, st: LevelState, f: File, g: File)
    requires !Resurrects(base, st, f) && !Displaced(base, st, f)
    requires Holds(st.added, f) ==> InsertFile(st.added, f) == st.added
    requires !Holds(st.added, f) ==> forall h :: h in InsertFile(st.added, f) <==> h == f || h in st.added
    ensures g in Saved(base, AddTo(st, f)) <==> g in Saved(base, st) + {f}
  {
  }

  /** A concrete edit run that the builder gets wrong: file 7 deleted, then another file numbered 7 added. */
  lemma ReusedNumberComesBack()
    ensures exists f: File, g: File, st: LevelState ::
      st.deleted == {7} && f != g && f !in Saved({f}, st) && f in Saved({f}, AddTo(st, g))
  {
    var k := LookupKey([], 0);
    var f, g := File(7, 1, k, k, []), File(7, 2, k, k, []);
    var st := LevelState({7}, []);
    assert f !in Saved({f}, st) && f in Saved({f}, AddTo(st, g));
  }

  // ---- whole edits --------------------------------------------------------------------------------------------

  /** An edit as its vectors list it. */
  datatype FileEdit = FileEdit(deleted: seq<(nat, nat)>, added: seq<(nat, File)>)

  ghost predicate Lists(v: FileEdit, e: Edit) {
    (forall d :: d in v.deleted <==> d in e.deleted) && (forall a :: a in v.added <==> a in e.added)
  }

  predicate InLevels(v: FileEdit) {
    (forall d :: d in v.deleted ==> d.0 < NUM_LEVELS) && (forall a :: a in v.added ==> a.0 < NUM_LEVELS)
  }

  function DeleteAll(states: seq<LevelState>, ds: seq<(nat, nat)>): (r: seq<LevelState>)
    requires forall d :: d in ds ==> d.0 < |states|
    ensures |r| == |states|
  {
    if ds == [] then states else
      var d := ds[|ds| - 1];
      var p := DeleteAll(states, ds[..|ds| - 1]);
      p[d.0 := p[d.0].(deleted := p[d.0].deleted + {d.1})]
  }

  function AddAll(states: seq<LevelState>, adds: seq<(nat, File)>): (r: seq<LevelState>)
    requires forall a :: a in adds ==> a.0 < |states|
    ensures |r| == |states|
  {
    if adds == [] then states else
      var a := adds[|adds| - 1];
      var p := AddAll(states, adds[..|adds| - 1]);
      p[a.0 := AddTo(p[a.0], a.1)]
  }

  /** Deletions first, then additions. */
  function Applied(states: seq<LevelState>, v: FileEdit): (r: seq<LevelState>)
    requires InLevels(v) && |states| == NUM_LEVELS
    ensures |r| == |states|
  {
    AddAll(DeleteAll(states, v.deleted), v.added)
  }

  ghost predicate AllStrict(states: seq<LevelState>) {
    forall l :: 0 <= l < |states| ==> Strict(states[l].added)
  }

  lemma {:induction false} DeleteAllMarks(states: seq<LevelState>, ds: seq<(nat, nat)>, l: nat)
    requires l < |states| && forall d :: d in ds ==> d.0 < |states|
    ensures DeleteAll(states, ds)[l].added == states[l].added
    ensures forall n :: n in DeleteAll(states, ds)[l].deleted <==> n in states[l].deleted || (l, n) in ds
  {
    if ds != [] {
      var k := |ds| - 1;
      assert ds == ds[..k] + [ds[k]];
      DeleteAllMarks(states, ds[..k], l);
    }
  }

  /** No file of the base or of states has the level and number of one in adds, and adds never repeats them. */
  ghost predicate NewNumbers(base: LevelSets, states: seq<LevelState>, adds: seq<(nat, File)>)
    requires |base| == |states|
  {
    && (forall a :: a in adds ==> a.0 < |states|)
    && (forall a, g :: a in adds && (g in base[a.0] || g in states[a.0].added) ==> g.number != a.1.number)
    && (forall a, b :: a in adds && b in adds && a.0 == b.0 && a.1.number == b.1.number ==> a == b)
  }

  lemma {:induction false} AddAllFrom(states: seq<LevelState>, adds: seq<(nat, File)>, l: nat)
    requires l < |states| && AllStrict(states) && forall a :: a in adds ==> a.0 < |states|
    ensures Strict(AddAll(states, adds)[l].added)
    ensures forall f :: f in AddAll(states, adds)[l].added ==> f in states[l].added || (l, f) in adds
  {
    hide InsertFile;
    hide Strict;
    if adds != [] {
      var k := |adds| - 1;
      assert adds == adds[..k] + [adds[k]];
      AddAllFrom(states, adds[..k], l);
      if adds[k].0 == l {
        InsertFileKeeps(AddAll(states, adds[..k])[l].added, adds[k].1);
      }
    }
  }

  ghost function AddedAt(adds: seq<(nat, File)>, l: nat): set<File> {
    set a | a in adds && a.0 == l :: a.1
  }

  lemma {:induction false} AddAllSaved(base: LevelSets, states: seq<LevelState>, adds: seq<(nat, File)>, l: nat)
    requires |base| == |states| && l < |states| && AllStrict(states) && NewNumbers(base, states, adds)
    ensures Saved(base[l], AddAll(states, adds)[l]) == Saved(base[l], states[l]) + AddedAt(adds, l)
  {
    hide Saved;
    hide Strict;
    hide AddTo;
    if adds != [] {
      var k := |adds| - 1;
      var before, a := adds[..k], adds[k];
      assert adds == before + [a];
      AddAllSaved(base, states, before, l);
      if a.0 == l {
        var p := AddAll(states, before)[l];
        AddAllFrom(states, before, l);
        assert forall g :: (g in base[l] || g in p.added) && g.number == a.1.number ==> g == a.1;
        AddIsExactIff(base[l], p, a.1);
        assert AddedAt(adds, l) == AddedAt(before, l) + {a.1};
      } else {
        assert AddedAt(adds, l) == AddedAt(before, l);
      }
    } else {
      assert AddedAt(adds, l) == {};
    }
  }

  lemma DeletedSaved(base: set<File>, before: LevelState, after: LevelState, e: Edit, ds: seq<(nat, nat)>, l: nat)
    requires after.added == before.added && forall n :: n in after.deleted <==> n in before.deleted || (l, n) in ds
    requires forall d :: d in ds <==> d in e.deleted
    ensures Saved(base, after) == set f | f in Saved(base, before) && (l, f.number) !in e.deleted
  {
  }

  // ---- a run of edits ---------------------------------------------------------------------------------------------

  /** Installing the edits one at a time. */
  ghost function Installed(v: LevelSets, edits: seq<Edit>): (r: LevelSets)
    ensures |r| == |v|
  {
    if edits == [] then v else ApplyLevels(Installed(v, edits[..|edits| - 1]), edits[|edits| - 1])
  }

  lemma {:induction false} InstalledIsReplay(edits: seq<Edit>)
    ensures Installed(EMPTY_LEVELS, edits) == ReplayManifest(edits).levels
  {
    if edits != [] {
      InstalledIsReplay(edits[..|edits| - 1]);
    }
  }

  ghost predicate AddsNumber(e: Edit, l: nat, n: nat) {
    exists f :: (l, f) in e.added && f.number == n
  }

  /** e adds no (level, number) that the base has or that an edit of done added, and none twice. */
  ghost predicate AddsNew(base: LevelSets, done: seq<Edit>, e: Edit) {
    && (forall a :: a in e.added ==> a.0 < |base|)
    && (forall a, g :: a in e.added && g in base[a.0] ==> g.number != a.1.number)
    && (forall a, i :: a in e.added && 0 <= i < |done| ==> !AddsNumber(done[i], a.0, a.1.number))
    && (forall a, b :: a in e.added && b in e.added && a.0 == b.0 && a.1.number == b.1.number ==> a == b)
  }

  /** Each file number is added at most once per level, and never where the base already has it. */
  ghost predicate AddedOnce(base: LevelSets, edits: seq<Edit>) {
    if edits == [] then true else
      AddedOnce(base, edits[..|edits| - 1]) && AddsNew(base, edits[..|edits| - 1], edits[|edits| - 1])
  }

  ghost predicate AddedBy(done: seq<Edit>, l: nat, n: nat) {
    exists i :: 0 <= i < |done| && AddsNumber(done[i], l, n)
  }

  /** The builder has gathered done over base. */
  ghost predicate Gathered(base: LevelSets, states: seq<LevelState>, done: seq<Edit>) {
    && |base| == |states| == NUM_LEVELS && AllStrict(states)
    && (forall l :: 0 <= l < NUM_LEVELS ==> Saved(base[l], states[l]) == Installed(base, done)[l])
    && (forall l, f :: 0 <= l < NUM_LEVELS && f in states[l].added ==> AddedBy(done, l, f.number))
    && (forall l, f, g :: 0 <= l < NUM_LEVELS && f in base[l] && g in states[l].added ==> f.number != g.number)
  }

  lemma GatherLevel(base: LevelSets, states: seq<LevelState>, v: FileEdit, e: Edit, l: nat)
    requires |base| == |states| == NUM_LEVELS && l < NUM_LEVELS && AllStrict(states) && InLevels(v) && Lists(v, e)
    requires NewNumbers(base, states, v.added)
    ensures Strict(Applied(states, v)[l].added)
    ensures forall f :: f in Applied(states, v)[l].added ==> f in states[l].added || (l, f) in e.added
    ensures Saved(base[l], Applied(states, v)[l]) ==
      (set f | f in Saved(base[l], states[l]) && (l, f.number) !in e.deleted) +
        (set a | a in e.added && a.0 == l :: a.1)
  {
    hide Strict;
    hide Saved;
    var marked := DeleteAll(states, v.deleted);
    forall m: nat | m < NUM_LEVELS
      ensures marked[m].added == states[m].added
    {
      DeleteAllMarks(states, v.deleted, m);
    }
    DeleteAllMarks(states, v.deleted, l);
    DeletedSaved(base[l], states[l], marked[l], e, v.deleted, l);
    AddAllFrom(marked, v.added, l);
    AddAllSaved(base, marked, v.added, l);
    assert AddedAt(v.added, l) == set a | a in e.added && a.0 == l :: a.1;
  }

  lemma NumbersAreNew(base: LevelSets, states: seq<LevelState>, done: seq<Edit>, v: FileEdit, e: Edit)
    requires Gathered(base, states, done) && Lists(v, e) && AddsNew(base, done, e)
    ensures NewNumbers(base, states, v.added) && forall a :: a in v.added ==> a.0 < NUM_LEVELS
  {
  }

  lemma InstalledOneMore(base: LevelSets, done: seq<Edit>, e: Edit)
    ensures Installed(base, done + [e]) == ApplyLevels(Installed(base, done), e)
  {
  }

  lemma AddedByMore(done: seq<Edit>, e: Edit, l: nat, n: nat)
    requires AddedBy(done, l, n) || AddsNumber(e, l, n)
    ensures AddedBy(done + [e], l, n)
  {
    hide AddsNumber;
    var all := done + [e];
    assert all[|done|] == e;
    if AddedBy(done, l, n) {
      var i :| 0 <= i < |done| && AddsNumber(done[i], l, n);
      assert AddsNumber(all[i], l, n);
    }
  }

  /** Gathering one more edit is installing one more edit. */
  lemma GatherOne(base: LevelSets, states: seq<LevelState>, done: seq<Edit>, v: FileEdit, e: Edit)
    requires Gathered(base, states, done) && InLevels(v) && Lists(v, e) && AddsNew(base, done, e)
    ensures Gathered(base, Applied(states, v), done + [e])
  {
    hide Saved;
    hide Strict;
    hide Installed;
    hide Applied;
    hide InLevels;
    NumbersAreNew(base, states, done, v, e);
    InstalledOneMore(base, done, e);
    var after := Applied(states, v);
    forall l: nat, f | l < NUM_LEVELS && f in after[l].added
      ensures AddedBy(done + [e], l, f.number)
      ensures forall g :: g in base[l] ==> g.number != f.number
    {
      hide AddedBy;
      GatherLevel(base, states, v, e, l);
      if (l, f) in e.added {
        assert AddsNumber(e, l, f.number);
        var a := (l, f);
        assert a in e.added && forall g :: g in base[a.0] ==> g.number != a.1.number;
      }
      AddedByMore(done, e, l, f.number);
    }
    forall l: nat | l < NUM_LEVELS
      ensures Strict(after[l].added) && Saved(base[l], after[l]) == Installed(base, done + [e])[l]
    {
      GatherLevel(base, states, v, e, l);
    }
  }

  // ---- saving ----------------------------------------------------------------------------------------

  /** The sorted file lists of a version. */
  ghost predicate IsVersion(v: seq<seq<File>>, sets: LevelSets) {
    |v| == |sets| && forall l :: 0 <= l < |v| ==> Strict(v[l]) && forall f :: f in v[l] <==> f in sets[l]
  }

  /** Whichever way a version was computed, its file lists are the same. */
  lemma VersionsAgree(v: seq<seq<File>>, w: seq<seq<File>>, sets: LevelSets)
    requires IsVersion(v, sets) && IsVersion(w, sets)
    ensures v == w
  {
    hide Strict;
    forall l | 0 <= l < |v|
      ensures v[l] == w[l]
    {
      SortedListsAgree(v[l], w[l]);
    }
  }

  /** std::upper_bound on the base files not yet merged. */
  method UpperBound(base: seq<File>, from: nat, f: File) returns (pos: nat)
    requires Strict(base) && from <= |base|
    ensures from <= pos <= |base|
    ensures forall k :: from <= k < pos ==> !BySmallestKey(f, base[k])
    ensures forall k :: pos <= k < |base| ==> BySmallestKey(f, base[k])
  {
    hide BySmallestKey;
    pos := from;
    while pos < |base| && !BySmallestKey(f, base[pos])
      invariant from <= pos <= |base|
      invariant forall k :: from <= k < pos ==> !BySmallestKey(f, base[k])
    {
      pos := pos + 1;
    }
    forall k | pos <= k < |base|
      ensures BySmallestKey(f, base[k])
    {
      if pos < k {
        Transitive(f, base[pos], base[k]);
      }
    }
  }

  /** Everything in r comes before every file of rest from i on. */
  ghost predicate Precede(r: seq<File>, rest: seq<File>, i: nat) {
    forall f, k :: f in r && i <= k < |rest| ==> BySmallestKey(f, rest[k])
  }

  ghost predicate Distinctly(base: seq<File>, st: LevelState) {
    forall f, g :: f in base && g in st.added ==> f.number != g.number
  }

  ghost predicate MergedOk(base: seq<File>, st: LevelState, i: nat, j: nat, r: seq<File>)
    requires i <= |base| && j <= |st.added|
  {
    && Strict(r) && Precede(r, base, i) && Precede(r, st.added, j)
    && forall f :: f in r <==> (f in base[..i] || f in st.added[..j]) && f.number !in st.deleted
  }

  function MaybeAdd(st: LevelState, f: File, r: seq<File>): seq<File> {
    if f.number in st.deleted then r else r + [f]
  }

  lemma MergeBase(base: seq<File>, st: LevelState, i: nat, j: nat, r: seq<File>)
    requires Strict(base) && Strict(st.added) && i < |base| && j <= |st.added| && MergedOk(base, st, i, j, r)
    requires forall k :: j <= k < |st.added| ==> BySmallestKey(base[i], st.added[k])
    ensures MergedOk(base, st, i + 1, j, MaybeAdd(st, base[i], r))
  {
  }

  lemma MergeAdded(base: seq<File>, st: LevelState, i: nat, j: nat, r: seq<File>)
    requires Strict(base) && Strict(st.added) && i <= |base| && j < |st.added| && MergedOk(base, st, i, j, r)
    requires forall k :: i <= k < |base| ==> BySmallestKey(st.added[j], base[k])
    ensures MergedOk(base, st, i, j + 1, MaybeAdd(st, st.added[j], r))
  {
  }

  lemma BaseFirst(base: seq<File>, st: LevelState, i: nat, j: nat)
    requires Distinctly(base, st) && Strict(st.added) && i < |base| && j < |st.added| &&
      !BySmallestKey(st.added[j], base[i])
    ensures forall k :: j <= k < |st.added| ==> BySmallestKey(base[i], st.added[k])
  {
  }

  /** SaveTo for one level: the added files and the base files in one pass, deleted ones left out. */
  method MergeLevel(base: seq<File>, st: LevelState) returns (r: seq<File>)
    requires Strict(base) && Strict(st.added) && Distinctly(base, st)
    ensures Strict(r)
    ensures forall f :: f in r <==> (f in base || f in st.added) && f.number !in st.deleted
  {
    hide MergedOk;
    hide Strict;
    hide BySmallestKey;
    r := [];
    var i := 0;
    NothingMerged(base, st);
    for j := 0 to |st.added|
      invariant i <= |base| && MergedOk(base, st, i, j, r)
    {
      var pos := UpperBound(base, i, st.added[j]);
      while i < pos
        invariant i <= pos && MergedOk(base, st, i, j, r)
      {
        BaseFirst(base, st, i, j);
        MergeBase(base, st, i, j, r);
        r := MaybeAdd(st, base[i], r);
        i := i + 1;
      }
      MergeAdded(base, st, i, j, r);
      r := MaybeAdd(st, st.added[j], r);
    }
    while i < |base|
      invariant i <= |base| && MergedOk(base, st, i, |st.added|, r)
    {
      MergeBase(base, st, i, |st.added|, r);
      r := MaybeAdd(st, base[i], r);
      i := i + 1;
    }
    AllMerged(base, st, r);
  }

  lemma NothingMerged(base: seq<File>, st: LevelState)
    ensures MergedOk(base, st, 0, 0, [])
  {
  }

  lemma AllMerged(base: seq<File>, st: LevelState, r: seq<File>)
    requires MergedOk(base, st, |base|, |st.added|, r)
    ensures Strict(r) && forall f :: f in r <==> (f in base || f in st.added) && f.number !in st.deleted
  {
  }

  class Builder {
    const base: seq<seq<File>>
    var levels: seq<LevelState>

    ghost predicate Valid()
      reads this
    {
      |base| == |levels| == NUM_LEVELS && (forall l :: 0 <= l < NUM_LEVELS ==> Strict(base[l])) && AllStrict(levels)
    }

    /** The edits gathered so far. */
    ghost predicate Has(done: seq<Edit>)
      reads this
    {
      Valid() && Gathered(ToSets(base), levels, done)
    }

    constructor (base: seq<seq<File>>)
      requires |base| == NUM_LEVELS && forall l :: 0 <= l < NUM_LEVELS ==> Strict(base[l])
      ensures this.base == base && Has([])
    {
      this.base := base;
      levels := seq(NUM_LEVELS, i => LevelState({}, []));
    }

    method Apply(edit: FileEdit)
      requires Valid() && InLevels(edit)
      modifies this`levels
      ensures levels == Applied(old(levels), edit)
    {
      hide Strict;
      hide InsertFile;
      var del, add := edit.deleted, edit.added;
      for i := 0 to |del|
        invariant |levels| == NUM_LEVELS && levels == DeleteAll(old(levels), del[..i])
      {
        assert del[..i + 1] == del[..i] + [del[i]];
        assert del[i] in del;
        var d := del[i];
        levels := levels[d.0 := levels[d.0].(deleted := levels[d.0].deleted + {d.1})];
      }
      assert del[..|del|] == del;
      for i := 0 to |add|
        invariant |levels| == NUM_LEVELS && levels == AddAll(DeleteAll(old(levels), del), add[..i])
      {
        assert add[..i + 1] == add[..i] + [add[i]];
        assert add[i] in add;
        levels := levels[add[i].0 := AddTo(levels[add[i].0], add[i].1)];
      }
      assert add[..|add|] == add;
    }

    /** One more edit gathered is one more edit installed. */
    method Gather(edit: FileEdit, ghost done: seq<Edit>, ghost e: Edit)
      requires Has(done) && InLevels(edit) && Lists(edit, e) && AddsNew(ToSets(base), done, e)
      modifies this`levels
      ensures Has(done + [e])
    {
      hide Gathered;
      hide Strict;
      hide Applied;
      hide ToSets;
      hide AddsNew;
      hide Lists;
      GatherOne(ToSets(base), levels, done, edit, e);
      Apply(edit);
      GatheredStrict(ToSets(base), levels, done + [e]);
    }

    static lemma GatheredStrict(base: LevelSets, states: seq<LevelState>, done: seq<Edit>)
      requires Gathered(base, states, done)
      ensures |states| == NUM_LEVELS && AllStrict(states)
    {
    }

    /** The gathered edits' version, as sorted file lists. */
    method SaveTo(ghost done: seq<Edit>) returns (v: seq<seq<File>>)
      requires Has(done)
      ensures IsVersion(v, Installed(ToSets(base), done))
    {
      hide Strict;
      hide Installed;
      v := [];
      for l := 0 to NUM_LEVELS
        invariant |v| == l
        invariant forall m :: 0 <= m < l ==> Strict(v[m]) && forall f :: f in v[m] <==>
          f in Installed(ToSets(base), done)[m]
      {
        assert forall f :: f in base[l] <==> f in ToSets(base)[l];
        var r := MergeLevel(base[l], levels[l]);
        assert Saved(ToSets(base)[l], levels[l]) == Installed(ToSets(base), done)[l];
        assert forall f :: f in r <==> f in Saved(ToSets(base)[l], levels[l]);
        v := v + [r];
      }
    }
  }

  // ---- the two ways to a version ---------------------------------------------------------------------

  predicate Sane(v: seq<seq<File>>) {
    |v| == NUM_LEVELS && forall l :: 0 <= l < NUM_LEVELS ==> Strict(v[l])
  }

  /** LogAndApply: one builder for one edit. */
  method InstallOne(current: seq<seq<File>>, edit: FileEdit, ghost e: Edit) returns (v: seq<seq<File>>)
    requires Sane(current) && InLevels(edit) && Lists(edit, e) && AddsNew(ToSets(current), [], e)
    ensures IsVersion(v, ApplyLevels(ToSets(current), e))
  {
    hide Strict;
    hide Gathered;
    var b := new Builder(current);
    b.Gather(edit, [], e);
    v := b.SaveTo([] + [e]);
    InstalledOneMore(ToSets(current), [], e);
  }

  ghost predicate ListsAll(edits: seq<FileEdit>, es: seq<Edit>) {
    |edits| == |es| && forall i :: 0 <= i < |es| ==> InLevels(edits[i]) && Lists(edits[i], es[i])
  }

  /** VersionSet::Recover: one builder for the whole manifest. */
  method InstallAll(edits: seq<FileEdit>, ghost es: seq<Edit>) returns (v: seq<seq<File>>)
    requires ListsAll(edits, es) && AddedOnce(EMPTY_LEVELS, es)
    ensures IsVersion(v, ReplayManifest(es).levels)
  {
    hide Gathered;
    hide Installed;
    var empty: seq<seq<File>> := [[], [], [], [], [], [], []];
    forall l: nat | l < NUM_LEVELS
      ensures ToSets(empty)[l] == EMPTY_LEVELS[l]
    {
      assert empty[l] == [] && EMPTY_LEVELS[l] == {};
    }
    assert ToSets(empty) == EMPTY_LEVELS;
    var b := new Builder(empty);
    assert es[..0] == [];
    for i := 0 to |edits|
      invariant b.Has(es[..i]) && b.base == empty
    {
      AddedOncePrefix(EMPTY_LEVELS, es, i);
      assert es[..i + 1] == es[..i] + [es[i]];
      b.Gather(edits[i], es[..i], es[i]);
    }
    assert es[..|edits|] == es;
    v := b.SaveTo(es);
    InstalledIsReplay(es);
  }

  lemma {:induction false} AddedOncePrefix(base: LevelSets, es: seq<Edit>, i: nat)
    requires AddedOnce(base, es) && i < |es|
    ensures AddsNew(base, es[..i], es[i])
    decreases |es|
  {
    var k := |es| - 1;
    if i < k {
      AddedOncePrefix(base, es[..k], i);
      assert es[..k][..i] == es[..i] && es[..k][i] == es[i];
    }
  }

  /** MaybeAddFile's assertion: in a version with ordered levels, each file of a level below the first lies wholly after
      the one before it, so the saved lists are what level-by-level lookup needs. */
  lemma SavedIsOrdered(v: seq<seq<File>>, sets: LevelSets, l: nat)
    requires IsVersion(v, sets) && VersionOk(sets) && 1 <= l < NUM_LEVELS
    ensures Ordered(v[l])
  {
    assert LevelOk(l, sets[l]);
    var fs := v[l];
    forall i | 0 <= i < |fs|
      ensures FileOk(fs[i])
    {
      assert fs[i] in fs;
    }
    forall i, j | 0 <= i < j < |fs|
      ensures Before(fs[i], fs[j])
    {
      assert fs[i] in fs && fs[j] in fs;
      hide FileOk;
      Trichotomy(fs[i], fs[j]);
      Bounds(fs[i]);
      Bounds(fs[j]);
      if Before(fs[j], fs[i]) {
        NotAfter(fs[i], fs[j]);
      }
    }
  }

  lemma NotAfter(f: File, g: File)
    requires BySmallestKey(f, g) && ILeq(f.smallest, f.largest) && ILeq(g.smallest, g.largest)
    ensures !Before(g, f)
  {
  }
}
