/** Where the code does not keep its own discipline: a boundary below that input selection leaves open, and a flush into
    a gap of a manual compaction. */
module Hazards {
  import opened Keys
  import opened Format
  import opened Levels
  import opened Compaction
  import opened Gaps
  import opened Inputs
  import opened Setup
  import opened LevelOrder
  import opened CompactionReads
  import opened Selection

  // ---- a boundary left open at level+1 ----------------------------------------

  /** Level 2 holds a put p of user key b; at level 3 one file holds an older put q of b and a deletion d of c,
      and the next file starts with the put o of c that d hides. */
  datatype Scene = Scene(p: Entry, q: Entry, d: Entry, o: Entry, un: nat, fn: nat, gn: nat, size: nat)

  ghost predicate SceneOk(s: Scene) {
    && s.p.ik.user == s.q.ik.user && s.d.ik.user == s.o.ik.user
    && Rank(s.p.ik.user) < Rank(s.d.ik.user)
    && s.p.ik.sn > s.q.ik.sn && s.d.ik.sn > s.o.ik.sn
    && s.d.ik.kind.Deletion? && s.o.ik.kind.Value? && s.fn != s.gn
  }

  function U(s: Scene): File {
    File(s.un, s.size, s.p.ik, s.p.ik, [s.p])
  }

  function F(s: Scene): File {
    File(s.fn, s.size, s.q.ik, s.d.ik, [s.q, s.d])
  }

  function G(s: Scene): File {
    File(s.gn, s.size, s.o.ik, s.o.ik, [s.o])
  }

  function Tree7(u: File, f: File, g: File): seq<seq<File>> {
    [[], [], [u], [f, g], [], [], []]
  }

  lemma SceneFiles(s: Scene)
    requires SceneOk(s)
    ensures FileOk(U(s)) && FileOk(F(s)) && FileOk(G(s)) && Before(F(s), G(s))
    ensures Newer(U(s), F(s)) && Newer(U(s), G(s))
  {
  }

  /** Files at levels 2 and 3 and nowhere else. */
  ghost predicate Small(v: LevelSets, upper: set<File>, lower: set<File>) {
    |v| == NUM_LEVELS && v[2] == upper && v[3] == lower && forall l :: 0 <= l < NUM_LEVELS && l != 2 && l != 3 ==>
      v[l] == {}
  }

  lemma TreeSets(u: File, f: File, g: File)
    ensures Small(ToSets(Tree7(u, f, g)), {u}, {f, g})
  {
  }

  lemma SmallContents(v: LevelSets, upper: set<File>, lower: set<File>)
    requires Small(v, upper, lower)
    ensures Contents(v) == FileEntries(upper) + FileEntries(lower)
  {
  }

  lemma SmallCross(v: LevelSets, u: File, f: File, g: File)
    requires Small(v, {u}, {f, g}) && Newer(u, f) && Newer(u, g)
    ensures CrossNewer(v)
  {
  }

  lemma PairLevel(f: File, g: File)
    requires FileOk(f) && FileOk(g) && Before(f, g) && f.number != g.number
    ensures LevelOk(3, {f, g})
  {
  }

  lemma SmallVersion(v: LevelSets, u: File, f: File, g: File)
    requires Small(v, {u}, {f, g})
    requires FileOk(u) && LevelOk(3, {f, g}) && Newer(u, f) && Newer(u, g)
    ensures VersionOk(v)
  {
    SmallCross(v, u, f, g);
    assert LevelOk(2, {u});
    forall l | 0 <= l < NUM_LEVELS
      ensures LevelOk(l, v[l])
    {
    }
  }

  lemma OneFileEntries(f: File)
    ensures FileEntries({f}) == Elems(f.entries)
  {
  }

  lemma TwoFileEntries(f: File, g: File)
    ensures FileEntries({f, g}) == Elems(f.entries) + Elems(g.entries)
  {
  }

  lemma SceneEntries(s: Scene)
    ensures FileEntries({U(s)}) == iset{s.p}
    ensures FileEntries({F(s), G(s)}) == iset{s.q, s.d, s.o}
    ensures FileEntries({G(s)}) == iset{s.o}
  {
    OneFileEntries(U(s));
    TwoFileEntries(F(s), G(s));
    OneFileEntries(G(s));
  }

  lemma SceneDistinct(s: Scene)
    requires SceneOk(s)
    ensures Distinct(iset{s.p, s.q, s.d, s.o})
  {
  }

  lemma SceneVectors(s: Scene)
    requires SceneOk(s)
    ensures Vectors(Tree7(U(s), F(s), G(s)))
  {
  }

  lemma SceneContents(s: Scene, v: LevelSets)
    requires SceneOk(s) && Small(v, {U(s)}, {F(s), G(s)})
    ensures Contents(v) == iset{s.p, s.q, s.d, s.o}
  {
  }

  lemma SceneOrder(s: Scene, v: LevelSets)
    requires SceneOk(s) && Small(v, {U(s)}, {F(s), G(s)})
    ensures VersionOk(v)
  {
    SceneFiles(s);
    PairLevel(F(s), G(s));
    SmallVersion(v, U(s), F(s), G(s));
  }

  /** The scene is a legal version. */
  lemma SceneIsLegal(s: Scene)
    requires SceneOk(s)
    ensures Vectors(Tree7(U(s), F(s), G(s))) && VersionOk(ToSets(Tree7(U(s), F(s), G(s))))
    ensures Contents(ToSets(Tree7(U(s), F(s), G(s)))) == iset{s.p, s.q, s.d, s.o}
    ensures Distinct(iset{s.p, s.q, s.d, s.o})
  {
    SceneDistinct(s);
    SceneVectors(s);
    TreeSets(U(s), F(s), G(s));
    SceneContents(s, ToSets(Tree7(U(s), F(s), G(s))));
    SceneOrder(s, ToSets(Tree7(U(s), F(s), G(s))));
  }

  lemma OverlappingTwo(f: File, g: File, b: Option<Bytes>, e: Option<Bytes>)
    ensures Overlapping([f, g], b, e) == (if Overlaps(f, b, e) then [f] else []) +
      (if Overlaps(g, b, e) then [g] else [])
  {
    var next := [f, g];
    assert OverlappingFirst(next, 0, b, e) == [];
    assert OverlappingFirst(next, 1, b, e) == if Overlaps(f, b, e) then [f] else [];
  }

  lemma OneClosed(u: File, sel: seq<File>)
    requires Closed(2, [u], sel)
    ensures sel == [u]
  {
    var a :| CleanSlice([u], sel, a);
  }

  lemma CoveredByOne(next: seq<File>, u: File, in1: seq<File>)
    requires CoveredBelow(next, [u], in1)
    ensures in1 == Overlapping(next, Some(u.smallest.user), Some(u.largest.user))
  {
  }

  /** The only selection at level 2 takes f and leaves g behind. */
  lemma OnlySelection(s: Scene, in0: seq<File>, in1: seq<File>)
    requires SceneOk(s)
    requires Closed(2, [U(s)], in0) && CoveredBelow([F(s), G(s)], in0, in1)
    ensures in0 == [U(s)] && in1 == [F(s)]
  {
    hide Closed;
    hide CoveredBelow;
    hide Overlapping;
    OneClosed(U(s), in0);
    CoveredByOne([F(s), G(s)], U(s), in1);
    OverlappingTwo(F(s), G(s), Some(s.p.ik.user), Some(s.p.ik.user));
  }

  lemma SceneRest(s: Scene, v: LevelSets)
    requires SceneOk(s) && Small(v, {U(s)}, {F(s), G(s)})
    ensures Contents(Without(v, 2, {U(s)}, {F(s)})) == iset{s.o}
    ensures BaseLevel(v, 2, s.d.ik.user)
  {
    assert Small(Without(v, 2, {U(s)}, {F(s)}), {}, {G(s)});
    SmallContents(Without(v, 2, {U(s)}, {F(s)}), {}, {G(s)});
    SceneEntries(s);
  }

  /** Compacting that selection makes the deleted key readable again: at any floor from the deletion up, a reader found
      nothing under c before, and finds the hidden put after. */
  lemma OpenBoundaryResurrects(s: Scene, v: LevelSets, floor: nat, outs: set<File>)
    requires SceneOk(s) && s.d.ik.sn <= floor && v == ToSets(Tree7(U(s), F(s), G(s)))
    requires FileEntries(outs) == Elems(Output([s.p, s.q, s.d], floor, v, 2))
    ensures Read(Contents(v), s.d.ik.user, floor) == None
    ensures Read(Contents(Install(v, 2, {U(s)}, {F(s)}, outs)), s.d.ik.user, floor) == Some(s.o.value)
    ensures Exposed(v, 2, {F(s)}, [s.p, s.q, s.d], floor, s.d.ik.user)
  {
    SceneIsLegal(s);
    TreeSets(U(s), F(s), G(s));
    SceneRest(s, v);
    InstallContents(v, 2, {U(s)}, {F(s)}, outs);
    SceneReads(s, v, floor);
    SceneExposed(s, v, floor);
  }

  lemma SceneExposed(s: Scene, v: LevelSets, floor: nat)
    requires SceneOk(s) && s.d.ik.sn <= floor && Small(v, {U(s)}, {F(s), G(s)})
    requires Contents(v) == iset{s.p, s.q, s.d, s.o} && Distinct(Contents(v)) && BaseLevel(v, 2, s.d.ik.user)
    ensures Exposed(v, 2, {F(s)}, [s.p, s.q, s.d], floor, s.d.ik.user)
  {
    hide BaseLevel;
    SceneFiles(s);
    var k := s.d.ik.user;
    NewestIs(Contents(v), k, floor, s.d);
    assert [s.p, s.q, s.d][2] == s.d;
    assert Straddles(v, 2, {F(s)}, F(s), G(s));
    assert FirstPast(v, 2, {F(s)}, k, G(s));
  }

  lemma SceneReads(s: Scene, v: LevelSets, floor: nat)
    requires SceneOk(s) && s.d.ik.sn <= floor && BaseLevel(v, 2, s.d.ik.user)
    ensures Read(iset{s.p, s.q, s.d, s.o}, s.d.ik.user, floor) == None
    ensures Read(iset{s.o} + Elems(Output([s.p, s.q, s.d], floor, v, 2)), s.d.ik.user, floor) == Some(s.o.value)
  {
  }


  // ---- a flush into a gap of a manual compaction ----------------------------------------------------------------

  /** Level 0 holds a put a and, in another file, a put z; level 2 holds a put h of a key between them, and the memtable
      a newer put m of that key. */
  datatype Gap = Gap(a: Entry, z: Entry, m: Entry, h: Entry, an: nat, zn: nat, hn: nat, size: nat)

  ghost predicate GapOk(g: Gap) {
    && Rank(g.a.ik.user) < Rank(g.m.ik.user) < Rank(g.z.ik.user) && g.h.ik.user == g.m.ik.user && g.h.ik.sn < g.m.ik.sn
    && g.a.ik.kind.Value? && g.z.ik.kind.Value? && g.h.ik.sn <= MAX_SEQUENCE && g.an != g.zn
    && g.a.ik.sn <= MAX_SEQUENCE && g.z.ik.sn <= MAX_SEQUENCE
  }

  function SingleFile(e: Entry, number: nat, size: nat): File {
    File(number, size, e.ik, e.ik, [e])
  }

  function LeftFile(g: Gap): File {
    SingleFile(g.a, g.an, g.size)
  }

  function RightFile(g: Gap): File {
    SingleFile(g.z, g.zn, g.size)
  }

  function DeepFile(g: Gap): File {
    SingleFile(g.h, g.hn, g.size)
  }

  function GapTree(g: Gap): seq<seq<File>> {
    [[LeftFile(g), RightFile(g)], [], [DeepFile(g)], [], [], [], []]
  }

  lemma GapVectors(g: Gap)
    requires GapOk(g)
    ensures Vectors(GapTree(g)) && forall l :: 0 <= l < NUM_LEVELS ==> BoundedKeys(GapTree(g)[l])
  {
  }

  lemma OverlappingOne(f: File, b: Option<Bytes>, e: Option<Bytes>)
    ensures Overlapping([f], b, e) == if Overlaps(f, b, e) then [f] else []
  {
    assert OverlappingFirst([f], 0, b, e) == [];
  }

  lemma NothingBelow(in0: seq<File>, in1: seq<File>)
    requires CoveredBelow([], in0, in1)
    ensures in1 == []
  {
  }

  lemma BothSelected(g: Gap, in0: seq<File>)
    requires Closed(0, [LeftFile(g), RightFile(g)], in0) && forall f :: f in [LeftFile(g), RightFile(g)] ==> f in in0
    ensures SetOf(in0) == {LeftFile(g), RightFile(g)}
  {
  }

  /** From level 0 the table may go to level 1 but no further. */
  lemma PushesOnce(g: Gap, maxOverlap: nat)
    requires GapOk(g) && g.size <= maxOverlap
    ensures var k := g.m.ik.user;
      && !InTheWay(GapTree(g), 0, k, k) && MayPush(GapTree(g), 0, k, k, maxOverlap) &&
        !MayPush(GapTree(g), 1, k, k, maxOverlap)
  {
    var t, k := GapTree(g), g.m.ik.user;
    assert t[0] == [LeftFile(g), RightFile(g)] && t[1] == [] && t[2] == [DeepFile(g)];
    OverlappingOne(DeepFile(g), Some(k), Some(k));
    assert DeepFile(g) in t[2];
    assert TotalFileSize([DeepFile(g)]) == g.size by { assert [DeepFile(g)][1..] == []; }
  }

  /** A manual compaction of level 0 takes both files and nothing from level 1, and the level picked for a table holding
      only m is level 1, since level 2 holds its key. */
  method SelectAroundGap(g: Gap, fileLimit: nat, limit: nat, maxOverlap: nat)
    returns (in0: seq<File>, in1: seq<File>, level: nat)
    requires GapOk(g) && g.size <= maxOverlap
    ensures SetOf(in0) == {LeftFile(g), RightFile(g)} && in1 == [] && level == 1
  {
    hide ChosenFrom;
    hide Requested;
    hide Closed;
    hide CoveredBelow;
    hide Vectors;
    hide Tree;
    hide BoundedKeys;
    hide InTheWay;
    hide MayPush;
    hide LeftFile;
    hide RightFile;
    hide DeepFile;
    var files := GapTree(g);
    GapVectors(g);
    VectorsAreTree(files);
    assert LeftFile(g) in files[0] && Overlaps(LeftFile(g), None, None);
    var r := CompactRange(files, 0, None, None, fileLimit, limit);
    assert r.Some?;
    in0, in1 := r.value.0, r.value.1;
    BothSelected(g, in0);
    NothingBelow(in0, in1);
    level := PickLevelForMemTableOutput(files, g.m.ik.user, g.m.ik.user, maxOverlap);
    PushesOnce(g, maxOverlap);
  }

  /** The one file the compaction writes when no size limit cuts it: both puts survive. */
  function WideFile(g: Gap, number: nat, size: nat): File {
    File(number, size, g.a.ik, g.z.ik, [g.a, g.z])
  }

  lemma GapOutput(g: Gap, floor: nat, v: LevelSets)
    requires GapOk(g)
    ensures Sorted([g.a, g.z]) && Output([g.a, g.z], floor, v, 0) == [g.a, g.z]
    ensures Elems([g.a, g.z]) == FileEntries({LeftFile(g), RightFile(g)} + {})
  {
    hide BaseLevel;
    var input := [g.a, g.z];
    assert Keep(input, 0, floor, v, 0) && Keep(input, 1, floor, v, 0);
    assert Kept(input, 0, floor, v, 0) == [];
    assert Kept(input, 1, floor, v, 0) == [g.a];
    assert Kept(input, 2, floor, v, 0) == [g.a, g.z];
    TwoFileEntries(LeftFile(g), RightFile(g));
    assert {LeftFile(g), RightFile(g)} + {} == {LeftFile(g), RightFile(g)};
    assert forall e :: e in [g.a, g.z] <==> e == g.a || e == g.z;
  }

  /** Two files at level 0 and one at level 2. */
  ghost predicate GapLevels(v: LevelSets, g: Gap) {
    && |v| == NUM_LEVELS && v[0] == {LeftFile(g), RightFile(g)} && v[2] == {DeepFile(g)}
    && forall l :: 0 <= l < NUM_LEVELS && l != 0 && l != 2 ==> v[l] == {}
  }

  lemma GapSets(g: Gap)
    ensures GapLevels(ToSets(GapTree(g)), g)
  {
  }

  /** m lies in a gap of the two inputs that no file of the upper levels covers, so its table may go to level 1. */
  lemma GapIsClear(g: Gap, v: LevelSets, mn: nat)
    requires GapOk(g) && GapLevels(v, g)
    ensures SafeInputs(v, 0, {LeftFile(g), RightFile(g)}, {})
    ensures GapAt({LeftFile(g), RightFile(g)}, g.m.ik.user) && !CoveredAbove(v, 1, g.m.ik.user)
    ensures ClearDownTo(v, 1, SingleFile(g.m, mn, g.size))
  {
  }

  /** Once the flush and the compaction are both installed, level 1 holds two overlapping files: the order the levels
      live by is gone. The first of them that ends at or after m is the compaction's, which does not have m, so a search
      of the level misses it and one level further down finds the old put h, though the newest entry is m. */
  lemma FlushIntoGapOverlaps(g: Gap, v: LevelSets, mn: nat, on: nat, osize: nat, s: nat)
    requires GapOk(g) && GapLevels(v, g) && g.m.ik.sn <= s && mn != on
    ensures var f, o := SingleFile(g.m, mn, g.size), WideFile(g, on, osize);
      var w := Install(AddFile(v, 1, f), 0, {LeftFile(g), RightFile(g)}, {}, {o});
      && FileOk(o) && w[1] == {f, o} && !VersionOk(w)
      && ILess(o.smallest, f.smallest) && ILeq(LookupKey(g.m.ik.user, s), o.largest)
      && TableGet(o.entries, g.m.ik.user, s) == None && TableGet(DeepFile(g).entries, g.m.ik.user, s) == Some(g.h)
      && DeepFile(g) in w[2] && g.m in Contents(w) && g.h.ik.sn < g.m.ik.sn
  {
  }
}
