/** What a compaction does to readers across the whole tree: exactly which boundary left open at level+1 brings a
    deleted key back, and that nothing else does. */
module CompactionReads {
  import opened Keys
  import opened Format
  import opened Levels
  import opened Compaction
  import opened Inputs
  import opened LevelOrder

  /** A file left at level+1 starts with the user key an input of that level ends with. SetupOtherInputs extends only
      the inputs at level past such a boundary. */
  ghost predicate Straddles(v: LevelSets, level: nat, in1: set<File>, f: File, g: File)
    requires level + 1 < |v|
  {
    f in in1 && g in v[level + 1] - in1 && Before(f, g) && f.largest.user == g.smallest.user
  }

  /** A surviving entry of the tombstone's user key that is older than it can only sit across such a boundary. */
  lemma ResurrectionStraddles(v: LevelSets, level: nat, in0: set<File>, in1: set<File>, t: Entry, r: Entry)
    returns (f: File, g: File)
    requires VersionOk(v) && SafeInputs(v, level, in0, in1)
    requires t in FileEntries(in0 + in1) && r in Contents(Without(v, level, in0, in1))
    requires t.ik.user == r.ik.user && r.ik.sn < t.ik.sn && BaseLevel(v, level, t.ik.user)
    ensures Straddles(v, level, in1, f, g) && g.smallest.user == t.ik.user
    ensures t in f.entries && r in g.entries
  {
    f :| f in in0 + in1 && t in f.entries;
    var l: nat;
    l, g := SurvivorFile(v, level, in0, in1, r);
    assert LevelOk(l, v[l]) && LevelOk(level, v[level]) && LevelOk(level + 1, v[level + 1]);
    InRange(g, r);
    assert Covers(g, t.ik.user);
    CrossInput(v, level, in0, in1, l, g);
    assert !Newer(g, f);
    assert l == level + 1;
    SharedUser(f, g, t, r);
    assert f in in1;
    assert Before(f, g) || Before(g, f);
    BetweenSameUser(f, g, t, r);
  }

  lemma SharedUser(f: File, g: File, t: Entry, r: Entry)
    requires FileOk(f) && FileOk(g) && t in f.entries && r in g.entries && t.ik.user == r.ik.user
    ensures !Apart(f, g)
  {
  }

  lemma BetweenSameUser(f: File, g: File, t: Entry, r: Entry)
    requires FileOk(f) && FileOk(g) && t in f.entries && r in g.entries
    requires t.ik.user == r.ik.user && r.ik.sn < t.ik.sn
    requires Before(f, g) || Before(g, f)
    ensures Before(f, g) && f.largest.user == g.smallest.user == t.ik.user
  {
  }

  lemma SurvivorFile(v: LevelSets, level: nat, in0: set<File>, in1: set<File>, r: Entry) returns (l: nat, g: File)
    requires level + 1 < |v| && r in Contents(Without(v, level, in0, in1))
    ensures l < |v| && g in v[l] && r in g.entries
    ensures l == level ==> g !in in0
    ensures l == level + 1 ==> g !in in1
  {
    var w := Without(v, level, in0, in1);
    l, g :| l < |w| && g in w[l] && r in g.entries;
  }

  // ---- the exact condition ------------------------------------------------------------------------

  /** g is the first file left at level+1 that starts with user key k just past an input of that level. */
  ghost predicate FirstPast(v: LevelSets, level: nat, in1: set<File>, k: Bytes, g: File)
    requires level + 1 < |v|
  {
    && g.smallest.user == k && (exists f :: Straddles(v, level, in1, f, g))
    && forall f, h :: Straddles(v, level, in1, f, h) && h.smallest.user == k ==> h == g || Before(g, h)
  }

  /** The newest entry of k at the floor is a deletion among the inputs, no deeper level can hold k, and the first file
      left just past the inputs starts with a value of k. All of it can be seen before the compaction runs. */
  ghost predicate Exposed(v: LevelSets, level: nat, in1: set<File>, input: seq<Entry>, floor: nat, k: Bytes)
    requires level + 1 < |v|
  {
    exists t, g :: t in input && t.ik.kind.Deletion? && Newest(Contents(v), k, floor) == Some(t) &&
      BaseLevel(v, level, k)
      && FirstPast(v, level, in1, k, g) && g.smallest.kind.Value?
  }

  /** Among finitely many files left past the inputs, one comes first. */
  lemma {:induction false} FirstOf(v: LevelSets, level: nat, in1: set<File>, k: Bytes, some: set<File>, g: File)
    returns (h: File)
    requires level + 1 < |v| && LevelOk(level + 1, v[level + 1])
    requires g in some && forall x :: x in some ==> x in v[level + 1]
    ensures h in some && forall x :: x in some ==> x == h || Before(h, x)
    decreases |some|
  {
    hide ILess;
    var rest := some - {g};
    if rest == {} {
      h := g;
    } else {
      var x :| x in rest;
      var y := FirstOf(v, level, in1, k, rest, x);
      if Before(y, g) {
        h := y;
      } else {
        h := g;
        forall z | z in rest && z != y
          ensures Before(g, z)
        {
          BeforeAll(g, y, z);
        }
      }
    }
  }

  lemma BeforeAll(f: File, g: File, h: File)
    requires FileOk(g) && Before(f, g) && Before(g, h)
    ensures Before(f, h)
  {
  }

  lemma FirstPastExists(v: LevelSets, level: nat, in1: set<File>, k: Bytes, f: File, g: File) returns (h: File)
    requires level + 1 < |v| && LevelOk(level + 1, v[level + 1])
    requires Straddles(v, level, in1, f, g) && g.smallest.user == k
    ensures FirstPast(v, level, in1, k, h) && (h == g || Before(h, g))
  {
    var some := set x | x in v[level + 1] && x.smallest.user == k &&
                        (exists y :: y in in1 && Straddles(v, level, in1, y, x));
    assert g in some;
    h := FirstOf(v, level, in1, k, some, g);
    forall y, x | Straddles(v, level, in1, y, x) && x.smallest.user == k
      ensures x == h || Before(h, x)
    {
      assert x in some;
    }
  }

  /** A file that one input lies before has all inputs before it. */
  lemma AllBefore(v: LevelSets, level: nat, in0: set<File>, in1: set<File>, f: File, g: File, x: File)
    requires VersionOk(v) && SafeInputs(v, level, in0, in1) && Straddles(v, level, in1, f, g) && x in in0 + in1
    ensures Before(x, g)
  {
    assert LevelOk(level + 1, v[level + 1]);
    assert Outlies(g, in0 + in1) && f in in0 + in1;
    Bounds(f);
    Bounds(g);
  }

  /** Its first entry is among the survivors and older than any input deletion of its user key. */
  lemma PastIsOlder(v: LevelSets, level: nat, in0: set<File>, in1: set<File>, k: Bytes, g: File, t: Entry)
    requires VersionOk(v) && SafeInputs(v, level, in0, in1) && FirstPast(v, level, in1, k, g)
    requires t in FileEntries(in0 + in1) && t.ik.user == k && t.ik.kind.Deletion?
    ensures |g.entries| > 0 && g.entries[0].ik == g.smallest && g.smallest.sn < t.ik.sn
    ensures g.entries[0] in Contents(Without(v, level, in0, in1))
  {
    var f :| Straddles(v, level, in1, f, g);
    var x :| x in in0 + in1 && t in x.entries;
    assert LevelOk(level, v[level]) && LevelOk(level + 1, v[level + 1]);
    AllBefore(v, level, in0, in1, f, g, x);
    InRange(x, t);
    assert g in Without(v, level, in0, in1)[level + 1];
  }

  /** No entry is both in an input and in a file left behind. */
  lemma LeftElsewhere(v: LevelSets, level: nat, in0: set<File>, in1: set<File>, t: Entry)
    requires VersionOk(v) && SafeInputs(v, level, in0, in1) && t in FileEntries(in0 + in1)
    ensures t !in Contents(Without(v, level, in0, in1))
  {
    if t in Contents(Without(v, level, in0, in1)) {
      var l, g := SurvivorFile(v, level, in0, in1, t);
      var f :| f in in0 + in1 && t in f.entries;
      assert LevelOk(l, v[l]) && LevelOk(level, v[level]) && LevelOk(level + 1, v[level + 1]);
      CrossInput(v, level, in0, in1, l, g);
      assert !Newer(g, f) && !Newer(f, g);
      SharedUser(f, g, t, t);
      assert f in in1;
      assert Outlies(g, in0 + in1);
      InRange(f, t);
      InRange(g, t);
    }
  }

  lemma ContentsSplit(v: LevelSets, level: nat, in0: set<File>, in1: set<File>, input: seq<Entry>)
    requires level + 1 < |v| && in0 <= v[level] && in1 <= v[level + 1] && Elems(input) == FileEntries(in0 + in1)
    ensures Contents(v) == Elems(input) + Contents(Without(v, level, in0, in1))
  {
    InstallContents(v, level, in0, in1, {});
  }

  lemma ResurrectsIsExposed(v: LevelSets, level: nat, in0: set<File>, in1: set<File>, input: seq<Entry>, floor: nat,
          k: Bytes)
    requires VersionOk(v) && Distinct(Contents(v)) && SafeInputs(v, level, in0, in1) &&
      Elems(input) == FileEntries(in0 + in1)
    requires Resurrects(input, Contents(Without(v, level, in0, in1)), floor, v, level, k)
    ensures Exposed(v, level, in1, input, floor, k)
  {
    hide VersionOk;
    hide SafeInputs;
    hide FirstPast;
    SafeBounds(v, level, in0, in1);
    var rest := Contents(Without(v, level, in0, in1));
    ContentsSplit(v, level, in0, in1, input);
    var t := Newest(Elems(input) + rest, k, floor).value;
    var n := Newest(rest, k, t.ik.sn).value;
    assert t in Elems(input) && n in Elems(input) + rest;
    var f, g := ResurrectionStraddles(v, level, in0, in1, t, n);
    var h := FirstPastExists(v, level, in1, k, f, g);
    PastOf(v, level, in1, k, h);
    PastIsOlder(v, level, in0, in1, k, h, t);
    FirstIsNewest(v, level, g, h, n, rest);
  }

  lemma PastOf(v: LevelSets, level: nat, in1: set<File>, k: Bytes, g: File)
    requires level + 1 < |v| && FirstPast(v, level, in1, k, g)
    ensures g in v[level + 1] && g.smallest.user == k
  {
  }

  lemma SafeBounds(v: LevelSets, level: nat, in0: set<File>, in1: set<File>)
    requires VersionOk(v) && SafeInputs(v, level, in0, in1)
    ensures |v| == NUM_LEVELS && level + 1 < |v| && in0 <= v[level] && in1 <= v[level + 1]
    ensures LevelOk(level, v[level]) && LevelOk(level + 1, v[level + 1])
  {
  }

  /** The survivor n of g is the first entry of h, which comes no later. */
  lemma FirstIsNewest(v: LevelSets, level: nat, g: File, h: File, n: Entry, rest: iset<Entry>)
    requires FileOk(g) && FileOk(h) && (h == g || Before(h, g)) && n in g.entries && n.ik.user == h.smallest.user
    requires h.entries[0] in rest && n in rest && Distinct(rest) && h.entries[0].ik.sn <= n.ik.sn
    ensures h.entries[0] == n
  {
  }

  /** The first entry of the first file past the inputs is the newest survivor of its user key below the deletion. */
  lemma ExposedSurvivor(v: LevelSets, level: nat, in0: set<File>, in1: set<File>, k: Bytes, g: File, t: Entry)
    requires VersionOk(v) && Distinct(Contents(v)) && SafeInputs(v, level, in0, in1) &&
      FirstPast(v, level, in1, k, g) && BaseLevel(v, level, k)
    requires t in FileEntries(in0 + in1) && t.ik.user == k && t.ik.kind.Deletion? &&
      Distinct(Contents(Without(v, level, in0, in1)) + iset{t})
    ensures FileOk(g) && Newest(Contents(Without(v, level, in0, in1)), k, t.ik.sn) == Some(g.entries[0])
  {
    hide VersionOk;
    hide SafeInputs;
    hide BaseLevel;
    SafeBounds(v, level, in0, in1);
    var rest := Contents(Without(v, level, in0, in1));
    PastOf(v, level, in1, k, g);
    PastIsOlder(v, level, in0, in1, k, g, t);
    LeftElsewhere(v, level, in0, in1, t);
    forall o | o in rest && o.ik.user == k && o.ik.sn <= t.ik.sn
      ensures o.ik.sn <= g.entries[0].ik.sn
    {
      assert o in rest + iset{t} && t in rest + iset{t};
      var f, h := ResurrectionStraddles(v, level, in0, in1, t, o);
      NotBeforeFirst(v, level, in1, k, g, f, h, o);
    }
    hide FirstPast;
    NewestIs(rest, k, t.ik.sn, g.entries[0]);
  }

  lemma NotBeforeFirst(v: LevelSets, level: nat, in1: set<File>, k: Bytes, g: File, f: File, h: File, o: Entry)
    requires level + 1 < |v| && FirstPast(v, level, in1, k, g) && Straddles(v, level, in1, f, h) && h.smallest.user == k
    requires FileOk(g) && FileOk(h) && o in h.entries && o.ik.user == k
    ensures o.ik.sn <= g.entries[0].ik.sn
  {
  }

  lemma ExposedResurrects(v: LevelSets, level: nat, in0: set<File>, in1: set<File>, input: seq<Entry>, floor: nat,
          k: Bytes)
    requires VersionOk(v) && Distinct(Contents(v)) && SafeInputs(v, level, in0, in1) &&
      Elems(input) == FileEntries(in0 + in1)
    requires Exposed(v, level, in1, input, floor, k)
    ensures Resurrects(input, Contents(Without(v, level, in0, in1)), floor, v, level, k)
  {
    hide VersionOk;
    hide SafeInputs;
    hide FirstPast;
    SafeBounds(v, level, in0, in1);
    var rest := Contents(Without(v, level, in0, in1));
    ContentsSplit(v, level, in0, in1, input);
    var t, g :| t in input && t.ik.kind.Deletion? && Newest(Contents(v), k, floor) == Some(t) && BaseLevel(v, level, k)
      && FirstPast(v, level, in1, k, g) && g.smallest.kind.Value?;
    assert t in Elems(input);
    assert rest + iset{t} <= Contents(v);
    ExposedSurvivor(v, level, in0, in1, k, g, t);
  }

  /** In files' own terms: a key comes back exactly when it is exposed. */
  lemma ExposedIff(v: LevelSets, level: nat, in0: set<File>, in1: set<File>, input: seq<Entry>, floor: nat, k: Bytes)
    requires VersionOk(v) && Distinct(Contents(v)) && SafeInputs(v, level, in0, in1) &&
      Elems(input) == FileEntries(in0 + in1)
    ensures Resurrects(input, Contents(Without(v, level, in0, in1)), floor, v, level, k) <==>
      Exposed(v, level, in1, input, floor, k)
  {
    hide Resurrects;
    hide Exposed;
    if Exposed(v, level, in1, input, floor, k) {
      ExposedResurrects(v, level, in0, in1, input, floor, k);
    }
    if Resurrects(input, Contents(Without(v, level, in0, in1)), floor, v, level, k) {
      ResurrectsIsExposed(v, level, in0, in1, input, floor, k);
    }
  }

  /** A compaction keeps every read at or above its floor if and only if it exposes no key. */
  lemma CompactionKeepsReadsIff(v: LevelSets, level: nat, in0: set<File>, in1: set<File>, outs: set<File>,
          input: seq<Entry>, floor: nat)
    requires VersionOk(v) && Distinct(Contents(v)) && SafeInputs(v, level, in0, in1)
    requires Sorted(input) && Elems(input) == FileEntries(in0 + in1)
    requires FileEntries(outs) == Elems(Output(input, floor, v, level))
    ensures
      (forall s: nat :: floor <= s ==> SameReads(Contents(Install(v, level, in0, in1, outs)), Contents(v), s))
      <==>
      (forall k: Bytes :: !Exposed(v, level, in1, input, floor, k))
  {
    hide Exposed;
    hide VersionOk;
    hide Resurrects;
    hide Distinct;
    hide Sorted;
    hide Output;
    hide SameReads;
    var rest := Contents(Without(v, level, in0, in1));
    SafeBounds(v, level, in0, in1);
    InstallContents(v, level, in0, in1, outs);
    ContentsSplit(v, level, in0, in1, input);
    assert Contents(Install(v, level, in0, in1, outs)) == Elems(Output(input, floor, v, level)) + rest;
    ReadsPreservedIff(input, rest, floor, v, level);
    forall k: Bytes
      ensures Resurrects(input, rest, floor, v, level, k) <==> Exposed(v, level, in1, input, floor, k)
    {
      ExposedIff(v, level, in0, in1, input, floor, k);
    }
  }

  /** A boundary left closed exposes nothing: what SetupOtherInputs does at its own level would be enough. */
  lemma ClosedExposesNothing(v: LevelSets, level: nat, in1: set<File>, input: seq<Entry>, floor: nat, k: Bytes)
    requires level + 1 < |v| && forall f, g :: !Straddles(v, level, in1, f, g)
    ensures !Exposed(v, level, in1, input, floor, k)
  {
  }
}
