/** Installing flushes, moves and compactions keeps the level order. */
module LevelOrder {
  import opened Format
  import opened Levels
  import opened Inputs

  // ---- installing a compaction ----------------------------------------------

  /** The version without the input files. */
  ghost function Without(v: LevelSets, level: nat, in0: set<File>, in1: set<File>): (r: LevelSets)
    requires level + 1 < |v|
    ensures |r| == |v|
  {
    v[level := v[level] - in0][level + 1 := v[level + 1] - in1]
  }

  /** The version after the input files make way for the output files, one level down. */
  ghost function Install(v: LevelSets, level: nat, in0: set<File>, in1: set<File>, outs: set<File>): (r: LevelSets)
    requires level + 1 < |v|
    ensures |r| == |v|
  {
    v[level := v[level] - in0][level + 1 := v[level + 1] - in1 + outs]
  }

  /** What input selection promises about the files it leaves behind. */
  ghost predicate SafeInputs(v: LevelSets, level: nat, in0: set<File>, in1: set<File>) {
    && |v| == NUM_LEVELS && level + 1 < NUM_LEVELS && in0 <= v[level] && in1 <= v[level + 1]
    && (forall f, g :: f in in0 && g in v[level] - in0 ==> Newer(g, f))
    && (forall g :: g in v[level + 1] - in1 ==> Outlies(g, in0 + in1))
    && (forall f, g :: f in in0 && g in v[level + 1] - in1 ==> Apart(f, g))
  }

  /** g lies wholly on one side of every input. */
  ghost predicate Outlies(g: File, inputs: set<File>) {
    (forall f :: f in inputs ==> Before(g, f)) || (forall f :: f in inputs ==> Before(f, g))
  }

  ghost function FileEntries(fs: set<File>): iset<Entry> {
    iset f, e | f in fs && e in f.entries :: e
  }

  /** The output files: sorted, wholly ordered among themselves, made of input entries only, freshly numbered. */
  ghost predicate GoodOutputs(v: LevelSets, level: nat, in0: set<File>, in1: set<File>, outs: set<File>)
    requires level + 1 < |v|
  {
    && (forall o :: o in outs ==> FileOk(o))
    && (forall o, p :: o in outs && p in outs && o != p ==> o.number != p.number && (Before(o, p) || Before(p, o)))
    && FileEntries(outs) <= FileEntries(in0 + in1)
    && (forall o, g :: o in outs && g in v[level + 1] - in1 ==> o.number != g.number)
  }

  /** Every entry of an output file was in some input file. */
  lemma Origin(fs: set<File>, outs: set<File>, o: File, e: Entry) returns (f: File)
    requires FileEntries(outs) <= FileEntries(fs) && o in outs && e in o.entries
    ensures f in fs && e in f.entries
  {
    assert e in FileEntries(outs);
    assert e in FileEntries(fs);
    f :| f in fs && e in f.entries;
  }

  lemma NewerThanOutput(fs: set<File>, outs: set<File>, g: File, o: File)
    requires FileEntries(outs) <= FileEntries(fs) && o in outs
    requires forall f :: f in fs ==> Newer(g, f)
    ensures Newer(g, o)
  {
    forall a, b | a in g.entries && b in o.entries && a.ik.user == b.ik.user
      ensures a.ik.sn > b.ik.sn
    {
      var f := Origin(fs, outs, o, b);
      assert Newer(g, f);
    }
  }

  lemma OutputNewerThan(fs: set<File>, outs: set<File>, o: File, g: File)
    requires FileEntries(outs) <= FileEntries(fs) && o in outs
    requires forall f :: f in fs ==> Newer(f, g)
    ensures Newer(o, g)
  {
    forall a, b | a in o.entries && b in g.entries && a.ik.user == b.ik.user
      ensures a.ik.sn > b.ik.sn
    {
      var f := Origin(fs, outs, o, a);
      assert Newer(f, g);
    }
  }

  lemma OutputOutlies(fs: set<File>, outs: set<File>, o: File, g: File)
    requires FileEntries(outs) <= FileEntries(fs) && o in outs && FileOk(o)
    requires (forall f :: f in fs ==> FileOk(f)) && Outlies(g, fs)
    ensures Before(o, g) || Before(g, o)
  {
    var a, b := o.entries[0], o.entries[|o.entries| - 1];
    assert a in o.entries && b in o.entries;
    var f := Origin(fs, outs, o, a);
    var h := Origin(fs, outs, o, b);
    InRange(f, a);
    InRange(h, b);
    if Before(g, f) && forall x :: x in fs ==> Before(g, x) {
      assert Before(g, o);
    } else {
      assert Before(h, g);
      assert Before(o, g);
    }
  }

  lemma InstallLevel(v: LevelSets, level: nat, in0: set<File>, in1: set<File>, outs: set<File>)
    requires VersionOk(v) && SafeInputs(v, level, in0, in1) && GoodOutputs(v, level, in0, in1, outs)
    ensures LevelOk(level + 1, v[level + 1] - in1 + outs)
    ensures LevelOk(level, v[level] - in0)
  {
    assert LevelOk(level, v[level]) && LevelOk(level + 1, v[level + 1]);
    forall o, g | o in outs && g in v[level + 1] - in1
      ensures Before(o, g) || Before(g, o)
    {
      OutputOutlies(in0 + in1, outs, o, g);
    }
  }

  lemma CrossPair(v: LevelSets, l: nat, m: nat, f: File, g: File)
    requires CrossNewer(v) && l < m < |v| && f in v[l] && g in v[m]
    ensures Newer(f, g)
  {
  }

  /** A file left behind at or above the level is newer than every input; one below level+1 is older. */
  lemma CrossInput(v: LevelSets, level: nat, in0: set<File>, in1: set<File>, m: nat, g: File)
    requires CrossNewer(v) && SafeInputs(v, level, in0, in1)
    requires m < NUM_LEVELS && g in v[m]
    ensures m < level || (m == level && g !in in0) ==> forall f :: f in in0 + in1 ==> Newer(g, f)
    ensures m > level + 1 ==> forall f :: f in in0 + in1 ==> Newer(f, g)
  {
    forall f | f in in0 + in1
      ensures m < level || (m == level && g !in in0) ==> Newer(g, f)
      ensures m > level + 1 ==> Newer(f, g)
    {
      var l := if f in in0 then level else level + 1;
      if m < l {
        CrossPair(v, m, l, g, f);
      } else if l < m {
        CrossPair(v, l, m, f, g);
      }
    }
  }

  lemma InstallCross(v: LevelSets, level: nat, in0: set<File>, in1: set<File>, outs: set<File>)
    requires CrossNewer(v) && SafeInputs(v, level, in0, in1) && FileEntries(outs) <= FileEntries(in0 + in1)
    ensures CrossNewer(Install(v, level, in0, in1, outs))
  {
    var w := Install(v, level, in0, in1, outs);
    forall l, m, f, g | 0 <= l < m < |w| && f in w[l] && g in w[m]
      ensures Newer(f, g)
    {
      if m == level + 1 && g in outs {
        CrossInput(v, level, in0, in1, l, f);
        NewerThanOutput(in0 + in1, outs, f, g);
      } else if l == level + 1 && f in outs {
        CrossInput(v, level, in0, in1, m, g);
        OutputNewerThan(in0 + in1, outs, f, g);
      } else {
        CrossPair(v, l, m, f, g);
      }
    }
  }

  lemma ContentsOf(v: LevelSets, l: nat, f: File, e: Entry)
    requires l < |v| && f in v[l] && e in f.entries
    ensures e in Contents(v)
  {
  }

  lemma InstallContents(v: LevelSets, level: nat, in0: set<File>, in1: set<File>, outs: set<File>)
    requires level + 1 < |v| && in0 <= v[level] && in1 <= v[level + 1]
    ensures Contents(Install(v, level, in0, in1, outs)) == Contents(Without(v, level, in0, in1)) + FileEntries(outs)
    ensures Contents(v) == Contents(Without(v, level, in0, in1)) + FileEntries(in0 + in1)
  {
    var w, r := Install(v, level, in0, in1, outs), Without(v, level, in0, in1);
    forall e | e in Contents(w)
      ensures e in Contents(r) + FileEntries(outs)
    {
      var l: nat, f: File :| l < |w| && f in w[l] && e in f.entries;
      if l == level + 1 && f in outs {
        assert e in FileEntries(outs);
      } else {
        assert f in r[l];
      }
    }
    forall e | e in Contents(r)
      ensures e in Contents(w) && e in Contents(v)
    {
      var l: nat, f: File :| l < |r| && f in r[l] && e in f.entries;
      assert f in w[l] && f in v[l];
    }
    forall e | e in FileEntries(outs)
      ensures e in Contents(w)
    {
      var f :| f in outs && e in f.entries;
      assert f in w[level + 1];
    }
    forall e | e in Contents(v)
      ensures e in Contents(r) + FileEntries(in0 + in1)
    {
      var l: nat, f: File :| l < |v| && f in v[l] && e in f.entries;
      if f in r[l] {
        assert e in Contents(r);
      } else {
        assert f in in0 + in1;
        assert e in FileEntries(in0 + in1);
      }
    }
    forall e | e in FileEntries(in0 + in1)
      ensures e in Contents(v)
    {
      var f :| f in in0 + in1 && e in f.entries;
      ContentsOf(v, if f in in0 then level else level + 1, f, e);
    }
  }

  /** Installing a compaction or a trivial move keeps levels sorted and shallower entries newer. */
  lemma InstallKeepsOrder(v: LevelSets, level: nat, in0: set<File>, in1: set<File>, outs: set<File>)
    requires VersionOk(v) && SafeInputs(v, level, in0, in1) && GoodOutputs(v, level, in0, in1, outs)
    ensures VersionOk(Install(v, level, in0, in1, outs))
    ensures Contents(Install(v, level, in0, in1, outs)) <= Contents(v)
  {
    InstallLevel(v, level, in0, in1, outs);
    InstallCross(v, level, in0, in1, outs);
    InstallContents(v, level, in0, in1, outs);
  }

  // ---- installing a flush ----------------------------------------------------

  ghost function AddFile(v: LevelSets, level: nat, f: File): (r: LevelSets)
    requires level < |v|
    ensures |r| == |v|
  {
    v[level := v[level] + {f}]
  }

  /** Where a flushed table may go: no file down to its level overlaps its user-key range. */
  ghost predicate ClearDownTo(v: LevelSets, level: nat, f: File) {
    level == 0 || forall l, g :: 0 <= l <= level && l < |v| && g in v[l] ==> Apart(f, g)
  }

  lemma ApartShareNothing(f: File, g: File)
    requires FileOk(f) && FileOk(g) && Apart(f, g)
    ensures Newer(f, g) && Newer(g, f) && (Before(f, g) || Before(g, f))
  {
    forall a, b | a in f.entries && b in g.entries
      ensures a.ik.user != b.ik.user
    {
      InRange(f, a);
      InRange(g, b);
    }
  }

  /** A flushed table is newer than everything and goes where nothing above or beside it overlaps. */
  lemma FlushKeepsOrder(v: LevelSets, level: nat, f: File)
    requires VersionOk(v) && level < NUM_LEVELS && FileOk(f) && ClearDownTo(v, level, f)
    requires forall l, g :: 0 <= l < NUM_LEVELS && g in v[l] ==> g.number < f.number
    requires forall e, o :: e in f.entries && o in Contents(v) ==> o.ik.sn < e.ik.sn
    ensures VersionOk(AddFile(v, level, f))
  {
    forall g | g in v[level]
      ensures Newer(f, g)
      ensures level > 0 ==> Before(f, g) || Before(g, f)
    {
      FlushedNewer(v, level, f, g);
      if level > 0 {
        assert LevelOk(level, v[level]);
        ApartShareNothing(f, g);
      }
    }
    FlushLevel(level, v[level], f);
    FlushCross(v, level, f);
  }

  lemma FlushLevel(level: nat, fs: set<File>, f: File)
    requires LevelOk(level, fs) && FileOk(f)
    requires forall g :: g in fs ==> g.number < f.number && Newer(f, g)
    requires level > 0 ==> forall g :: g in fs ==> Before(f, g) || Before(g, f)
    ensures LevelOk(level, fs + {f})
  {
  }

  lemma FlushCross(v: LevelSets, level: nat, f: File)
    requires VersionOk(v) && level < NUM_LEVELS && FileOk(f) && ClearDownTo(v, level, f)
    requires forall e, o :: e in f.entries && o in Contents(v) ==> o.ik.sn < e.ik.sn
    ensures CrossNewer(AddFile(v, level, f))
  {
    var w := AddFile(v, level, f);
    forall l, m, a, b | 0 <= l < m < |w| && a in w[l] && b in w[m]
      ensures Newer(a, b)
    {
      if a in v[l] && b in v[m] {
        CrossPair(v, l, m, a, b);
      } else if b in v[m] {
        FlushedNewer(v, m, f, b);
      } else if a in v[l] {
        assert LevelOk(l, v[l]);
        ApartShareNothing(f, a);
      }
    }
  }

  lemma FlushedNewer(v: LevelSets, l: nat, f: File, g: File)
    requires l < |v| && g in v[l]
    requires forall e, o :: e in f.entries && o in Contents(v) ==> o.ik.sn < e.ik.sn
    ensures Newer(f, g)
  {
    forall a, b | a in f.entries && b in g.entries
      ensures a.ik.sn > b.ik.sn
    {
      ContentsOf(v, l, g, b);
    }
  }

  lemma AddContents(v: LevelSets, level: nat, f: File)
    requires level < |v|
    ensures Contents(AddFile(v, level, f)) == Contents(v) + Elems(f.entries)
  {
    var w := AddFile(v, level, f);
    forall e | e in Contents(w)
      ensures e in Contents(v) + Elems(f.entries)
    {
      var l: nat, g: File :| l < |w| && g in w[l] && e in g.entries;
      if g != f {
        ContentsOf(v, l, g, e);
      }
    }
    forall e | e in Contents(v)
      ensures e in Contents(w)
    {
      var l: nat, g: File :| l < |v| && g in v[l] && e in g.entries;
      assert g in w[l];
    }
    forall e | e in Elems(f.entries)
      ensures e in Contents(w)
    {
      assert f in w[level];
    }
  }
}
