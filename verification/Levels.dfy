/** Table files, the seven levels, and lookup level by level. */
module Levels {
  import opened Keys
  import opened Format

  const NUM_LEVELS := 7

  /** FileMetaData together with the entries its number names on disk. */
  datatype File = File(number: nat, size: nat, smallest: IKey, largest: IKey, entries: seq<Entry>)

  /** A table is never empty, its entries are strictly increasing, and its bounds are actual keys. */
  predicate FileOk(f: File) {
    |f.entries| > 0 && Sorted(f.entries) && f.smallest == f.entries[0].ik && f.largest == f.entries[|f.entries| - 1].ik
  }

  lemma InRange(f: File, e: Entry)
    requires FileOk(f) && e in f.entries
    ensures ILeq(f.smallest, e.ik) && ILeq(e.ik, f.largest)
    ensures Rank(f.smallest.user) <= Rank(e.ik.user) <= Rank(f.largest.user)
  {
  }

  type LevelSets = seq<set<File>>

  ghost predicate HasEntry(v: LevelSets, e: Entry) {
    exists l, f :: 0 <= l < |v| && f in v[l] && e in f.entries
  }

  ghost function Contents(v: LevelSets): iset<Entry> {
    iset e | HasEntry(v, e)
  }

  /** Every entry of f is newer than every entry of g for the same user key. */
  ghost predicate Newer(f: File, g: File) {
    forall a, b :: a in f.entries && b in g.entries && a.ik.user == b.ik.user ==> a.ik.sn > b.ik.sn
  }

  predicate Before(f: File, g: File) {
    ILess(f.largest, g.smallest)
  }

  ghost predicate LevelOk(l: nat, fs: set<File>) {
    && (forall f :: f in fs ==> FileOk(f))
    && (forall f, g :: f in fs && g in fs && f.number == g.number ==> f == g)
    && (l == 0 ==> forall f, g :: f in fs && g in fs && f.number > g.number ==> Newer(f, g))
    && (l > 0 ==> forall f, g :: f in fs && g in fs && f != g ==> Before(f, g) || Before(g, f))
  }

  ghost predicate CrossNewer(v: LevelSets) {
    forall l, m, f, g :: 0 <= l < m < |v| && f in v[l] && g in v[m] ==> Newer(f, g)
  }

  /** Levels >= 1 are sorted runs, level 0 is ordered by file number, and for one user key shallower is newer. */
  ghost predicate VersionOk(v: LevelSets) {
    && |v| == NUM_LEVELS
    && (forall l :: 0 <= l < NUM_LEVELS ==> LevelOk(l, v[l]))
    && CrossNewer(v)
  }

  // ---- one table ---------------------------------------------------------

  /** First position at or after i whose key is >= key. */
  function LowerBound(es: seq<Entry>, key: IKey, i: nat): (r: nat)
    requires i <= |es|
    ensures i <= r <= |es|
    ensures forall j :: i <= j < r ==> ILess(es[j].ik, key)
    ensures r < |es| ==> ILeq(key, es[r].ik)
    decreases |es| - i
  {
    if i == |es| || ILeq(key, es[i].ik) then i else LowerBound(es, key, i + 1)
  }

  /** Seek to the lookup key, then keep the entry only if its user key matches (SaveValue). */
  function TableGet(es: seq<Entry>, k: Bytes, s: nat): Option<Entry> {
    var i := LowerBound(es, LookupKey(k, s), 0);
    if i < |es| && es[i].ik.user == k then Some(es[i]) else None
  }

  lemma TableGetIsNewest(es: seq<Entry>, k: Bytes, s: nat)
    requires Sorted(es) && Distinct(Elems(es))
    ensures TableGet(es, k, s) == Newest(Elems(es), k, s)
  {
    var i := LowerBound(es, LookupKey(k, s), 0);
    forall e | e in es && e.ik.user == k && e.ik.sn <= s
      ensures i < |es| && es[i].ik.user == k && es[i].ik.sn <= s && e.ik.sn <= es[i].ik.sn
    {
      var j :| 0 <= j < |es| && es[j] == e;
      assert !ILess(es[j].ik, LookupKey(k, s));
      assert i <= j;
      assert i == j || ILess(es[i].ik, es[j].ik);
    }
    if TableGet(es, k, s).Some? {
      NewestIs(Elems(es), k, s, es[i]);
    }
  }

  // ---- one level ---------------------------------------------------------

  /** Earliest file whose largest key is >= key. */
  method FindFile(files: seq<File>, key: IKey) returns (r: nat)
    requires Ordered(files)
    ensures r <= |files|
    ensures forall i :: 0 <= i < r ==> ILess(files[i].largest, key)
    ensures forall i :: r <= i < |files| ==> ILeq(key, files[i].largest)
  {
    var left, right := 0, |files|;
    while left < right
      invariant 0 <= left <= right <= |files|
      invariant forall i :: 0 <= i < left ==> ILess(files[i].largest, key)
      invariant forall i :: right <= i < |files| ==> ILeq(key, files[i].largest)
    {
      var mid := (left + right) / 2;
      if ILess(files[mid].largest, key) {
        forall i | 0 <= i <= mid
          ensures ILess(files[i].largest, key)
        {
          LargestMonotone(files, i, mid);
        }
        left := mid + 1;
      } else {
        forall i | mid <= i < |files|
          ensures ILeq(key, files[i].largest)
        {
          LargestMonotone(files, mid, i);
        }
        right := mid;
      }
    }
    r := right;
  }

  ghost predicate FilesOk(files: seq<File>) {
    forall i :: 0 <= i < |files| ==> FileOk(files[i])
  }

  /** A level vector: files in key order, each wholly before the next. */
  ghost predicate Ordered(files: seq<File>) {
    FilesOk(files) && forall i, j :: 0 <= i < j < |files| ==> Before(files[i], files[j])
  }

  lemma Bounds(f: File)
    requires FileOk(f)
    ensures ILeq(f.smallest, f.largest)
  {
  }

  lemma LargestMonotone(files: seq<File>, i: int, j: int)
    requires Ordered(files)
    requires 0 <= i <= j < |files|
    ensures ILeq(files[i].largest, files[j].largest)
  {
  }

  ghost function ToSets(files: seq<seq<File>>): (v: LevelSets)
    ensures |v| == |files|
  {
    seq(|files|, l requires 0 <= l < |files| => set f | f in files[l])
  }

  /** No entry of f is visible at s under user key k. */
  ghost predicate Hides(f: File, k: Bytes, s: nat) {
    forall e :: e in f.entries && e.ik.user == k ==> s < e.ik.sn
  }

  // ---- the whole version -------------------------------------------------

  predicate Covers(f: File, k: Bytes) {
    Rank(f.smallest.user) <= Rank(k) <= Rank(f.largest.user)
  }

  lemma NotCovered(f: File, k: Bytes, s: nat)
    requires FileOk(f) && !Covers(f, k)
    ensures Hides(f, k, s)
  {
  }

  predicate NumbersDescend(files: seq<File>) {
    forall i, j :: 0 <= i < j < |files| ==> files[i].number >= files[j].number
  }

  /** The position before which r's numbers are at least n. */
  method Position(r: seq<File>, n: nat) returns (i: nat)
    requires NumbersDescend(r)
    ensures i <= |r|
    ensures forall j :: 0 <= j < i ==> r[j].number >= n
    ensures forall j :: i <= j < |r| ==> r[j].number <= n
  {
    i := 0;
    while i < |r| && r[i].number >= n
      invariant i <= |r|
      invariant forall j :: 0 <= j < i ==> r[j].number >= n
    {
      i := i + 1;
    }
  }

  method InsertByNumber(r: seq<File>, f: File) returns (r': seq<File>)
    requires NumbersDescend(r)
    ensures NumbersDescend(r')
    ensures forall g :: g in r' <==> g == f || g in r
  {
    var i := Position(r, f.number);
    r' := r[..i] + [f] + r[i..];
    InsertMembers(r, i, f);
  }

  lemma InsertMembers(r: seq<File>, i: nat, f: File)
    requires i <= |r|
    ensures forall g :: g in r[..i] + [f] + r[i..] <==> g == f || g in r
  {
  }

  /** std::sort with NewestFirst. */
  method SortNewestFirst(files: seq<File>) returns (r: seq<File>)
    ensures forall f :: f in r <==> f in files
    ensures NumbersDescend(r)
  {
    r := [];
    for n := 0 to |files|
      invariant forall f :: f in r <==> f in files[..n]
      invariant NumbersDescend(r)
    {
      assert files[..n + 1] == files[..n] + [files[n]];
      r := InsertByNumber(r, files[n]);
    }
    assert files[..|files|] == files;
  }

  /** The lookup key lands inside file r of a sorted run; earlier files end before it. */
  lemma EarlierHides(f: File, k: Bytes, s: nat)
    requires FileOk(f) && ILess(f.largest, LookupKey(k, s))
    ensures Hides(f, k, s)
  {
  }

  /** If the seek in r misses or outdoes, so it does for an entry o of a file after r. */
  lemma LaterOutdone(r: File, f: File, o: Entry, k: Bytes, s: nat)
    requires FileOk(r) && FileOk(f) && o in f.entries && o.ik.user == k
    requires f == r || Before(r, f)
    requires ILeq(LookupKey(k, s), r.largest)
    ensures TableGet(r.entries, k, s).None? ==> s < o.ik.sn
    ensures Before(r, f) && TableGet(r.entries, k, s).Some? ==> o.ik.sn <= TableGet(r.entries, k, s).value.ik.sn
  {
  }

  /** In a sorted run, the only file that can hold the newest visible entry of k is the first whose largest key
      is >= the lookup key; if the seek inside it lands on another user key, no file of the run shows k at s. */
  lemma OnlyCandidate(files: seq<File>, r: nat, i: nat, k: Bytes, s: nat)
    requires Ordered(files)
    requires r <= |files| && i < |files|
    requires forall j :: 0 <= j < r ==> ILess(files[j].largest, LookupKey(k, s))
    requires forall j :: r <= j < |files| ==> ILeq(LookupKey(k, s), files[j].largest)
    ensures i < r ==> Hides(files[i], k, s)
    ensures r <= i && TableGet(files[r].entries, k, s).None? ==> Hides(files[i], k, s)
    ensures r < i && TableGet(files[r].entries, k, s).Some? ==>
      forall o :: o in files[i].entries && o.ik.user == k ==> o.ik.sn <= TableGet(files[r].entries, k, s).value.ik.sn
  {
    if i < r {
      EarlierHides(files[i], k, s);
    } else {
      assert r < i ==> Before(files[r], files[i]);
      forall o | o in files[i].entries && o.ik.user == k
        ensures TableGet(files[r].entries, k, s).None? ==> s < o.ik.sn
        ensures r < i && TableGet(files[r].entries, k, s).Some? ==>
          o.ik.sn <= TableGet(files[r].entries, k, s).value.ik.sn
      {
        LaterOutdone(files[r], files[i], o, k, s);
      }
    }
  }

  class Version {
    var files: seq<seq<File>>

    ghost predicate Valid()
      reads this
    {
      && |files| == NUM_LEVELS
      && VersionOk(ToSets(files)) && Distinct(Contents(ToSets(files)))
      && (forall l :: 0 <= l < NUM_LEVELS ==> FilesOk(files[l]))
      && (forall l :: 1 <= l < NUM_LEVELS ==> Ordered(files[l]))
    }

    constructor (files: seq<seq<File>>)
      requires |files| == NUM_LEVELS && VersionOk(ToSets(files)) && Distinct(Contents(ToSets(files)))
      requires forall l :: 1 <= l < NUM_LEVELS ==> Ordered(files[l])
      ensures Valid() && this.files == files
    {
      this.files := files;
      new;
      forall l, i | 0 <= l < NUM_LEVELS && 0 <= i < |files[l]|
        ensures FileOk(files[l][i])
      {
        assert files[l][i] in ToSets(files)[l];
      }
    }

    lemma SameFile(l: nat, f: File, e: Entry)
      requires l < |files| && f in files[l] && e in f.entries
      ensures e in Contents(ToSets(files))
    {
      assert f in ToSets(files)[l];
    }

    lemma Placed(o: Entry) returns (l: nat, f: File)
      requires o in Contents(ToSets(files))
      ensures l < |files| && f in files[l] && f in ToSets(files)[l] && o in f.entries
    {
      l, f :| 0 <= l < |files| && f in ToSets(files)[l] && o in f.entries;
    }

    /** A file's own entries are as distinct as the version's. */
    lemma FileDistinct(l: nat, f: File)
      requires Valid() && l < |files| && f in files[l]
      ensures Distinct(Elems(f.entries))
    {
      forall a, b | a in f.entries && b in f.entries && a.ik.user == b.ik.user && a.ik.sn == b.ik.sn
        ensures a == b
      {
        SameFile(l, f, a);
        SameFile(l, f, b);
      }
    }

    /** Level-0 files covering user_key, newest first. */
    method OverlappingLevel0(k: Bytes) returns (r: seq<File>)
      requires Valid()
      ensures forall f :: f in r <==> f in files[0] && Covers(f, k)
      ensures NumbersDescend(r)
    {
      var tmp: seq<File> := [];
      for i := 0 to |files[0]|
        invariant forall f :: f in tmp <==> f in files[0][..i] && Covers(f, k)
      {
        if Covers(files[0][i], k) {
          tmp := tmp + [files[0][i]];
        }
      }
      r := SortNewestFirst(tmp);
    }

    /** c lists the files of a level worth opening, in the order to open them. */
    ghost predicate Candidates(level: nat, c: seq<File>, k: Bytes, s: nat)
      requires level < |files|
      reads this
    {
      && (forall f :: f in c ==> f in files[level])
      && ((forall f :: f in c ==> Hides(f, k, s)) ==> forall f :: f in files[level] ==> Hides(f, k, s))
      && (forall i, f, o :: 0 <= i < |c| && f in files[level] && o in f.entries ==> Outdone(c, i, f, o, k, s))
    }

    /** If the seek in c[i] hits, an entry o of another file not opened before c[i] is not newer than the hit. */
    static ghost predicate Outdone(c: seq<File>, i: nat, f: File, o: Entry, k: Bytes, s: nat)
      requires i < |c|
    {
      var r := TableGet(c[i].entries, k, s);
      r.Some? && f != c[i] && (forall j :: 0 <= j < i ==> c[j] != f) && o.ik.user == k && o.ik.sn <= s ==>
        o.ik.sn <= r.value.ik.sn
    }

    lemma Level0Candidates(c: seq<File>, k: Bytes, s: nat)
      requires Valid()
      requires forall f :: f in c <==> f in files[0] && Covers(f, k)
      requires NumbersDescend(c)
      ensures Candidates(0, c, k, s)
    {
      forall f | f in files[0] && f !in c
        ensures Hides(f, k, s)
      {
        NotCovered(f, k, s);
      }
      forall i, f, o | 0 <= i < |c| && f in files[0] && o in f.entries
        ensures Outdone(c, i, f, o, k, s)
      {
        assert LevelOk(0, ToSets(files)[0]);
        assert f in ToSets(files)[0];
        assert forall g :: g in c ==> g in ToSets(files)[0];
        Level0Outdone(c, i, f, o, k, s);
      }
    }

    static lemma Level0Outdone(c: seq<File>, i: nat, f: File, o: Entry, k: Bytes, s: nat)
      requires NumbersDescend(c)
      requires forall g :: g in c && g.number > f.number ==> Newer(g, f)
      requires forall g :: g in c && g.number == f.number ==> g == f
      requires i < |c| && FileOk(f) && o in f.entries && (Covers(f, k) ==> f in c)
      ensures Outdone(c, i, f, o, k, s)
    {
    }

    lemma RunCandidates(level: nat, r: nat, c: seq<File>, k: Bytes, s: nat)
      requires Valid() && 1 <= level < NUM_LEVELS
      requires r <= |files[level]|
      requires forall j :: 0 <= j < r ==> ILess(files[level][j].largest, LookupKey(k, s))
      requires forall j :: r <= j < |files[level]| ==> ILeq(LookupKey(k, s), files[level][j].largest)
      requires c == if r < |files[level]| && Rank(files[level][r].smallest.user) <= Rank(k) then [files[level][r]]
        else []
      ensures Candidates(level, c, k, s)
    {
      var fs := files[level];
      if forall f :: f in c ==> Hides(f, k, s) {
        forall f | f in fs
          ensures Hides(f, k, s)
        {
          RunMiss(fs, r, f, k, s);
        }
      }
      forall i, f, o | 0 <= i < |c| && f in fs && o in f.entries
        ensures Outdone(c, i, f, o, k, s)
      {
        RunOutdone(fs, r, f, o, k, s);
      }
    }

    static lemma RunMiss(fs: seq<File>, r: nat, f: File, k: Bytes, s: nat)
      requires Ordered(fs)
      requires r <= |fs| && f in fs
      requires forall j :: 0 <= j < r ==> ILess(fs[j].largest, LookupKey(k, s))
      requires forall j :: r <= j < |fs| ==> ILeq(LookupKey(k, s), fs[j].largest)
      requires r < |fs| && Rank(fs[r].smallest.user) <= Rank(k) ==> Hides(fs[r], k, s)
      ensures Hides(f, k, s)
    {
    }

    static lemma RunOutdone(fs: seq<File>, r: nat, f: File, o: Entry, k: Bytes, s: nat)
      requires Ordered(fs)
      requires r < |fs| && f in fs && o in f.entries
      requires forall j :: 0 <= j < r ==> ILess(fs[j].largest, LookupKey(k, s))
      requires forall j :: r <= j < |fs| ==> ILeq(LookupKey(k, s), fs[j].largest)
      ensures Outdone([fs[r]], 0, f, o, k, s)
    {
      var j :| 0 <= j < |fs| && fs[j] == f;
      OnlyCandidate(fs, r, j, k, s);
    }

    /** Within its level, a hit in candidate i, with nothing visible before it, is the newest entry. */
    lemma HitWinsLevel(level: nat, c: seq<File>, i: nat, k: Bytes, s: nat)
      requires level < |files| && Candidates(level, c, k, s) && i < |c|
      requires Sorted(c[i].entries) && Distinct(Elems(c[i].entries))
      requires forall j :: 0 <= j < i ==> Hides(c[j], k, s)
      requires TableGet(c[i].entries, k, s).Some?
      ensures forall g, o :: g in files[level] && o in g.entries && o.ik.user == k && o.ik.sn <= s ==>
        o.ik.sn <= TableGet(c[i].entries, k, s).value.ik.sn
    {
      TableGetIsNewest(c[i].entries, k, s);
      forall g: File, o: Entry | g in files[level] && o in g.entries && o.ik.user == k && o.ik.sn <= s
        ensures o.ik.sn <= TableGet(c[i].entries, k, s).value.ik.sn
      {
        assert Outdone(c, i, g, o, k, s);
        assert g == c[i] ==> o in Elems(c[i].entries);
      }
    }

    /** A hit in candidate i, with nothing visible before it, is the newest entry of the whole version. */
    lemma HitIsNewest(level: nat, c: seq<File>, i: nat, k: Bytes, s: nat)
      requires Valid() && level < NUM_LEVELS && Candidates(level, c, k, s) && i < |c|
      requires forall l, f :: 0 <= l < level && f in files[l] ==> Hides(f, k, s)
      requires forall j :: 0 <= j < i ==> Hides(c[j], k, s)
      requires TableGet(c[i].entries, k, s).Some?
      ensures TableGet(c[i].entries, k, s) == Newest(Contents(ToSets(files)), k, s)
    {
      FileDistinct(level, c[i]);
      HitWinsLevel(level, c, i, k, s);
      LevelWins(files, level, c[i], TableGet(c[i].entries, k, s).value, k, s);
    }

    /** The newest visible entry of the shallowest level that shows k at s is the newest of all. */
    static lemma LevelWins(files: seq<seq<File>>, level: nat, f: File, e: Entry, k: Bytes, s: nat)
      requires CrossNewer(ToSets(files)) && Distinct(Contents(ToSets(files))) && level < |files|
      requires f in files[level] && e in f.entries && e.ik.user == k && e.ik.sn <= s
      requires forall l, g :: 0 <= l < level && g in files[l] ==> Hides(g, k, s)
      requires forall g, o :: g in files[level] && o in g.entries && o.ik.user == k && o.ik.sn <= s ==>
        o.ik.sn <= e.ik.sn
      ensures Newest(Contents(ToSets(files)), k, s) == Some(e)
    {
      var v := ToSets(files);
      assert f in v[level];
      forall o | o in Contents(v) && o.ik.user == k && o.ik.sn <= s
        ensures o.ik.sn <= e.ik.sn
      {
        var l: nat, g: File :| l < |v| && g in v[l] && o in g.entries;
        assert g in files[l];
        assert !Hides(g, k, s);
        if level < l {
          assert Newer(f, g);
        }
      }
      assert e in Contents(v);
      NewestIs(Contents(v), k, s, e);
    }

    lemma MissHides(level: nat, f: File, k: Bytes, s: nat)
      requires Valid() && level < NUM_LEVELS && f in files[level]
      requires TableGet(f.entries, k, s).None?
      ensures Hides(f, k, s)
    {
      FileDistinct(level, f);
      TableGetIsNewest(f.entries, k, s);
      forall e | e in f.entries && e.ik.user == k
        ensures s < e.ik.sn
      {
        assert e in Elems(f.entries);
      }
    }

    /** Which files of a level to open for k. */
    method PickFiles(level: nat, k: Bytes, s: nat) returns (c: seq<File>)
      requires Valid() && level < NUM_LEVELS
      ensures Candidates(level, c, k, s)
    {
      if level == 0 {
        c := OverlappingLevel0(k);
        Level0Candidates(c, k, s);
      } else {
        var index := FindFile(files[level], LookupKey(k, s));
        c := if index < |files[level]| && Rank(files[level][index].smallest.user) <= Rank(k)
             then [files[level][index]] else [];
        RunCandidates(level, index, c, k, s);
      }
    }

    /** The search of one level, given that no shallower level shows k at s. */
    method SearchLevel(level: nat, k: Bytes, s: nat) returns (r: Option<Entry>)
      requires Valid() && level < NUM_LEVELS
      requires forall l, f :: 0 <= l < level && f in files[l] ==> Hides(f, k, s)
      ensures r.Some? ==> r == Newest(Contents(ToSets(files)), k, s)
      ensures r.None? ==> forall f :: f in files[level] ==> Hides(f, k, s)
    {
      hide VersionOk;
      hide Distinct;
      hide TableGet;
      var c := PickFiles(level, k, s);
      var i := 0;
      while i < |c|
        invariant i <= |c|
        invariant forall j :: 0 <= j < i ==> Hides(c[j], k, s)
      {
        r := TableGet(c[i].entries, k, s);
        if r.Some? {
          HitIsNewest(level, c, i, k, s);
          return;
        }
        MissHides(level, c[i], k, s);
        i := i + 1;
      }
      r := None;
    }

    /** Level-by-level search returns what the newest entry over all files says. */
    method Get(k: Bytes, s: nat) returns (r: Option<Bytes>)
      requires Valid()
      ensures r == Read(Contents(ToSets(files)), k, s)
    {
      for level := 0 to NUM_LEVELS
        invariant forall l, f :: 0 <= l < level && f in files[l] ==> Hides(f, k, s)
      {
        var e := SearchLevel(level, k, s);
        if e.Some? {
          return if e.value.ik.kind.Value? then Some(e.value.value) else None;
        }
      }
      forall o | o in Contents(ToSets(files)) && o.ik.user == k
        ensures s < o.ik.sn
      {
        var l, g := Placed(o);
        assert Hides(g, k, s);
      }
      NewestNone(Contents(ToSets(files)), k, s);
      r := None;
    }
  }
}
