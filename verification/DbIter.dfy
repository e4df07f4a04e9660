/** The user-visible iterator: versions of a key collapsed, deleted and too-new entries skipped, in both directions. */
module DbIter {
  import opened Keys
  import opened Format
  import opened Cursors

  // ---- what the iterator ranges over ------------------------------------------------------

  predicate Visible(es: seq<Entry>, s: nat, i: int)
    requires 0 <= i < |es|
  {
    es[i].ik.sn <= s
  }

  /** Entry i is what readers at s see of its user key: a visible value with no visible entry of that key before it. */
  predicate Shows(es: seq<Entry>, s: nat, i: int) {
    && 0 <= i < |es| && Visible(es, s, i) && es[i].ik.kind.Value?
    && forall j :: 0 <= j < i && es[j].ik.user == es[i].ik.user ==> !Visible(es, s, j)
  }

  lemma UsersAscend(es: seq<Entry>, i: int, j: int)
    requires Sorted(es) && 0 <= i <= j < |es|
    ensures Rank(es[i].ik.user) <= Rank(es[j].ik.user)
  {
    assert i == j || ILess(es[i].ik, es[j].ik);
  }

  /** An entry that shows is what the plain read of its key returns. */
  lemma ShowsIsRead(es: seq<Entry>, s: nat, i: int)
    requires Sorted(es) && Distinct(Elems(es)) && Shows(es, s, i)
    ensures Read(Elems(es), es[i].ik.user, s) == Some(es[i].value)
  {
    var k := es[i].ik.user;
    forall o | o in Elems(es) && o.ik.user == k && o.ik.sn <= s
      ensures o.ik.sn <= es[i].ik.sn
    {
      var j :| 0 <= j < |es| && es[j] == o;
      assert i <= j;
      assert i == j || ILess(es[i].ik, es[j].ik);
    }
    NewestIs(Elems(es), k, s, es[i]);
  }

  /** Every key that reads as present is shown by exactly one entry. */
  lemma ReadIsShown(es: seq<Entry>, s: nat, k: Bytes) returns (i: int)
    requires Sorted(es) && Distinct(Elems(es)) && Read(Elems(es), k, s).Some?
    ensures Shows(es, s, i) && es[i].ik.user == k
  {
    var e := Newest(Elems(es), k, s).value;
    i :| 0 <= i < |es| && es[i] == e;
    forall j | 0 <= j < i && es[j].ik.user == es[i].ik.user
      ensures !Visible(es, s, j)
    {
      assert ILess(es[j].ik, es[i].ik);
      assert es[j] in Elems(es);
    }
  }

  datatype Direction = Forward | Reverse

  /** Which keys a move may land on. */
  datatype Bound = Any | From(key: Bytes) | After(key: Bytes) | Before(key: Bytes)

  predicate Meets(k: Bytes, b: Bound) {
    match b
    case Any => true
    case From(t) => Rank(t) <= Rank(k)
    case After(t) => Rank(t) < Rank(k)
    case Before(t) => Rank(k) < Rank(t)
  }

  class DBIter {
    const iter: Cursor
    const sequence: nat
    var direction: Direction
    var valid: bool
    var savedKey: Bytes
    var savedValue: Bytes
    /** The entry the iterator stands for, when valid. */
    ghost var cur: int

    ghost predicate Ok()
      reads this, iter
    {
      && iter.Ok() && Distinct(Elems(iter.items))
      && (valid ==> Shows(iter.items, sequence, cur))
      && (valid && direction.Forward? ==> iter.pos == cur)
      && (valid && direction.Reverse? ==>
        Behind(iter.pos, cur) && savedKey == iter.items[cur].ik.user && savedValue == iter.items[cur].value)
    }

    /** p stands before entry c with nothing visible in between. */
    ghost predicate Behind(p: int, c: int)
      requires c < |iter.items| && -1 <= p
    {
      p < c && forall j :: p < j < c ==> !Visible(iter.items, sequence, j)
    }

    /** The map this iterator walks: key k is present at the iterator's sequence number. */
    ghost predicate Live(k: Bytes) {
      Read(Elems(iter.items), k, sequence).Some?
    }

    /** Where the iterator stands. */
    ghost function At(): Option<Bytes>
      reads this, iter
      requires Ok()
    {
      if valid then Some(iter.items[cur].ik.user) else None
    }

    constructor (iter: Cursor, sequence: nat)
      requires iter.Ok() && Distinct(Elems(iter.items))
      ensures Ok() && !valid && this.iter == iter && this.sequence == sequence
    {
      this.iter, this.sequence := iter, sequence;
      direction, valid, savedKey, savedValue, cur := Forward, false, [], [], -1;
    }

    function Key(): (k: Bytes)
      requires Ok() && valid
      reads this, iter
      ensures At() == Some(k) && Live(k)
    {
      ShowsIsRead(iter.items, sequence, cur);
      if direction.Forward? then iter.Current().ik.user else savedKey
    }

    function Value(): (v: Bytes)
      requires Ok() && valid
      reads this, iter
      ensures Read(Elems(iter.items), Key(), sequence) == Some(v)
    {
      ShowsIsRead(iter.items, sequence, cur);
      if direction.Forward? then iter.Current().value else savedValue
    }

    // ---- scanning forward ----------------------------------------------------------------

    /** Entry j is a candidate: it shows, and it lies past the key being skipped. */
    ghost predicate Wanted(j: int, skipping: bool, skip: Bytes) {
      Shows(iter.items, sequence, j) && (skipping ==> Rank(iter.items[j].ik.user) > Rank(skip))
    }

    /** Everything visible before i is covered by the key being skipped, and that key hides what it covers. */
    ghost predicate Scanned(from: nat, i: nat, skipping0: bool, skip0: Bytes, skipping: bool, skip: Bytes)
      requires i < |iter.items|
    {
      && from <= i
      && (forall j :: from <= j < i ==> !Wanted(j, skipping0, skip0))
      && (forall j ::
            0 <= j < i && Visible(iter.items, sequence, j) && iter.items[j].ik.user == iter.items[i].ik.user ==>
            skipping && Rank(iter.items[i].ik.user) <= Rank(skip))
      && (skipping ==> (skipping0 && skip == skip0) || HiddenAt(i, skip))
      && (skipping0 ==> skipping && Rank(skip0) <= Rank(skip))
    }

    /** No visible entry from here on has a key before the one being skipped. */
    ghost predicate NoneBefore(from: nat, skip: Bytes) {
      forall j :: from <= j < |iter.items| && Visible(iter.items, sequence, j) ==>
        Rank(skip) <= Rank(iter.items[j].ik.user)
    }

    /** A visible entry before i has user key skip. */
    ghost predicate HiddenAt(i: nat, skip: Bytes) {
      exists j :: 0 <= j < i && j < |iter.items| && Visible(iter.items, sequence, j) && iter.items[j].ik.user == skip
    }

    /** A visible value is hidden exactly when the skip key covers it. */
    lemma HiddenIff(from: nat, i: nat, skipping0: bool, skip0: Bytes, skipping: bool, skip: Bytes)
      requires Sorted(iter.items) && i < |iter.items| && Scanned(from, i, skipping0, skip0, skipping, skip)
      requires Visible(iter.items, sequence, i) && iter.items[i].ik.kind.Value?
      ensures skipping && Rank(iter.items[i].ik.user) <= Rank(skip) ==> !Wanted(i, skipping0, skip0)
      ensures !(skipping && Rank(iter.items[i].ik.user) <= Rank(skip)) ==> Shows(iter.items, sequence, i)
    {
      if skipping && Rank(iter.items[i].ik.user) <= Rank(skip) && HiddenAt(i, skip) {
        var j :| 0 <= j < i && Visible(iter.items, sequence, j) && iter.items[j].ik.user == skip;
        UsersAscend(iter.items, j, i);
        assert Unrank(Rank(skip)) == iter.items[i].ik.user;
      }
    }

    /** Moving past entry i keeps the scan's bookkeeping. */
    lemma ScanStep(from: nat, i: nat, skipping0: bool, skip0: Bytes, skipping: bool, skip: Bytes, skipping': bool,
            skip': Bytes)
      requires Sorted(iter.items) && i + 1 < |iter.items| && Scanned(from, i, skipping0, skip0, skipping, skip)
      requires !Wanted(i, skipping0, skip0) && (skipping0 ==> NoneBefore(from, skip0))
      requires if Visible(iter.items, sequence, i) && iter.items[i].ik.kind.Deletion?
               then skipping' && skip' == iter.items[i].ik.user
               else skipping' == skipping && skip' == skip
      requires Visible(iter.items, sequence, i) && iter.items[i].ik.kind.Value? ==>
        skipping && Rank(iter.items[i].ik.user) <= Rank(skip)
      ensures Scanned(from, i + 1, skipping0, skip0, skipping', skip')
    {
      var es := iter.items;
      forall j | 0 <= j < i + 1 && Visible(es, sequence, j) && es[j].ik.user == es[i + 1].ik.user
        ensures skipping' && Rank(es[i + 1].ik.user) <= Rank(skip')
      {
        UsersAscend(es, j, i);
        UsersAscend(es, i, i + 1);
        assert Unrank(Rank(es[i].ik.user)) == es[i].ik.user == es[j].ik.user;
      }
      if skipping' && Visible(es, sequence, i) && es[i].ik.kind.Deletion? {
        assert HiddenAt(i + 1, skip');
      } else if skipping' && HiddenAt(i, skip) {
        var j :| 0 <= j < i && Visible(es, sequence, j) && es[j].ik.user == skip;
        assert HiddenAt(i + 1, skip');
      }
    }

    /** One entry of the scan: stop at it, or pass it, perhaps skipping its key from now on. */
    method Examine(ghost from: nat, i: nat, ghost skipping0: bool, ghost skip0: Bytes, skipping: bool, skip: Bytes)
      returns (stop: bool, skipping': bool, skip': Bytes)
      requires Sorted(iter.items) && i < |iter.items| && Scanned(from, i, skipping0, skip0, skipping, skip)
      requires skipping0 ==> NoneBefore(from, skip0)
      ensures stop <==> Wanted(i, skipping0, skip0)
      ensures !stop && i + 1 < |iter.items| ==> Scanned(from, i + 1, skipping0, skip0, skipping', skip')
    {
      var e := iter.items[i];
      skipping', skip', stop := skipping, skip, false;
      if e.ik.sn <= sequence {
        if e.ik.kind.Deletion? {
          skipping', skip' := true, e.ik.user;
        } else {
          HiddenIff(from, i, skipping0, skip0, skipping, skip);
          if !(skipping && Rank(e.ik.user) <= Rank(skip)) {
            PastSkip(from, i, skipping0, skip0, skipping, skip);
            stop := true;
          }
        }
      }
      if !stop && i + 1 < |iter.items| {
        ScanStep(from, i, skipping0, skip0, skipping, skip, skipping', skip');
      }
    }

    /** From the current position on, stop at the first wanted entry. */
    method FindNextUserEntry(skipping0: bool, skip0: Bytes)
      requires iter.Ok() && iter.Valid() && direction.Forward? && Distinct(Elems(iter.items))
      requires Scanned(iter.pos, iter.pos, skipping0, skip0, skipping0, skip0)
      requires skipping0 ==> NoneBefore(iter.pos, skip0)
      modifies `valid, `savedKey, `cur, iter
      ensures Ok()
      ensures valid ==> old(iter.pos) <= cur && Wanted(cur, skipping0, skip0)
      ensures forall j ::
        old(iter.pos) <= j < (if valid then cur else |iter.items|) && Shows(iter.items, sequence, j) ==>
        skipping0 && Rank(iter.items[j].ik.user) <= Rank(skip0)
    {
      hide Shows;
      hide Sorted;
      hide Distinct;
      hide NoneBefore;
      ghost var from := iter.pos;
      var skipping, skip, stop := skipping0, skip0, false;
      valid := false;
      while iter.Valid()
        invariant iter.Ok() && !valid && direction == old(direction)
        invariant iter.Valid() ==> Scanned(from, iter.pos, skipping0, skip0, skipping, skip)
        invariant forall j :: from <= j < (if iter.Valid() then iter.pos else |iter.items|) ==>
          !Wanted(j, skipping0, skip0)
        decreases if iter.Valid() then |iter.items| - iter.pos else 0
      {
        stop, skipping, skip := Examine(from, iter.pos, skipping0, skip0, skipping, skip);
        if stop {
          valid, cur, savedKey := true, iter.pos, [];
          Unwanted(from, iter.pos, skipping0, skip0);
          return;
        }
        iter.Next();
      }
      Unwanted(from, |iter.items|, skipping0, skip0);
      savedKey := [];
    }

    lemma Unwanted(from: nat, upto: nat, skipping: bool, skip: Bytes)
      requires upto <= |iter.items| && forall j :: from <= j < upto ==> !Wanted(j, skipping, skip)
      ensures forall j :: from <= j < upto && Shows(iter.items, sequence, j) ==>
        skipping && Rank(iter.items[j].ik.user) <= Rank(skip)
    {
      forall j | from <= j < upto && Shows(iter.items, sequence, j)
        ensures skipping && Rank(iter.items[j].ik.user) <= Rank(skip)
      {
        assert !Wanted(j, skipping, skip);
      }
    }

    /** An entry beyond the skip key lies beyond the original one too. */
    lemma PastSkip(from: nat, i: nat, skipping0: bool, skip0: Bytes, skipping: bool, skip: Bytes)
      requires Sorted(iter.items) && i < |iter.items| && Scanned(from, i, skipping0, skip0, skipping, skip)
      requires Shows(iter.items, sequence, i) && !(skipping && Rank(iter.items[i].ik.user) <= Rank(skip))
      ensures Wanted(i, skipping0, skip0)
    {
    }

    // ---- scanning backward ---------------------------------------------------------------

    /** The state of the backward scan at position i, after entries i+1 .. p: nothing shown, or the entry m just saved,
        which shows unless an earlier version of its key is visible too. */
    ghost predicate Backed(i: int, p: int, m: int, value: bool)
      reads this
    {
      && -1 <= i <= p < |iter.items|
      && (value ==>
            && i < m <= p && Visible(iter.items, sequence, m) && iter.items[m].ik.kind.Value? && Behind(i, m)
            && savedKey == iter.items[m].ik.user && savedValue == iter.items[m].value)
      && (forall j :: i < j <= p && !(value && j == m) ==> !Shows(iter.items, sequence, j))
    }

    method FindPrevUserEntry()
      requires iter.Ok() && direction.Reverse? && Distinct(Elems(iter.items))
      modifies `direction, `valid, `savedKey, `savedValue, `cur, iter
      ensures Ok()
      ensures valid ==> cur <= old(iter.pos)
      ensures forall j :: (if valid then cur else -1) < j <= old(iter.pos) ==> !Shows(iter.items, sequence, j)
    {
      ghost var p := iter.pos;
      ghost var m := -1;
      var isValue := false;
      while iter.Valid()
        invariant iter.Ok() && direction.Reverse?
        invariant Backed(iter.pos, p, m, isValue)
        decreases iter.pos
      {
        var e := iter.Current();
        ghost var i := iter.pos;
        if e.ik.sn <= sequence {
          if isValue && Rank(e.ik.user) < Rank(savedKey) {
            ShownBack(i, p, m);
            break;
          }
          if isValue {
            NotShownBack(i, m);
          }
          isValue := e.ik.kind.Value?;
          if isValue {
            savedKey, savedValue, m := e.ik.user, e.value, i;
          } else {
            savedKey, savedValue := [], [];
          }
        }
        iter.Prev();
      }
      if !isValue {
        valid, savedKey, savedValue, direction := false, [], [], Forward;
      } else {
        ShownBack(iter.pos, p, m);
        valid, cur := true, m;
      }
    }

    /** The saved entry shows once the scan has left its user key. */
    lemma ShownBack(i: int, p: int, m: int)
      requires Sorted(iter.items) && Backed(i, p, m, true)
      requires i == -1 || Rank(iter.items[i].ik.user) < Rank(savedKey)
      ensures Shows(iter.items, sequence, m)
    {
      forall j | 0 <= j < m && iter.items[j].ik.user == iter.items[m].ik.user
        ensures !Visible(iter.items, sequence, j)
      {
        if j <= i {
          UsersAscend(iter.items, j, i);
        }
      }
    }

    /** It does not, if an earlier visible entry has the same key. */
    lemma NotShownBack(i: int, m: int)
      requires Sorted(iter.items) && 0 <= i < m < |iter.items| && Visible(iter.items, sequence, i)
      requires Rank(iter.items[i].ik.user) >= Rank(iter.items[m].ik.user)
      ensures !Shows(iter.items, sequence, m)
    {
      UsersAscend(iter.items, i, m);
      assert Unrank(Rank(iter.items[m].ik.user)) == iter.items[i].ik.user;
    }

    // ---- the operations --------------------------------------------------------------------

    /** r is the least live key meeting the bound, or there is none. */
    ghost predicate Least(r: Option<Bytes>, b: Bound) {
      && (r.Some? ==> Live(r.value) && Meets(r.value, b) && forall k: Bytes :: Live(k) && Meets(k, b) ==>
        Rank(r.value) <= Rank(k))
      && (r.None? ==> forall k: Bytes :: Live(k) ==> !Meets(k, b))
    }

    ghost predicate Greatest(r: Option<Bytes>, b: Bound) {
      && (r.Some? ==> Live(r.value) && Meets(r.value, b) && forall k: Bytes :: Live(k) && Meets(k, b) ==>
        Rank(k) <= Rank(r.value))
      && (r.None? ==> forall k: Bytes :: Live(k) ==> !Meets(k, b))
    }

    /** Positions to keys: the first shown entry past a bound is the least live key past it. */
    lemma LeastIs(b: Bound)
      requires Ok()
      requires valid ==> Meets(iter.items[cur].ik.user, b)
      requires forall j :: 0 <= j < (if valid then cur else |iter.items|) && Shows(iter.items, sequence, j) ==>
        !Meets(iter.items[j].ik.user, b)
      ensures Least(At(), b)
    {
      if valid {
        ShowsIsRead(iter.items, sequence, cur);
      }
      forall k: Bytes | Live(k) && Meets(k, b)
        ensures valid && Rank(iter.items[cur].ik.user) <= Rank(k)
      {
        var i := ReadIsShown(iter.items, sequence, k);
        UsersAscend(iter.items, cur, i);
      }
    }

    lemma GreatestIs(b: Bound)
      requires Ok()
      requires valid ==> Meets(iter.items[cur].ik.user, b)
      requires forall j :: (if valid then cur else -1) < j < |iter.items| && Shows(iter.items, sequence, j) ==>
        !Meets(iter.items[j].ik.user, b)
      ensures Greatest(At(), b)
    {
      if valid {
        ShowsIsRead(iter.items, sequence, cur);
      }
      forall k: Bytes | Live(k) && Meets(k, b)
        ensures valid && Rank(k) <= Rank(iter.items[cur].ik.user)
      {
        var i := ReadIsShown(iter.items, sequence, k);
        UsersAscend(iter.items, i, cur);
      }
    }

    method SeekToFirst()
      requires Ok()
      modifies this, iter
      ensures Ok() && Least(At(), Any)
    {
      direction, savedValue := Forward, [];
      iter.SeekToFirst();
      if iter.Valid() {
        FindNextUserEntry(false, savedKey);
      } else {
        valid := false;
      }
      LeastIs(Any);
    }

    method SeekToLast()
      requires Ok()
      modifies this, iter
      ensures Ok() && Greatest(At(), Any)
    {
      direction, savedValue := Reverse, [];
      iter.SeekToLast();
      FindPrevUserEntry();
      GreatestIs(Any);
    }

    /** The first live key at or after target. */
    method Seek(target: Bytes)
      requires Ok()
      modifies this, iter
      ensures Ok() && Least(At(), From(target))
    {
      direction, savedValue, savedKey := Forward, [], [];
      iter.Seek(IKey(target, sequence, Format.Value));
      if iter.Valid() {
        FindNextUserEntry(false, savedKey);
      } else {
        valid := false;
      }
      LeastIs(From(target));
    }

    /** The next live key, whichever way the iterator was moving. */
    method Next()
      requires Ok() && valid
      modifies this, iter
      ensures Ok() && Least(At(), After(old(Key())))
    {
      ghost var key := Key();
      if direction.Reverse? {
        direction := Forward;
        if !iter.Valid() {
          iter.SeekToFirst();
        } else {
          iter.Next();
        }
        if !iter.Valid() {
          // The entry this iterator stands for lies ahead, so the code's exit here is never taken.
          assert false;
        }
      } else {
        savedKey := iter.Current().ik.user;
      }
      FindNextUserEntry(true, savedKey);
      LeastIs(After(key));
    }

    /** The previous live key, whichever way the iterator was moving. */
    method Prev()
      requires Ok() && valid
      modifies this, iter
      ensures Ok() && Greatest(At(), Before(old(Key())))
    {
      ghost var key := Key();
      if direction.Forward? {
        savedKey := iter.Current().ik.user;
        while true
          invariant iter.Ok() && iter.Valid() && direction.Forward? && savedKey == key
          invariant iter.pos <= old(iter.pos) && Rank(savedKey) <= Rank(iter.items[iter.pos].ik.user)
          decreases iter.pos
        {
          ghost var q := iter.pos;
          iter.Prev();
          if !iter.Valid() {
            assert q == 0;
            valid, savedKey, savedValue := false, [], [];
            forall j | 0 <= j < |iter.items|
              ensures Rank(key) <= Rank(iter.items[j].ik.user)
            {
              UsersAscend(iter.items, 0, j);
            }
            GreatestIs(Before(key));
            return;
          }
          if Rank(iter.Current().ik.user) < Rank(savedKey) {
            break;
          }
        }
        direction := Reverse;
      }
      FindPrevUserEntry();
      GreatestIs(Before(key));
    }
  }
}
