/** The merging iterator: a cursor over the sorted union of its children, through any change of direction. */
module Merger {
  import opened Keys
  import opened Format
  import opened Cursors

  /** Which entries a move may land on. */
  datatype Bound = Any | From(key: IKey) | After(key: IKey) | UpTo(key: IKey) | Before(key: IKey)

  predicate Meets(k: IKey, b: Bound) {
    match b
    case Any => true
    case From(t) => ILeq(t, k)
    case After(t) => ILess(t, k)
    case UpTo(t) => ILeq(k, t)
    case Before(t) => ILess(k, t)
  }

  /** Bounds a forward move can have: once met, met by every later key. */
  predicate Upward(b: Bound) {
    b.Any? || b.From? || b.After?
  }

  predicate Downward(b: Bound) {
    b.Any? || b.UpTo? || b.Before?
  }

  /** The child stands at its first entry meeting b. */
  ghost predicate Lands(c: Cursor, b: Bound)
    reads c
  {
    && c.Ok()
    && (if c.pos == -1 then forall j :: 0 <= j < |c.items| ==> !Meets(c.items[j].ik, b)
        else Meets(c.items[c.pos].ik, b) && forall j :: 0 <= j < c.pos ==> !Meets(c.items[j].ik, b))
  }

  /** The child stands at its last entry meeting b. */
  ghost predicate LandsBack(c: Cursor, b: Bound)
    reads c
  {
    && c.Ok()
    && (if c.pos == -1 then forall j :: 0 <= j < |c.items| ==> !Meets(c.items[j].ik, b)
        else Meets(c.items[c.pos].ik, b) && forall j :: c.pos < j < |c.items| ==> !Meets(c.items[j].ik, b))
  }

  lemma Ascend(c: Cursor, i: int, j: int)
    requires Sorted(c.items) && 0 <= i <= j < |c.items|
    ensures ILeq(c.items[i].ik, c.items[j].ik)
  {
  }

  // ---- one child ------------------------------------------------------------------------

  /** Standing at k, a step forward lands past it. */
  method StepPast(c: Cursor, ghost k: IKey)
    requires c.Ok() && c.Valid() && c.Current().ik == k
    modifies c
    ensures Lands(c, After(k))
  {
    ghost var p := c.pos;
    c.Next();
    forall j | 0 <= j < |c.items|
      ensures j <= p ==> !ILess(k, c.items[j].ik)
      ensures j > p ==> ILess(k, c.items[j].ik)
    {
      if j <= p { Ascend(c, j, p); }
    }
  }

  method StepBefore(c: Cursor, ghost k: IKey)
    requires c.Ok() && c.Valid() && c.Current().ik == k
    modifies c
    ensures LandsBack(c, Before(k))
  {
    ghost var p := c.pos;
    c.Prev();
    forall j | 0 <= j < |c.items|
      ensures j >= p ==> !ILess(c.items[j].ik, k)
      ensures j < p ==> ILess(c.items[j].ik, k)
    {
      if j >= p { Ascend(c, p, j); }
    }
  }

  /** Reposition a child just past k, wherever it was. */
  method PositionAfter(c: Cursor, k: IKey)
    requires c.Ok()
    modifies c
    ensures Lands(c, After(k))
  {
    c.Seek(k);
    if c.Valid() && c.Current().ik == k {
      StepPast(c, k);
    }
  }

  /** Reposition a child just before k, wherever it was. */
  method PositionBefore(c: Cursor, k: IKey)
    requires c.Ok()
    modifies c
    ensures LandsBack(c, Before(k))
  {
    c.Seek(k);
    if c.Valid() {
      ghost var p := c.pos;
      c.Prev();
      forall j | p <= j < |c.items|
        ensures !ILess(c.items[j].ik, k)
      {
        Ascend(c, p, j);
      }
    } else {
      c.SeekToLast();
    }
  }

  datatype Direction = Forward | Reverse

  class MergingIterator {
    const children: seq<Cursor>
    /** Index of the current child, -1 when not valid. */
    var current: int
    var direction: Direction

    ghost function Footprint(): set<object> {
      {this} + set i | 0 <= i < |children| :: children[i]
    }

    ghost predicate ChildrenOk()
      reads Footprint()
    {
      forall i :: 0 <= i < |children| ==> children[i].Ok()
    }

    ghost predicate AllLand(b: Bound)
      reads Footprint()
    {
      forall i :: 0 <= i < |children| ==> Lands(children[i], b)
    }

    ghost predicate AllLandBack(b: Bound)
      reads Footprint()
    {
      forall i :: 0 <= i < |children| ==> LandsBack(children[i], b)
    }

    /** The current child has the smallest key among those standing at an entry. */
    ghost predicate Smallest()
      requires ChildrenOk()
      reads Footprint()
    {
      && -1 <= current < |children| && (current != -1 ==> children[current].Valid())
      && forall i :: 0 <= i < |children| && children[i].Valid() ==>
           current != -1 && ILeq(children[current].Current().ik, children[i].Current().ik)
    }

    ghost predicate Largest()
      requires ChildrenOk()
      reads Footprint()
    {
      && -1 <= current < |children| && (current != -1 ==> children[current].Valid())
      && forall i :: 0 <= i < |children| && children[i].Valid() ==>
           current != -1 && ILeq(children[i].Current().ik, children[current].Current().ik)
    }

    /** No two children share a key. */
    ghost predicate Apart() {
      && (forall i, j :: 0 <= i < j < |children| ==> children[i] != children[j])
      && (forall i, j :: 0 <= i < |children| && 0 <= j < |children| && i != j ==>
        KeysApart(children[i].items, children[j].items))
    }

    ghost predicate Ok()
      reads Footprint()
    {
      && Apart() && ChildrenOk() && -1 <= current < |children| && (current != -1 ==> children[current].Valid())
      && (current != -1 && direction.Forward? ==> AllLand(From(children[current].Current().ik)))
      && (current != -1 && direction.Reverse? ==> AllLandBack(UpTo(children[current].Current().ik)))
    }

    predicate Valid()
      reads this
    {
      current != -1
    }

    function Key(): IKey
      requires Ok() && Valid()
      reads Footprint()
    {
      children[current].Current().ik
    }

    function Current(): Entry
      requires Ok() && Valid()
      reads Footprint()
    {
      children[current].Current()
    }

    ghost function At(): Option<Entry>
      requires Ok()
      reads Footprint()
    {
      if Valid() then Some(Current()) else None
    }

    /** The sorted union is over these entries. */
    ghost predicate Holds(e: Entry) {
      exists i :: 0 <= i < |children| && e in children[i].items
    }

    ghost function All(): (r: set<Entry>)
      ensures forall e :: e in r <==> Holds(e)
    {
      set i, e | 0 <= i < |children| && e in children[i].items :: e
    }

    lemma UnionKeys()
      requires Ok()
      ensures forall x, y :: x in All() && y in All() && x.ik == y.ik ==> x == y
    {
      forall x, y | x in All() && y in All() && x.ik == y.ik
        ensures x == y
      {
        var i :| 0 <= i < |children| && x in children[i].items;
        var j :| 0 <= j < |children| && y in children[j].items;
        assert i == j;
        assert Sorted(children[i].items);
      }
    }

    /** r is the least entry of the union meeting b, or there is none. */
    ghost predicate Least(r: Option<Entry>, b: Bound) {
      && (r.Some? ==> Holds(r.value) && Meets(r.value.ik, b) && forall e :: Holds(e) && Meets(e.ik, b) ==>
        ILeq(r.value.ik, e.ik))
      && (r.None? ==> forall e :: Holds(e) ==> !Meets(e.ik, b))
    }

    ghost predicate Greatest(r: Option<Entry>, b: Bound) {
      && (r.Some? ==> Holds(r.value) && Meets(r.value.ik, b) && forall e :: Holds(e) && Meets(e.ik, b) ==>
        ILeq(e.ik, r.value.ik))
      && (r.None? ==> forall e :: Holds(e) ==> !Meets(e.ik, b))
    }

    constructor (children: seq<Cursor>)
      requires forall i, j :: 0 <= i < j < |children| ==> children[i] != children[j]
      requires forall i, j :: 0 <= i < |children| && 0 <= j < |children| && i != j ==>
        KeysApart(children[i].items, children[j].items)
      requires forall i :: 0 <= i < |children| ==> children[i].Ok()
      ensures Ok() && !Valid() && this.children == children
    {
      this.children := children;
      current, direction := -1, Forward;
    }

    method FindSmallest()
      requires ChildrenOk()
      modifies `current
      ensures ChildrenOk() && Smallest()
    {
      var smallest := -1;
      for i := 0 to |children|
        invariant -1 <= smallest < i
        invariant smallest != -1 ==> children[smallest].Valid()
        invariant forall j :: 0 <= j < i && children[j].Valid() ==>
          smallest != -1 && ILeq(children[smallest].Current().ik, children[j].Current().ik)
      {
        if children[i].Valid() {
          if smallest == -1 {
            smallest := i;
          } else if ILess(children[i].Current().ik, children[smallest].Current().ik) {
            smallest := i;
          }
        }
      }
      current := smallest;
    }

    method FindLargest()
      requires ChildrenOk()
      modifies `current
      ensures ChildrenOk() && Largest()
    {
      var largest := -1;
      for i := |children| downto 0
        invariant largest == -1 || i <= largest < |children|
        invariant largest != -1 ==> children[largest].Valid()
        invariant forall j :: i <= j < |children| && children[j].Valid() ==>
          largest != -1 && ILeq(children[j].Current().ik, children[largest].Current().ik)
      {
        if children[i].Valid() {
          if largest == -1 {
            largest := i;
          } else if ILess(children[largest].Current().ik, children[i].Current().ik) {
            largest := i;
          }
        }
      }
      current := largest;
    }

    /** With every child at its first entry meeting b, the smallest child is the cursor's place. */
    lemma SmallestIsLeast(b: Bound)
      requires Apart() && AllLand(b) && Upward(b) && ChildrenOk() && Smallest() && direction.Forward?
      ensures Ok() && Least(At(), b)
    {
      forall i: nat, e | i < |children| && e in children[i].items && Meets(e.ik, b)
        ensures current != -1 && ILeq(children[current].Current().ik, e.ik)
      {
        LandsFirst(children[i], b, e);
      }
      if current != -1 {
        var k := children[current].Current().ik;
        assert Holds(children[current].Current());
        forall i | 0 <= i < |children|
          ensures Lands(children[i], From(k))
        {
          Sharpen(children[i], b, k);
        }
      }
    }

    lemma LargestIsGreatest(b: Bound)
      requires Apart() && AllLandBack(b) && Downward(b) && ChildrenOk() && Largest() && direction.Reverse?
      ensures Ok() && Greatest(At(), b)
    {
      forall i: nat, e | i < |children| && e in children[i].items && Meets(e.ik, b)
        ensures current != -1 && ILeq(e.ik, children[current].Current().ik)
      {
        LandsLast(children[i], b, e);
      }
      if current != -1 {
        var k := children[current].Current().ik;
        assert Holds(children[current].Current());
        forall i | 0 <= i < |children|
          ensures LandsBack(children[i], UpTo(k))
        {
          SharpenBack(children[i], b, k);
        }
      }
    }

    method SeekToFirst()
      requires Ok()
      modifies Footprint()
      ensures Ok() && Least(At(), Any)
    {
      for i := 0 to |children|
        invariant ChildrenOk() && current == old(current)
        invariant forall j :: 0 <= j < i ==> Lands(children[j], Any)
      {
        children[i].SeekToFirst();
      }
      FindSmallest();
      direction := Forward;
      SmallestIsLeast(Any);
    }

    method SeekToLast()
      requires Ok()
      modifies Footprint()
      ensures Ok() && Greatest(At(), Any)
    {
      for i := 0 to |children|
        invariant ChildrenOk() && current == old(current)
        invariant forall j :: 0 <= j < i ==> LandsBack(children[j], Any)
      {
        children[i].SeekToLast();
      }
      FindLargest();
      direction := Reverse;
      LargestIsGreatest(Any);
    }

    method Seek(target: IKey)
      requires Ok()
      modifies Footprint()
      ensures Ok() && Least(At(), From(target))
    {
      for i := 0 to |children|
        invariant ChildrenOk() && current == old(current)
        invariant forall j :: 0 <= j < i ==> Lands(children[j], From(target))
      {
        SeekFrom(children[i], target);
      }
      FindSmallest();
      direction := Forward;
      SmallestIsLeast(From(target));
    }

    /** The next entry of the union; after moving backward, every other child is first sought past the key. */
    method Next()
      requires Ok() && Valid()
      modifies Footprint()
      ensures Ok() && Least(At(), After(old(Key())))
    {
      ghost var k := Key();
      if direction.Reverse? {
        TurnForward(k);
      } else {
        forall i | 0 <= i < |children| && i != current
          ensures Lands(children[i], After(k))
        {
          OthersPast(children[i], children[current], k);
        }
      }
      StepPast(children[current], k);
      FindSmallest();
      SmallestIsLeast(After(k));
    }

    method TurnForward(ghost k: IKey)
      requires Ok() && Valid() && k == Key()
      modifies Footprint()
      ensures direction.Forward? && current == old(current) && Apart() && ChildrenOk()
      ensures children[current].Valid() && children[current].Current().ik == k
      ensures forall i :: 0 <= i < |children| && i != current ==> Lands(children[i], After(k))
    {
      for i := 0 to |children|
        invariant ChildrenOk() && current == old(current)
        invariant children[current].Valid() && children[current].Current().ik == k
        invariant forall j :: 0 <= j < i && j != current ==> Lands(children[j], After(k))
      {
        if i != current {
          PositionAfter(children[i], children[current].Current().ik);
        }
      }
      direction := Forward;
    }

    /** The previous entry of the union; after moving forward, every other child is first brought before the key. */
    method Prev()
      requires Ok() && Valid()
      modifies Footprint()
      ensures Ok() && Greatest(At(), Before(old(Key())))
    {
      ghost var k := Key();
      if direction.Forward? {
        TurnBack(k);
      } else {
        forall i | 0 <= i < |children| && i != current
          ensures LandsBack(children[i], Before(k))
        {
          OthersBefore(children[i], children[current], k);
        }
      }
      StepBefore(children[current], k);
      FindLargest();
      LargestIsGreatest(Before(k));
    }

    method TurnBack(ghost k: IKey)
      requires Ok() && Valid() && k == Key()
      modifies Footprint()
      ensures direction.Reverse? && current == old(current) && Apart() && ChildrenOk()
      ensures children[current].Valid() && children[current].Current().ik == k
      ensures forall i :: 0 <= i < |children| && i != current ==> LandsBack(children[i], Before(k))
    {
      for i := 0 to |children|
        invariant ChildrenOk() && current == old(current)
        invariant children[current].Valid() && children[current].Current().ik == k
        invariant forall j :: 0 <= j < i && j != current ==> LandsBack(children[j], Before(k))
      {
        if i != current {
          PositionBefore(children[i], children[current].Current().ik);
        }
      }
      direction := Reverse;
    }
  }

  method SeekFrom(c: Cursor, target: IKey)
    requires c.Ok()
    modifies c
    ensures Lands(c, From(target))
  {
    c.Seek(target);
  }

  lemma LandsFirst(c: Cursor, b: Bound, e: Entry)
    requires Lands(c, b) && e in c.items && Meets(e.ik, b)
    ensures c.Valid() && ILeq(c.Current().ik, e.ik)
  {
  }

  lemma LandsLast(c: Cursor, b: Bound, e: Entry)
    requires LandsBack(c, b) && e in c.items && Meets(e.ik, b)
    ensures c.Valid() && ILeq(e.ik, c.Current().ik)
  {
  }

  /** At its first entry past b, and that entry not before k which meets b: then at its first entry from k on. */
  lemma Sharpen(c: Cursor, b: Bound, k: IKey)
    requires Lands(c, b) && Upward(b) && Meets(k, b) && (c.Valid() ==> ILeq(k, c.Current().ik))
    ensures Lands(c, From(k))
  {
  }

  lemma SharpenBack(c: Cursor, b: Bound, k: IKey)
    requires LandsBack(c, b) && Downward(b) && Meets(k, b) && (c.Valid() ==> ILeq(c.Current().ik, k))
    ensures LandsBack(c, UpTo(k))
  {
  }

  lemma OthersPast(c: Cursor, d: Cursor, k: IKey)
    requires Lands(c, From(k)) && d.Ok() && d.Valid() && d.Current().ik == k && KeysApart(c.items, d.items)
    ensures Lands(c, After(k))
  {
  }

  lemma OthersBefore(c: Cursor, d: Cursor, k: IKey)
    requires LandsBack(c, UpTo(k)) && d.Ok() && d.Valid() && d.Current().ik == k && KeysApart(c.items, d.items)
    ensures LandsBack(c, Before(k))
  {
  }

  ghost predicate KeysApart(a: seq<Entry>, b: seq<Entry>) {
    forall x, y :: x in a && y in b ==> x.ik != y.ik
  }
}
