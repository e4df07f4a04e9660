/** The contract every internal iterator meets: a position in a strictly increasing list of entries. */
module Cursors {
  import opened Format
  import opened Levels

  class Cursor {
    const items: seq<Entry>
    /** -1 when not positioned at an entry. */
    var pos: int

    ghost predicate Ok()
      reads this
    {
      Sorted(items) && -1 <= pos < |items|
    }

    constructor (items: seq<Entry>)
      requires Sorted(items)
      ensures Ok() && this.items == items && pos == -1
    {
      this.items := items;
      pos := -1;
    }

    predicate Valid()
      reads this
    {
      pos != -1
    }

    function Current(): Entry
      requires Ok() && Valid()
      reads this
    {
      items[pos]
    }

    method SeekToFirst()
      requires Ok()
      modifies this
      ensures Ok() && pos == (if items == [] then -1 else 0)
    {
      pos := if items == [] then -1 else 0;
    }

    method SeekToLast()
      requires Ok()
      modifies this
      ensures Ok() && pos == |items| - 1
    {
      pos := |items| - 1;
    }

    /** The first entry at or after target. */
    method Seek(target: IKey)
      requires Ok()
      modifies this
      ensures Ok()
      ensures pos == -1 ==> forall j :: 0 <= j < |items| ==> ILess(items[j].ik, target)
      ensures pos != -1 ==> ILeq(target, items[pos].ik) && forall j :: 0 <= j < pos ==> ILess(items[j].ik, target)
    {
      var i := LowerBound(items, target, 0);
      pos := if i == |items| then -1 else i;
    }

    method Next()
      requires Ok() && Valid()
      modifies this
      ensures Ok() && pos == (if old(pos) + 1 == |items| then -1 else old(pos) + 1)
    {
      pos := if pos + 1 == |items| then -1 else pos + 1;
    }

    method Prev()
      requires Ok() && Valid()
      modifies this
      ensures Ok() && pos == old(pos) - 1
    {
      pos := pos - 1;
    }
  }
}
