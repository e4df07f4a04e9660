/** Circular doubly linked lists with a dummy head, as the cache links its entries. */
module Rings {

  datatype Links = Links(next: seq<nat>, prev: seq<nat>)

  /** Place i of the ring: the head at 0, the items after it, the head again after the last. */
  function Place(head: nat, items: seq<nat>, i: nat): nat
    requires i <= |items| + 1
  {
    if 1 <= i <= |items| then items[i - 1] else head
  }

  ghost predicate Distinct(s: seq<nat>) {
    forall i, j :: 0 <= i < j < |s| ==> s[i] != s[j]
  }

  ghost predicate Linked(l: Links, head: nat, items: seq<nat>, i: nat)
    requires i <= |items|
  {
    var a, b := Place(head, items, i), Place(head, items, i + 1);
    a < |l.next| && b < |l.prev| && l.next[a] == b && l.prev[b] == a
  }

  /** Following next from the head visits items in order and returns; following prev visits them backward. */
  ghost predicate Ring(l: Links, head: nat, items: seq<nat>) {
    && |l.next| == |l.prev| && head !in items && Distinct(items)
    && forall i :: 0 <= i <= |items| ==> Linked(l, head, items, i)
  }

  lemma RingBounds(l: Links, head: nat, items: seq<nat>)
    requires Ring(l, head, items)
    ensures head < |l.next| && forall i :: 0 <= i < |items| ==> items[i] < |l.next|
    ensures l.next[head] == (if items == [] then head else items[0])
    ensures l.prev[head] == (if items == [] then head else items[|items| - 1])
  {
    assert Linked(l, head, items, 0) && Linked(l, head, items, |items|);
    forall i | 0 <= i < |items|
      ensures items[i] < |l.next|
    {
      assert Linked(l, head, items, i);
    }
  }

  /** LRU_Remove. */
  function Removed(l: Links, e: nat): Links
    requires e < |l.next| == |l.prev| && l.next[e] < |l.prev| && l.prev[e] < |l.next|
  {
    Links(l.next[l.prev[e] := l.next[e]], l.prev[l.next[e] := l.prev[e]])
  }

  /** LRU_Append: e becomes the last item, just before the head. */
  function Appended(l: Links, head: nat, e: nat): Links
    requires e < |l.next| == |l.prev| && head < |l.next| && l.prev[head] < |l.next|
  {
    var last := l.prev[head];
    Links(l.next[e := head][last := e], l.prev[e := last][head := e])
  }

  function Without(items: seq<nat>, k: nat): seq<nat>
    requires k < |items|
  {
    items[..k] + items[k + 1..]
  }

  lemma PlaceWithout(head: nat, items: seq<nat>, k: nat, i: nat)
    requires k < |items| && i <= |items|
    ensures Place(head, Without(items, k), i) == (if i <= k then Place(head, items, i) else Place(head, items, i + 1))
  {
  }

  /** Places of a ring are distinct nodes, but for the head at both ends. */
  lemma PlacesDiffer(l: Links, head: nat, items: seq<nat>, i: nat, j: nat)
    requires Ring(l, head, items) && i < j <= |items| + 1 && (i > 0 || j <= |items|)
    ensures Place(head, items, i) != Place(head, items, j)
  {
  }

  lemma RemoveKeeps(l: Links, head: nat, items: seq<nat>, k: nat)
    requires Ring(l, head, items) && k < |items|
    ensures items[k] < |l.next| && l.next[items[k]] < |l.prev| && l.prev[items[k]] < |l.next|
    ensures l.next[items[k]] == Place(head, items, k + 2) && l.prev[items[k]] == Place(head, items, k)
    ensures Ring(Removed(l, items[k]), head, Without(items, k))
  {
    var e := items[k];
    assert Linked(l, head, items, k) && Linked(l, head, items, k + 1);
    var m, rest := Removed(l, e), Without(items, k);
    forall i | 0 <= i <= |rest|
      ensures Linked(m, head, rest, i)
    {
      PlaceWithout(head, items, k, i);
      PlaceWithout(head, items, k, i + 1);
      var j := if i <= k then i else i + 1;
      assert Linked(l, head, items, j);
      if i < k {
        PlacesDiffer(l, head, items, i, k);
        PlacesDiffer(l, head, items, i + 1, k + 2);
      } else if i > k {
        PlacesDiffer(l, head, items, k, i + 1);
        PlacesDiffer(l, head, items, k + 2, i + 2);
      }
    }
  }

  lemma AppendKeeps(l: Links, head: nat, items: seq<nat>, e: nat)
    requires Ring(l, head, items) && e < |l.next| && e != head && e !in items
    ensures head < |l.next| && l.prev[head] == Place(head, items, |items|) < |l.next|
    ensures Ring(Appended(l, head, e), head, items + [e])
  {
    var n := |items|;
    assert Linked(l, head, items, n);
    var m, more := Appended(l, head, e), items + [e];
    forall i | 0 <= i <= |more|
      ensures Linked(m, head, more, i)
    {
      if i < n {
        assert Linked(l, head, items, i);
        assert Place(head, more, i) == Place(head, items, i) && Place(head, more, i + 1) == Place(head, items, i + 1);
        PlacesDiffer(l, head, items, i, n);
        assert Place(head, items, i + 1) == items[i];
      } else {
        assert Place(head, more, n) == Place(head, items, n) && Place(head, more, n + 1) == e &&
          Place(head, more, n + 2) == head;
      }
    }
  }

  /** A ring none of whose nodes changed is still a ring. */
  lemma RingStays(l: Links, m: Links, head: nat, items: seq<nat>)
    requires Ring(l, head, items) && |m.next| == |m.prev| >= |l.next|
    requires forall n :: 0 <= n < |l.next| && (n == head || n in items) ==>
      m.next[n] == l.next[n] && m.prev[n] == l.prev[n]
    ensures Ring(m, head, items)
  {
    forall i | 0 <= i <= |items|
      ensures Linked(m, head, items, i)
    {
      assert Linked(l, head, items, i);
    }
  }
}
