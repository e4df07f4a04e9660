/** The LRU cache: reference counts, two lists, the hash table, and the charge they add up to. */
module Cache {
  import opened Keys
  import opened Rings
  import HandleTable

  const NULL := -1
  /** Handles 0 and 1 are the dummy heads of the two lists. */
  const LRU := 0
  const IN_USE := 1

  // ---- the two lists ----------------------------------------------------------------------------------

  /** Both rings in one set of links, sharing no node. */
  ghost predicate Shelves(l: Links, lru: seq<nat>, inUse: seq<nat>) {
    && Ring(l, LRU, lru) && Ring(l, IN_USE, inUse)
    && IN_USE !in lru && LRU !in inUse && forall n :: n in lru ==> n !in inUse
  }

  lemma WithoutMembers(s: seq<nat>, k: nat)
    requires Distinct(s) && k < |s|
    ensures forall n :: n in Without(s, k) <==> n in s && n != s[k]
  {
  }

  /** Taking an item out of one ring leaves the other alone. */
  lemma TakeOut(l: Links, head: nat, items: seq<nat>, k: nat, other: nat, rest: seq<nat>)
    requires Ring(l, head, items) && k < |items| && Ring(l, other, rest)
    requires head != other && other !in items && head !in rest && forall n :: n in items ==> n !in rest
    ensures items[k] < |l.next| && l.next[items[k]] < |l.prev| && l.prev[items[k]] < |l.next|
    ensures Ring(Removed(l, items[k]), head, Without(items, k)) && Ring(Removed(l, items[k]), other, rest)
  {
    RemoveKeeps(l, head, items, k);
    RingBounds(l, other, rest);
    assert Place(head, items, k) == head || Place(head, items, k) in items;
    assert Place(head, items, k + 2) == head || Place(head, items, k + 2) in items;
    RingStays(l, Removed(l, items[k]), other, rest);
  }

  /** Adding a node that is in neither ring to one leaves the other alone. */
  lemma PutIn(l: Links, head: nat, items: seq<nat>, e: nat, other: nat, rest: seq<nat>)
    requires Ring(l, head, items) && Ring(l, other, rest) && e < |l.next| && e != head && e !in items && e != other &&
      e !in rest
    requires head != other && other !in items && head !in rest && forall n :: n in items ==> n !in rest
    ensures head < |l.next| && l.prev[head] < |l.next|
    ensures Ring(Appended(l, head, e), head, items + [e]) && Ring(Appended(l, head, e), other, rest)
  {
    AppendKeeps(l, head, items, e);
    RingBounds(l, other, rest);
    assert Place(head, items, |items|) == head || Place(head, items, |items|) in items;
    RingStays(l, Appended(l, head, e), other, rest);
  }

  // ---- charges ---------------------------------------------------------------------------------------------

  function ChargeOf(charges: seq<nat>, n: nat): nat {
    if n < |charges| then charges[n] else 0
  }

  function Sum(charges: seq<nat>, s: seq<nat>): nat {
    if s == [] then 0 else Sum(charges, s[..|s| - 1]) + ChargeOf(charges, s[|s| - 1])
  }

  lemma SumSnoc(charges: seq<nat>, s: seq<nat>, e: nat)
    ensures Sum(charges, s + [e]) == Sum(charges, s) + ChargeOf(charges, e)
  {
  }

  lemma {:induction false} SumWithout(charges: seq<nat>, s: seq<nat>, k: nat)
    requires k < |s|
    ensures Sum(charges, Without(s, k)) == Sum(charges, s) - ChargeOf(charges, s[k])
  {
    var n := |s| - 1;
    if k < n {
      SumWithout(charges, s[..n], k);
      assert Without(s, k) == Without(s[..n], k) + [s[n]];
      SumSnoc(charges, Without(s[..n], k), s[n]);
    } else {
      assert Without(s, k) == s[..n];
    }
  }

  lemma {:induction false} SumGrow(charges: seq<nat>, c: nat, s: seq<nat>)
    requires forall n :: n in s ==> n < |charges|
    ensures Sum(charges + [c], s) == Sum(charges, s)
  {
    if s != [] {
      var front := s[..|s| - 1];
      assert s[|s| - 1] in s && forall n :: n in front ==> n in s;
      SumGrow(charges, c, front);
    }
  }

  // ---- the entries --------------------------------------------------------------------------------------------

  /** Everything the cache knows, as a value. */
  datatype State = State(charges: seq<nat>, inCache: seq<bool>, refs: seq<nat>, links: Links, usage: nat,
                         lru: seq<nat>, inUse: seq<nat>, handles: seq<nat>, deleted: seq<nat>)

  /** Entry h: its references are the handles out plus the cache's own; it is on the LRU list exactly when only the
      cache refers to it, on the in-use list exactly when clients do too; its deleter has run exactly when nobody refers
      to it. */
  ghost predicate EntryOk(s: State, contents: set<nat>, pending: int, h: nat)
    requires h < |s.refs| && h < |s.inCache| && h < |s.handles|
  {
    && s.refs[h] == s.handles[h] + (if s.inCache[h] then 1 else 0)
    && (s.inCache[h] <==> h in contents || h == pending)
    && (h in s.lru <==> s.inCache[h] && s.refs[h] == 1)
    && (h in s.inUse <==> s.inCache[h] && s.refs[h] >= 2)
    && (h in s.deleted <==> s.refs[h] == 0)
  }

  // ---- moving between lists --------------------------------------------------------------------------------------

  /** Node e can be unlinked, and something then appended at head. */
  predicate Movable(l: Links, e: nat, head: nat) {
    && e < |l.next| == |l.prev| && l.next[e] < |l.prev| && l.prev[e] < |l.next|
    && var m := Removed(l, e); head < |m.next| && m.prev[head] < |m.next|
  }

  /** The lists after entry e = lru[k] moved to the in-use list. */
  function Shelved(s: State, e: nat, k: nat): State
    requires k < |s.lru| && Movable(s.links, e, IN_USE)
  {
    s.(links := Appended(Removed(s.links, e), IN_USE, e), lru := Without(s.lru, k), inUse := s.inUse + [e])
  }

  /** ... and after e = inUse[k] moved back to the LRU list, as its newest. */
  function Unshelved(s: State, e: nat, k: nat): State
    requires k < |s.inUse| && Movable(s.links, e, LRU)
  {
    s.(links := Appended(Removed(s.links, e), LRU, e), inUse := Without(s.inUse, k), lru := s.lru + [e])
  }

  ghost predicate Listed(s: State) {
    && Shelves(s.links, s.lru, s.inUse) && s.usage == Sum(s.charges, s.lru) + Sum(s.charges, s.inUse)
    && |s.links.next| == |s.charges| && forall h :: h in s.lru || h in s.inUse ==> 2 <= h < |s.charges|
  }

  lemma ShelveKeeps(s: State, e: nat, k: nat)
    requires Listed(s) && k < |s.lru| && s.lru[k] == e
    ensures Movable(s.links, e, IN_USE)
    ensures Listed(Shelved(s, e, k))
    ensures forall h :: h in Without(s.lru, k) <==> h in s.lru && h != e
  {
    assert e in s.lru;
    TakeOut(s.links, LRU, s.lru, k, IN_USE, s.inUse);
    WithoutMembers(s.lru, k);
    PutIn(Removed(s.links, e), IN_USE, s.inUse, e, LRU, Without(s.lru, k));
    SumWithout(s.charges, s.lru, k);
    SumSnoc(s.charges, s.inUse, e);
  }

  lemma UnshelveKeeps(s: State, e: nat, k: nat)
    requires Listed(s) && k < |s.inUse| && s.inUse[k] == e
    ensures Movable(s.links, e, LRU)
    ensures Listed(Unshelved(s, e, k))
    ensures forall h :: h in Without(s.inUse, k) <==> h in s.inUse && h != e
  {
    assert e in s.inUse;
    TakeOut(s.links, IN_USE, s.inUse, k, LRU, s.lru);
    WithoutMembers(s.inUse, k);
    PutIn(Removed(s.links, e), LRU, s.lru, e, IN_USE, Without(s.inUse, k));
    SumWithout(s.charges, s.inUse, k);
    SumSnoc(s.charges, s.lru, e);
  }

  ghost predicate EntriesOk(s: State, contents: set<nat>, pending: int) {
    && |s.charges| == |s.inCache| == |s.refs| == |s.handles| && |s.charges| >= 2
    && Distinct(s.deleted) && (forall h :: h in s.deleted ==> 2 <= h < |s.charges|)
    && (forall h :: h in contents ==> 2 <= h < |s.charges|) && pending != LRU && pending != IN_USE &&
      pending < |s.charges|
    && forall h :: 2 <= h < |s.charges| ==> EntryOk(s, contents, pending, h)
  }

  ghost predicate StateOk(s: State, contents: set<nat>, pending: int) {
    Listed(s) && EntriesOk(s, contents, pending)
  }

  /** Entries other than e see no change. */
  lemma OthersOk(s: State, t: State, contents: set<nat>, contents': set<nat>, pending: int, pending': int, e: nat)
    requires EntriesOk(s, contents, pending)
    requires |t.charges| == |t.inCache| == |t.refs| == |t.handles| && |t.charges| >= |s.charges|
    requires forall h :: 2 <= h < |s.charges| && h != e ==>
      && t.refs[h] == s.refs[h] && t.handles[h] == s.handles[h] && t.inCache[h] == s.inCache[h]
      && (h in t.lru <==> h in s.lru) && (h in t.inUse <==> h in s.inUse) && (h in t.deleted <==> h in s.deleted)
      && (h in contents' || h == pending' <==> h in contents || h == pending)
    ensures forall h :: 2 <= h < |s.charges| && h != e ==> EntryOk(t, contents', pending', h)
  {
    forall h | 2 <= h < |s.charges| && h != e
      ensures EntryOk(t, contents', pending', h)
    {
      assert EntryOk(s, contents, pending, h);
    }
  }

  // ---- Ref and Unref ------------------------------------------------------------------------------------------

  function Counted(s: State, e: nat, refs: nat, handles: nat): State
    requires e < |s.refs| == |s.handles|
  {
    s.(refs := s.refs[e := refs], handles := s.handles[e := handles])
  }

  /** Ref: the first client reference moves the entry from the LRU list to the in-use list. */
  lemma RefKeeps(s: State, contents: set<nat>, e: nat, k: nat)
    requires StateOk(s, contents, NULL) && e in contents && (e in s.lru ==> k < |s.lru| && s.lru[k] == e)
    ensures e < |s.refs| == |s.inCache| == |s.handles| && s.inCache[e] && s.refs[e] >= 1 &&
      (s.refs[e] == 1 <==> e in s.lru)
    ensures e in s.lru ==>
      Movable(s.links, e, IN_USE) &&
      StateOk(Counted(Shelved(s, e, k), e, s.refs[e] + 1, s.handles[e] + 1), contents, NULL)
    ensures e !in s.lru ==> StateOk(Counted(s, e, s.refs[e] + 1, s.handles[e] + 1), contents, NULL)
  {
    hide Listed;
    assert EntryOk(s, contents, NULL, e);
    if e in s.lru {
      ShelveKeeps(s, e, k);
      var t := Counted(Shelved(s, e, k), e, s.refs[e] + 1, s.handles[e] + 1);
      SameLists(Shelved(s, e, k), t);
      OthersOk(s, t, contents, contents, NULL, NULL, e);
    } else {
      var t := Counted(s, e, s.refs[e] + 1, s.handles[e] + 1);
      SameLists(s, t);
      OthersOk(s, t, contents, contents, NULL, NULL, e);
    }
  }

  /** Unref by a client: the last reference of all runs the deleter; the last client reference to a cached entry makes
      it the newest of the LRU list. */
  lemma ReleaseKeeps(s: State, contents: set<nat>, e: nat, k: nat)
    requires StateOk(s, contents, NULL) && 2 <= e < |s.charges| && s.handles[e] > 0
    requires e in s.inUse ==> k < |s.inUse| && s.inUse[k] == e
    ensures s.refs[e] >= 1
    ensures var t := Counted(s, e, s.refs[e] - 1, s.handles[e] - 1);
      && (s.refs[e] == 1 ==>
        !s.inCache[e] && e !in s.deleted && StateOk(t.(deleted := s.deleted + [e]), contents, NULL))
      && (s.inCache[e] && s.refs[e] == 2 ==>
        e in s.inUse && Movable(s.links, e, LRU) && StateOk(Unshelved(t, e, k), contents, NULL))
      && (s.refs[e] > 1 && !(s.inCache[e] && s.refs[e] == 2) ==> StateOk(t, contents, NULL))
  {
    hide Listed;
    assert EntryOk(s, contents, NULL, e);
    var t := Counted(s, e, s.refs[e] - 1, s.handles[e] - 1);
    SameLists(s, t);
    if s.inCache[e] && s.refs[e] == 2 {
      UnshelveKeeps(t, e, k);
      OthersOk(s, Unshelved(t, e, k), contents, contents, NULL, NULL, e);
    } else if s.refs[e] == 1 {
      SameLists(s, t.(deleted := s.deleted + [e]));
      OthersOk(s, t.(deleted := s.deleted + [e]), contents, contents, NULL, NULL, e);
    } else {
      OthersOk(s, t, contents, contents, NULL, NULL, e);
    }
  }

  /** FinishErase: off its list, out of the cache, and the cache's reference dropped. */
  function Erased(s: State, e: nat, lru: seq<nat>, inUse: seq<nat>): State
    requires e < |s.charges| == |s.inCache| == |s.refs| && s.refs[e] >= 1 && s.usage >= s.charges[e]
    requires e < |s.links.next| == |s.links.prev| && s.links.next[e] < |s.links.prev| &&
      s.links.prev[e] < |s.links.next|
  {
    s.(links := Removed(s.links, e), lru := lru, inUse := inUse, inCache := s.inCache[e := false],
      usage := s.usage - s.charges[e],
       refs := s.refs[e := s.refs[e] - 1], deleted := if s.refs[e] == 1 then s.deleted + [e] else s.deleted)
  }

  lemma SumAtLeast(charges: seq<nat>, s: seq<nat>, k: nat)
    requires k < |s|
    ensures Sum(charges, s) >= ChargeOf(charges, s[k])
  {
  }

  lemma EraseListed(s: State, e: nat, k: nat, lru: seq<nat>, inUse: seq<nat>)
    requires Listed(s) && e < |s.charges|
    requires if e in s.lru then k < |s.lru| && s.lru[k] == e && lru == Without(s.lru, k) && inUse == s.inUse
             else k < |s.inUse| && s.inUse[k] == e && lru == s.lru && inUse == Without(s.inUse, k)
    ensures e < |s.links.next| == |s.links.prev| && s.links.next[e] < |s.links.prev| && s.links.prev[e] < |s.links.next|
    ensures s.usage >= s.charges[e]
    ensures Listed(s.(links := Removed(s.links, e), lru := lru, inUse := inUse, usage := s.usage - s.charges[e]))
    ensures (forall h :: h in lru <==> h in s.lru && h != e) && (forall h :: h in inUse <==> h in s.inUse && h != e)
  {
    if e in s.lru {
      TakeOut(s.links, LRU, s.lru, k, IN_USE, s.inUse);
      WithoutMembers(s.lru, k);
      SumWithout(s.charges, s.lru, k);
      SumAtLeast(s.charges, s.lru, k);
    } else {
      assert e in s.inUse;
      TakeOut(s.links, IN_USE, s.inUse, k, LRU, s.lru);
      WithoutMembers(s.inUse, k);
      SumWithout(s.charges, s.inUse, k);
      SumAtLeast(s.charges, s.inUse, k);
    }
  }

  lemma EraseKeeps(s: State, contents: set<nat>, e: nat, k: nat, lru: seq<nat>, inUse: seq<nat>)
    requires StateOk(s, contents, e) && e !in contents && 2 <= e
    requires if e in s.lru then k < |s.lru| && s.lru[k] == e && lru == Without(s.lru, k) && inUse == s.inUse
             else k < |s.inUse| && s.inUse[k] == e && lru == s.lru && inUse == Without(s.inUse, k)
    ensures e < |s.refs| == |s.inCache| == |s.charges| && s.inCache[e] && s.refs[e] >= 1 && s.usage >= s.charges[e]
    ensures e < |s.links.next| == |s.links.prev| && s.links.next[e] < |s.links.prev| && s.links.prev[e] < |s.links.next|
    ensures StateOk(Erased(s, e, lru, inUse), contents, NULL)
    ensures |s.handles| == |s.refs| && s.refs[e] == s.handles[e] + 1 && (s.refs[e] == 1 ==> e !in s.deleted)
  {
    hide Listed;
    assert EntryOk(s, contents, e, e);
    EraseListed(s, e, k, lru, inUse);
    var t := Erased(s, e, lru, inUse);
    SameLists(s.(links := Removed(s.links, e), lru := lru, inUse := inUse, usage := s.usage - s.charges[e]), t);
    OthersOk(s, t, contents, contents, e, NULL, e);
  }

  /** An entry dropped from the table is still on one of the lists. */
  lemma PendingIsListed(s: State, contents: set<nat>, e: nat)
    requires StateOk(s, contents, e) && e !in contents && 2 <= e
    ensures e in s.lru || e in s.inUse
  {
    assert EntryOk(s, contents, e, e);
  }

  // ---- a new entry -----------------------------------------------------------------------------------------------

  /** A fresh entry: one reference, the returned handle's. */
  function Grown(s: State, charge: nat): State {
    s.(charges := s.charges + [charge], inCache := s.inCache + [false], refs := s.refs + [1],
      handles := s.handles + [1],
       links := Links(s.links.next + [0], s.links.prev + [0]))
  }

  lemma GrowKeeps(s: State, contents: set<nat>, charge: nat)
    requires StateOk(s, contents, NULL)
    ensures StateOk(Grown(s, charge), contents, NULL)
  {
    var t := Grown(s, charge);
    SumGrow(s.charges, charge, s.lru);
    SumGrow(s.charges, charge, s.inUse);
    RingStays(s.links, t.links, LRU, s.lru);
    RingStays(s.links, t.links, IN_USE, s.inUse);
    OthersOk(s, t, contents, contents, NULL, NULL, |s.charges|);
  }

  /** The fresh entry joins the cache: a second reference, the in-use list, and its charge. */
  function Joined(s: State, e: nat): State
    requires e < |s.refs| && e < |s.inCache| && e < |s.charges| && e < |s.links.next| == |s.links.prev|
    requires IN_USE < |s.links.next| && s.links.prev[IN_USE] < |s.links.next|
  {
    s.(refs := s.refs[e := s.refs[e] + 1], inCache := s.inCache[e := true], links := Appended(s.links, IN_USE, e),
       inUse := s.inUse + [e], usage := s.usage + s.charges[e])
  }

  lemma JoinKeeps(s: State, contents: set<nat>, e: nat)
    requires StateOk(s, contents, NULL) && 2 <= e < |s.charges| && !s.inCache[e] && s.refs[e] == 1
    ensures e < |s.links.next| == |s.links.prev| && IN_USE < |s.links.next| && s.links.prev[IN_USE] < |s.links.next|
    ensures e !in contents && StateOk(Joined(s, e), contents + {e}, NULL)
  {
    assert EntryOk(s, contents, NULL, e);
    PutIn(s.links, IN_USE, s.inUse, e, LRU, s.lru);
    SumSnoc(s.charges, s.inUse, e);
    OthersOk(s, Joined(s, e), contents, contents + {e}, NULL, NULL, e);
  }

  /** An entry the table has dropped is pending until it is off its list. */
  lemma DropIsPending(s: State, contents: set<nat>, was: nat)
    requires StateOk(s, contents, NULL) && was in contents
    ensures StateOk(s, contents - {was}, was)
  {
    hide Listed;
    assert EntryOk(s, contents, NULL, was);
    OthersOk(s, s, contents, contents - {was}, NULL, was, was);
  }

  lemma SameLists(s: State, t: State)
    requires Listed(s) && t.links == s.links && t.lru == s.lru && t.inUse == s.inUse && t.usage == s.usage &&
      t.charges == s.charges
    ensures Listed(t)
  {
  }

  // ---- the cache --------------------------------------------------------------------------------------------------

  class LRUCache {
    const table: HandleTable.Table
    const capacity: nat
    var usage: nat
    var values: seq<int>
    var charges: seq<nat>
    var inCache: seq<bool>
    var refs: seq<nat>
    var links: Links
    /** The lists, oldest first; how many handles clients hold on each entry; the deleters run, in order. */
    ghost var lru: seq<nat>
    ghost var inUse: seq<nat>
    ghost var handles: seq<nat>
    ghost var deleted: seq<nat>

    ghost function S(): State
      reads this
    {
      State(charges, inCache, refs, links, usage, lru, inUse, handles, deleted)
    }

    ghost predicate Valid()
      reads this, table
    {
      table.Valid() && |table.keys| == |charges| == |values| && StateOk(S(), table.contents, NULL)
    }

    constructor (capacity: nat)
      ensures Valid() && table.contents == {} && deleted == [] && this.capacity == capacity && fresh(table)
    {
      this.capacity := capacity;
      var t := new HandleTable.Table();
      var a := t.NewHandle([], 0);
      var b := t.NewHandle([], 0);
      table := t;
      usage, values, charges, inCache, refs := 0, [0, 0], [0, 0], [false, false], [0, 0];
      links := Links([LRU, IN_USE], [LRU, IN_USE]);
      lru, inUse, handles, deleted := [], [], [0, 0], [];
    }

    /** LRU_Remove, then LRU_Append on the other list. */
    method MoveTo(head: nat, e: nat)
      requires Movable(links, e, head)
      modifies `links
      ensures links == Appended(Removed(old(links), e), head, e)
    {
      links := Removed(links, e);
      links := Appended(links, head, e);
    }

    method Ref(e: nat)
      requires Valid() && e in table.contents
      modifies this
      ensures Valid() && handles == old(handles)[e := old(handles)[e] + 1] && deleted == old(deleted) &&
        usage == old(usage)
      ensures charges == old(charges) && values == old(values) && e !in lru && (forall h :: h in lru ==> h in old(lru))
    {
      hide Listed;
      hide Movable;
      hide Appended;
      hide Removed;
      ghost var k := if e in lru then PlaceIn(lru, e) else 0;
      RefKeeps(S(), table.contents, e, k);
      if refs[e] == 1 && inCache[e] {
        ShelveKeeps(S(), e, k);
        MoveTo(IN_USE, e);
        lru, inUse := Without(lru, k), inUse + [e];
      }
      refs := refs[e := refs[e] + 1];
      handles := handles[e := handles[e] + 1];
      assert EntryOk(S(), table.contents, NULL, e);
    }

    static ghost function PlaceIn(s: seq<nat>, e: nat): (k: nat)
      requires e in s
      ensures k < |s| && s[k] == e
    {
      var k :| 0 <= k < |s| && s[k] == e; k
    }

    /** A client gives a handle back. */
    method Release(e: nat)
      requires Valid() && 2 <= e < |handles| && handles[e] > 0
      modifies this
      ensures Valid() && handles == old(handles)[e := old(handles)[e] - 1] && charges == old(charges) &&
        usage == old(usage)
      ensures e in table.contents || handles[e] > 0 ==> deleted == old(deleted)
      ensures e !in table.contents && handles[e] == 0 ==> deleted == old(deleted) + [e] && e !in old(deleted)
    {
      hide Listed;
      hide Movable;
      hide Appended;
      hide Removed;
      ghost var k := if e in inUse then PlaceIn(inUse, e) else 0;
      assert EntryOk(S(), table.contents, NULL, e);
      ReleaseKeeps(S(), table.contents, e, k);
      refs := refs[e := refs[e] - 1];
      handles := handles[e := handles[e] - 1];
      if refs[e] == 0 {
        deleted := deleted + [e];
      } else if inCache[e] && refs[e] == 1 {
        MoveTo(LRU, e);
        lru, inUse := lru + [e], Without(inUse, k);
      }
    }

    /** Finish removing an entry the table has dropped. */
    method FinishErase(e: nat)
      requires table.Valid() && |table.keys| == |charges| == |values| && StateOk(S(), table.contents, e) && 2 <= e &&
        e !in table.contents
      modifies this
      ensures Valid() && handles == old(handles) && charges == old(charges) && values == old(values)
      ensures e < |charges| && usage == old(usage) - charges[e]
      ensures if old(handles)[e] == 0 then deleted == old(deleted) + [e] && e !in old(deleted)
        else deleted == old(deleted)
      ensures if e in old(lru) then exists k :: 0 <= k < |old(lru)| && old(lru)[k] == e && lru == Without(old(lru), k)
        else lru == old(lru)
    {
      hide StateOk;
      hide Removed;
      hide Without;
      PendingIsListed(S(), table.contents, e);
      ghost var k := if e in lru then PlaceIn(lru, e) else PlaceIn(inUse, e);
      ghost var lru1 := if e in lru then Without(lru, k) else lru;
      ghost var use1 := if e in lru then inUse else Without(inUse, k);
      EraseKeeps(S(), table.contents, e, k, lru1, use1);
      ghost var after := Erased(S(), e, lru1, use1);
      links := Removed(links, e);
      inCache := inCache[e := false];
      usage := usage - charges[e];
      refs := refs[e := refs[e] - 1];
      if refs[e] == 0 {
        deleted := deleted + [e];
      }
      lru, inUse := lru1, use1;
      assert S() == after;
    }

    /** The handle of a cached key, with one more reference. */
    method Lookup(key: Bytes, hash: nat) returns (h: int)
      requires Valid()
      modifies this
      ensures Valid() && deleted == old(deleted) && usage == old(usage)
      ensures h == NULL ==> S() == old(S()) && forall g :: g in table.contents ==> !table.Same(g, key, hash)
      ensures h != NULL ==> 2 <= h < |handles| && h in table.contents && table.Same(h, key, hash)
      ensures h != NULL ==> handles == old(handles)[h := old(handles)[h] + 1]
    {
      h := table.Lookup(key, hash);
      if h != NULL {
        ghost var t := table.contents;
        InTable(h);
        Ref(h);
      }
    }

    lemma InTable(h: nat)
      requires Valid() && h in table.contents
      ensures 2 <= h < |handles| == |charges|
    {
    }

    /** Drop a key from the cache; entries with handles out live on until those are released. */
    method Erase(key: Bytes, hash: nat)
      requires Valid()
      modifies this, table
      ensures Valid() && handles == old(handles) && charges == old(charges) && table.keys == old(table.keys) &&
        table.hashes == old(table.hashes)
      ensures forall g :: g in table.contents <==> g in old(table.contents) && !table.Same(g, key, hash)
    {
      var was := table.Remove(key, hash);
      if was != NULL {
        DropIsPending(S(), old(table.contents), was);
        FinishErase(was);
      }
    }

    /** The oldest entry nobody holds a handle on leaves the cache, and its deleter runs. */
    method EvictOldest()
      requires Valid() && lru != []
      modifies this, table
      ensures Valid() && lru == old(lru)[1..] && table.contents == old(table.contents) - {old(lru)[0]}
      ensures old(lru)[0] < |old(handles)| == |charges| && old(handles)[old(lru)[0]] == 0 &&
        old(lru)[0] !in old(deleted) && deleted == old(deleted) + [old(lru)[0]]
      ensures handles == old(handles) && charges == old(charges) && values == old(values) &&
        usage == old(usage) - charges[old(lru)[0]]
      ensures table.keys == old(table.keys) && table.hashes == old(table.hashes)
    {
      OldestIs();
      var e := links.next[LRU];
      var was := table.Remove(table.keys[e], table.hashes[e]);
      SameHandle(old(table.contents), was, e);
      DropIsPending(S(), old(table.contents), e);
      FinishErase(e);
      FirstOnly(old(lru), lru, e);
    }

    /** lru_.next == &lru_. */
    method NothingEvictable() returns (empty: bool)
      requires Valid()
      ensures empty <==> lru == []
    {
      RingBounds(links, LRU, lru);
      empty := links.next[LRU] == LRU;
    }

    lemma OldestIs()
      requires Valid() && lru != []
      ensures |links.next| > 0 && links.next[LRU] == lru[0] && lru[0] in table.contents &&
        lru[0] < |table.keys| == |table.hashes|
      ensures lru[0] < |handles| && handles[lru[0]] == 0 && 2 <= lru[0] < |charges| && Rings.Distinct(lru)
    {
      RingBounds(links, LRU, lru);
      assert lru[0] in lru && EntryOk(S(), table.contents, NULL, lru[0]);
    }

    lemma SameHandle(contents: set<nat>, was: int, e: nat)
      requires table.Valid() && e in contents && e < |table.keys| == |table.hashes|
      requires was == NULL ==> table.contents == contents && forall g :: g in table.contents ==>
        !table.Same(g, table.keys[e], table.hashes[e])
      requires was != NULL ==>
        was >= 0 && was in contents && was < |table.keys| && table.Same(was, table.keys[e], table.hashes[e])
      requires HandleTable.Unique(table.keys, table.hashes, contents)
      ensures was == e
    {
    }

    /** A new entry replaces one with the same key; then the oldest entries nobody holds go, one by one, until the
        charges fit. shelf is the LRU list in between, n how many went. */
    method Insert(key: Bytes, hash: nat, value: int, charge: nat) returns (h: nat, ghost shelf: seq<nat>, ghost n: nat)
      requires Valid()
      modifies this, table
      ensures Valid() && h == |old(charges)| && handles == old(handles) + [1] && charges == old(charges) + [charge] &&
        values == old(values) + [value]
      ensures h in table.contents <==> capacity > 0
      ensures h < |table.keys| == |table.hashes| && table.Same(h, key, hash)
      ensures usage <= capacity || lru == []
      ensures shelf == old(lru) || SameDropped(old(lru), shelf, key, hash)
      ensures n <= |shelf| && lru == shelf[n..] && (n > 0 ==>
        shelf[n - 1] < |charges| && usage + charges[shelf[n - 1]] > capacity)
      ensures forall g :: g in old(table.contents) && g !in table.contents ==>
        g < |handles| && ((capacity > 0 && table.Same(g, key, hash)) || handles[g] == 0)
      ensures forall g :: g in table.contents ==> g == h || g in old(table.contents)
    {
      hide StateOk;
      h := NewEntry(key, hash, value, charge);
      if capacity > 0 {
        AddToCache(h);
      }
      shelf := lru;
      n := EvictToFit();
    }

    static lemma OneGone(s: seq<nat>, n: nat)
      requires n < |s|
      ensures s[n..][0] == s[n] && s[n..][1..] == s[n + 1..] && s[..n + 1] == s[..n] + [s[n]]
    {
    }

    /** The list without the one entry on it that has the key, if it was there. */
    ghost predicate SameDropped(before: seq<nat>, after: seq<nat>, key: Bytes, hash: nat)
      reads this, table
    {
      exists k: nat :: k < |before| && before[k] < |table.keys| == |table.hashes| &&
        table.Same(before[k], key, hash) && after == Without(before, k)
    }

    /** The loop of Insert: the oldest goes while the charges do not fit and there is one to go. */
    method EvictToFit() returns (ghost n: nat)
      requires Valid()
      modifies this, table
      ensures Valid() && handles == old(handles) && charges == old(charges) && values == old(values)
      ensures table.keys == old(table.keys) && table.hashes == old(table.hashes)
      ensures usage <= capacity || lru == []
      ensures n <= |old(lru)| && lru == old(lru)[n..] &&
        (n > 0 ==> old(lru)[n - 1] < |charges| && usage + charges[old(lru)[n - 1]] > capacity)
      ensures deleted == old(deleted) + old(lru)[..n]
      ensures forall g :: g in table.contents <==> g in old(table.contents) && g !in old(lru)[..n]
      ensures forall g :: g in old(lru)[..n] ==> g < |handles| && handles[g] == 0
    {
      hide StateOk;
      n := 0;
      var empty := NothingEvictable();
      while usage > capacity && !empty
        invariant Valid() && handles == old(handles) && charges == old(charges) && values == old(values)
        invariant table.keys == old(table.keys) && table.hashes == old(table.hashes)
        invariant empty <==> lru == []
        invariant n <= |old(lru)| && lru == old(lru)[n..] && deleted == old(deleted) + old(lru)[..n]
        invariant n > 0 ==> old(lru)[n - 1] < |charges| && usage + charges[old(lru)[n - 1]] > capacity
        invariant forall g :: g in table.contents <==> g in old(table.contents) && g !in old(lru)[..n]
        invariant forall g :: g in old(lru)[..n] ==> g < |handles| && handles[g] == 0
        decreases |lru|
      {
        OneGone(old(lru), n);
        EvictOldest();
        n := n + 1;
        empty := NothingEvictable();
      }
    }

    /** Allocate the entry with the reference the caller will hold. */
    method NewEntry(key: Bytes, hash: nat, value: int, charge: nat) returns (h: nat)
      requires Valid()
      modifies this, table
      ensures Valid() && h == |old(charges)| && handles == old(handles) + [1] && charges == old(charges) + [charge] &&
        values == old(values) + [value]
      ensures table.keys == old(table.keys) + [key] && table.hashes == old(table.hashes) + [hash] &&
        table.contents == old(table.contents)
      ensures 2 <= h < |inCache| == |refs| == |charges| == |handles| && !inCache[h] && refs[h] == 1 &&
        h !in table.contents
      ensures deleted == old(deleted) && lru == old(lru)
    {
      GrowKeeps(S(), table.contents, charge);
      h := table.NewHandle(key, hash);
      values, charges, inCache, refs := values + [value], charges + [charge], inCache + [false], refs + [1];
      handles := handles + [1];
      links := Links(links.next + [0], links.prev + [0]);
      assert EntryOk(S(), table.contents, NULL, h);
    }

    /** A second reference, the in-use list, the hash table; whatever it replaces there is erased. */
    method AddToCache(h: nat)
      requires Valid() && 2 <= h < |inCache| == |refs| == |charges| == |table.keys| == |table.hashes| &&
        !inCache[h] && refs[h] == 1 && h !in table.contents
      modifies this, table
      ensures Valid() && handles == old(handles) && charges == old(charges) && values == old(values)
      ensures table.keys == old(table.keys) && table.hashes == old(table.hashes)
      ensures forall g :: g in table.contents <==>
        g == h || (g in old(table.contents) && !table.Same(g, table.keys[h], table.hashes[h]))
      ensures lru == old(lru) || SameDropped(old(lru), lru, table.keys[h], table.hashes[h])
    {
      hide Listed;
      hide Appended;
      JoinKeeps(S(), table.contents, h);
      refs := refs[h := refs[h] + 1];
      inCache := inCache[h := true];
      links := Appended(links, IN_USE, h);
      inUse := inUse + [h];
      usage := usage + charges[h];
      ghost var before := table.contents;
      var was := table.Insert(h);
      if was != NULL {
        DropIsPending(S(), before + {h}, was);
        assert before + {h} - {was as nat} == before - {was as nat} + {h};
        FinishErase(was);
      }
    }

    /** Leave nothing that nobody holds. */
    method Prune()
      requires Valid()
      modifies this, table
      ensures Valid() && lru == [] && handles == old(handles)
      ensures forall g :: g in table.contents <==> g in old(table.contents) && handles[g] > 0
    {
      var empty := NothingEvictable();
      while !empty
        invariant Valid() && handles == old(handles) && (empty <==> lru == [])
        invariant forall g :: g in table.contents ==> g in old(table.contents)
        invariant forall g :: g in old(table.contents) && handles[g] > 0 ==> g in table.contents
        decreases |lru|
      {
        EvictOldest();
        empty := NothingEvictable();
      }
      HeldOnly();
    }

    lemma HeldOnly()
      requires Valid() && lru == []
      ensures forall g :: g in table.contents ==> g < |handles| && handles[g] > 0
    {
      forall g | g in table.contents
        ensures g < |handles| && handles[g] > 0
      {
        assert EntryOk(S(), table.contents, NULL, g);
      }
    }
  }

  lemma FirstOnly(before: seq<nat>, after: seq<nat>, e: nat)
    requires before != [] && before[0] == e && Distinct(before)
    requires exists k :: 0 <= k < |before| && before[k] == e && after == Without(before, k)
    ensures after == before[1..]
  {
  }
}
