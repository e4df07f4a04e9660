/** The skip list: nodes in an arena, linked level by level; searches that run between the stores of an insertion. */
module SkipList {
  import opened Keys
  import opened Format
  import opened Levels
  import opened Store

  const MAX_HEIGHT := 12
  const HEAD := 0
  const NULL := -1

  /** Nodes are numbered in allocation order, the head first; next[n][l] is node n's link at level l. */
  datatype Arena = Arena(items: seq<Entry>, next: seq<seq<int>>, maxHeight: nat)

  // ---- the shape ----------------------------------------------------------------------------------

  /** list is what level l links together, the head first. */
  ghost predicate Linked(a: Arena, l: nat, list: seq<nat>) {
    && list != [] && list[0] == HEAD
    && (forall i :: 0 <= i < |list| ==> list[i] < |a.items| && list[i] < |a.next| && l < |a.next[list[i]]|)
    && (forall i :: 0 <= i < |list| ==> a.next[list[i]][l] == After(list, i))
    && (forall i :: 1 <= i < |list| ==> list[i] != HEAD)
  }

  function After(list: seq<nat>, i: nat): int
    requires i < |list|
  {
    if i + 1 < |list| then list[i + 1] else NULL
  }

  ghost predicate Ascending(a: Arena, list: seq<nat>)
    requires forall i :: 0 <= i < |list| ==> list[i] < |a.items|
  {
    forall i, j :: 1 <= i < j < |list| ==> ILess(a.items[list[i]].ik, a.items[list[j]].ik)
  }

  ghost predicate LevelGood(a: Arena, l: nat, list: seq<nat>) {
    Linked(a, l, list) && Ascending(a, list)
  }

  /** Every node of the level above is on level l. */
  ghost predicate Within(lists: seq<seq<nat>>, l: nat)
    requires l + 1 < |lists|
  {
    forall n :: n in lists[l + 1] ==> n in lists[l]
  }

  /** Every level is a sorted list, and every node of a level is in the level below. */
  ghost predicate Inv(a: Arena, lists: seq<seq<nat>>) {
    && |a.items| == |a.next| && |lists| == MAX_HEIGHT && 1 <= a.maxHeight <= MAX_HEIGHT
    && (forall l :: 0 <= l < MAX_HEIGHT ==> LevelGood(a, l, lists[l]))
    && (forall l :: 0 <= l < MAX_HEIGHT - 1 ==> Within(lists, l))
    && (forall l :: a.maxHeight <= l < MAX_HEIGHT ==> lists[l] == [HEAD])
  }

  /** The entries in the list, in order. */
  ghost function InOrder(a: Arena, lists: seq<seq<nat>>): (r: seq<Entry>)
    requires Inv(a, lists)
    ensures |r| == |lists[0]| - 1
    ensures Sorted(r)
  {
    assert LevelGood(a, 0, lists[0]);
    seq(|lists[0]| - 1, i requires 0 <= i < |lists[0]| - 1 => a.items[lists[0][i + 1]])
  }

  // ---- the stores of an insertion --------------------------------------------------------------------

  function WithNode(a: Arena, e: Entry, height: nat): Arena {
    Arena(a.items + [e], a.next + [seq(height, _ => NULL)], a.maxHeight)
  }

  function WithLink(a: Arena, n: nat, l: nat, v: int): Arena
    requires n < |a.next| && l < |a.next[n]|
  {
    a.(next := a.next[n := a.next[n][l := v]])
  }

  lemma NewNodeKeeps(a: Arena, lists: seq<seq<nat>>, e: Entry, height: nat)
    requires Inv(a, lists)
    ensures Inv(WithNode(a, e, height), lists)
  {
    var b := WithNode(a, e, height);
    forall l | 0 <= l < MAX_HEIGHT
      ensures LevelGood(b, l, lists[l])
    {
      assert LevelGood(a, l, lists[l]);
    }
  }

  lemma RaiseKeeps(a: Arena, lists: seq<seq<nat>>, height: nat)
    requires Inv(a, lists) && a.maxHeight <= height <= MAX_HEIGHT
    ensures Inv(a.(maxHeight := height), lists)
  {
    forall l | 0 <= l < MAX_HEIGHT
      ensures LevelGood(a.(maxHeight := height), l, lists[l])
    {
      assert LevelGood(a, l, lists[l]);
    }
  }

  /** Setting a link of a node not yet on that level changes no list. */
  lemma PrivateKeeps(a: Arena, lists: seq<seq<nat>>, x: nat, l: nat, v: int)
    requires Inv(a, lists) && x < |a.next| && l < |a.next[x]| && l < MAX_HEIGHT && x !in lists[l]
    ensures Inv(WithLink(a, x, l, v), lists)
  {
    var b := WithLink(a, x, l, v);
    forall m | 0 <= m < MAX_HEIGHT
      ensures LevelGood(b, m, lists[m])
    {
      assert LevelGood(a, m, lists[m]);
      forall i | 0 <= i < |lists[m]|
        ensures b.next[lists[m][i]][m] == After(lists[m], i)
      {
        assert a.next[lists[m][i]][m] == After(lists[m], i);
        assert lists[m][i] in lists[m];
      }
    }
  }

  /** p is the last place on the list before key. */
  ghost predicate IsCut(a: Arena, list: seq<nat>, key: IKey, p: int) {
    && 0 <= p < |list| && (forall i :: 0 <= i < |list| ==> list[i] < |a.items|)
    && (forall i :: 1 <= i <= p ==> ILess(a.items[list[i]].ik, key))
    && (forall i :: p < i < |list| ==> ILess(key, a.items[list[i]].ik))
  }

  function Spliced(list: seq<nat>, p: nat, x: nat): seq<nat>
    requires p < |list|
  {
    list[..p + 1] + [x] + list[p + 1..]
  }

  /** Publishing x at level l: one store splices it into that level's list and touches no other. */
  lemma PublishLevel(a: Arena, l: nat, list: seq<nat>, p: nat, x: nat)
    requires LevelGood(a, l, list) && x < |a.items| == |a.next| && l < |a.next[x]| && x != HEAD && x !in list
    requires IsCut(a, list, a.items[x].ik, p) && a.next[x][l] == a.next[list[p]][l]
    ensures LevelGood(WithLink(a, list[p], l, x), l, Spliced(list, p, x))
  {
    var b := WithLink(a, list[p], l, x);
    var more := Spliced(list, p, x);
    forall i | 0 <= i < |more|
      ensures more[i] < |b.items| && l < |b.next[more[i]]| && b.next[more[i]][l] == After(more, i)
    {
      Unrepeated(a, l, list, p);
      if i <= p {
        assert more[i] == list[i];
      } else if i > p + 1 {
        assert more[i] == list[i - 1];
      }
    }
    SplicedAscending(a, list, p, x);
  }

  lemma SplicedAscending(a: Arena, list: seq<nat>, p: nat, x: nat)
    requires (forall i :: 0 <= i < |list| ==> list[i] < |a.items|) && x < |a.items| && Ascending(a, list)
    requires IsCut(a, list, a.items[x].ik, p)
    ensures Ascending(a, Spliced(list, p, x))
  {
    var more := Spliced(list, p, x);
    forall i, j | 1 <= i < j < |more|
      ensures ILess(a.items[more[i]].ik, a.items[more[j]].ik)
    {
      assert more[i] == if i <= p then list[i] else if i == p + 1 then x else list[i - 1];
      assert more[j] == if j <= p then list[j] else if j == p + 1 then x else list[j - 1];
    }
  }

  /** A sorted list has no node twice. */
  lemma Unrepeated(a: Arena, l: nat, list: seq<nat>, p: nat)
    requires LevelGood(a, l, list) && p < |list|
    ensures forall i :: 0 <= i < |list| && i != p ==> list[i] != list[p]
  {
    forall i | 0 <= i < |list| && i != p
      ensures list[i] != list[p]
    {
      if i > 0 && p > 0 {
        var lo, hi := if i < p then i else p, if i < p then p else i;
        assert ILess(a.items[list[lo]].ik, a.items[list[hi]].ik);
      }
    }
  }

  lemma PublishKeeps(a: Arena, lists: seq<seq<nat>>, l: nat, p: nat, x: nat)
    requires Inv(a, lists) && l < a.maxHeight && x < |a.items| && l < |a.next[x]| && x != HEAD && x !in lists[l]
    requires IsCut(a, lists[l], a.items[x].ik, p) && l < |a.next[lists[l][p]]| && a.next[x][l] == a.next[lists[l][p]][l]
    requires l > 0 ==> x in lists[l - 1]
    ensures Inv(WithLink(a, lists[l][p], l, x), lists[l := Spliced(lists[l], p, x)])
  {
    hide LevelGood;
    hide Within;
    var b := WithLink(a, lists[l][p], l, x);
    var after := lists[l := Spliced(lists[l], p, x)];
    forall m | 0 <= m < MAX_HEIGHT
      ensures LevelGood(b, m, after[m])
    {
      if m == l {
        PublishLevel(a, l, lists[l], p, x);
      } else {
        OtherLevel(a, m, lists[m], lists[l][p], l, x);
      }
    }
    forall m | 0 <= m < MAX_HEIGHT - 1
      ensures Within(after, m)
    {
      SplicedWithin(lists, l, p, x, m);
    }
  }

  lemma SplicedWithin(lists: seq<seq<nat>>, l: nat, p: nat, x: nat, m: nat)
    requires l < |lists| && p < |lists[l]| && m + 1 < |lists| && Within(lists, m) && (l > 0 ==> x in lists[l - 1])
    ensures Within(lists[l := Spliced(lists[l], p, x)], m)
  {
    SplicedMembers(lists[l], p, x);
  }

  lemma OtherLevel(a: Arena, m: nat, list: seq<nat>, n: nat, l: nat, v: int)
    requires LevelGood(a, m, list) && n < |a.next| && l < |a.next[n]| && m != l
    ensures LevelGood(WithLink(a, n, l, v), m, list)
  {
  }

  lemma SplicedMembers(list: seq<nat>, p: nat, x: nat)
    requires p < |list|
    ensures forall n :: n in Spliced(list, p, x) <==> n in list || n == x
  {
    assert list == list[..p + 1] + list[p + 1..];
  }

  // ---- searching while links change ------------------------------------------------------------------

  /** A reader stands at node x of level level. */
  datatype Reader = Reader(x: nat, level: nat)

  datatype Outcome = Go(r: Reader) | Done(node: int)

  /** One turn of FindGreaterOrEqual's loop: one link is read. */
  function Turn(a: Arena, r: Reader, key: IKey): Outcome
    requires r.x < |a.next| && r.level < |a.next[r.x]|
    requires a.next[r.x][r.level] == NULL || 0 <= a.next[r.x][r.level] < |a.items|
  {
    var next := a.next[r.x][r.level];
    if next != NULL && ILess(a.items[next].ik, key) then Go(Reader(next, r.level))
    else if r.level == 0 then Done(next)
    else Go(Reader(r.x, r.level - 1))
  }

  /** The reader is on its level's list, before the key it looks for. */
  ghost predicate At(a: Arena, lists: seq<seq<nat>>, r: Reader, key: IKey)
    requires Inv(a, lists)
  {
    && r.level < MAX_HEIGHT && r.x in lists[r.level] && r.x < |a.items|
    && (r.x == HEAD || ILess(a.items[r.x].ik, key))
  }

  /** node is the first of the list at or after key, or there is none. */
  ghost predicate Answers(a: Arena, lists: seq<seq<nat>>, key: IKey, node: int)
    requires Inv(a, lists)
  {
    var g := LowerBound(InOrder(a, lists), key, 0);
    if g < |InOrder(a, lists)| then node == lists[0][g + 1] else node == NULL
  }

  lemma Reads(a: Arena, lists: seq<seq<nat>>, r: Reader, key: IKey) returns (p: nat)
    requires Inv(a, lists) && At(a, lists, r, key)
    ensures r.x < |a.next| && r.level < |a.next[r.x]|
    ensures p < |lists[r.level]| && lists[r.level][p] == r.x && a.next[r.x][r.level] == After(lists[r.level], p)
    ensures a.next[r.x][r.level] == NULL || 0 <= a.next[r.x][r.level] < |a.items|
  {
    var list := lists[r.level];
    assert LevelGood(a, r.level, list);
    p :| 0 <= p < |list| && list[p] == r.x;
    assert p + 1 < |list| ==> list[p + 1] < |a.items|;
  }

  /** Each turn leaves the reader before the key, or answers for the list as it stands at that read. */
  lemma TurnKeeps(a: Arena, lists: seq<seq<nat>>, r: Reader, key: IKey)
    requires Inv(a, lists) && At(a, lists, r, key)
    ensures r.x < |a.next| && r.level < |a.next[r.x]|
    ensures a.next[r.x][r.level] == NULL || 0 <= a.next[r.x][r.level] < |a.items|
    ensures match Turn(a, r, key)
      case Go(q) => At(a, lists, q, key)
      case Done(node) => Answers(a, lists, key, node)
  {
    hide LevelGood;
    var p := Reads(a, lists, r, key);
    if Turn(a, r, key).Go? {
      assert r.level > 0 ==> Within(lists, r.level - 1);
      assert After(lists[r.level], p) != NULL ==> After(lists[r.level], p) in lists[r.level];
    } else {
      CutIsLowerBound(a, lists, key, p);
    }
  }

  /** At the bottom: everything up to p is before key and the next node is not, so it is the first that is not. */
  lemma CutIsLowerBound(a: Arena, lists: seq<seq<nat>>, key: IKey, p: nat)
    requires Inv(a, lists) && p < |lists[0]| && lists[0][p] < |a.items|
    requires lists[0][p] == HEAD || ILess(a.items[lists[0][p]].ik, key)
    requires p + 1 < |lists[0]| ==> lists[0][p + 1] < |a.items| && !ILess(a.items[lists[0][p + 1]].ik, key)
    ensures LowerBound(InOrder(a, lists), key, 0) == p
  {
    var list := lists[0];
    assert LevelGood(a, 0, list);
    var es := InOrder(a, lists);
    forall j | 0 <= j < p
      ensures ILess(es[j].ik, key)
    {
      assert j + 1 < p ==> ILess(a.items[list[j + 1]].ik, a.items[list[p]].ik);
    }
    BoundIs(es, key, 0, p);
  }

  lemma {:induction false} BoundIs(es: seq<Entry>, key: IKey, i: nat, g: nat)
    requires i <= g <= |es|
    requires forall j :: i <= j < g ==> ILess(es[j].ik, key)
    requires g < |es| ==> !ILess(es[g].ik, key)
    ensures LowerBound(es, key, i) == g
    decreases g - i
  {
    if i < g {
      BoundIs(es, key, i + 1, g);
    }
  }

  /** b came from a by stores of insertions: no node leaves a level, and no key changes. */
  ghost predicate Grows(a: Arena, before: seq<seq<nat>>, b: Arena, after: seq<seq<nat>>) {
    && |before| == |after| && |a.items| <= |b.items|
    && (forall n :: 0 <= n < |a.items| ==> b.items[n] == a.items[n])
    && (forall l, n :: 0 <= l < |before| && n in before[l] ==> n in after[l])
  }

  datatype Moment = Moment(arena: Arena, lists: seq<seq<nat>>)

  /** The list as a sequence of moments, one per read, with any number of stores in between. */
  ghost predicate History(ms: seq<Moment>) {
    && (forall t :: 0 <= t < |ms| ==> Inv(ms[t].arena, ms[t].lists))
    && (forall t :: 0 < t < |ms| ==> Grows(ms[t - 1].arena, ms[t - 1].lists, ms[t].arena, ms[t].lists))
  }

  /** The search from r, reading its t-th link at moment t: the moment it ended at and its result, if it ended. */
  ghost function Search(ms: seq<Moment>, t: nat, r: Reader, key: IKey): Option<(nat, int)>
    requires History(ms) && (t < |ms| ==> At(ms[t].arena, ms[t].lists, r, key))
    decreases |ms| - t
  {
    if t >= |ms| then None else
      TurnKeeps(ms[t].arena, ms[t].lists, r, key);
      match Turn(ms[t].arena, r, key)
      case Done(node) => Some((t, node))
      case Go(q) =>
        if t + 1 < |ms| then
          Stays(ms, t, q, key);
          Search(ms, t + 1, q, key)
        else None
  }

  lemma Stays(ms: seq<Moment>, t: nat, r: Reader, key: IKey)
    requires History(ms) && t + 1 < |ms| && At(ms[t].arena, ms[t].lists, r, key)
    ensures At(ms[t + 1].arena, ms[t + 1].lists, r, key)
  {
    hide LevelGood;
    assert Grows(ms[t].arena, ms[t].lists, ms[t + 1].arena, ms[t + 1].lists);
  }

  /** However stores and reads interleave, a search that ends answers exactly for the list at its last read. */
  lemma {:induction false} SearchLinearizes(ms: seq<Moment>, t: nat, r: Reader, key: IKey)
    requires History(ms) && (t < |ms| ==> At(ms[t].arena, ms[t].lists, r, key))
    ensures Search(ms, t, r, key).Some? ==>
      var (u, node) := Search(ms, t, r, key).value; t <= u < |ms| && Answers(ms[u].arena, ms[u].lists, key, node)
    decreases |ms| - t
  {
    if t < |ms| {
      TurnKeeps(ms[t].arena, ms[t].lists, r, key);
      if Turn(ms[t].arena, r, key).Go? && t + 1 < |ms| {
        Stays(ms, t, Turn(ms[t].arena, r, key).r, key);
        SearchLinearizes(ms, t + 1, Turn(ms[t].arena, r, key).r, key);
      }
    }
  }

  /** A search may start at the head from any height it has seen. */
  lemma SearchStarts(a: Arena, lists: seq<seq<nat>>, key: IKey, level: nat)
    requires Inv(a, lists) && level < MAX_HEIGHT
    ensures At(a, lists, Reader(HEAD, level), key)
  {
    assert LevelGood(a, level, lists[level]);
    assert lists[level][0] == HEAD;
  }

  /** Each store of an insertion grows the list: allocation, raising the height, a private link, a publication. */
  lemma StoresGrow(a: Arena, lists: seq<seq<nat>>, e: Entry, height: nat, n: nat, l: nat, v: int, p: nat, x: nat)
    requires Inv(a, lists)
    ensures Grows(a, lists, WithNode(a, e, height), lists) && Grows(a, lists, a.(maxHeight := height), lists)
    ensures n < |a.next| && l < |a.next[n]| ==> Grows(a, lists, WithLink(a, n, l, v), lists)
    ensures n < |a.next| && l < |a.next[n]| && l < |lists| && p < |lists[l]| ==>
      Grows(a, lists, WithLink(a, n, l, v), lists[l := Spliced(lists[l], p, x)])
  {
    hide Inv;
    if l < |lists| && p < |lists[l]| {
      SplicedMembers(lists[l], p, x);
    }
  }

  // ---- the list as the code runs it ---------------------------------------------------------------------

  class List {
    var items: seq<Entry>
    var next: seq<seq<int>>
    var maxHeight: nat
    /** The node lists of all levels. */
    ghost var lists: seq<seq<nat>>

    ghost function A(): Arena
      reads this
    {
      Arena(items, next, maxHeight)
    }

    ghost predicate Valid()
      reads this
    {
      Inv(A(), lists)
    }

    ghost function Entries(): seq<Entry>
      requires Valid()
      reads this
    {
      InOrder(A(), lists)
    }

    constructor ()
      ensures Valid() && Entries() == []
    {
      items, next, maxHeight := [Entry(LookupKey([], 0), [])], [seq(MAX_HEIGHT, _ => NULL)], 1;
      lists := seq(MAX_HEIGHT, _ => [HEAD]);
      new;
      forall l | 0 <= l < MAX_HEIGHT
        ensures LevelGood(A(), l, lists[l])
      {
      }
    }

    /** KeyIsAfterNode: a missing node is after every key. */
    predicate KeyIsAfterNode(key: IKey, n: int)
      requires n == NULL || 0 <= n < |items|
      reads this
    {
      n != NULL && ILess(items[n].ik, key)
    }

    /** node is the last of level l before key. */
    ghost predicate IsPrev(key: IKey, node: nat, l: nat)
      requires Valid()
      reads this
    {
      l < MAX_HEIGHT && exists p :: 0 <= p < |lists[l]| && node == lists[l][p] && Cuts(key, l, p)
    }

    /** Place p of level l is the last before key. */
    ghost predicate Cuts(key: IKey, l: nat, p: nat)
      requires Valid() && l < MAX_HEIGHT
      reads this
    {
      assert LevelGood(A(), l, lists[l]);
      && p < |lists[l]|
      && (forall i :: 1 <= i <= p ==> ILess(items[lists[l][i]].ik, key))
      && (forall i :: p < i < |lists[l]| ==> !ILess(items[lists[l][i]].ik, key))
    }

    lemma CutsFrom(key: IKey, l: nat, p: nat)
      requires Valid() && l < MAX_HEIGHT && p < |lists[l]| && lists[l][p] < |items|
      requires lists[l][p] == HEAD || ILess(items[lists[l][p]].ik, key)
      requires p + 1 < |lists[l]| ==> lists[l][p + 1] < |items| && !ILess(items[lists[l][p + 1]].ik, key)
      ensures Cuts(key, l, p)
    {
      var list := lists[l];
      assert LevelGood(A(), l, list);
      forall i | 1 <= i < |list|
        ensures i <= p ==> ILess(items[list[i]].ik, key)
        ensures p < i ==> !ILess(items[list[i]].ik, key)
      {
        if i < p {
          assert ILess(items[list[i]].ik, items[list[p]].ik);
        } else if p + 1 < i {
          assert ILess(items[list[p + 1]].ik, items[list[i]].ik);
        }
      }
    }

    /** The first node at or after key; prev[l] is the last node before it at each level in use. */
    method FindGreaterOrEqual(key: IKey) returns (node: int, prev: seq<nat>)
      requires Valid()
      ensures Answers(A(), lists, key, node)
      ensures |prev| == maxHeight && forall l :: 0 <= l < maxHeight ==> IsPrev(key, prev[l], l)
    {
      hide LevelGood;
      var x: nat, level: nat := HEAD, maxHeight - 1;
      prev := seq(maxHeight, _ => HEAD);
      SearchStarts(A(), lists, key, level);
      ghost var p := Reads(A(), lists, Reader(x, level), key);
      while true
        invariant 0 <= level < maxHeight == |prev| && At(A(), lists, Reader(x, level), key)
        invariant 0 <= p < |lists[level]| && lists[level][p] == x
        invariant forall l :: level < l < maxHeight ==> IsPrev(key, prev[l], l)
        decreases level, |lists[level]| - p
      {
        TurnKeeps(A(), lists, Reader(x, level), key);
        p := Place(x, level);
        var n := next[x][level];
        if KeyIsAfterNode(key, n) {
          x := n;
          p := p + 1;
        } else {
          CutsFrom(key, level, p);
          prev := prev[level := x];
          assert IsPrev(key, x, level);
          if level == 0 {
            return n, prev;
          }
          level := level - 1;
          p := Place(x, level);
        }
      }
    }

    /** Where node x stands on its level's list. */
    ghost method Place(x: nat, level: nat) returns (p: nat)
      requires Valid() && level < MAX_HEIGHT && x in lists[level]
      ensures p < |lists[level]| && lists[level][p] == x
      ensures x < |next| && level < |next[x]| && next[x][level] == After(lists[level], p)
      ensures p + 1 < |lists[level]| ==> lists[level][p + 1] < |items|
      ensures forall i :: 0 <= i < |lists[level]| && lists[level][i] == x ==> i == p
    {
      assert LevelGood(A(), level, lists[level]);
      p :| 0 <= p < |lists[level]| && lists[level][p] == x;
      Unrepeated(A(), level, lists[level], p);
    }

    // ---- insertion ----------------------------------------------------------------------------------

    /** Where the new key goes at each level, and the nodes it goes after. */
    ghost predicate Places(key: IKey, prev: seq<nat>, ps: seq<nat>, from: nat, upto: nat)
      reads this
    {
      && upto <= |prev| && |prev| == |ps| && upto <= |lists|
      && forall l :: from <= l < upto ==>
        IsCut(A(), lists[l], key, ps[l]) && CutInList(l, ps[l]) && prev[l] == lists[l][ps[l]]
    }

    /** A level's place for a key that is not in the list. */
    lemma PlaceIsCut(key: IKey, node: nat, l: nat) returns (p: nat)
      requires Valid() && IsPrev(key, node, l) && (forall e :: e in Entries() ==> e.ik != key)
      ensures IsCut(A(), lists[l], key, p) && node == lists[l][p]
    {
      assert LevelGood(A(), l, lists[l]);
      p :| 0 <= p < |lists[l]| && node == lists[l][p] && Cuts(key, l, p);
      hide Inv;
      forall i | p < i < |lists[l]|
        ensures ILess(key, items[lists[l][i]].ik)
      {
        FreshKey(key, l, lists[l][i]);
        Trichotomy(key, items[lists[l][i]].ik);
      }
    }

    lemma FreshKey(key: IKey, l: nat, n: nat)
      requires Valid() && l < MAX_HEIGHT && n in lists[l] && n != HEAD && (forall e :: e in Entries() ==> e.ik != key)
      ensures n < |items| && items[n].ik != key
    {
      OnBottom(l, n);
      InEntries(n);
    }

    lemma {:induction false} OnBottom(l: nat, n: nat)
      requires Valid() && l < MAX_HEIGHT && n in lists[l]
      ensures n in lists[0]
    {
      if l > 0 {
        assert Within(lists, l - 1);
        OnBottom(l - 1, n);
      }
    }

    lemma InEntries(n: nat)
      requires Valid() && n in lists[0] && n != HEAD
      ensures n < |items| && items[n] in Entries()
    {
      assert LevelGood(A(), 0, lists[0]);
      var i :| 0 <= i < |lists[0]| && lists[0][i] == n;
      assert Entries()[i - 1] == items[n];
    }

    /** The places FindGreaterOrEqual found, level by level. */
    ghost method Located(key: IKey, prev: seq<nat>) returns (ps: seq<nat>)
      requires Valid() && |prev| == maxHeight
      requires (forall l :: 0 <= l < maxHeight ==> IsPrev(key, prev[l], l)) &&
        (forall e :: e in Entries() ==> e.ik != key)
      ensures Places(key, prev, ps, 0, maxHeight)
    {
      hide IsCut;
      hide IsPrev;
      hide LevelGood;
      HeightInRange();
      ps := [];
      for l := 0 to maxHeight
        invariant |ps| == l && forall m :: 0 <= m < l ==>
          IsCut(A(), lists[m], key, ps[m]) && CutInList(m, ps[m]) && prev[m] == lists[m][ps[m]]
      {
        var p := PlaceIsCut(key, prev[l], l);
        assert CutInList(l, p) by {
          CutPlace(l, key, p);
        }
        ps := ps + [p];
      }
    }

    ghost predicate CutInList(l: nat, p: nat)
      reads this
    {
      l < |lists| && p < |lists[l]|
    }

    lemma CutPlace(l: nat, key: IKey, p: nat)
      requires l < |lists| && IsCut(A(), lists[l], key, p)
      ensures CutInList(l, p)
    {
    }

    lemma HeightInRange()
      requires Valid()
      ensures 1 <= maxHeight <= MAX_HEIGHT == |lists| && |items| == |next|
    {
    }

    /** Fill prev up to the new height with the head. */
    method RaiseHeight(key: IKey, height: nat, prev0: seq<nat>, ghost ps0: seq<nat>)
      returns (prev: seq<nat>, ghost ps: seq<nat>)
      requires Valid() && 1 <= height <= MAX_HEIGHT && |prev0| == maxHeight && Places(key, prev0, ps0, 0, maxHeight)
      modifies `maxHeight
      ensures Valid() && height <= maxHeight && Places(key, prev, ps, 0, height)
      ensures Entries() == old(Entries())
    {
      hide Inv;
      hide IsCut;
      HeightInRange();
      prev, ps := prev0, ps0;
      SameEntries(height);
      if height > maxHeight {
        for i := maxHeight to height
          invariant |prev| == |ps| == i && Places(key, prev, ps, 0, i)
          invariant Valid() && maxHeight == old(maxHeight)
        {
          HeadIsCut(key, i);
          prev, ps := prev + [HEAD], ps + [0];
        }
        RaiseKeeps(A(), lists, height);
        PlacesStay(key, prev, ps, height);
        maxHeight := height;
      }
    }

    lemma SameEntries(height: nat)
      requires Valid() && height <= MAX_HEIGHT
      ensures maxHeight < height ==>
        Inv(Arena(items, next, height), lists) && InOrder(Arena(items, next, height), lists) == Entries()
    {
      if maxHeight < height {
        RaiseKeeps(A(), lists, height);
      }
    }

    lemma PlacesStay(key: IKey, prev: seq<nat>, ps: seq<nat>, height: nat)
      requires height <= |prev| == |ps| && height <= |lists| && Places(key, prev, ps, 0, height)
      ensures forall l :: 0 <= l < height ==>
        IsCut(Arena(items, next, height), lists[l], key, ps[l]) && CutInList(l, ps[l]) && prev[l] == lists[l][ps[l]]
    {
    }

    lemma HeadIsCut(key: IKey, l: nat)
      requires Valid() && maxHeight <= l < MAX_HEIGHT
      ensures IsCut(A(), lists[l], key, 0) && lists[l][0] == HEAD
    {
      assert LevelGood(A(), l, lists[l]);
    }

    /** Link the new node in at one level: its own link first, then the one store that publishes it. */
    method LinkLevel(n: nat, i: nat, node: nat, ghost p: nat)
      requires Valid() && i < maxHeight <= MAX_HEIGHT && 0 < n < |items| == |next| && i < |next[n]| &&
        i < |lists| == MAX_HEIGHT && (forall l :: i <= l < MAX_HEIGHT ==> n !in lists[l])
      requires IsCut(A(), lists[i], items[n].ik, p) && node == lists[i][p] && (i > 0 ==> n in lists[i - 1])
      modifies `next, `lists
      ensures Valid() && lists == old(lists)[i := Spliced(old(lists)[i], p, n)] && |next| == |old(next)| &&
        |next[n]| == |old(next)[n]|
    {
      hide Inv;
      hide LevelGood;
      hide IsCut;
      CutInRange(i, p, n);
      NodeAt(i, p);
      PrivateKeeps(A(), lists, n, i, next[node][i]);
      next := next[n := next[n][i := next[node][i]]];
      CutIgnoresLinks(old(A()), A(), lists[i], items[n].ik, p);
      PublishKeeps(A(), lists, i, p, n);
      next := next[node := next[node][i := n]];
      lists := lists[i := Spliced(lists[i], p, n)];
    }

    /** The new node exists, with unset links, on no list. */
    method NewNode(e: Entry, height: nat, ghost prev: seq<nat>, ghost ps: seq<nat>) returns (n: nat)
      requires Valid() && Places(e.ik, prev, ps, 0, height) && height <= maxHeight
      modifies `items, `next
      ensures Valid() && n == |old(items)| && items == old(items) + [e] && |next| == |items| && |next[n]| == height &&
        0 < n
      ensures Places(e.ik, prev, ps, 0, height) && (forall l :: 0 <= l < MAX_HEIGHT ==> n !in lists[l]) &&
        |lists| == MAX_HEIGHT
      ensures Entries() == old(Entries())
    {
      n := |items|;
      Unlisted();
      NewNodeKeeps(A(), lists, e, height);
      NewNodeSame(e, height);
      ghost var before := A();
      items := items + [e];
      next := next + [seq(height, _ => NULL)];
      hide Inv;
      forall l | 0 <= l < height
        ensures IsCut(A(), lists[l], e.ik, ps[l])
      {
        CutMoreItems(before, A(), lists[l], e.ik, ps[l]);
      }
    }

    lemma Unlisted()
      requires Valid()
      ensures |lists| == MAX_HEIGHT && 0 < |items| && forall l :: 0 <= l < MAX_HEIGHT ==> |items| !in lists[l]
    {
      assert LevelGood(A(), 0, lists[0]);
      forall l | 0 <= l < MAX_HEIGHT
        ensures |items| !in lists[l]
      {
        assert LevelGood(A(), l, lists[l]);
      }
    }

    lemma NewNodeSame(e: Entry, height: nat)
      requires Valid() && Inv(WithNode(A(), e, height), lists)
      ensures InOrder(WithNode(A(), e, height), lists) == Entries()
    {
      assert LevelGood(A(), 0, lists[0]);
    }

    /** Insert an entry whose key is not in the list, at a height drawn by the caller: the list becomes the sorted
        insertion of it, and every store on the way leaves a list readers can search. */
    method Insert(e: Entry, height: nat)
      requires Valid() && 1 <= height <= MAX_HEIGHT && (forall o :: o in Entries() ==> o.ik != e.ik)
      modifies this
      ensures Valid() && Entries() == Store.Insert(old(Entries()), e)
    {
      hide IsCut;
      hide LevelGood;
      hide Places;
      hide IsPrev;
      var node, prev := FindGreaterOrEqual(e.ik);
      ghost var ps := Located(e.ik, prev);
      prev, ps := RaiseHeight(e.ik, height, prev, ps);
      var n := NewNode(e, height, prev, ps);
      LinkAll(e, n, height, prev, ps);
    }

    method LinkAll(e: Entry, n: nat, height: nat, prev: seq<nat>, ghost ps: seq<nat>)
      requires Valid() && 1 <= height <= maxHeight && 0 < n < |items| == |next| && items[n] == e && |next[n]| == height
      requires Places(e.ik, prev, ps, 0, height) && |lists| == MAX_HEIGHT &&
        (forall l :: 0 <= l < MAX_HEIGHT ==> n !in lists[l])
      modifies `next, `lists
      ensures Valid() && Entries() == Store.Insert(old(Entries()), e)
    {
      hide Inv;
      hide IsCut;
      HeightInRange();
      PlacesRange(e.ik, prev, ps, height);
      ghost var base := lists;
      for i := 0 to height
        invariant Valid() && |lists| == MAX_HEIGHT && |next| == |items| && |next[n]| == height
        invariant forall l :: i <= l < height ==>
          IsCut(A(), base[l], e.ik, ps[l]) && ps[l] < |base[l]| && prev[l] == base[l][ps[l]]
        invariant forall l :: i <= l < MAX_HEIGHT ==> lists[l] == base[l] && n !in lists[l]
        invariant i > 0 ==> n in lists[i - 1] && lists[0] == Spliced(base[0], ps[0], n)
      {
        ghost var before := A();
        LinkLevel(n, i, prev[i], ps[i]);
        SplicedMembers(base[i], ps[i], n);
        forall l | i < l < height
          ensures IsCut(A(), base[l], e.ik, ps[l])
        {
          CutIgnoresLinks(before, A(), base[l], e.ik, ps[l]);
        }
      }
      InsertedEntries(old(A()), base, A(), lists, e, n, ps[0]);
    }

    lemma PlacesRange(key: IKey, prev: seq<nat>, ps: seq<nat>, height: nat)
      requires Places(key, prev, ps, 0, height)
      ensures height <= |prev| == |ps| && height <= |lists|
      ensures forall l :: 0 <= l < height ==>
        IsCut(A(), lists[l], key, ps[l]) && ps[l] < |lists[l]| && prev[l] == lists[l][ps[l]]
    {
    }

    lemma CutInRange(i: nat, p: nat, n: nat)
      requires i < |lists| && n < |items| && IsCut(A(), lists[i], items[n].ik, p)
      ensures p < |lists[i]|
    {
    }

    lemma NodeAt(i: nat, p: nat)
      requires Valid() && i < MAX_HEIGHT && p < |lists[i]|
      ensures lists[i][p] < |next| == |items| && i < |next[lists[i][p]]| && |lists| == MAX_HEIGHT
    {
      assert LevelGood(A(), i, lists[i]);
    }

    // ---- searching backward -----------------------------------------------------------------------------

    /** The last node before key, the head if there is none. */
    method FindLessThan(key: IKey) returns (node: nat)
      requires Valid()
      ensures var g := LowerBound(Entries(), key, 0); g < |lists[0]| && node == lists[0][g]
    {
      hide LevelGood;
      hide LowerBound;
      HeightInRange();
      var x: nat, level: nat := HEAD, maxHeight - 1;
      SearchStarts(A(), lists, key, level);
      ghost var p := Place(x, level);
      while true
        invariant 0 <= level < maxHeight && At(A(), lists, Reader(x, level), key)
        invariant 0 <= p < |lists[level]| && lists[level][p] == x
        decreases level, |lists[level]| - p
      {
        TurnKeeps(A(), lists, Reader(x, level), key);
        p := Place(x, level);
        var n := next[x][level];
        if n == NULL || !ILess(items[n].ik, key) {
          if level == 0 {
            CutIsLowerBound(A(), lists, key, p);
            return x;
          }
          level := level - 1;
          p := Place(x, level);
        } else {
          x := n;
          p := p + 1;
        }
      }
    }

    /** The last node of the list, the head if it is empty. */
    method FindLast() returns (node: nat)
      requires Valid()
      ensures lists[0] != [] && node == lists[0][|lists[0]| - 1]
    {
      hide LevelGood;
      HeightInRange();
      var x: nat, level: nat := HEAD, maxHeight - 1;
      SearchStarts(A(), lists, LookupKey([], 0), level);
      ghost var p := Place(x, level);
      while true
        invariant 0 <= level < maxHeight && x in lists[level]
        invariant 0 <= p < |lists[level]| && lists[level][p] == x
        decreases level, |lists[level]| - p
      {
        p := Place(x, level);
        var n := next[x][level];
        if n == NULL {
          if level == 0 {
            return x;
          }
          assert Within(lists, level - 1);
          level := level - 1;
          p := Place(x, level);
        } else {
          assert lists[level][p + 1] in lists[level];
          x := n;
          p := p + 1;
        }
      }
    }

    method Contains(key: IKey) returns (r: bool)
      requires Valid()
      ensures r <==> exists e :: e in Entries() && e.ik == key
    {
      hide LevelGood;
      hide Inv;
      var node, _ := FindGreaterOrEqual(key);
      ItemsOf(A(), lists);
      ghost var es, g := Entries(), LowerBound(Entries(), key, 0);
      KeyAt(es, key, g);
      r := node != NULL && items[node].ik == key;
    }

    /** RandomHeight: up to the maximum, one level for each time the coin says so. */
    static method RandomHeight(coin: nat -> bool) returns (height: nat)
      ensures 1 <= height <= MAX_HEIGHT
      ensures (forall i :: 1 <= i < height ==> coin(i)) && (height < MAX_HEIGHT ==> !coin(height))
    {
      height := 1;
      while height < MAX_HEIGHT && coin(height)
        invariant 1 <= height <= MAX_HEIGHT && forall i :: 1 <= i < height ==> coin(i)
        decreases MAX_HEIGHT - height
      {
        height := height + 1;
      }
    }
  }

  lemma KeyAt(es: seq<Entry>, key: IKey, g: nat)
    requires Sorted(es) && g == LowerBound(es, key, 0)
    ensures (exists e :: e in es && e.ik == key) <==> g < |es| && es[g].ik == key
  {
    if e :| e in es && e.ik == key {
      var j :| 0 <= j < |es| && es[j] == e;
      assert g <= j;
      assert g < j ==> ILess(es[g].ik, es[j].ik);
    }
    if g < |es| && es[g].ik == key {
      assert es[g] in es;
    }
  }

  /** The list's iterator: a cursor over its entries in order. */
  class Iter {
    const list: List
    var node: int

    constructor (list: List)
      ensures this.list == list && node == NULL
    {
      this.list, node := list, NULL;
    }

    /** Standing at entry p, -1 for none. */
    ghost predicate On(p: int)
      requires list.Valid()
      reads this, list
    {
      -1 <= p < |list.Entries()| && node == (if p == -1 then NULL else list.lists[0][p + 1] as int)
    }

    predicate Valid()
      reads this
    {
      node != NULL
    }

    method Key() returns (e: Entry)
      requires list.Valid() && Valid() && exists p :: On(p)
      ensures forall p :: On(p) ==> p >= 0 && e == list.Entries()[p]
    {
      hide Inv;
      hide LevelGood;
      ItemsOf(list.A(), list.lists);
      e := list.items[node];
    }

    method Seek(target: IKey)
      requires list.Valid()
      modifies this
      ensures var g := LowerBound(list.Entries(), target, 0); On(if g < |list.Entries()| then g else -1)
    {
      hide LevelGood;
      hide LowerBound;
      var n, _ := list.FindGreaterOrEqual(target);
      node := n;
    }

    method SeekToFirst()
      requires list.Valid()
      modifies this
      ensures On(if list.Entries() == [] then -1 else 0)
    {
      HeadLink();
      node := list.next[HEAD][0];
    }

    lemma HeadLink()
      requires list.Valid()
      ensures |list.next| > 0 && |list.next[HEAD]| > 0
      ensures list.next[HEAD][0] == (if list.Entries() == [] then NULL else list.lists[0][1] as int)
    {
      assert LevelGood(list.A(), 0, list.lists[0]);
    }

    method SeekToLast()
      requires list.Valid()
      modifies this
      ensures On(|list.Entries()| - 1)
    {
      BottomNodes();
      node := list.FindLast();
      if node == HEAD {
        node := NULL;
      }
    }

    lemma BottomNodes()
      requires list.Valid()
      ensures |list.lists[0]| == |list.Entries()| + 1
      ensures forall i :: 0 <= i < |list.lists[0]| ==> (list.lists[0][i] == HEAD <==> i == 0)
    {
      assert LevelGood(list.A(), 0, list.lists[0]);
    }

    method Next(ghost p: int)
      requires list.Valid() && Valid() && On(p)
      modifies this
      ensures On(if p + 1 < |list.Entries()| then p + 1 else -1)
    {
      Link(p);
      node := list.next[node][0];
    }

    lemma Link(p: int)
      requires list.Valid() && On(p) && p >= 0
      ensures 0 <= node < |list.next| && |list.next[node]| > 0
      ensures list.next[node][0] == (if p + 1 < |list.Entries()| then list.lists[0][p + 2] as int else NULL)
    {
      assert LevelGood(list.A(), 0, list.lists[0]);
    }

    /** There are no backward links: search for the last node before this one's key. */
    method Prev(ghost p: int)
      requires list.Valid() && Valid() && On(p)
      modifies this
      ensures On(p - 1)
    {
      hide LevelGood;
      ItemsOf(list.A(), list.lists);
      BottomNodes();
      ghost var es := list.Entries();
      OwnBound(es, p);
      node := list.FindLessThan(list.items[node].ik);
      if node == HEAD {
        node := NULL;
      }
    }
  }

  /** Searching for an entry's own key finds its place. */
  lemma OwnBound(es: seq<Entry>, p: nat)
    requires Sorted(es) && p < |es|
    ensures LowerBound(es, es[p].ik, 0) == p
  {
    assert forall j :: 0 <= j < p ==> ILess(es[j].ik, es[p].ik);
    BoundIs(es, es[p].ik, 0, p);
  }

  lemma CutMoreItems(a: Arena, b: Arena, list: seq<nat>, key: IKey, p: nat)
    requires IsCut(a, list, key, p) && |a.items| <= |b.items| && b.items[..|a.items|] == a.items
    ensures IsCut(b, list, key, p)
  {
    forall i | 0 <= i < |list|
      ensures b.items[list[i]] == a.items[list[i]]
    {
      assert b.items[list[i]] == b.items[..|a.items|][list[i]];
    }
  }

  /** Splicing at the key's place is the sorted insertion. */
  lemma InsertedEntries(a: Arena, before: seq<seq<nat>>, b: Arena, after: seq<seq<nat>>, e: Entry, n: nat, p: nat)
    requires Inv(a, before) && Inv(b, after) && a.items == b.items && n < |a.items| && a.items[n] == e
    requires |before| == |after| == MAX_HEIGHT && IsCut(a, before[0], e.ik, p) && p < |before[0]| &&
      after[0] == Spliced(before[0], p, n)
    ensures InOrder(b, after) == Store.Insert(InOrder(a, before), e)
  {
    hide Inv;
    hide IsCut;
    hide InOrder;
    hide LowerBound;
    CutToBound(a, before, e.ik, p);
    ItemsOf(a, before);
    ItemsOf(b, after);
    SplicedItems(a.items, before[0], p, n, InOrder(a, before), InOrder(b, after));
  }

  lemma CutToBound(a: Arena, lists: seq<seq<nat>>, key: IKey, p: nat)
    requires Inv(a, lists) && IsCut(a, lists[0], key, p)
    ensures LowerBound(InOrder(a, lists), key, 0) == p
  {
    assert LevelGood(a, 0, lists[0]);
    CutIsLowerBound(a, lists, key, p);
  }

  lemma ItemsOf(a: Arena, lists: seq<seq<nat>>)
    requires Inv(a, lists)
    ensures |lists| == MAX_HEIGHT && |InOrder(a, lists)| == |lists[0]| - 1
    ensures forall i :: 0 <= i < |lists[0]| ==> lists[0][i] < |a.items|
    ensures forall i :: 0 <= i < |lists[0]| - 1 ==> InOrder(a, lists)[i] == a.items[lists[0][i + 1]]
  {
    assert LevelGood(a, 0, lists[0]);
  }

  lemma SplicedItems(items: seq<Entry>, list: seq<nat>, p: nat, n: nat, es: seq<Entry>, r: seq<Entry>)
    requires p < |list| && n < |items| && (forall i :: 0 <= i < |list| ==> list[i] < |items|)
    requires |es| == |list| - 1 && forall i :: 0 <= i < |es| ==> es[i] == items[list[i + 1]]
    requires var more := Spliced(list, p, n); |r| == |more| - 1 && forall i :: 0 <= i < |r| ==>
      more[i + 1] < |items| && r[i] == items[more[i + 1]]
    ensures r == es[..p] + [items[n]] + es[p..]
  {
    var more := Spliced(list, p, n);
    forall j | 0 <= j < |r|
      ensures r[j] == (es[..p] + [items[n]] + es[p..])[j]
    {
      assert more[j + 1] == if j < p then list[j + 1] else if j == p then n else list[j];
    }
  }

  lemma Trichotomy(a: IKey, b: IKey)
    requires a != b && !ILess(b, a)
    ensures ILess(a, b)
  {
  }

  lemma CutIgnoresLinks(a: Arena, b: Arena, list: seq<nat>, key: IKey, p: nat)
    requires IsCut(a, list, key, p) && b.items == a.items
    ensures IsCut(b, list, key, p)
  {
  }
}
