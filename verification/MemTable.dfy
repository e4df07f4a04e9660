/** The memtable: entries encoded as length-prefixed strings, kept in a skip list. */
module MemTable {
  import opened Keys
  import opened Format
  import opened Coding
  import opened Levels
  import opened Store
  import SkipList

  // ---- the stored form of an entry -----------------------------------------------------------------

  function KindByte(k: ValueType): nat {
    if k.Value? then 1 else 0
  }

  /** klength, user key, tag, vlength, value. */
  function Encode(e: Entry): Bytes
    requires Tag(e.ik) < TWO_64
  {
    Varint(|e.ik.user| + 8) + (e.ik.user + (Fixed64(Tag(e.ik)) + (Varint(|e.value|) + e.value)))
  }

  /** VarintLength adds up to the buffer Add allocates. */
  method EncodedLength(e: Entry) returns (n: nat)
    requires Tag(e.ik) < TWO_64 && |e.ik.user| + 8 < TWO_32 && |e.value| < TWO_32
    ensures n == |Encode(e)|
  {
    var k := CountVarint(|e.ik.user| + 8);
    var v := CountVarint(|e.value|);
    n := k + (|e.ik.user| + 8) + v + |e.value|;
  }

  /** What Get and the iterator read back: the internal key, then the value. */
  function Decode(b: Bytes): Option<Entry> {
    match ParsePiece(b)
    case NoPiece => None
    case Piece(key, rest) =>
      if |key| < 8 then None else
        var tag := DecodeFixed64(key[|key| - 8..]);
        match ParsePiece(rest)
        case NoPiece => None
        case Piece(value, _) =>
          if tag % 256 > 1 then None
          else Some(Entry(IKey(key[..|key| - 8], tag / 256, if tag % 256 == 1 then Value else Deletion), value))
  }

  /** Reading back what Add wrote gives the entry, whatever follows it in the arena. */
  lemma DecodeEncode(e: Entry, rest: Bytes)
    requires Tag(e.ik) < TWO_64 && |e.ik.user| + 8 < TWO_32 && |e.value| < TWO_32
    ensures Decode(Encode(e) + rest) == Some(e)
  {
    hide Varint;
    hide Fixed64;
    hide DecodeFixed64;
    hide ParsePiece;
    var tag := Fixed64(Tag(e.ik));
    var key := e.ik.user + tag;
    assert Encode(e) + rest == LengthPrefixed(key) + (LengthPrefixed(e.value) + rest);
    PieceBack(key, LengthPrefixed(e.value) + rest);
    PieceBack(e.value, rest);
    assert key[|key| - 8..] == tag && key[..|key| - 8] == e.ik.user;
    Fixed64RoundTrip(Tag(e.ik), []);
    assert tag + [] == tag;
    Unpack(e.ik);
  }

  lemma Unpack(k: IKey)
    ensures Tag(k) % 256 == KindByte(k.kind) && Tag(k) / 256 == k.sn
  {
  }

  // ---- the table -----------------------------------------------------------------------------------------

  class MemTable {
    const table: SkipList.List

    ghost predicate Valid()
      reads this, table
    {
      table.Valid()
    }

    ghost function Entries(): seq<Entry>
      requires Valid()
      reads this, table
    {
      table.Entries()
    }

    constructor ()
      ensures Valid() && Entries() == [] && fresh(table)
    {
      table := new SkipList.List();
    }

    /** One operation: the caller's sequence numbers never repeat. */
    method Add(sn: nat, kind: ValueType, key: Bytes, value: Bytes, coin: nat -> bool)
      requires Valid() && forall e :: e in Entries() ==> e.ik.sn < sn
      modifies table
      ensures Valid() && Entries() == Insert(old(Entries()), Entry(IKey(key, sn, kind), value))
    {
      var height := SkipList.List.RandomHeight(coin);
      table.Insert(Entry(IKey(key, sn, kind), value), height);
    }

    /** The newest entry of the key at or below s: done tells whether there is one, r its value unless it is a
        deletion. */
    method Get(k: Bytes, s: nat) returns (done: bool, r: Option<Bytes>)
      requires Valid()
      ensures done <==> TableGet(Entries(), k, s).Some?
      ensures done ==> r == (var e := TableGet(Entries(), k, s).value; if e.ik.kind.Value? then Some(e.value) else None)
      ensures Distinct(Elems(Entries())) ==> (done <==> Newest(Elems(Entries()), k, s).Some?)
      ensures Distinct(Elems(Entries())) && done ==> r == Read(Elems(Entries()), k, s)
    {
      hide LowerBound;
      hide SkipList.LevelGood;
      ghost var es := Entries();
      if Distinct(Elems(es)) {
        TableGetIsNewest(es, k, s);
      }
      var iter := new SkipList.Iter(table);
      iter.Seek(LookupKey(k, s));
      done, r := false, None;
      if iter.Valid() {
        var e := iter.Key();
        ghost var g := LowerBound(es, LookupKey(k, s), 0);
        assert g < |es| && iter.On(g) && e == es[g];
        if e.ik.user == k {
          done := true;
          r := if e.ik.kind.Value? then Some(e.value) else None;
        }
      }
    }
  }
}
