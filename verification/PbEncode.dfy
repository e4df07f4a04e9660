/** pb_encode: the streams and loops that write a struct, submessages sized in one pass and written in a second. */
module PbEncode {
  import opened Keys
  import opened Coding
  import opened Pb

  datatype Status = Done | StreamFull | ArrayMax | BytesExceeded | SizeChanged

  /** A stream's fields: no callback means only counting. out is what the callback has received. */
  datatype OState = OState(sizing: bool, maxSize: nat, written: nat, out: Bytes)

  predicate StateOk(s: OState) {
    if s.sizing then s.out == [] else s.written == |s.out| && s.written <= s.maxSize
  }

  predicate Room(s: OState, n: nat) {
    s.sizing || s.written + n <= s.maxSize
  }

  function Emit(s: OState, w: Bytes): OState {
    s.(written := s.written + |w|, out := if s.sizing then s.out else s.out + w)
  }

  /** An operation that is to emit w: it succeeds exactly when the data is good and there is room, it then emits w
      whether counting or writing, and it never finds that a submessage changed its size. */
  predicate Fulfils(e: Status, s: OState, t: OState, w: Bytes, good: bool) {
    && (e.Done? <==> good && Room(s, |w|)) && (e.Done? ==> t == Emit(s, w)) && !e.SizeChanged?
    && StateOk(t) && t.sizing == s.sizing && t.maxSize == s.maxSize
  }

  lemma Then(s: OState, t: OState, w: Bytes, good: bool, e: Status, u: OState, w': Bytes, good': bool)
    requires StateOk(s) && Fulfils(Done, s, t, w, good) && Fulfils(e, t, u, w', good')
    ensures Fulfils(e, s, u, w + w', good && good')
  {
    if !s.sizing {
      assert s.out + w + w' == s.out + (w + w');
    }
  }

  lemma Stop(s: OState, t: OState, w: Bytes, good: bool, e: Status, w': Bytes, good': bool)
    requires Fulfils(e, s, t, w, good) && !e.Done?
    ensures Fulfils(e, s, t, w + w', good && good')
  {
  }

  lemma Nothing(s: OState)
    requires StateOk(s)
    ensures Fulfils(Done, s, s, [], true)
  {
    assert s.out + [] == s.out;
  }

  // ---- varints with every high bit set, the last one cleared afterwards ----------------------------------------

  function AllMore(v: nat): Bytes {
    if v == 0 then [] else [v % 128 + 128] + AllMore(v / 128)
  }

  lemma {:induction false} LastCleared(v: nat)
    requires v > 0
    ensures var a := AllMore(v); |a| > 0 && Varint(v) == a[..|a| - 1] + [a[|a| - 1] % 128] && |a| == |Varint(v)|
  {
    var a := AllMore(v);
    if v >= 128 {
      LastCleared(v / 128);
      var b := AllMore(v / 128);
      assert a == [a[0]] + b && a[..|a| - 1] == [a[0]] + b[..|b| - 1];
    } else {
      assert AllMore(v / 128) == [];
    }
  }

  // ---- sizes -----------------------------------------------------------------------------------------

  lemma {:induction false} FixedItems(f: Field, items: seq<Val>, k: nat)
    requires k <= |items| && (f.ltype.Fix32? || f.ltype.Fix64?) && forall i :: 0 <= i < |items| ==> ValOk(f, items[i])
    ensures |PackedWire(f, items, k)| == (if f.ltype.Fix32? then 4 else 8) * (|items| - k)
    decreases |items| - k
  {
    if k < |items| {
      FixedItems(f, items, k + 1);
      assert ValOk(f, items[k]);
      hide Fixed32;
      hide Fixed64;
    }
  }

  /** The items before k and the items from k on. */
  function PackedUpTo(f: Field, items: seq<Val>, k: nat): Bytes
    requires k <= |items|
  {
    if k == 0 then [] else PackedUpTo(f, items, k - 1) + ValueWire(f, items[k - 1])
  }

  lemma {:induction false} PackedSplit(f: Field, items: seq<Val>, k: nat)
    requires k <= |items|
    ensures PackedUpTo(f, items, k) + PackedWire(f, items, k) == PackedWire(f, items, 0)
    decreases k
  {
    hide ValueWire;
    if k > 0 {
      PackedSplit(f, items, k - 1);
      var a, v := PackedUpTo(f, items, k - 1), ValueWire(f, items[k - 1]);
      assert a + (v + PackedWire(f, items, k)) == a + v + PackedWire(f, items, k);
    }
  }

  function KeyedUpTo(f: Field, items: seq<Val>, k: nat): Bytes
    requires k <= |items|
  {
    if k == 0 then [] else KeyedUpTo(f, items, k - 1) + (Key(f.tag, WireType(f.ltype)) + ValueWire(f, items[k - 1]))
  }

  lemma {:induction false} KeyedSplit(f: Field, items: seq<Val>, k: nat)
    requires k <= |items|
    ensures KeyedUpTo(f, items, k) + KeyedWire(f, items, k) == KeyedWire(f, items, 0)
    decreases k
  {
    hide ValueWire;
    hide Key;
    if k > 0 {
      KeyedSplit(f, items, k - 1);
      var a, v := KeyedUpTo(f, items, k - 1), Key(f.tag, WireType(f.ltype)) + ValueWire(f, items[k - 1]);
      assert a + (v + KeyedWire(f, items, k)) == a + v + KeyedWire(f, items, k);
    }
  }

  function StructUpTo(fields: seq<Field>, slots: seq<Slot>, i: nat): Bytes
    requires i <= |slots| == |fields|
  {
    if i == 0 then [] else StructUpTo(fields, slots, i - 1) + SlotWire(fields[i - 1], slots[i - 1])
  }

  lemma {:induction false} StructSplit(fields: seq<Field>, slots: seq<Slot>, i: nat)
    requires i <= |slots| == |fields|
    ensures StructUpTo(fields, slots, i) + StructWire(fields, slots, i) == StructWire(fields, slots, 0)
    decreases i
  {
    hide SlotWire;
    if i > 0 {
      StructSplit(fields, slots, i - 1);
      var a, v := StructUpTo(fields, slots, i - 1), SlotWire(fields[i - 1], slots[i - 1]);
      assert a + (v + StructWire(fields, slots, i)) == a + v + StructWire(fields, slots, i);
    }
  }

  lemma {:induction false} StructWhole(fields: seq<Field>, slots: seq<Slot>)
    requires |slots| == |fields|
    ensures StructUpTo(fields, slots, |slots|) == StructWire(fields, slots, 0)
  {
    StructSplit(fields, slots, |slots|);
    assert StructUpTo(fields, slots, |slots|) + [] == StructUpTo(fields, slots, |slots|);
  }

  predicate ItemsGood(f: Field, items: seq<Val>, k: nat)
    requires k <= |items|
  {
    forall i :: 0 <= i < k ==> Encodable(f, items[i])
  }

  lemma ItemsGoodStep(f: Field, items: seq<Val>, k: nat)
    requires k < |items|
    ensures ItemsGood(f, items, k + 1) == (ItemsGood(f, items, k) && Encodable(f, items[k]))
  {
  }

  predicate SlotsGood(fields: seq<Field>, slots: seq<Slot>, k: nat)
    requires k <= |slots| == |fields|
  {
    forall i :: 0 <= i < k ==> SlotEncodable(fields[i], slots[i])
  }

  lemma SlotsGoodStep(fields: seq<Field>, slots: seq<Slot>, k: nat)
    requires k < |slots| == |fields|
    ensures SlotsGood(fields, slots, k + 1) == (SlotsGood(fields, slots, k) && SlotEncodable(fields[k], slots[k]))
  {
  }

  /** Tables the generator makes: tags are pb_size_t, all the way down. */
  predicate TableOk(fields: seq<Field>) {
    forall i :: 0 <= i < |fields| ==> 1 <= fields[i].tag <= SIZE_MAX && TableOk(fields[i].sub)
  }

  class OStream {
    const sizing: bool
    const maxSize: nat
    var written: nat
    var out: Bytes

    ghost function S(): OState
      reads this
    {
      OState(sizing, maxSize, written, out)
    }

    ghost predicate Valid()
      reads this
    {
      StateOk(S())
    }

    constructor Sizing()
      ensures Valid() && S() == OState(true, 0, 0, [])
    {
      sizing, maxSize, written, out := true, 0, 0, [];
    }

    constructor Buffer(maxSize: nat)
      ensures Valid() && S() == OState(false, maxSize, 0, [])
    {
      sizing, this.maxSize, written, out := false, maxSize, 0, [];
    }

    /** pb_write. */
    method Write(buf: Bytes) returns (e: Status)
      requires Valid()
      modifies this
      ensures Fulfils(e, old(S()), S(), buf, true)
      ensures !e.Done? ==> S() == old(S())
    {
      if |buf| > 0 && !sizing {
        if written + |buf| > maxSize {
          return StreamFull;
        }
        out := out + buf;
      } else {
        assert !sizing ==> out + buf == out;
      }
      written := written + |buf|;
      e := Done;
    }

    /** pb_write without data: only counting. */
    method Count(ghost w: Bytes, size: nat) returns (e: Status)
      requires Valid() && sizing && size == |w|
      modifies this
      ensures Fulfils(e, old(S()), S(), w, true)
    {
      written := written + size;
      e := Done;
    }

    method EncodeVarint(value: nat) returns (e: Status)
      requires Valid() && value < TWO_64
      modifies this
      ensures Fulfils(e, old(S()), S(), Varint(value), true)
    {
      hide Fulfils;
      if value <= 0x7F {
        e := Write([value]);
        return;
      }
      var bytes := VarintBytes(value);
      e := Write(bytes);
    }

    /** The bytes in a buffer of ten: each with its high bit set, then the last one's cleared. */
    static method VarintBytes(value: nat) returns (bytes: Bytes)
      requires 0 < value < TWO_64
      ensures bytes == Varint(value)
    {
      hide Varint;
      hide AllMore;
      var buffer := new byte[10];
      var i, v := 0, value;
      LastCleared(value);
      VarintLength64(value);
      ghost var all := AllMore(value);
      while v > 0
        invariant i <= |all| <= 10 && buffer[..i] + AllMore(v) == all
        decreases v
      {
        ghost var before := buffer[..i];
        OneMore(before, v, all);
        buffer[i] := v % 128 + 128;
        assert buffer[..i + 1] == before + [buffer[i]];
        v := v / 128;
        i := i + 1;
      }
      NoMore();
      assert buffer[..i] == all;
      buffer[i - 1] := buffer[i - 1] % 128;
      assert buffer[..i - 1] == all[..i - 1];
      bytes := buffer[..i - 1] + [buffer[i - 1]];
    }

    static lemma NoMore()
      ensures AllMore(0) == []
    {
    }

    static lemma OneMore(before: Bytes, v: nat, all: Bytes)
      requires v > 0 && before + AllMore(v) == all
      ensures |before| < |all| && before + [v % 128 + 128] + AllMore(v / 128) == all
    {
    }

    method EncodeTag(wire: nat, tag: nat) returns (e: Status)
      requires Valid() && wire < 8 && tag <= SIZE_MAX
      modifies this
      ensures Fulfils(e, old(S()), S(), Key(tag, wire), true)
    {
      e := EncodeVarint(8 * tag + wire);
    }

    method EncodeString(b: Bytes) returns (e: Status)
      requires Valid() && |b| < TWO_64
      modifies this
      ensures Fulfils(e, old(S()), S(), LengthPrefixed(b), true)
    {
      hide Fulfils;
      hide Varint;
      e := EncodeVarint(|b|);
      ghost var mid := S();
      if !e.Done? {
        Stop(old(S()), mid, Varint(|b|), true, e, b, true);
        return;
      }
      StillValid(e, old(S()), mid, Varint(|b|), true);
      e := Write(b);
      Then(old(S()), mid, Varint(|b|), true, e, S(), b, true);
    }

    /** The scalar encoders. */
    method EncodeNumber(f: Field, n: int) returns (e: Status)
      requires Valid() && NumberFits(f.ltype, f.dataSize, n)
      modifies this
      ensures Fulfils(e, old(S()), S(), NumberWire(f.ltype, n), true)
    {
      hide Fulfils;
      if f.ltype.Bool? {
        e := EncodeVarint(if n != 0 then 1 else 0);
      } else if f.ltype.VarInt? {
        e := EncodeVarint(Cast64(n));
      } else if f.ltype.UVarInt? {
        e := EncodeVarint(n);
      } else if f.ltype.SVarInt? {
        e := EncodeVarint(ZigZag(n));
      } else if f.ltype.Fix32? {
        e := Write(Fixed32(n));
      } else {
        e := Write(Fixed64(n));
      }
    }

    /** The encoder of the field's type applied to one value. */
    method EncodeValue(f: Field, v: Val) returns (e: Status)
      requires Valid() && ValOk(f, v) && TableOk(f.sub) && |ValueWire(f, v)| < TWO_64
      modifies this
      ensures Fulfils(e, old(S()), S(), ValueWire(f, v), Encodable(f, v))
      decreases v, 0
    {
      hide Fulfils;
      hide NumberWire;
      hide Varint;
      hide StructWire;
      match v {
        case Num(n) => e := EncodeNumber(f, n);
        case Blob(b) =>
          if f.ltype.BytesArray? && |b| + SIZE_BYTES > f.dataSize {
            Refused(S(), LengthPrefixed(b), BytesExceeded);
            return BytesExceeded;
          }
          e := EncodeString(b);
        case Sub(slots) => e := EncodeSubmessage(f.sub, slots);
      }
    }

    static lemma Refused(s: OState, w: Bytes, e: Status)
      requires StateOk(s) && !e.Done? && !e.SizeChanged?
      ensures Fulfils(e, s, s, w, false)
    {
    }

    /** Sized without writing, then written into a substream of just that size. */
    method EncodeSubmessage(fields: seq<Field>, slots: seq<Slot>) returns (e: Status)
      requires Valid() && StructOk(fields, slots) && TableOk(fields) &&
        |LengthPrefixed(StructWire(fields, slots, 0))| < TWO_64
      modifies this
      ensures Fulfils(e, old(S()), S(), LengthPrefixed(StructWire(fields, slots, 0)), StructEncodable(fields, slots))
      decreases slots, 1
    {
      hide StructWire;
      hide Varint;
      hide StructEncodable;
      hide StructOk;
      hide Fulfils;
      ghost var w, good := StructWire(fields, slots, 0), StructEncodable(fields, slots);
      var substream := new OStream.Sizing();
      ghost var empty := substream.S();
      e := substream.Encode(fields, slots);
      SizingDecides(e, empty, substream.S(), w, good);
      if !e.Done? {
        Refused(S(), LengthPrefixed(w), e);
        return;
      }
      var size := substream.written;
      e := EncodeVarint(size);
      ghost var mid := S();
      if !e.Done? {
        Stop(old(S()), mid, Varint(size), true, e, w, true);
        return;
      }
      StillValid(e, old(S()), mid, Varint(size), true);
      if sizing {
        e := Count(w, size);
        Then(old(S()), mid, Varint(size), true, e, S(), w, true);
        return;
      }
      if written + size > maxSize {
        NoRoom(mid, w);
        Then(old(S()), mid, Varint(size), true, StreamFull, mid, w, true);
        return StreamFull;
      }
      substream := new OStream.Buffer(size);
      ghost var start := substream.S();
      e := substream.Encode(fields, slots);
      ExactFit(e, start, substream.S(), w);
      written := written + substream.written;
      out := out + substream.out;
      Joined(mid, w, S());
      Then(old(S()), mid, Varint(size), true, Done, S(), w, true);
      if substream.written != size {
        return SizeChanged;
      }
    }

    static lemma SizingDecides(e: Status, s: OState, t: OState, w: Bytes, good: bool)
      requires Fulfils(e, s, t, w, good) && s == OState(true, 0, 0, [])
      ensures e.Done? == good && !e.SizeChanged? && (e.Done? ==> t.written == |w|)
    {
    }

    static lemma NoRoom(s: OState, w: Bytes)
      requires StateOk(s) && !s.sizing && s.written + |w| > s.maxSize
      ensures Fulfils(StreamFull, s, s, w, true)
    {
    }

    /** The second pass fills the substream exactly: this is why "submsg size changed" cannot happen. */
    static lemma ExactFit(e: Status, s: OState, t: OState, w: Bytes)
      requires Fulfils(e, s, t, w, true) && s == OState(false, |w|, 0, [])
      ensures e.Done? && t.written == |w| && t.out == w
    {
      assert [] + w == w;
    }

    static lemma Joined(s: OState, w: Bytes, t: OState)
      requires StateOk(s) && !s.sizing && s.written + |w| <= s.maxSize &&
        t == s.(written := s.written + |w|, out := s.out + w)
      ensures Fulfils(Done, s, t, w, true)
    {
    }

    /** Items one after another without keys: the packed data, or its sizing. */
    method EncodeItems(f: Field, items: seq<Val>) returns (e: Status)
      requires Valid() && (forall k :: 0 <= k < |items| ==> ValOk(f, items[k])) && TableOk(f.sub) &&
        |PackedWire(f, items, 0)| < TWO_64
      modifies this
      ensures Fulfils(e, old(S()), S(), PackedWire(f, items, 0), ItemsGood(f, items, |items|))
      decreases items, 0
    {
      hide Fulfils;
      hide ValueWire;
      hide Encodable;
      hide ItemsGood;
      hide ValOk;
      hide PackedWire;
      e := Done;
      Nothing(S());
      NoItems(f, items);
      for k := 0 to |items|
        invariant e.Done? && Valid()
        invariant Fulfils(e, old(S()), S(), PackedUpTo(f, items, k), ItemsGood(f, items, k))
      {
        ghost var mid := S();
        PackedNext(f, items, k);
        ItemsGoodStep(f, items, k);
        e := EncodeValue(f, items[k]);
        Then(old(S()), mid, PackedUpTo(f, items, k), ItemsGood(f, items, k), e, S(), ValueWire(f, items[k]),
          Encodable(f, items[k]));
        if !e.Done? {
          Stop(old(S()), S(), PackedUpTo(f, items, k + 1), ItemsGood(f, items, k + 1), e, PackedWire(f, items, k + 1),
            ItemsGood(f, items, |items|));
          PackedSplit(f, items, k + 1);
          SomeBad(f, items, k + 1);
          return;
        }
        StillValid(e, old(S()), S(), PackedUpTo(f, items, k + 1), ItemsGood(f, items, k + 1));
      }
      PackedAll(f, items);
    }

    static lemma NoItems(f: Field, items: seq<Val>)
      ensures ItemsGood(f, items, 0)
    {
    }

    static lemma SomeBad(f: Field, items: seq<Val>, k: nat)
      requires k <= |items|
      ensures (ItemsGood(f, items, k) && ItemsGood(f, items, |items|)) == ItemsGood(f, items, |items|)
    {
    }

    static lemma StillValid(e: Status, s: OState, t: OState, w: Bytes, good: bool)
      requires Fulfils(e, s, t, w, good)
      ensures StateOk(t)
    {
    }

    static lemma PackedNext(f: Field, items: seq<Val>, k: nat)
      requires k < |items|
      ensures PackedUpTo(f, items, k + 1) == PackedUpTo(f, items, k) + ValueWire(f, items[k])
      ensures |ValueWire(f, items[k])| <= |PackedWire(f, items, 0)|
    {
      hide ValueWire;
      PackedSplit(f, items, k + 1);
    }

    static lemma PackedAll(f: Field, items: seq<Val>)
      ensures PackedUpTo(f, items, |items|) == PackedWire(f, items, 0)
    {
      PackedSplit(f, items, |items|);
      assert PackedUpTo(f, items, |items|) + [] == PackedUpTo(f, items, |items|);
    }

    /** The size of the packed data: computed for fixed-width items, counted for the others. */
    method PackedSize(f: Field, items: seq<Val>) returns (e: Status, size: nat)
      requires (forall k :: 0 <= k < |items| ==> ValOk(f, items[k])) && TableOk(f.sub) &&
        |PackedWire(f, items, 0)| < TWO_64
      ensures e.Done? <==> f.ltype.Fix32? || f.ltype.Fix64? || ItemsGood(f, items, |items|)
      ensures e.Done? ==> size == |PackedWire(f, items, 0)|
      ensures !e.SizeChanged?
      decreases items, 1
    {
      hide ValOk;
      hide ItemsGood;
      hide PackedWire;
      hide Fulfils;
      if f.ltype.Fix32? {
        FixedItems(f, items, 0);
        e, size := Done, 4 * |items|;
      } else if f.ltype.Fix64? {
        FixedItems(f, items, 0);
        e, size := Done, 8 * |items|;
      } else {
        var sizestream := new OStream.Sizing();
        ghost var empty := sizestream.S();
        e := sizestream.EncodeItems(f, items);
        SizingDecides(e, empty, sizestream.S(), PackedWire(f, items, 0), ItemsGood(f, items, |items|));
        size := sizestream.written;
      }
    }

    static lemma NumbersAreGood(f: Field, items: seq<Val>)
      requires Packable(f.ltype) && forall k :: 0 <= k < |items| ==> ValOk(f, items[k])
      ensures ItemsGood(f, items, |items|)
    {
      forall k | 0 <= k < |items|
        ensures Encodable(f, items[k])
      {
        assert ValOk(f, items[k]);
      }
    }

    method EncodePacked(f: Field, items: seq<Val>) returns (e: Status)
      requires Valid() && Packable(f.ltype) && (forall k :: 0 <= k < |items| ==> ValOk(f, items[k])) && TableOk(f.sub)
      requires |PackedWire(f, items, 0)| < TWO_64 && f.tag <= SIZE_MAX
      modifies this
      ensures Fulfils(e, old(S()), S(), Key(f.tag, 2) + LengthPrefixed(PackedWire(f, items, 0)), true)
      decreases items, 2
    {
      hide Fulfils;
      hide ValOk;
      hide ItemsGood;
      hide PackedWire;
      hide Varint;
      hide Key;
      NumbersAreGood(f, items);
      ghost var w := PackedWire(f, items, 0);
      e := EncodeTag(2, f.tag);
      ghost var s1 := S();
      if !e.Done? {
        Stop(old(S()), s1, Key(f.tag, 2), true, e, LengthPrefixed(w), true);
        return;
      }
      StillValid(e, old(S()), s1, Key(f.tag, 2), true);
      var size: nat;
      e, size := PackedSize(f, items);
      e := EncodeVarint(size);
      ghost var s2 := S();
      Then(old(S()), s1, Key(f.tag, 2), true, e, s2, Varint(size), true);
      assert Key(f.tag, 2) + Varint(size) + w == Key(f.tag, 2) + LengthPrefixed(w);
      if !e.Done? {
        Stop(old(S()), s2, Key(f.tag, 2) + Varint(size), true, e, w, true);
        return;
      }
      StillValid(e, old(S()), s2, Key(f.tag, 2) + Varint(size), true);
      if sizing {
        e := Count(w, size);
      } else {
        e := EncodeItems(f, items);
      }
      Then(old(S()), s2, Key(f.tag, 2) + Varint(size), true, e, S(), w, true);
    }

    method EncodeTagged(f: Field, v: Val) returns (e: Status)
      requires Valid() && ValOk(f, v) && TableOk(f.sub) && |ValueWire(f, v)| < TWO_64 && f.tag <= SIZE_MAX
      modifies this
      ensures Fulfils(e, old(S()), S(), Key(f.tag, WireType(f.ltype)) + ValueWire(f, v), Encodable(f, v))
      decreases v, 1
    {
      hide Fulfils;
      hide ValOk;
      hide ValueWire;
      hide Encodable;
      hide Key;
      ghost var key := Key(f.tag, WireType(f.ltype));
      e := EncodeTag(WireType(f.ltype), f.tag);
      ghost var mid := S();
      if !e.Done? {
        Stop(old(S()), mid, key, true, e, ValueWire(f, v), Encodable(f, v));
        return;
      }
      StillValid(e, old(S()), mid, key, true);
      e := EncodeValue(f, v);
      Then(old(S()), mid, key, true, e, S(), ValueWire(f, v), Encodable(f, v));
    }

    method EncodeKeyed(f: Field, items: seq<Val>) returns (e: Status)
      requires Valid() && (forall k :: 0 <= k < |items| ==> ValOk(f, items[k])) && TableOk(f.sub)
      requires |KeyedWire(f, items, 0)| < TWO_64 && f.tag <= SIZE_MAX
      modifies this
      ensures Fulfils(e, old(S()), S(), KeyedWire(f, items, 0), ItemsGood(f, items, |items|))
      decreases items, 0
    {
      hide Fulfils;
      hide ValueWire;
      hide Encodable;
      hide ItemsGood;
      hide ValOk;
      hide KeyedWire;
      hide Key;
      e := Done;
      Nothing(S());
      NoItems(f, items);
      for k := 0 to |items|
        invariant e.Done? && Valid()
        invariant Fulfils(e, old(S()), S(), KeyedUpTo(f, items, k), ItemsGood(f, items, k))
      {
        ghost var mid := S();
        ghost var w := Key(f.tag, WireType(f.ltype)) + ValueWire(f, items[k]);
        KeyedNext(f, items, k);
        ItemsGoodStep(f, items, k);
        e := EncodeTagged(f, items[k]);
        Then(old(S()), mid, KeyedUpTo(f, items, k), ItemsGood(f, items, k), e, S(), w, Encodable(f, items[k]));
        if !e.Done? {
          Stop(old(S()), S(), KeyedUpTo(f, items, k + 1), ItemsGood(f, items, k + 1), e, KeyedWire(f, items, k + 1),
            ItemsGood(f, items, |items|));
          KeyedSplit(f, items, k + 1);
          SomeBad(f, items, k + 1);
          return;
        }
        StillValid(e, old(S()), S(), KeyedUpTo(f, items, k + 1), ItemsGood(f, items, k + 1));
      }
      KeyedAll(f, items);
    }

    static lemma KeyedNext(f: Field, items: seq<Val>, k: nat)
      requires k < |items|
      ensures KeyedUpTo(f, items, k + 1) == KeyedUpTo(f, items, k) +
        (Key(f.tag, WireType(f.ltype)) + ValueWire(f, items[k]))
      ensures |ValueWire(f, items[k])| <= |KeyedWire(f, items, 0)|
    {
      hide ValueWire;
      hide Key;
      KeyedSplit(f, items, k + 1);
    }

    static lemma KeyedAll(f: Field, items: seq<Val>)
      ensures KeyedUpTo(f, items, |items|) == KeyedWire(f, items, 0)
    {
      KeyedSplit(f, items, |items|);
      assert KeyedUpTo(f, items, |items|) + [] == KeyedUpTo(f, items, |items|);
    }

    /** encode_array. */
    method EncodeArray(f: Field, items: seq<Val>) returns (e: Status)
      requires Valid() && SlotOk(f, Many(items)) && TableOk(f.sub) && |SlotWire(f, Many(items))| < TWO_64 &&
        f.tag <= SIZE_MAX
      modifies this
      ensures Fulfils(e, old(S()), S(), SlotWire(f, Many(items)), SlotEncodable(f, Many(items)))
      decreases items, 3
    {
      hide Fulfils;
      hide ValOk;
      hide Encodable;
      hide Varint;
      hide Key;
      if |items| == 0 {
        Nothing(S());
        return Done;
      }
      if |items| > f.arraySize {
        Refused(S(), SlotWire(f, Many(items)), ArrayMax);
        return ArrayMax;
      }
      hide PackedWire;
      hide KeyedWire;
      if Packable(f.ltype) {
        e := EncodePacked(f, items);
        NumbersAreGood(f, items);
      } else {
        e := EncodeKeyed(f, items);
      }
      assert SlotEncodable(f, Many(items)) == ItemsGood(f, items, |items|);
    }

    /** encode_basic_field: only a present field is written. */
    method EncodeField(f: Field, s: Slot) returns (e: Status)
      requires Valid() && SlotOk(f, s) && TableOk(f.sub) && |SlotWire(f, s)| < TWO_64 && f.tag <= SIZE_MAX
      modifies this
      ensures Fulfils(e, old(S()), S(), SlotWire(f, s), SlotEncodable(f, s))
      decreases s
    {
      hide Fulfils;
      hide ValOk;
      hide Encodable;
      hide ValueWire;
      hide Key;
      hide ZeroValue;
      if s.Many? {
        e := EncodeArray(f, s.items);
      } else if !Present(f, s) {
        Nothing(S());
        e := Done;
      } else if s.Alt? {
        e := EncodeTagged(f, s.chosen.value);
      } else {
        e := EncodeTagged(f, s.v);
      }
    }

    /** pb_encode: every field in table order. Whatever the data, it ends well exactly when the data is encodable and
        fits, and then the bytes counted or written are the struct's. */
    method Encode(fields: seq<Field>, slots: seq<Slot>) returns (e: Status)
      requires Valid() && StructOk(fields, slots) && TableOk(fields) && |StructWire(fields, slots, 0)| < TWO_64
      modifies this
      ensures Fulfils(e, old(S()), S(), StructWire(fields, slots, 0), StructEncodable(fields, slots))
      decreases slots, 0
    {
      hide Fulfils;
      hide SlotWire;
      hide SlotEncodable;
      hide SlotsGood;
      hide SlotOk;
      hide OneChosen;
      hide StructWire;
      SlotsOf(fields, slots);
      e := Done;
      Nothing(S());
      for i := 0 to |slots|
        invariant e.Done? && Valid()
        invariant Fulfils(e, old(S()), S(), StructUpTo(fields, slots, i), SlotsGood(fields, slots, i))
      {
        ghost var mid := S();
        StructNext(fields, slots, i);
        SlotsGoodStep(fields, slots, i);
        e := EncodeField(fields[i], slots[i]);
        Then(old(S()), mid, StructUpTo(fields, slots, i), SlotsGood(fields, slots, i), e, S(),
          SlotWire(fields[i], slots[i]), SlotEncodable(fields[i], slots[i]));
        if !e.Done? {
          Stop(old(S()), S(), StructUpTo(fields, slots, i + 1), SlotsGood(fields, slots, i + 1), e,
            StructWire(fields, slots, i + 1), SlotsGood(fields, slots, |slots|));
          StructSplit(fields, slots, i + 1);
          SomeSlotBad(fields, slots, i + 1);
          return;
        }
        StillValid(e, old(S()), S(), StructUpTo(fields, slots, i + 1), SlotsGood(fields, slots, i + 1));
      }
      StructWhole(fields, slots);
    }

    static lemma SlotsOf(fields: seq<Field>, slots: seq<Slot>)
      requires StructOk(fields, slots)
      ensures |fields| == |slots| && SlotsGood(fields, slots, 0)
      ensures SlotsGood(fields, slots, |slots|) == StructEncodable(fields, slots)
    {
      hide SlotEncodable;
      hide SlotOk;
    }

    static lemma SomeSlotBad(fields: seq<Field>, slots: seq<Slot>, k: nat)
      requires k <= |slots| == |fields|
      ensures (SlotsGood(fields, slots, k) && SlotsGood(fields, slots, |slots|)) == SlotsGood(fields, slots, |slots|)
    {
      hide SlotEncodable;
    }

    static lemma StructNext(fields: seq<Field>, slots: seq<Slot>, i: nat)
      requires i < |slots| == |fields|
      ensures StructUpTo(fields, slots, i + 1) == StructUpTo(fields, slots, i) + SlotWire(fields[i], slots[i])
      ensures |SlotWire(fields[i], slots[i])| <= |StructWire(fields, slots, 0)|
    {
      hide SlotWire;
      StructSplit(fields, slots, i + 1);
    }
  }

  /** pb_get_encoded_size agrees with pb_encode, and a buffer of that size is enough. */
  method EncodeSized(fields: seq<Field>, slots: seq<Slot>) returns (e: Status, bytes: Bytes)
    requires StructOk(fields, slots) && TableOk(fields) && |StructWire(fields, slots, 0)| < TWO_64
    ensures e.Done? <==> StructEncodable(fields, slots)
    ensures e.Done? ==> bytes == StructWire(fields, slots, 0)
  {
    hide StructWire;
    hide StructEncodable;
    hide StructOk;
    hide Fulfils;
    ghost var w, good := StructWire(fields, slots, 0), StructEncodable(fields, slots);
    var sizes := new OStream.Sizing();
    ghost var empty := sizes.S();
    bytes := [];
    e := sizes.Encode(fields, slots);
    OStream.SizingDecides(e, empty, sizes.S(), w, good);
    if e.Done? {
      var stream := new OStream.Buffer(sizes.written);
      ghost var start := stream.S();
      e := stream.Encode(fields, slots);
      OStream.ExactFit(e, start, stream.S(), w);
      bytes := stream.out;
    }
  }
}
