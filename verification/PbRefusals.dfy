/** What nanopb's decoder refuses: forms cut short, values too large for their fields, arrays too long, unknown wire
    types. */
module PbRefusals {
  import opened Keys
  import opened Coding
  import opened Pb
  import opened PbDecode
  import opened PbRoundTrip
  import opened PbLaws

  // ---- numbers of the wrong size -----------------------------------------------------------------------------

  /** An unsigned field takes a number exactly when its width holds it. */
  lemma UnsignedAccepted(f: Field, n: nat, rest: Bytes)
    requires f.ltype.UVarInt? && n < TWO_64
    ensures var r := ReadNumber(f, Varint(n) + rest);
      && (r.Some? ==> r.value == (n, rest))
      && (r.Some? <==>
            (f.dataSize == 1 && n < 0x100) || (f.dataSize == 2 && n < 0x1_0000) ||
            (f.dataSize == 4 && n < 0x1_0000_0000) || f.dataSize == 8)
  {
    hide Varint;
    hide ParseVarint;
    Varint64Back(n, rest);
  }

  /** So does a zigzag field. */
  lemma ZigZagAccepted(f: Field, n: int, rest: Bytes)
    requires f.ltype.SVarInt? && SignedFits(n, 8)
    ensures var r := ReadNumber(f, Varint(ZigZag(n)) + rest);
      && (r.Some? ==> r.value == (n, rest))
      && (r.Some? <==>
            (f.dataSize == 1 && -0x80 <= n < 0x80) || (f.dataSize == 2 && -0x8000 <= n < 0x8000) ||
            (f.dataSize == 4 && -0x8000_0000 <= n < 0x8000_0000) || f.dataSize == 8)
  {
    hide Varint;
    hide ParseVarint;
    hide ZigZag;
    hide UnZigZag;
    ZigZagBack(n);
    Varint64Back(ZigZag(n), rest);
  }

  /** A plain signed field of at most 32 bits takes the low half of any 64-bit number, as a signed one, if its width
      holds that. */
  lemma LowHalfAccepted(f: Field, n: nat, low: int, rest: Bytes)
    requires f.ltype.VarInt? && f.dataSize in {1, 2, 4} && n < TWO_64
    requires -0x8000_0000 <= low < 0x8000_0000 && (n - low) % 0x1_0000_0000 == 0
    ensures var r := ReadNumber(f, Varint(n) + rest);
      && (r.Some? ==> r.value == (low, rest))
      && (r.Some? <==>
            f.dataSize == 4 || (f.dataSize == 2 && -0x8000 <= low < 0x8000) ||
            (f.dataSize == 1 && -0x80 <= low < 0x80))
  {
    hide Varint;
    hide ParseVarint;
    hide Signed32;
    LowHalf(n, low);
    Varint64Back(n, rest);
  }

  lemma LowHalf(n: nat, low: int)
    requires -0x8000_0000 <= low < 0x8000_0000 && (n - low) % 0x1_0000_0000 == 0
    ensures Signed32(n) == low
  {
    var q := (n - low) / 0x1_0000_0000;
    assert n == low + 0x1_0000_0000 * q;
  }

  // ---- strings of the wrong size -----------------------------------------------------------------------------

  /** A byte array fits below its count and within 255 bytes, a string below its terminator, fixed bytes exactly or not
      at all. */
  lemma BlobAccepted(f: Field, b: Bytes, rest: Bytes)
    requires (f.ltype.BytesArray? || f.ltype.Text? || f.ltype.FixedBytes?) && |b| < TWO_32
    ensures var r := ReadBlob(f, LengthPrefixed(b) + rest);
      && (r.Some? ==> r.value.1 == rest)
      && (r.Some? && f.ltype.BytesArray? ==> r.value.0 == b)
      && (r.Some? <==> match f.ltype
            case BytesArray => |b| <= 255 && |b| + 1 <= f.dataSize
            case Text => |b| < f.dataSize
            case _ => |b| == 0 || (|b| == f.dataSize && |b| <= 255))
  {
    hide Varint;
    hide Read32;
    assert LengthPrefixed(b) + rest == Varint(|b|) + (b + rest);
    Read32Back(|b|, b + rest);
    assert (b + rest)[..|b|] == b && (b + rest)[|b|..] == rest;
  }

  // ---- values cut off ----------------------------------------------------------------------------------------

  lemma NumberCut(f: Field, v: int, n: nat)
    requires NumberFits(f.ltype, f.dataSize, v) && n < |NumberWire(f.ltype, v)|
    ensures ReadNumber(f, NumberWire(f.ltype, v)[..n]) == None
    ensures Skip(WireType(f.ltype), NumberWire(f.ltype, v)[..n]) == None
  {
    hide Varint;
    hide ParseVarint;
    hide SkipVarint;
    hide Fixed32;
    hide Fixed64;
    if !f.ltype.Fix32? && !f.ltype.Fix64? {
      var u := if f.ltype.VarInt? then Cast64(v) else if f.ltype.SVarInt? then ZigZag(v) else v;
      VarintCut(u, n, 5, TWO_64);
      VarintCut(u, n, 10, TWO_64);
      SkipVarintCut(u, n);
    }
  }

  lemma {:induction false} SkipVarintCut(v: nat, n: nat)
    requires n < |Varint(v)|
    ensures SkipVarint(Varint(v)[..n]) == None
  {
    if v >= 128 && n > 0 {
      SkipVarintCut(v / 128, n - 1);
      assert Varint(v)[..n][1..] == Varint(v / 128)[..n - 1];
    }
  }

  lemma PrefixedCut(b: Bytes, n: nat)
    requires |b| < TWO_32 && n < |LengthPrefixed(b)|
    ensures match Read32(LengthPrefixed(b)[..n]) case NoNumber => true case Number(size, rest) => size > |rest|
  {
    hide Varint;
    hide ParseVarint;
    var a := Varint(|b|);
    Front(a, b, n);
    if n < |a| {
      VarintCut(|b|, n, 5, TWO_64);
    } else {
      hide Read32;
      Read32Back(|b|, b[..n - |a|]);
    }
  }

  lemma ValueCut(f: Field, v: Val, n: nat, prev: Val)
    requires ValOk(f, v) && |ValueWire(f, v)| < TWO_32 && n < |ValueWire(f, v)|
    ensures ReadValue(f, ValueWire(f, v)[..n], prev) == None
    ensures Skip(WireType(f.ltype), ValueWire(f, v)[..n]) == None
  {
    hide NumberWire;
    hide ReadNumber;
    hide LengthPrefixed;
    hide Read32;
    hide StructWire;
    hide ReadStruct;
    match v {
      case Num(x) => NumberCut(f, x, n);
      case Blob(b) =>
        PrefixedLength(b);
        PrefixedCut(b, n);
      case Sub(slots) =>
        PrefixedLength(StructWire(f.sub, slots, 0));
        PrefixedCut(StructWire(f.sub, slots, 0), n);
    }
  }

  lemma FieldCut(f: Field, v: Val, n: nat, slot: Slot, count: nat)
    requires ValOk(f, v) && |ValueWire(f, v)| < TWO_32 && n < |ValueWire(f, v)|
    ensures ReadField(f, WireType(f.ltype), ValueWire(f, v)[..n], slot, count) == None
  {
    hide ReadValue;
    hide ValueWire;
    hide ValOk;
    hide Skip;
    match slot {
      case One(prev) => ValueCut(f, v, n, prev);
      case Opt(_, prev) => ValueCut(f, v, n, prev);
      case Alt(c) => ValueCut(f, v, n, if c.Some? then c.value else DefaultVal(f));
      case Many(items) => ValueCut(f, v, n, PrevItem(f, items, if f.sized then |items| else count));
    }
  }

  // ---- messages that end badly -------------------------------------------------------------------------------

  /** Whatever came before, this is not read. */
  ghost predicate Refused(fields: seq<Field>, b: Bytes) {
    forall d: Reading :: ReadFields(fields, b, d) == None
  }

  function RecordWire(r: Record): Bytes {
    Key(r.f.tag, WireType(r.f.ltype)) + ValueWire(r.f, r.v)
  }

  /** A record of the table's own or an unknown field. */
  ghost predicate WellFormed(fields: seq<Field>, r: Record) {
    Unknown(fields, r) || exists i: nat :: Known(fields, r, i)
  }

  lemma KeyCut(fields: seq<Field>, tag: nat, wire: nat, n: nat)
    requires 0 < n < |Key(tag, wire)|
    ensures Refused(fields, Key(tag, wire)[..n])
  {
    hide Varint;
    hide ParseVarint;
    VarintCut(8 * tag + wire, n, 5, TWO_64);
  }

  /** A record cut off, in its key or in its value. */
  lemma RecordCut(fields: seq<Field>, r: Record, n: nat)
    requires Table(fields) && WellFormed(fields, r) && 0 < n < |RecordWire(r)|
    ensures Refused(fields, RecordWire(r)[..n])
  {
    hide Key;
    hide ValueWire;
    hide ReadFields;
    hide ReadAt;
    hide Known;
    hide Unknown;
    hide Table;
    var k, v := Key(r.f.tag, WireType(r.f.ltype)), ValueWire(r.f, r.v);
    Front(k, v, n);
    if n < |k| {
      KeyCut(fields, r.f.tag, WireType(r.f.ltype), n);
    } else {
      var tail := k + v[..n - |k|];
      forall d: Reading
        ensures ReadFields(fields, tail, d) == None
      {
        if Unknown(fields, r) {
          UnknownCut(fields, r, n - |k|, d);
        } else {
          var i: nat :| Known(fields, r, i);
          KnownCut(fields, r, i, n - |k|, d);
        }
      }
    }
  }

  lemma UnknownCut(fields: seq<Field>, r: Record, n: nat, d: Reading)
    requires Unknown(fields, r) && n < |ValueWire(r.f, r.v)|
    ensures ReadFields(fields, Key(r.f.tag, WireType(r.f.ltype)) + ValueWire(r.f, r.v)[..n], d) == None
  {
    hide Varint;
    hide Read32;
    hide Skip;
    hide ValueWire;
    hide ReadAt;
    hide Find;
    hide ReadValue;
    var key, body := 8 * r.f.tag + WireType(r.f.ltype), ValueWire(r.f, r.v)[..n];
    Read32Back(key, body);
    assert key / 8 == r.f.tag && key % 8 == WireType(r.f.ltype);
    assert Find(fields, d.pos, r.f.tag).None?;
    ValueCut(r.f, r.v, n, r.v);
    KeyNotEmpty(r.f.tag, WireType(r.f.ltype));
  }

  lemma KnownCut(fields: seq<Field>, r: Record, i: nat, n: nat, d: Reading)
    requires Table(fields) && Known(fields, r, i) && n < |ValueWire(r.f, r.v)|
    ensures ReadFields(fields, Key(r.f.tag, WireType(r.f.ltype)) + ValueWire(r.f, r.v)[..n], d) == None
  {
    hide ReadFields;
    hide ReadField;
    hide Key;
    hide ValueWire;
    hide ValOk;
    hide Table;
    KeyBack(fields, i, WireType(r.f.ltype), ValueWire(r.f, r.v)[..n], d);
    if |d.slots| == |fields| {
      FieldCut(r.f, r.v, n, d.slots[i], if FixedCount(r.f) && d.fixed != Some(i) then 0 else d.count);
    }
  }

  lemma PackedFieldCut(f: Field, b: Bytes, n: nat, slot: Slot, count: nat)
    requires Packable(f.ltype) && |b| < TWO_32 && n < |LengthPrefixed(b)| && slot.Many?
    ensures ReadField(f, 2, LengthPrefixed(b)[..n], slot, count) == None
  {
    hide LengthPrefixed;
    hide Read32;
    hide ReadPacked;
    PrefixedCut(b, n);
  }

  /** A packed array cut off. */
  lemma PackedCut(fields: seq<Field>, i: nat, b: Bytes, n: nat, d: Reading)
    requires Table(fields) && i < |fields| && fields[i].htype.Repeated? && Packable(fields[i].ltype) && |b| < TWO_32
    requires 0 < n < |Key(fields[i].tag, 2) + LengthPrefixed(b)| && |d.slots| == |fields| && d.slots[i].Many?
    ensures ReadFields(fields, (Key(fields[i].tag, 2) + LengthPrefixed(b))[..n], d) == None
  {
    hide Key;
    hide LengthPrefixed;
    hide ReadFields;
    hide ReadField;
    hide Table;
    var k, v := Key(fields[i].tag, 2), LengthPrefixed(b);
    Front(k, v, n);
    if n < |k| {
      KeyCut(fields, fields[i].tag, 2, n);
    } else {
      var m := n - |k|;
      KeyBack(fields, i, 2, v[..m], d);
      PackedFieldCut(fields[i], b, m, d.slots[i], if FixedCount(fields[i]) && d.fixed != Some(i) then 0 else d.count);
    }
  }

  /** An unknown field of a wire type that has no length: groups and the two unused ones. */
  lemma UnknownWireType(fields: seq<Field>, tag: nat, wire: nat, rest: Bytes)
    requires tag < 0x2000_0000 && (tag == 0 ==> fields != []) && wire in {3, 4, 6, 7}
    requires forall i :: 0 <= i < |fields| ==> fields[i].tag != tag
    ensures Refused(fields, Key(tag, wire) + rest)
  {
    hide Varint;
    hide Read32;
    hide Find;
    hide ReadAt;
    var key := 8 * tag + wire;
    Read32Back(key, rest);
    KeyNotEmpty(tag, wire);
    forall d: Reading
      ensures ReadFields(fields, Key(tag, wire) + rest, d) == None
    {
      assert key / 8 == tag && key % 8 == wire;
      assert Find(fields, d.pos, tag).None?;
    }
  }

  /** A message that ends badly is refused, whatever whole records come before. */
  lemma {:induction false} EndsBadly(fields: seq<Field>, rs: seq<Record>, tail: Bytes, d: Reading)
    requires Table(fields) && (forall r :: r in rs ==> WellFormed(fields, r)) && Refused(fields, tail)
    ensures ReadFields(fields, RecordsWire(rs) + tail, d) == None
    decreases |rs|
  {
    hide ReadFields;
    hide Key;
    hide ValueWire;
    hide Unknown;
    hide Known;
    hide Table;
    hide ReadAt;
    if rs == [] {
      assert RecordsWire(rs) + tail == tail;
    } else {
      var r, more := rs[0], RecordsWire(rs[1..]) + tail;
      var k, v := Key(r.f.tag, WireType(r.f.ltype)), ValueWire(r.f, r.v);
      assert RecordsWire(rs) + tail == k + (v + more);
      assert WellFormed(fields, r);
      if Unknown(fields, r) {
        SkipRecord(fields, r, more, d);
        EndsBadly(fields, rs[1..], tail, d);
      } else {
        var j: nat :| Known(fields, r, j);
        KnownRecord(fields, r, j, more, d);
        var a := ReadAt(fields, j, WireType(r.f.ltype), v + more, d);
        if a.Some? {
          EndsBadly(fields, rs[1..], tail, a.value.0);
        }
      }
    }
  }

  /** The main result: a message of known and unknown records, cut off anywhere inside its last one, is refused. */
  lemma TruncatedRefused(fields: seq<Field>, rs: seq<Record>, last: Record, n: nat, slots: seq<Slot>)
    requires Table(fields) && (forall r :: r in rs ==> WellFormed(fields, r)) && WellFormed(fields, last)
    requires 0 < n < |RecordWire(last)|
    ensures ReadStruct(fields, RecordsWire(rs) + RecordWire(last)[..n], slots) == None
  {
    hide ReadFields;
    hide WellFormed;
    RecordCut(fields, last, n);
    EndsBadly(fields, rs, RecordWire(last)[..n], Reading(slots, 0, {}, None, 0));
  }

  // ---- required fields ---------------------------------------------------------------------------------------

  /** Each of the first 64 required fields has come. */
  predicate FirstSeen(fields: seq<Field>, seen: set<nat>) {
    forall i :: 0 <= i < |fields| && fields[i].htype.Required? && RequiredBefore(fields, i) < 64 ==>
      RequiredBefore(fields, i) in seen
  }

  /** They must have come, and none beyond. */
  lemma RequiredExactly(fields: seq<Field>, seen: set<nat>)
    ensures AllSeen(fields, seen) <==> FirstSeen(fields, seen)
  {
    var all := RequiredBefore(fields, |fields|);
    forall i | 0 <= i < |fields| && fields[i].htype.Required?
      ensures RequiredBefore(fields, i) < all
    {
      RequiredApart(fields, i, |fields|);
    }
    forall k | FirstSeen(fields, seen) && 0 <= k < Min(all, 64)
      ensures k in seen
    {
      var i := RequiredAt(fields, |fields|, k);
    }
  }

  lemma {:induction false} RequiredAt(fields: seq<Field>, n: nat, k: nat) returns (i: nat)
    requires n <= |fields| && k < RequiredBefore(fields, n)
    ensures i < n && fields[i].htype.Required? && RequiredBefore(fields, i) == k
    decreases n
  {
    i := n - 1;
    if k != RequiredBefore(fields, i) || !fields[i].htype.Required? {
      i := RequiredAt(fields, n - 1, k);
    }
  }

  // ---- where a message ends ----------------------------------------------------------------------------------

  /** The same outcome, with different bytes left. */
  predicate Alike<T(==)>(a: Option<(T, Bytes)>, b: Option<(T, Bytes)>, x: Bytes, y: Bytes) {
    (a.None? ==> b == None) && (a.Some? ==> a.value.1 == x && b == Some((a.value.0, y)))
  }

  lemma ValueAlike(f: Field, v: Val, x: Bytes, y: Bytes, prev: Val)
    requires FieldTable(f) && ValOk(f, v) && |ValueWire(f, v)| < TWO_32
    ensures Alike(ReadValue(f, ValueWire(f, v) + x, prev), ReadValue(f, ValueWire(f, v) + y, prev), x, y)
  {
    hide NumberWire;
    hide ReadNumber;
    hide LengthPrefixed;
    hide Varint;
    hide Read32;
    hide StructWire;
    hide ReadStruct;
    match v {
      case Num(n) =>
        NumberBack(f, n, x);
        NumberBack(f, n, y);
      case Blob(b) =>
        PrefixedEnds(b, x);
        PrefixedEnds(b, y);
        assert (b + x)[..|b|] == b == (b + y)[..|b|];
      case Sub(slots) =>
        var b := StructWire(f.sub, slots, 0);
        PrefixedEnds(b, x);
        PrefixedEnds(b, y);
        assert (b + x)[..|b|] == b == (b + y)[..|b|];
    }
  }

  lemma FieldAlike(f: Field, v: Val, x: Bytes, y: Bytes, slot: Slot, count: nat)
    requires FieldTable(f) && ValOk(f, v) && |ValueWire(f, v)| < TWO_32
    ensures
      var w := WireType(f.ltype);
      var a, b := ReadField(f, w, ValueWire(f, v) + x, slot, count), ReadField(f, w, ValueWire(f, v) + y, slot, count);
      (a.None? ==> b == None) && (a.Some? ==> a.value.2 == x && b == Some((a.value.0, a.value.1, y)))
  {
    hide ReadValue;
    hide ValueWire;
    hide ValOk;
    hide FieldTable;
    match slot {
      case One(prev) => ValueAlike(f, v, x, y, prev);
      case Opt(_, prev) => ValueAlike(f, v, x, y, prev);
      case Alt(c) => ValueAlike(f, v, x, y, if c.Some? then c.value else DefaultVal(f));
      case Many(items) => ValueAlike(f, v, x, y, PrevItem(f, items, if f.sized then |items| else count));
    }
  }

  /** How a record is read does not depend on what follows it. */
  lemma RecordAlike(fields: seq<Field>, r: Record, j: nat, x: Bytes, y: Bytes, d: Reading)
    requires Table(fields) && Known(fields, r, j)
    ensures
      var w := WireType(r.f.ltype);
      Alike(ReadAt(fields, j, w, ValueWire(r.f, r.v) + x, d), ReadAt(fields, j, w, ValueWire(r.f, r.v) + y, d), x, y)
  {
    hide ReadField;
    hide ValueWire;
    hide ValOk;
    hide Update;
    hide Table;
    TableField(fields, j);
    if |d.slots| == |fields| {
      FieldAlike(r.f, r.v, x, y, d.slots[j], if FixedCount(r.f) && d.fixed != Some(j) then 0 else d.count);
    }
  }

  /** A zero byte in place of a key ends the message: what follows is not looked at. */
  lemma {:induction false} ZeroEnds(fields: seq<Field>, rs: seq<Record>, rest: Bytes, d: Reading)
    requires Table(fields) && forall r :: r in rs ==> WellFormed(fields, r)
    ensures ReadFields(fields, RecordsWire(rs) + ([0] + rest), d) == ReadFields(fields, RecordsWire(rs), d)
    decreases |rs|
  {
    hide Key;
    hide ValueWire;
    hide Unknown;
    hide Known;
    hide Table;
    hide ReadAt;
    var tail := [0] + rest;
    if rs == [] {
      assert RecordsWire(rs) + tail == tail;
      ZeroKey(rest);
    } else {
      hide ReadFields;
      var r, more := rs[0], RecordsWire(rs[1..]);
      var k, v := Key(r.f.tag, WireType(r.f.ltype)), ValueWire(r.f, r.v);
      assert RecordsWire(rs) + tail == k + (v + (more + tail));
      assert WellFormed(fields, r);
      if Unknown(fields, r) {
        SkipRecord(fields, r, more + tail, d);
        SkipRecord(fields, r, more, d);
        ZeroEnds(fields, rs[1..], rest, d);
      } else {
        var j: nat :| Known(fields, r, j);
        KnownRecord(fields, r, j, more + tail, d);
        KnownRecord(fields, r, j, more, d);
        RecordAlike(fields, r, j, more + tail, more, d);
        var a := ReadAt(fields, j, WireType(r.f.ltype), v + more, d);
        if a.Some? {
          ZeroEnds(fields, rs[1..], rest, a.value.0);
        }
      }
    }
  }

  lemma ZeroKey(rest: Bytes)
    ensures Read32([0] + rest) == Number(0, rest)
  {
    assert Varint(0) == [0];
    Read32Back(0, rest);
  }

  // ---- arrays too long ---------------------------------------------------------------------------------------

  /** How many of the records are of the field. */
  function Times(rs: seq<Record>, f: Field): nat {
    if rs == [] then 0 else (if rs[0].f == f then 1 else 0) + Times(rs[1..], f)
  }

  lemma ItemField(f: Field, b: Bytes, items: seq<Val>, count: nat)
    requires f.sized
    ensures var a := ReadField(f, WireType(f.ltype), b, Many(items), count);
      a.Some? ==> a.value.0.Many? && |a.value.0.items| == |items| + 1 && |items| < f.arraySize
  {
    hide ReadValue;
  }

  /** One record of an array with a count of its own: one item more, if there is room. */
  lemma ItemRead(fields: seq<Field>, i: nat, r: Record, more: Bytes, d: Reading)
    requires Table(fields) && Known(fields, r, i) && fields[i].htype.Repeated? && fields[i].sized
    requires |d.slots| == |fields| && d.slots[i].Many?
    ensures var a := ReadAt(fields, i, WireType(r.f.ltype), ValueWire(r.f, r.v) + more, d);
      a.Some? ==>
        var s := a.value.0.slots;
        && |s| == |fields| && s[i].Many? && |s[i].items| == |d.slots[i].items| + 1
        && |d.slots[i].items| < fields[i].arraySize
  {
    hide ReadField;
    hide ValueWire;
    hide ValOk;
    hide Table;
    var items := d.slots[i].items;
    ItemField(r.f, ValueWire(r.f, r.v) + more, items, d.count);
  }

  /** A record of another field leaves the array alone. */
  lemma ArrayStays(fields: seq<Field>, i: nat, j: nat, wire: nat, body: Bytes, d: Reading)
    requires i < |fields| && j < |fields| && i != j && fields[i].htype.Repeated? && |d.slots| == |fields|
    ensures var a := ReadAt(fields, j, wire, body, d);
      a.Some? ==> |a.value.0.slots| == |fields| && a.value.0.slots[i] == d.slots[i]
  {
    hide ReadField;
  }

  lemma {:induction false} OverfullFrom(fields: seq<Field>, rs: seq<Record>, i: nat, d: Reading)
    requires Table(fields) && i < |fields| && fields[i].htype.Repeated? && fields[i].sized
    requires forall r :: r in rs ==> WellFormed(fields, r)
    requires |d.slots| == |fields| && d.slots[i].Many? && |d.slots[i].items| <= fields[i].arraySize
    requires |d.slots[i].items| + Times(rs, fields[i]) > fields[i].arraySize
    ensures ReadFields(fields, RecordsWire(rs), d) == None
    decreases |rs|
  {
    hide ReadFields;
    hide Key;
    hide ValueWire;
    hide Table;
    hide ReadAt;
    var r, more := rs[0], RecordsWire(rs[1..]);
    assert WellFormed(fields, r);
    if Unknown(fields, r) {
      SkipRecord(fields, r, more, d);
      NotOfTable(fields, r, i);
      OverfullFrom(fields, rs[1..], i, d);
    } else {
      var j: nat :| Known(fields, r, j);
      KnownRecord(fields, r, j, more, d);
      var a := ReadAt(fields, j, WireType(r.f.ltype), ValueWire(r.f, r.v) + more, d);
      if a.Some? {
        if j == i {
          ItemRead(fields, i, r, more, d);
        } else {
          OtherField(fields, i, j);
          ArrayStays(fields, i, j, WireType(r.f.ltype), ValueWire(r.f, r.v) + more, d);
        }
        OverfullFrom(fields, rs[1..], i, a.value.0);
      }
    }
  }

  lemma NotOfTable(fields: seq<Field>, r: Record, i: nat)
    requires Unknown(fields, r) && i < |fields|
    ensures r.f != fields[i]
  {
  }

  lemma OtherField(fields: seq<Field>, i: nat, j: nat)
    requires Table(fields) && i < |fields| && j < |fields| && i != j
    ensures fields[i] != fields[j]
  {
  }

  /** More records of an array field than the array has room for: the message is refused, whatever else it holds. */
  lemma OverfullRefused(fields: seq<Field>, rs: seq<Record>, i: nat)
    requires Table(fields) && i < |fields| && fields[i].htype.Repeated? && fields[i].sized
    requires (forall r :: r in rs ==> WellFormed(fields, r)) && Times(rs, fields[i]) > fields[i].arraySize
    ensures ReadStruct(fields, RecordsWire(rs), Defaults(fields)) == None
  {
    hide ReadFields;
    hide WellFormed;
    assert Defaults(fields)[i] == DefaultSlot(fields[i]);
    OverfullFrom(fields, rs, i, Reading(Defaults(fields), 0, {}, None, 0));
  }

  /** The same packed. */
  lemma {:induction false} PackedOverfull(f: Field, vals: seq<Val>, k: nat, items: seq<Val>, count: nat)
    requires FieldTable(f) && Packable(f.ltype) && k <= |vals| && forall j :: 0 <= j < |vals| ==> ValOk(f, vals[j])
    requires |PackedWire(f, vals, k)| < TWO_32
    requires count <= f.arraySize < count + (|vals| - k)
    ensures ReadPacked(f, PackedWire(f, vals, k), items, count) == None
    decreases |vals| - k
  {
    hide ReadValue;
    hide ValueWire;
    hide ValOk;
    hide FieldTable;
    var v, more := ValueWire(f, vals[k]), PackedWire(f, vals, k + 1);
    ItemNotEmpty(f, vals[k]);
    ValueEnds(f, vals[k], more, PrevItem(f, items, count));
    var r := ReadValue(f, v + more, PrevItem(f, items, count));
    if count < f.arraySize && r.Some? {
      PackedOverfull(f, vals, k + 1, Store(items, count, r.value.0), count + 1);
    }
  }

  lemma ItemNotEmpty(f: Field, v: Val)
    requires ValOk(f, v) && Packable(f.ltype)
    ensures ValueWire(f, v) != []
  {
    hide Varint;
  }
}
