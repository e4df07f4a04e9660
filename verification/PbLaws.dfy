/** What nanopb puts on the wire and makes of it, field by field, in terms of the values alone. */
module PbLaws {
  import opened Keys
  import opened Coding
  import opened Pb
  import opened PbDecode
  import opened PbRoundTrip

  // ---- which fields are written ------------------------------------------------------------------------------

  lemma KeyNotEmpty(tag: nat, wire: nat)
    ensures |Key(tag, wire)| > 0
  {
  }

  /** A fixed-count array has at least one item. */
  predicate NoEmptyArray(fields: seq<Field>) {
    forall i :: 0 <= i < |fields| && fields[i].htype.Repeated? && !fields[i].sized ==> fields[i].arraySize > 0
  }

  /** A required field, a set has_ flag, a chosen member and a nonempty array are always written, the others never. */
  lemma WrittenIff(f: Field, s: Slot)
    requires SlotOk(f, s)
    ensures s.One? && f.htype.Required? ==> SlotWire(f, s) != []
    ensures s.Opt? ==> (SlotWire(f, s) == [] <==> !s.has)
    ensures s.Alt? ==> (SlotWire(f, s) == [] <==> s.chosen.None?)
    ensures s.Many? ==> (SlotWire(f, s) == [] <==> s.items == [])
  {
    hide Key;
    hide ValueWire;
    hide ValOk;
    hide ZeroValue;
    KeyNotEmpty(f.tag, WireType(f.ltype));
    KeyNotEmpty(f.tag, 2);
  }

  /** A proto3 field is written unless it is zero, empty, or a submessage of which nothing would be written. */
  lemma SingularWrittenIff(f: Field, v: Val)
    requires SlotOk(f, One(v)) && f.htype.Optional?
    ensures v.Num? ==> (SlotWire(f, One(v)) == [] <==> v == Num(0))
    ensures v.Blob? ==> (SlotWire(f, One(v)) == [] <==> v == Blob([]))
    ensures v.Sub? && NoEmptyArray(f.sub) ==> (SlotWire(f, One(v)) == [] <==> StructWire(f.sub, v.slots, 0) == [])
  {
    hide Key;
    hide ValueWire;
    hide StructWire;
    KeyNotEmpty(f.tag, WireType(f.ltype));
    if v.Sub? && NoEmptyArray(f.sub) {
      UnsetIsEmpty(f.sub, v.slots);
    }
  }

  lemma UnsetSlot(f: Field, s: Slot)
    requires SlotOk(f, s) && (f.htype.Repeated? && !f.sized ==> f.arraySize > 0)
    ensures ZeroSlot(f, s) <==> SlotWire(f, s) == []
  {
    hide Key;
    hide ValueWire;
    hide ValOk;
    hide ZeroValue;
    WrittenIff(f, s);
    KeyNotEmpty(f.tag, WireType(f.ltype));
  }

  lemma {:induction false} EmptyFrom(fields: seq<Field>, slots: seq<Slot>, i: nat)
    requires |fields| == |slots| && i <= |slots|
    ensures StructWire(fields, slots, i) == [] <==> forall j :: i <= j < |slots| ==> SlotWire(fields[j], slots[j]) == []
    decreases |slots| - i
  {
    hide SlotWire;
    if i < |slots| {
      EmptyFrom(fields, slots, i + 1);
    }
  }

  /** Nothing set is nothing written. */
  lemma UnsetIsEmpty(fields: seq<Field>, slots: seq<Slot>)
    requires StructOk(fields, slots) && NoEmptyArray(fields)
    ensures AllZero(fields, slots) <==> StructWire(fields, slots, 0) == []
  {
    hide SlotWire;
    hide ZeroSlot;
    hide SlotOk;
    EmptyFrom(fields, slots, 0);
    forall i | 0 <= i < |slots|
      ensures ZeroSlot(fields[i], slots[i]) <==> SlotWire(fields[i], slots[i]) == []
    {
      UnsetSlot(fields[i], slots[i]);
    }
  }

  // ---- proto3 messages come back whole -------------------------------------------------------------------------

  /** A singular proto3 number or string of bytes, its default zero. */
  predicate Plain(f: Field) {
    && f.htype.Optional? && !f.sized && !f.ltype.Submessage?
    && (f.init.None? || f.init == Some(Num(0)) || f.init == Some(Blob([])))
    && (f.init.Some? ==> (f.init.value.Num? <==> Packable(f.ltype)))
  }

  /** For tables of singular proto3 numbers, strings and byte fields: what was encoded comes back, every value of it, as
      long as byte fields fit their buffers and strings leave room for a terminator. */
  lemma PlainRoundTrip(fields: seq<Field>, slots: seq<Slot>)
    requires Table(fields) && StructOk(fields, slots) && |StructWire(fields, slots, 0)| < TWO_32
    requires forall i :: 0 <= i < |fields| ==> Plain(fields[i])
    requires forall i :: 0 <= i < |slots| && slots[i].One? && slots[i].v.Blob? ==>
      && (fields[i].ltype.Text? ==> |slots[i].v.b| < fields[i].dataSize)
      && (fields[i].ltype.BytesArray? ==> |slots[i].v.b| < fields[i].dataSize)
    ensures ReadStruct(fields, StructWire(fields, slots, 0), Defaults(fields)) == Some(slots)
  {
    hide StructWire;
    hide ReadStruct;
    forall i | 0 <= i < |slots|
      ensures SlotEncodable(fields[i], slots[i]) && SlotTerminated(fields[i], slots[i]) &&
        SettledSlot(fields[i], slots[i])
    {
      PlainSlot(fields[i], slots[i]);
    }
    hide SlotEncodable;
    hide SlotTerminated;
    hide SettledSlot;
    StructBack(fields, slots);
    MessageRestoredIff(fields, slots);
  }

  lemma PlainSlot(f: Field, s: Slot)
    requires Plain(f) && SlotOk(f, s)
    requires s.One? && s.v.Blob? && (f.ltype.Text? || f.ltype.BytesArray?) ==> |s.v.b| < f.dataSize
    ensures SlotEncodable(f, s) && SlotTerminated(f, s) && SettledSlot(f, s)
  {
  }

  // ---- what may be encoded ---------------------------------------------------------------------------------------

  /** The numbers each C type holds. */
  lemma AdmittedNumbers(n: int)
    ensures NumberFits(Bool, 1, n) <==> n == 0 || n == 1
    ensures NumberFits(Fix32, 4, n) <==> 0 <= n <= 0xffff_ffff
    ensures NumberFits(Fix64, 8, n) <==> 0 <= n <= 0xffff_ffff_ffff_ffff
    ensures NumberFits(UVarInt, 1, n) <==> 0 <= n <= 0xff
    ensures NumberFits(UVarInt, 2, n) <==> 0 <= n <= 0xffff
    ensures NumberFits(UVarInt, 4, n) <==> 0 <= n <= 0xffff_ffff
    ensures NumberFits(UVarInt, 8, n) <==> 0 <= n <= 0xffff_ffff_ffff_ffff
    ensures forall t: LType :: t == VarInt || t == SVarInt ==>
      && (NumberFits(t, 1, n) <==> -128 <= n <= 127)
      && (NumberFits(t, 2, n) <==> -32768 <= n <= 32767)
      && (NumberFits(t, 4, n) <==> -0x8000_0000 <= n <= 0x7fff_ffff)
      && (NumberFits(t, 8, n) <==> -0x8000_0000_0000_0000 <= n <= 0x7fff_ffff_ffff_ffff)
  {
  }

  /** The encoder takes arrays up to their full size, and byte arrays up to one byte below theirs. */
  lemma AdmittedSizes(f: Field, items: seq<Val>, b: Bytes)
    requires forall k :: 0 <= k < |items| ==> items[k].Num?
    ensures SlotEncodable(f, Many(items)) <==> items == [] || |items| <= f.arraySize
    ensures f.ltype.BytesArray? ==> (SlotEncodable(f, Opt(true, Blob(b))) <==> |b| < f.dataSize)
    ensures f.ltype.BytesArray? ==> (ValOk(f, Blob(b)) <==> |b| < 256)
    ensures f.ltype.Text? ==> SlotEncodable(f, Opt(true, Blob(b)))
    ensures f.ltype.Text? ==> (ValOk(f, Blob(b)) <==> |b| <= f.dataSize && forall k :: 0 <= k < |b| ==> b[k] != 0)
  {
  }

  // ---- fields the reader does not know ---------------------------------------------------------------------------

  lemma {:induction false} SkipVarintBack(n: nat, rest: Bytes)
    ensures SkipVarint(Varint(n) + rest) == Some(rest)
  {
    var b := Varint(n) + rest;
    if n < 128 {
      assert b[1..] == rest;
    } else {
      SkipVarintBack(n / 128, rest);
      assert b[1..] == Varint(n / 128) + rest;
    }
  }

  lemma SkipPrefixed(b: Bytes, rest: Bytes)
    requires |b| < TWO_32
    ensures Skip(2, LengthPrefixed(b) + rest) == Some(rest)
  {
    hide Varint;
    hide Read32;
    assert LengthPrefixed(b) + rest == Varint(|b|) + (b + rest);
    Read32Back(|b|, b + rest);
    assert (b + rest)[|b|..] == rest;
  }

  /** The wire type alone tells how far a value reaches: skipping what was written leaves exactly what follows it. */
  lemma SkipBack(f: Field, v: Val, rest: Bytes)
    requires ValOk(f, v) && |ValueWire(f, v)| < TWO_32
    ensures Skip(WireType(f.ltype), ValueWire(f, v) + rest) == Some(rest)
  {
    hide Varint;
    hide SkipVarint;
    hide StructWire;
    hide LengthPrefixed;
    match v {
      case Num(n) => SkipNumber(f, n, rest);
      case Blob(b) =>
        PrefixedLength(b);
        SkipPrefixed(b, rest);
      case Sub(slots) =>
        PrefixedLength(StructWire(f.sub, slots, 0));
        SkipPrefixed(StructWire(f.sub, slots, 0), rest);
    }
  }

  lemma PrefixedLength(b: Bytes)
    ensures |b| < |LengthPrefixed(b)|
  {
  }

  lemma SkipNumber(f: Field, n: int, rest: Bytes)
    requires NumberFits(f.ltype, f.dataSize, n)
    ensures Skip(WireType(f.ltype), NumberWire(f.ltype, n) + rest) == Some(rest)
  {
    hide Varint;
    hide SkipVarint;
    hide Fixed32;
    hide Fixed64;
    if f.ltype.Fix32? || f.ltype.Fix64? {
      assert (NumberWire(f.ltype, n) + rest)[|NumberWire(f.ltype, n)|..] == rest;
    } else if f.ltype.VarInt? {
      SkipVarintBack(Cast64(n), rest);
    } else if f.ltype.SVarInt? {
      SkipVarintBack(ZigZag(n), rest);
    } else {
      SkipVarintBack(n, rest);
    }
  }

  /** A record of a field the table may not have. */
  datatype Record = Record(f: Field, v: Val)

  predicate Unknown(fields: seq<Field>, r: Record) {
    && r.f.tag < 0x2000_0000 && (forall i :: 0 <= i < |fields| ==> fields[i].tag != r.f.tag)
    && (r.f.tag == 0 ==> fields != [] && WireType(r.f.ltype) != 0)
    && ValOk(r.f, r.v) && |ValueWire(r.f, r.v)| < TWO_32
  }

  function RecordsWire(rs: seq<Record>): Bytes {
    if rs == [] then [] else
      Key(rs[0].f.tag, WireType(rs[0].f.ltype)) + (ValueWire(rs[0].f, rs[0].v) + RecordsWire(rs[1..]))
  }

  lemma SkipRecord(fields: seq<Field>, r: Record, rest: Bytes, d: Reading)
    requires Unknown(fields, r)
    ensures ReadFields(fields, Key(r.f.tag, WireType(r.f.ltype)) + (ValueWire(r.f, r.v) + rest), d) ==
      ReadFields(fields, rest, d)
  {
    hide Varint;
    hide Read32;
    hide Skip;
    hide ValueWire;
    hide ReadAt;
    hide Find;
    var key, body := 8 * r.f.tag + WireType(r.f.ltype), ValueWire(r.f, r.v) + rest;
    Read32Back(key, body);
    assert key / 8 == r.f.tag && key % 8 == WireType(r.f.ltype);
    assert Find(fields, d.pos, r.f.tag).None?;
    SkipBack(r.f, r.v, rest);
    KeyNotEmpty(r.f.tag, WireType(r.f.ltype));
  }

  lemma {:induction false} SkipRecords(fields: seq<Field>, rs: seq<Record>, rest: Bytes, d: Reading)
    requires forall r :: r in rs ==> Unknown(fields, r)
    ensures ReadFields(fields, RecordsWire(rs) + rest, d) == ReadFields(fields, rest, d)
  {
    hide ReadFields;
    hide Key;
    hide ValueWire;
    hide Unknown;
    if rs == [] {
      assert RecordsWire(rs) + rest == rest;
    } else {
      var k, v, more := Key(rs[0].f.tag, WireType(rs[0].f.ltype)), ValueWire(rs[0].f, rs[0].v), RecordsWire(rs[1..]);
      assert RecordsWire(rs) + rest == k + (v + (more + rest));
      SkipRecord(fields, rs[0], more + rest, d);
      SkipRecords(fields, rs[1..], rest, d);
    }
  }

  /** The struct's fields from i on, with other records before each field and after the last. */
  function Mixed(fields: seq<Field>, slots: seq<Slot>, extras: seq<seq<Record>>, i: nat): Bytes
    requires i <= |slots| == |fields| && |extras| == |slots| + 1
    decreases |slots| - i
  {
    RecordsWire(extras[i]) +
      (if i == |slots| then [] else SlotWire(fields[i], slots[i]) + Mixed(fields, slots, extras, i + 1))
  }

  predicate AllUnknown(fields: seq<Field>, extras: seq<seq<Record>>) {
    forall i, r :: 0 <= i < |extras| && r in extras[i] ==> Unknown(fields, r)
  }

  lemma {:induction false} MixedReads(fields: seq<Field>, slots: seq<Slot>, extras: seq<seq<Record>>, i: nat,
          d: Reading)
    requires i <= |slots| == |fields| && |extras| == |slots| + 1 && AllUnknown(fields, extras)
    requires Table(fields) && StructOk(fields, slots) && StructEncodable(fields, slots)
    requires Upto(fields, slots, i, d) && |StructWire(fields, slots, i)| < TWO_32
    ensures ReadFields(fields, Mixed(fields, slots, extras, i), d) ==
      ReadFields(fields, StructWire(fields, slots, i), d)
    decreases |slots| - i
  {
    hide SlotWire;
    hide SlotTerminated;
    hide Upto;
    hide Present;
    hide Table;
    hide SlotOk;
    hide SlotEncodable;
    hide OneChosen;
    hide After;
    hide RecordsWire;
    hide ReadFields;
    hide Unknown;
    if i == |slots| {
      SkipRecords(fields, extras[i], [], d);
    } else {
      var w, more, plain := SlotWire(fields[i], slots[i]), Mixed(fields, slots, extras, i + 1),
        StructWire(fields, slots, i + 1);
      SkipRecords(fields, extras[i], w + more, d);
      assert StructWire(fields, slots, i) == w + plain;
      if Present(fields[i], slots[i]) {
        SlotBack(fields, slots, i, more, d);
        SlotBack(fields, slots, i, plain, d);
        PresentStep(fields, slots, i, d);
        MixedReads(fields, slots, extras, i + 1, After(fields, i, NormalSlot(fields[i], slots[i]), d));
      } else {
        AbsentWire(fields[i], slots[i]);
        assert w + more == more && w + plain == plain;
        AbsentStep(fields, slots, i, d);
        MixedReads(fields, slots, extras, i + 1, d);
      }
    }
  }

  /** Records of tags not in the table, anywhere between the fields of an encoded struct, change nothing. */
  lemma UnknownIgnored(fields: seq<Field>, slots: seq<Slot>, extras: seq<seq<Record>>)
    requires |slots| == |fields| && |extras| == |slots| + 1 && AllUnknown(fields, extras)
    requires Table(fields) && StructOk(fields, slots) && StructEncodable(fields, slots)
    requires |StructWire(fields, slots, 0)| < TWO_32
    ensures ReadStruct(fields, Mixed(fields, slots, extras, 0), Defaults(fields)) ==
      ReadStruct(fields, StructWire(fields, slots, 0), Defaults(fields))
  {
    hide ReadFields;
    hide Mixed;
    hide StructWire;
    hide Upto;
    hide Table;
    hide Defaults;
    hide SlotOk;
    hide SlotEncodable;
    StartOk(fields, slots);
    MixedReads(fields, slots, extras, 0, Reading(Defaults(fields), 0, {}, None, 0));
  }

  // ---- required fields, defaults and oneofs ------------------------------------------------------------------------

  /** However a value is taken, what follows it is left. */
  lemma ValueEnds(f: Field, v: Val, rest: Bytes, prev: Val)
    requires FieldTable(f) && ValOk(f, v) && |ValueWire(f, v)| < TWO_32
    ensures var r := ReadValue(f, ValueWire(f, v) + rest, prev); r.Some? ==> r.value.1 == rest
  {
    hide NumberWire;
    hide ReadNumber;
    hide Varint;
    hide Read32;
    hide StructWire;
    hide ReadStruct;
    match v {
      case Num(n) => NumberBack(f, n, rest);
      case Blob(b) => PrefixedEnds(b, rest);
      case Sub(slots) => PrefixedEnds(StructWire(f.sub, slots, 0), rest);
    }
  }

  lemma PrefixedEnds(b: Bytes, rest: Bytes)
    requires |LengthPrefixed(b)| < TWO_32
    ensures Read32(LengthPrefixed(b) + rest) == Number(|b|, b + rest) && |b| <= |b + rest| && (b + rest)[|b|..] == rest
  {
    hide Varint;
    assert LengthPrefixed(b) + rest == Varint(|b|) + (b + rest);
    Read32Back(|b|, b + rest);
  }

  /** A record of the table's field i. */
  predicate Known(fields: seq<Field>, r: Record, i: nat) {
    i < |fields| && r.f == fields[i] && ValOk(r.f, r.v) && |ValueWire(r.f, r.v)| < TWO_32
  }

  lemma FieldEnds(f: Field, v: Val, rest: Bytes, slot: Slot, count: nat)
    requires FieldTable(f) && ValOk(f, v) && |ValueWire(f, v)| < TWO_32
    ensures var r := ReadField(f, WireType(f.ltype), ValueWire(f, v) + rest, slot, count);
      r.Some? ==> r.value.2 == rest
  {
    hide ReadValue;
    hide ValueWire;
    hide ValOk;
    hide FieldTable;
    match slot {
      case One(prev) => ValueEnds(f, v, rest, prev);
      case Opt(_, prev) => ValueEnds(f, v, rest, prev);
      case Alt(c) => ValueEnds(f, v, rest, if c.Some? then c.value else DefaultVal(f));
      case Many(items) =>
        ValueEnds(f, v, rest, PrevItem(f, items, if f.sized then |items| else count));
    }
  }

  /** a is what reading one record at field i leaves: only that field's required mark may be new. */
  predicate Marks(fields: seq<Field>, i: nat, d: Reading, a: Option<(Reading, Bytes)>, rest: Bytes)
    requires i < |fields|
  {
    a.Some? ==>
      && a.value.1 == rest && a.value.0.seen <= d.seen + {RequiredBefore(fields, i)}
      && (!fields[i].htype.Required? ==> a.value.0.seen == d.seen)
  }

  lemma RecordRead(fields: seq<Field>, r: Record, i: nat, rest: Bytes, d: Reading)
    requires Table(fields) && Known(fields, r, i)
    ensures Marks(fields, i, d, ReadAt(fields, i, WireType(r.f.ltype), ValueWire(r.f, r.v) + rest, d), rest)
  {
    hide ReadField;
    hide ValueWire;
    hide ValOk;
    hide Update;
    hide Table;
    TableField(fields, i);
    if |d.slots| == |fields| {
      FieldEnds(r.f, r.v, rest, d.slots[i], if FixedCount(r.f) && d.fixed != Some(i) then 0 else d.count);
    }
  }

  lemma TableField(fields: seq<Field>, i: nat)
    requires Table(fields) && i < |fields|
    ensures FieldTable(fields[i])
  {
  }

  lemma {:induction false} RequiredApart(fields: seq<Field>, i: nat, j: nat)
    requires i < j <= |fields| && fields[i].htype.Required?
    ensures RequiredBefore(fields, i) < RequiredBefore(fields, j)
    decreases j
  {
    if i < j - 1 {
      RequiredApart(fields, i, j - 1);
    }
  }

  /** Well-formed records, none of them of field i: known ones of other fields, and unknown ones. */
  ghost predicate Missing(fields: seq<Field>, rs: seq<Record>, i: nat) {
    forall r :: r in rs ==> Unknown(fields, r) || exists j: nat :: j != i && Known(fields, r, j)
  }

  lemma {:induction false} UnseenStays(fields: seq<Field>, rs: seq<Record>, i: nat, d: Reading)
    requires Table(fields) && i < |fields| && fields[i].htype.Required? && Missing(fields, rs, i)
    requires RequiredBefore(fields, i) !in d.seen
    ensures var e := ReadFields(fields, RecordsWire(rs), d); e.Some? ==> RequiredBefore(fields, i) !in e.value.seen
  {
    hide Key;
    hide ValueWire;
    hide Unknown;
    hide Known;
    hide ReadAt;
    hide Table;
    if rs != [] {
      hide ReadFields;
      var r, more := rs[0], RecordsWire(rs[1..]);
      if Unknown(fields, r) {
        SkipRecord(fields, r, more, d);
        UnseenStays(fields, rs[1..], i, d);
      } else {
        var j: nat :| j != i && Known(fields, r, j);
        KnownRecord(fields, r, j, more, d);
        var a := ReadAt(fields, j, WireType(r.f.ltype), ValueWire(r.f, r.v) + more, d);
        if a.Some? {
          OtherMark(fields, i, j);
          UnseenStays(fields, rs[1..], i, a.value.0);
        }
      }
    }
  }

  lemma KnownRecord(fields: seq<Field>, r: Record, j: nat, more: Bytes, d: Reading)
    requires Table(fields) && Known(fields, r, j)
    ensures j < |fields|
    ensures var a := ReadAt(fields, j, WireType(r.f.ltype), ValueWire(r.f, r.v) + more, d);
      && ReadFields(fields, Key(r.f.tag, WireType(r.f.ltype)) + (ValueWire(r.f, r.v) + more), d) ==
           (match a case None => None case Some((e, left)) => ReadFields(fields, left, e))
      && Marks(fields, j, d, a, more)
  {
    hide ReadAt;
    hide ReadFields;
    hide Key;
    hide ValueWire;
    RecordRead(fields, r, j, more, d);
    KeyBack(fields, j, WireType(r.f.ltype), ValueWire(r.f, r.v) + more, d);
  }

  lemma OtherMark(fields: seq<Field>, i: nat, j: nat)
    requires i < |fields| && j < |fields| && i != j && fields[i].htype.Required?
    ensures fields[j].htype.Required? ==> RequiredBefore(fields, j) != RequiredBefore(fields, i)
  {
    if fields[j].htype.Required? {
      if i < j {
        RequiredApart(fields, i, j);
      } else {
        RequiredApart(fields, j, i);
      }
    }
  }

  /** A message without one of its first 64 required fields is refused, whatever other records it has. */
  lemma MissingRequiredFails(fields: seq<Field>, rs: seq<Record>, i: nat, slots: seq<Slot>)
    requires Table(fields) && i < |fields| && fields[i].htype.Required? && RequiredBefore(fields, i) < 64
    requires Missing(fields, rs, i)
    ensures ReadStruct(fields, RecordsWire(rs), slots) == None
  {
    hide ReadFields;
    hide Missing;
    UnseenStays(fields, rs, i, Reading(slots, 0, {}, None, 0));
    RequiredApart(fields, i, |fields|);
  }

  /** What a field absent from the wire holds, by its declaration. */
  function Declared(f: Field): Val
    requires !f.ltype.Submessage?
  {
    if f.init.Some? then f.init.value
    else if f.ltype.BytesArray? || f.ltype.Text? then Blob([])
    else if f.ltype.FixedBytes? then Blob(seq(f.dataSize, _ => 0))
    else Num(0)
  }

  /** The declared default under a cleared flag, no items, no choice. */
  predicate HoldsDefault(f: Field, s: Slot) {
    && (f.htype.Optional? && !f.ltype.Submessage? ==>
          s == if f.sized then Opt(false, Declared(f)) else One(Declared(f)))
    && (f.htype.Repeated? && f.sized ==> s == Many([]))
    && (f.htype.Oneof? ==> s == Alt(None))
  }

  lemma DefaultIs(f: Field)
    ensures HoldsDefault(f, DefaultSlot(f))
  {
    assert !f.ltype.Submessage? ==> DefaultVal(f) == Declared(f);
  }

  /** An empty message without required fields decodes to defaults. */
  lemma EmptyMessage(fields: seq<Field>)
    requires forall i :: 0 <= i < |fields| ==> !fields[i].htype.Required?
    ensures var r := ReadStruct(fields, [], Defaults(fields));
      r.Some? && |r.value| == |fields| && forall i :: 0 <= i < |fields| ==> HoldsDefault(fields[i], r.value[i])
  {
    hide DefaultSlot;
    hide HoldsDefault;
    NoneRequired(fields, |fields|);
    EmptyRest(fields, Reading(Defaults(fields), 0, {}, None, 0));
    forall i | 0 <= i < |fields|
      ensures HoldsDefault(fields[i], Defaults(fields)[i])
    {
      DefaultIs(fields[i]);
    }
  }

  lemma {:induction false} NoneRequired(fields: seq<Field>, n: nat)
    requires n <= |fields| && forall i :: 0 <= i < |fields| ==> !fields[i].htype.Required?
    ensures RequiredBefore(fields, n) == 0
  {
    if n > 0 {
      NoneRequired(fields, n - 1);
    }
  }

  /** A flagged field that was not set reads back as its declared default, whatever its data held. */
  lemma UnsetReadsDefault(fields: seq<Field>, slots: seq<Slot>, i: nat)
    requires Table(fields) && StructOk(fields, slots) && StructEncodable(fields, slots)
    requires StructTerminated(fields, slots) && |StructWire(fields, slots, 0)| < TWO_32
    requires i < |slots| && slots[i].Opt? && !slots[i].has && !fields[i].ltype.Submessage?
    ensures var r := ReadStruct(fields, StructWire(fields, slots, 0), Defaults(fields));
      r.Some? && |r.value| == |fields| && r.value[i] == Opt(false, Declared(fields[i]))
  {
    hide StructWire;
    hide ReadStruct;
    hide StructTerminated;
    StructBack(fields, slots);
    assert SlotOk(fields[i], slots[i]);
    DefaultIs(fields[i]);
    hide DefaultSlot;
    assert NormalStruct(fields, slots)[i] == NormalSlot(fields[i], slots[i]);
  }

  /** Two members of one oneof on the wire: the last stands, alone. */
  lemma LastMemberStands(fields: seq<Field>, i: nat, j: nat, v: Val, w: Val)
    requires Table(fields) && i < |fields| && j < |fields| && i != j
    requires fields[i].htype.Oneof? && fields[j].htype == fields[i].htype
    requires Known(fields, Record(fields[i], v), i) && Encodable(fields[i], v) && Terminated(fields[i], v)
    requires Known(fields, Record(fields[j], w), j) && Encodable(fields[j], w) && Terminated(fields[j], w)
    ensures var b := RecordsWire([Record(fields[i], v), Record(fields[j], w)]);
      var e := ReadFields(fields, b, Reading(Defaults(fields), 0, {}, None, 0));
      e.Some? && e.value.slots == Defaults(fields)[j := Alt(Some(NormalVal(fields[j], w)))]
  {
    hide ReadFields;
    hide Key;
    hide ValueWire;
    hide ReadAt;
    hide Known;
    hide Table;
    var start := Reading(Defaults(fields), 0, {}, None, 0);
    var f, g := fields[i], fields[j];
    var rest := Key(g.tag, WireType(g.ltype)) + ValueWire(g, w);
    TwoRecords(Record(f, v), Record(g, w));
    DefaultIs(f);
    DefaultIs(g);
    hide DefaultSlot;
    KeyBack(fields, i, WireType(f.ltype), ValueWire(f, v) + rest, start);
    MemberRead(fields, i, v, rest, start);
    var mid := After(fields, i, Alt(Some(NormalVal(f, v))), start);
    assert ValueWire(g, w) + [] == ValueWire(g, w);
    KeyBack(fields, j, WireType(g.ltype), ValueWire(g, w), mid);
    MemberRead(fields, j, w, [], mid);
    var end := After(fields, j, Alt(Some(NormalVal(g, w))), mid);
    EmptyRest(fields, end);
    forall k | 0 <= k < |fields|
      ensures end.slots[k] == Defaults(fields)[j := Alt(Some(NormalVal(g, w)))][k]
    {
    }
  }

  lemma EmptyRest(fields: seq<Field>, d: Reading)
    ensures ReadFields(fields, [], d) == Some(d)
  {
  }

  lemma TwoRecords(a: Record, b: Record)
    ensures RecordsWire([a, b]) == Key(a.f.tag, WireType(a.f.ltype)) +
      (ValueWire(a.f, a.v) + (Key(b.f.tag, WireType(b.f.ltype)) + ValueWire(b.f, b.v)))
  {
    hide Key;
    hide ValueWire;
    assert [a, b][1..] == [b] && [b][1..] == [];
    assert RecordsWire([b]) == Key(b.f.tag, WireType(b.f.ltype)) + (ValueWire(b.f, b.v) + []);
  }

  lemma MemberRead(fields: seq<Field>, i: nat, v: Val, rest: Bytes, d: Reading)
    requires i < |fields| && Table(fields) && Known(fields, Record(fields[i], v), i)
    requires Encodable(fields[i], v) && Terminated(fields[i], v)
    requires |d.slots| == |fields| && fields[i].htype.Oneof? && d.slots[i] == Alt(None)
    ensures ReadAt(fields, i, WireType(fields[i].ltype), ValueWire(fields[i], v) + rest, d) ==
      Some((After(fields, i, Alt(Some(NormalVal(fields[i], v))), d), rest))
  {
    hide ReadValue;
    hide ValueWire;
    hide NormalVal;
    hide Terminated;
    hide ValOk;
    hide Encodable;
    hide Update;
    hide Table;
    hide DefaultVal;
    TableField(fields, i);
    ValueBack(fields[i], v, rest, DefaultVal(fields[i]));
  }

  // ---- known encodings ----------------------------------------------------------------------------------------------

  function Bare(tag: nat, t: LType, sub: seq<Field>): Field {
    Field(tag, t, Optional, false, 8, 0, sub, None)
  }

  /** The worked examples of the Protocol Buffers encoding: 150, "testing", an embedded 150, packed 3, 270, 86942. */
  lemma NumberExample()
    ensures SlotWire(Bare(1, VarInt, []), One(Num(150))) == [0x08, 0x96, 0x01]
    ensures SlotWire(Bare(1, VarInt, []), One(Num(5))) == [0x08, 0x05]
  {
    VarintStep(150);
    VarintStep(1);
    VarintStep(8);
    VarintStep(5);
  }

  lemma TextExample()
    ensures SlotWire(Bare(2, Text, []), One(Blob([0x74, 0x65, 0x73, 0x74, 0x69, 0x6e, 0x67]))) ==
      [0x12, 0x07, 0x74, 0x65, 0x73, 0x74, 0x69, 0x6e, 0x67]
  {
    VarintStep(7);
    VarintStep(0x12);
  }

  lemma SubmessageExample()
    ensures SlotWire(Bare(3, Submessage, [Bare(1, VarInt, [])]), One(Sub([One(Num(150))]))) ==
      [0x1a, 0x03, 0x08, 0x96, 0x01]
  {
    hide SlotWire;
    hide Varint;
    var f, sub, slots := Bare(3, Submessage, [Bare(1, VarInt, [])]), [Bare(1, VarInt, [])], [One(Num(150))];
    NumberExample();
    VarintStep(3);
    VarintStep(0x1a);
    assert StructWire(sub, slots, 1) == [];
    assert StructWire(sub, slots, 0) == SlotWire(sub[0], slots[0]) + [] == [0x08, 0x96, 0x01];
    assert ValueWire(f, Sub(slots)) == [0x03] + [0x08, 0x96, 0x01];
    SubmessageSlot(f, slots);
  }

  lemma SubmessageSlot(f: Field, slots: seq<Slot>)
    requires f.htype.Optional? && !AllZero(f.sub, slots)
    ensures SlotWire(f, One(Sub(slots))) == Key(f.tag, WireType(f.ltype)) + ValueWire(f, Sub(slots))
  {
  }

  lemma PackedExample()
    ensures var f := Field(4, VarInt, Repeated, true, 8, 3, [], None);
      SlotWire(f, Many([Num(3), Num(270), Num(86942)])) == [0x22, 0x06, 0x03, 0x8e, 0x02, 0x9e, 0xa7, 0x05]
  {
    var f, items := Field(4, VarInt, Repeated, true, 8, 3, [], None), [Num(3), Num(270), Num(86942)];
    VarintStep(3);
    VarintStep(270);
    VarintStep(2);
    VarintStep(86942);
    VarintStep(679);
    VarintStep(5);
    VarintStep(6);
    VarintStep(0x22);
    hide Varint;
    assert PackedWire(f, items, 3) == [];
    assert PackedWire(f, items, 2) == [0x9e, 0xa7, 0x05];
    assert PackedWire(f, items, 1) == [0x8e, 0x02, 0x9e, 0xa7, 0x05];
    assert PackedWire(f, items, 0) == [0x03, 0x8e, 0x02, 0x9e, 0xa7, 0x05];
  }

  /** One of each other type. */
  lemma FixedExamples()
    ensures SlotWire(Bare(1, Fix32, []), One(Num(0x04030201))) == [0x0d, 1, 2, 3, 4]
    ensures SlotWire(Bare(1, Fix64, []), One(Num(0x0807060504030201))) == [0x09, 1, 2, 3, 4, 5, 6, 7, 8]
  {
    VarintStep(9);
    VarintStep(13);
  }

  lemma VarintExamples()
    ensures SlotWire(Bare(1, Bool, []), One(Num(1))) == [0x08, 0x01]
    ensures SlotWire(Bare(1, UVarInt, []), One(Num(1))) == [0x08, 0x01]
    ensures SlotWire(Bare(1, SVarInt, []), One(Num(-1))) == [0x08, 0x01]
    ensures SlotWire(Bare(1, BytesArray, []), One(Blob([7]))) == [0x0a, 0x01, 7]
  {
    VarintStep(1);
    VarintStep(8);
    VarintStep(10);
  }

  /** Signed numbers: zigzag pairs, and the two's complement of negative ones. */
  lemma SignedExamples()
    ensures ZigZag(0) == 0 && ZigZag(-1) == 1 && ZigZag(1) == 2 && ZigZag(-2) == 3
    ensures ZigZag(0x7fff_ffff) == 0xffff_fffe && ZigZag(-0x8000_0000) == 0xffff_ffff
    ensures Cast64(-1) == 0xffff_ffff_ffff_ffff && Cast64(-2) == 0xffff_ffff_ffff_fffe
  {
  }
}
