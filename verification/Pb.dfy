/** nanopb: field tables, the structs they describe, and what a struct is on the wire. */
module Pb {
  import opened Keys
  import opened Coding

  /** pb_size_t in the default configuration, and where the bytes of a pb_bytes_array_t start. */
  const SIZE_MAX := 255
  const SIZE_BYTES := 1

  datatype LType = Bool | VarInt | UVarInt | SVarInt | Fix32 | Fix64 | BytesArray | Text | Submessage | FixedBytes

  /** Fields of one oneof share their group. */
  datatype HType = Required | Optional | Repeated | Oneof(group: nat)

  /** One pb_field_t: sized says it has a has_ flag or a count of its own; sub and init are what ptr points to. */
  datatype Field = Field(tag: nat, ltype: LType, htype: HType, sized: bool, dataSize: nat, arraySize: nat,
    sub: seq<Field>, init: Option<Val>)

  datatype Val = Num(n: int) | Blob(b: Bytes) | Sub(slots: seq<Slot>)

  /** What a struct holds for one field. A string is its characters up to the terminator, a oneof member the value it
      has while it is the chosen one. */
  datatype Slot = One(v: Val) | Opt(has: bool, v: Val) | Many(items: seq<Val>) | Alt(chosen: Option<Val>)

  // ---- values the struct's C type admits ------------------------------------------------------------------

  predicate SignedFits(n: int, size: nat) {
    (size == 1 && -0x80 <= n < 0x80) || (size == 2 && -0x8000 <= n < 0x8000) ||
    (size == 4 && -0x8000_0000 <= n < 0x8000_0000) || (size == 8 && -0x8000_0000_0000_0000 <= n < 0x8000_0000_0000_0000)
  }

  predicate UnsignedFits(n: int, size: nat) {
    (size == 1 && 0 <= n < 0x100) || (size == 2 && 0 <= n < 0x1_0000) || (size == 4 && 0 <= n < TWO_32) ||
      (size == 8 && 0 <= n < TWO_64)
  }

  predicate NumberFits(t: LType, size: nat, n: int) {
    match t
    case Bool => n == 0 || n == 1
    case VarInt => SignedFits(n, size)
    case UVarInt => UnsignedFits(n, size)
    case SVarInt => SignedFits(n, size)
    case Fix32 => 0 <= n < TWO_32
    case Fix64 => 0 <= n < TWO_64
    case _ => false
  }

  predicate Packable(t: LType) {
    t.Bool? || t.VarInt? || t.UVarInt? || t.SVarInt? || t.Fix32? || t.Fix64?
  }

  predicate BlobFits(f: Field, b: Bytes) {
    match f.ltype
    case BytesArray => |b| <= SIZE_MAX
    case Text => |b| <= f.dataSize && 0 !in b
    case FixedBytes => |b| == f.dataSize
    case _ => false
  }

  predicate ValOk(f: Field, v: Val)
    decreases v
  {
    match v
    case Num(n) => NumberFits(f.ltype, f.dataSize, n)
    case Blob(b) => BlobFits(f, b)
    case Sub(slots) => f.ltype.Submessage? && StructOk(f.sub, slots)
  }

  predicate SlotOk(f: Field, s: Slot)
    decreases s
  {
    match s
    case One(v) => (f.htype.Required? || (f.htype.Optional? && !f.sized)) && ValOk(f, v)
    case Opt(_, v) => f.htype.Optional? && f.sized && ValOk(f, v)
    case Many(items) => f.htype.Repeated? && (f.sized || |items| == f.arraySize) && forall k :: 0 <= k < |items| ==>
      ValOk(f, items[k])
    case Alt(c) => f.htype.Oneof? && (c.Some? ==> ValOk(f, c.value))
  }

  /** At most one member of a oneof is the chosen one. */
  predicate OneChosen(fields: seq<Field>, slots: seq<Slot>) {
    |fields| == |slots| && forall i, j ::
      0 <= i < j < |slots| && fields[i].htype.Oneof? && fields[j].htype == fields[i].htype ==>
      !(slots[i].Alt? && slots[i].chosen.Some? && slots[j].Alt? && slots[j].chosen.Some?)
  }

  predicate StructOk(fields: seq<Field>, slots: seq<Slot>)
    decreases slots
  {
    OneChosen(fields, slots) && forall i :: 0 <= i < |slots| ==> SlotOk(fields[i], slots[i])
  }

  // ---- presence -----------------------------------------------------------------------------------------------

  /** pb_check_proto3_default_value on the data of a singular field. */
  predicate ZeroValue(f: Field, v: Val)
    decreases v
  {
    match v
    case Num(n) => n == 0
    case Blob(b) => if f.ltype.FixedBytes? then f.dataSize == 0 else b == []
    case Sub(slots) => AllZero(f.sub, slots)
  }

  /** pb_check_proto3_default_value. */
  predicate ZeroSlot(f: Field, s: Slot)
    decreases s
  {
    match s
    case One(v) => !f.htype.Required? && ZeroValue(f, v)
    case Opt(has, _) => !has
    case Many(items) => f.sized && items == []
    case Alt(c) => c.None?
  }

  predicate AllZero(fields: seq<Field>, slots: seq<Slot>)
    decreases slots
  {
    |fields| == |slots| && forall i :: 0 <= i < |slots| ==> ZeroSlot(fields[i], slots[i])
  }

  /** Whether encode_basic_field writes anything for a field other than a repeated one. */
  predicate Present(f: Field, s: Slot) {
    match s
    case One(v) => f.htype.Required? || !ZeroValue(f, v)
    case Opt(has, _) => has
    case Many(items) => items != []
    case Alt(c) => c.Some?
  }

  // ---- what the encoder refuses -----------------------------------------------------------------------------------

  /** No byte array is longer than its buffer, no count greater than its array. */
  predicate Encodable(f: Field, v: Val)
    decreases v
  {
    match v
    case Num(_) => true
    case Blob(b) => f.ltype.BytesArray? ==> |b| + SIZE_BYTES <= f.dataSize
    case Sub(slots) => StructEncodable(f.sub, slots)
  }

  predicate SlotEncodable(f: Field, s: Slot)
    decreases s
  {
    match s
    case One(v) => Present(f, s) ==> Encodable(f, v)
    case Opt(has, v) => has ==> Encodable(f, v)
    case Many(items) => (items != [] ==> |items| <= f.arraySize) && forall k :: 0 <= k < |items| ==>
      Encodable(f, items[k])
    case Alt(c) => c.Some? ==> Encodable(f, c.value)
  }

  predicate StructEncodable(fields: seq<Field>, slots: seq<Slot>)
    decreases slots
  {
    |fields| == |slots| && forall i :: 0 <= i < |slots| ==> SlotEncodable(fields[i], slots[i])
  }

  // ---- the wire -----------------------------------------------------------------------------------------------------

  function WireType(t: LType): (w: nat)
    ensures w < 8
  {
    match t
    case Bool => 0
    case VarInt => 0
    case UVarInt => 0
    case SVarInt => 0
    case Fix32 => 5
    case Fix64 => 1
    case _ => 2
  }

  function Key(tag: nat, wire: nat): Bytes {
    Varint(8 * tag + wire)
  }

  /** The two's complement cast to 64 unsigned bits. */
  function Cast64(n: int): nat
    requires SignedFits(n, 8)
  {
    if n < 0 then n + TWO_64 else n
  }

  /** Zigzag: the complement of the doubled value for a negative one. */
  function ZigZag(n: int): (r: nat)
    requires SignedFits(n, 8)
    ensures r < TWO_64
  {
    if n < 0 then -2 * n - 1 else 2 * n
  }

  /** A number field's data; numbers of other types never occur in a struct. */
  function NumberWire(t: LType, n: int): Bytes {
    match t
    case VarInt => if SignedFits(n, 8) then Varint(Cast64(n)) else []
    case SVarInt => if SignedFits(n, 8) then Varint(ZigZag(n)) else []
    case Fix32 => if 0 <= n < TWO_32 then Fixed32(n) else []
    case Fix64 => if 0 <= n < TWO_64 then Fixed64(n) else []
    case _ => if 0 <= n then Varint(n) else []
  }

  /** What follows the key of a singular field. */
  function ValueWire(f: Field, v: Val): Bytes
    decreases v
  {
    match v
    case Num(n) => NumberWire(f.ltype, n)
    case Blob(b) => LengthPrefixed(b)
    case Sub(slots) => LengthPrefixed(StructWire(f.sub, slots, 0))
  }

  /** The items from k on, without keys. */
  function PackedWire(f: Field, items: seq<Val>, k: nat): Bytes
    requires k <= |items|
    decreases items, |items| - k
  {
    if k == |items| then [] else ValueWire(f, items[k]) + PackedWire(f, items, k + 1)
  }

  /** The items from k on, each under its own key. */
  function KeyedWire(f: Field, items: seq<Val>, k: nat): Bytes
    requires k <= |items|
    decreases items, |items| - k
  {
    if k == |items| then [] else Key(f.tag, WireType(f.ltype)) + ValueWire(f, items[k]) + KeyedWire(f, items, k + 1)
  }

  function SlotWire(f: Field, s: Slot): Bytes
    decreases s
  {
    if !Present(f, s) then [] else
      match s
      case One(v) => Key(f.tag, WireType(f.ltype)) + ValueWire(f, v)
      case Opt(_, v) => Key(f.tag, WireType(f.ltype)) + ValueWire(f, v)
      case Many(items) =>
        if Packable(f.ltype) then Key(f.tag, 2) + LengthPrefixed(PackedWire(f, items, 0)) else KeyedWire(f, items, 0)
      case Alt(c) => Key(f.tag, WireType(f.ltype)) + ValueWire(f, c.value)
  }

  /** The fields from i on, in table order. */
  function StructWire(fields: seq<Field>, slots: seq<Slot>, i: nat): Bytes
    decreases slots, |slots| - i
  {
    if i >= |slots| || i >= |fields| then [] else SlotWire(fields[i], slots[i]) + StructWire(fields, slots, i + 1)
  }
}
