/** pb_decode: reading the wire back into a struct, field by field in whatever order they come. */
module PbDecode {
  import opened Keys
  import opened Coding
  import opened Pb

  const MAX_REQUIRED := 64

  // ---- defaults -------------------------------------------------------------------------------------------

  function Zeros(n: nat): (b: Bytes)
    ensures |b| == n
  {
    seq(n, i => 0 as byte)
  }

  /** What pb_field_set_to_default leaves in a field's data. */
  function DefaultVal(f: Field): Val
    decreases f, 0
  {
    if f.ltype.Submessage? then Sub(Defaults(f.sub))
    else if f.init.Some? then f.init.value
    else match f.ltype
      case BytesArray => Blob([])
      case Text => Blob([])
      case FixedBytes => Blob(Zeros(f.dataSize))
      case _ => Num(0)
  }

  function DefaultSlot(f: Field): Slot
    decreases f, 1
  {
    match f.htype
    case Required => One(DefaultVal(f))
    case Optional => if f.sized then Opt(false, DefaultVal(f)) else One(DefaultVal(f))
    case Repeated => Many(if f.sized then [] else seq(f.arraySize, i => DefaultVal(f)))
    case Oneof(_) => Alt(None)
  }

  /** pb_message_set_to_defaults. */
  function Defaults(fields: seq<Field>): (r: seq<Slot>)
    ensures |r| == |fields|
    decreases fields
  {
    seq(|fields|, i requires 0 <= i < |fields| => DefaultSlot(fields[i]))
  }

  // ---- numbers ---------------------------------------------------------------------------------------------

  /** pb_decode_varint32 on up to five bytes: bits above the 32nd are an error. */
  function Read32(b: Bytes): (r: Parsed)
    ensures r.Number? ==> |r.rest| < |b| && r.value < TWO_32
  {
    match ParseVarint(b, 5, TWO_64)
    case NoNumber => NoNumber
    case Number(n, rest) => if n < TWO_32 then Number(n, rest) else NoNumber
  }

  function Signed64(v: nat): int {
    if v < 0x8000_0000_0000_0000 then v else v - TWO_64
  }

  function Signed32(v: nat): int {
    if v % TWO_32 < 0x8000_0000 then v % TWO_32 else v % TWO_32 - TWO_32
  }

  function UnZigZag(v: nat): int {
    if v % 2 == 1 then -(v / 2) - 1 else v / 2
  }

  /** The scalar decoders: a value the field's width cannot hold is an error. */
  function ReadNumber(f: Field, b: Bytes): (r: Option<(int, Bytes)>)
    ensures r.Some? ==> |r.value.1| < |b|
  {
    match f.ltype
    case Bool =>
      (match Read32(b) case NoNumber => None case Number(v, rest) => Some((if v != 0 then 1 else 0, rest)))
    case Fix32 => if |b| < 4 then None else Some((DecodeFixed32(b), b[4..]))
    case Fix64 => if |b| < 8 then None else Some((DecodeFixed64(b), b[8..]))
    case UVarInt =>
      (match ParseVarint(b, 10, TWO_64)
       case NoNumber => None
       case Number(v, rest) => if UnsignedFits(v, f.dataSize) then Some((v, rest)) else None)
    case SVarInt =>
      (match ParseVarint(b, 10, TWO_64)
       case NoNumber => None
       case Number(v, rest) => if SignedFits(UnZigZag(v), f.dataSize) then Some((UnZigZag(v), rest)) else None)
    case _ =>
      match ParseVarint(b, 10, TWO_64)
      case NoNumber => None
      case Number(v, rest) =>
        var s := if f.dataSize == 8 then Signed64(v) else Signed32(v);
        if SignedFits(s, f.dataSize) then Some((s, rest)) else None
  }

  // ---- byte strings ----------------------------------------------------------------------------------------------

  /** What a C string buffer holding b reads as. */
  function UpToZero(b: Bytes): Bytes {
    if b == [] || b[0] == 0 then [] else [b[0]] + UpToZero(b[1..])
  }

  /** Whether size bytes may go where f's data is. */
  predicate RoomFor(f: Field, size: nat) {
    match f.ltype
    case BytesArray => size <= SIZE_MAX && size + SIZE_BYTES <= f.dataSize
    case Text => size + 1 <= f.dataSize
    case _ => size <= SIZE_MAX && (size == 0 || size == f.dataSize)
  }

  function ReadBlob(f: Field, b: Bytes): (r: Option<(Bytes, Bytes)>)
    ensures r.Some? ==> |r.value.1| < |b|
  {
    match Read32(b)
    case NoNumber => None
    case Number(size, rest) =>
      if !RoomFor(f, size) || size > |rest| then None
      else
        var data := rest[..size];
        Some((if f.ltype.Text? then UpToZero(data) else if f.ltype.FixedBytes? && size == 0 then Zeros(f.dataSize)
          else data, rest[size..]))
  }

  // ---- unknown fields --------------------------------------------------------------------------------

  function SkipVarint(b: Bytes): (r: Option<Bytes>)
    ensures r.Some? ==> |r.value| < |b|
  {
    if b == [] then None else if b[0] >= 128 then SkipVarint(b[1..]) else Some(b[1..])
  }

  /** pb_skip_field. */
  function Skip(wire: nat, b: Bytes): (r: Option<Bytes>)
    ensures r.Some? ==> |r.value| <= |b|
  {
    if wire == 0 then SkipVarint(b)
    else if wire == 1 then (if |b| < 8 then None else Some(b[8..]))
    else if wire == 5 then (if |b| < 4 then None else Some(b[4..]))
    else if wire == 2 then
      (match Read32(b) case NoNumber => None case Number(n, rest) => if n <= |rest| then Some(rest[n..]) else None)
    else None
  }

  // ---- the circular field iterator -------------------------------------------------------------------

  function FirstFrom(fields: seq<Field>, lo: nat, hi: nat, tag: nat): (r: Option<nat>)
    requires lo <= hi <= |fields|
    ensures r.Some? ==> lo <= r.value < hi && fields[r.value].tag == tag && forall j :: lo <= j < r.value ==>
      fields[j].tag != tag
    ensures r.None? ==> forall j :: lo <= j < hi ==> fields[j].tag != tag
    decreases hi - lo
  {
    if lo == hi then None else if fields[lo].tag == tag then Some(lo) else FirstFrom(fields, lo + 1, hi, tag)
  }

  /** The first field with the tag, searching from start round to start again. */
  function Find(fields: seq<Field>, start: nat, tag: nat): (r: Option<nat>)
    ensures r.Some? ==> r.value < |fields| && fields[r.value].tag == tag
    ensures r.None? ==> forall j :: 0 <= j < |fields| ==> fields[j].tag != tag
  {
    var s := if start <= |fields| then start else 0;
    match FirstFrom(fields, s, |fields|, tag)
    case Some(i) => Some(i)
    case None => FirstFrom(fields, 0, s, tag)
  }

  /** required_field_index at position i. */
  function RequiredBefore(fields: seq<Field>, i: nat): nat
    requires i <= |fields|
  {
    if i == 0 then 0 else RequiredBefore(fields, i - 1) + (if fields[i - 1].htype.Required? then 1 else 0)
  }

  class FieldIter {
    const fields: seq<Field>
    var pos: nat
    var required: nat

    ghost predicate Valid()
      reads this
    {
      (pos < |fields| || (pos == 0 && fields == [])) && required == RequiredBefore(fields, pos)
    }

    constructor (fields: seq<Field>)
      ensures Valid() && this.fields == fields && pos == 0
    {
      this.fields := fields;
      pos, required := 0, 0;
    }

    /** One field on, or back to the first: then the result is false. */
    method Next() returns (more: bool)
      requires Valid()
      modifies this
      ensures Valid()
      ensures more <==> old(pos) + 1 < |fields|
      ensures pos == if more then old(pos) + 1 else 0
    {
      if fields == [] {
        return false;
      }
      if pos + 1 == |fields| {
        pos, required := 0, 0;
        return false;
      }
      if fields[pos].htype.Required? {
        required := required + 1;
      }
      pos := pos + 1;
      more := true;
    }

    /** pb_field_iter_find: once round, ending where it started when nothing has the tag. */
    method FindTag(tag: nat) returns (found: bool)
      requires Valid() && fields != []
      modifies this
      ensures Valid()
      ensures found <==> Find(fields, old(pos), tag).Some?
      ensures pos == if found then Find(fields, old(pos), tag).value else old(pos)
    {
      var start := pos;
      var wrapped := false;
      if fields[pos].tag == tag {
        return true;
      }
      var more := Next();
      wrapped := !more;
      while pos != start
        invariant Valid() && fields != []
        invariant !wrapped ==> start < pos
        invariant wrapped ==> pos <= start
        invariant !wrapped ==> FirstFrom(fields, start, |fields|, tag) == FirstFrom(fields, pos, |fields|, tag)
        invariant wrapped ==>
          FirstFrom(fields, start, |fields|, tag).None? &&
          FirstFrom(fields, 0, start, tag) == FirstFrom(fields, pos, start, tag)
        decreases !wrapped, |fields| - pos
      {
        if fields[pos].tag == tag {
          return true;
        }
        more := Next();
        wrapped := wrapped || !more;
      }
      found := false;
    }
  }

  // ---- reading a struct ------------------------------------------------------------------------------

  /** The decoder's state: the struct so far, where the iterator is, the required fields seen, and how many items of
      the last fixed-count array have come. */
  datatype Reading = Reading(slots: seq<Slot>, pos: nat, seen: set<nat>, fixed: Option<nat>, count: nat)

  /** The decoder of the field's type; prev is what the field's data held. */
  function ReadValue(f: Field, b: Bytes, prev: Val): (r: Option<(Val, Bytes)>)
    ensures r.Some? ==> |r.value.1| < |b|
    decreases |b|, 1
  {
    if f.ltype.Submessage? then ReadSub(f, b, prev)
    else if f.ltype.BytesArray? || f.ltype.Text? || f.ltype.FixedBytes? then
      (match ReadBlob(f, b) case None => None case Some((d, rest)) => Some((Blob(d), rest)))
    else
      match ReadNumber(f, b)
      case None => None
      case Some((n, rest)) => Some((Num(n), rest))
  }

  /** pb_dec_submessage: array entries start from defaults, other submessages from what is there. */
  function ReadSub(f: Field, b: Bytes, prev: Val): (r: Option<(Val, Bytes)>)
    ensures r.Some? ==> |r.value.1| < |b|
    decreases |b|, 0
  {
    match Read32(b)
    case NoNumber => None
    case Number(size, rest) =>
      if size > |rest| then None
      else
        var start := if f.htype.Repeated? || !prev.Sub? then Defaults(f.sub) else prev.slots;
        match ReadStruct(f.sub, rest[..size], start)
        case None => None
        case Some(slots) => Some((Sub(slots), rest[size..]))
  }

  /** Item number count is stored: appended when the array counts for itself. */
  function Store(items: seq<Val>, count: nat, v: Val): seq<Val> {
    if count < |items| then items[count := v] else items + [v]
  }

  function PrevItem(f: Field, items: seq<Val>, count: nat): Val {
    if count < |items| then items[count] else DefaultVal(f)
  }

  /** A packed array's items, until its data or the array ends. */
  function ReadPacked(f: Field, b: Bytes, items: seq<Val>, count: nat): (r: Option<(seq<Val>, nat)>)
    decreases |b|, 2
  {
    if b == [] then Some((items, count))
    else if count >= f.arraySize then None
    else
      match ReadValue(f, b, PrevItem(f, items, count))
      case None => None
      case Some((v, rest)) => ReadPacked(f, rest, Store(items, count, v), count + 1)
  }

  function ReadRepeated(f: Field, wire: nat, b: Bytes, items: seq<Val>, count: nat): (r: Option<(seq<Val>, nat, Bytes)>)
    ensures r.Some? ==> |r.value.2| <= |b|
    decreases |b|, 3
  {
    if wire == 2 && Packable(f.ltype) then
      match Read32(b)
      case NoNumber => None
      case Number(size, rest) =>
        if size > |rest| then None
        else
          (match ReadPacked(f, rest[..size], items, count)
           case None => None
           case Some((all, n)) => Some((all, n, rest[size..])))
    else if count >= f.arraySize then None
    else
      match ReadValue(f, b, PrevItem(f, items, count))
      case None => None
      case Some((v, rest)) => Some((Store(items, count, v), count + 1, rest))
  }

  /** decode_static_field: the slot, the fixed count and what is left. */
  function ReadField(f: Field, wire: nat, b: Bytes, slot: Slot, count: nat): (r: Option<(Slot, nat, Bytes)>)
    ensures r.Some? ==> |r.value.2| <= |b|
    decreases |b|, 4
  {
    match slot
    case One(v) =>
      (match ReadValue(f, b, v) case None => None case Some((w, rest)) => Some((One(w), count, rest)))
    case Opt(_, v) =>
      (match ReadValue(f, b, v) case None => None case Some((w, rest)) => Some((Opt(true, w), count, rest)))
    case Many(items) =>
      (match ReadRepeated(f, wire, b, items, if f.sized then |items| else count)
       case None => None
       case Some((all, n, rest)) => Some((Many(all), if f.sized then count else n, rest)))
    case Alt(c) =>
      match ReadValue(f, b, if c.Some? then c.value else DefaultVal(f))
      case None => None
      case Some((w, rest)) => Some((Alt(Some(w)), count, rest))
  }

  /** The struct with slot i replaced; choosing a oneof member unchooses the others. */
  function Update(fields: seq<Field>, slots: seq<Slot>, i: nat, s: Slot): (r: seq<Slot>)
    requires i < |slots| && |slots| == |fields|
    ensures |r| == |slots|
  {
    seq(|slots|, j requires 0 <= j < |slots| =>
      if j == i then s else if s.Alt? && fields[i].htype.Oneof? && fields[j].htype == fields[i].htype then Alt(None)
        else slots[j])
  }

  predicate FixedCount(f: Field) {
    f.htype.Repeated? && !f.sized
  }

  /** The last fixed-count array, if any, has all its items. */
  predicate FixedDone(fields: seq<Field>, d: Reading) {
    d.fixed.Some? ==> d.fixed.value < |fields| && d.count == fields[d.fixed.value].arraySize
  }

  function ReadAt(fields: seq<Field>, i: nat, wire: nat, b: Bytes, d: Reading): (r: Option<(Reading, Bytes)>)
    requires i < |fields|
    ensures r.Some? ==> |r.value.1| <= |b|
    decreases |b|, 5
  {
    var f := fields[i];
    if |d.slots| != |fields| then None
    else if FixedCount(f) && d.fixed != Some(i) && !FixedDone(fields, d) then None
    else
      var count := if FixedCount(f) && d.fixed != Some(i) then 0 else d.count;
      var fixed := if FixedCount(f) then Some(i) else d.fixed;
      var k := RequiredBefore(fields, i);
      var seen := if f.htype.Required? && k < MAX_REQUIRED then d.seen + {k} else d.seen;
      match ReadField(f, wire, b, d.slots[i], count)
      case None => None
      case Some((s, n, rest)) => Some((Reading(Update(fields, d.slots, i, s), i, seen, fixed, n), rest))
  }

  /** The loop of pb_decode_noinit. A zero key ends the message early; field number 0 of an empty table is outside the
      model. */
  function ReadFields(fields: seq<Field>, b: Bytes, d: Reading): Option<Reading>
    decreases |b|, 6
  {
    if b == [] then Some(d)
    else
      match Read32(b)
      case NoNumber => None
      case Number(key, rest) =>
        if key == 0 then Some(d)
        else if key / 8 == 0 && fields == [] then None
        else
          match Find(fields, d.pos, key / 8)
          case None =>
            (match Skip(key % 8, rest) case None => None case Some(more) => ReadFields(fields, more, d))
          case Some(i) =>
            match ReadAt(fields, i, key % 8, rest, d)
            case None => None
            case Some((d', more)) => ReadFields(fields, more, d')
  }

  function Min(a: nat, b: nat): nat {
    if a < b then a else b
  }

  /** All required fields, up to the number tracked, have come. */
  predicate AllSeen(fields: seq<Field>, seen: set<nat>) {
    forall k :: 0 <= k < Min(RequiredBefore(fields, |fields|), MAX_REQUIRED) ==> k in seen
  }

  /** pb_decode_noinit. */
  function ReadStruct(fields: seq<Field>, b: Bytes, slots: seq<Slot>): Option<seq<Slot>>
    decreases |b|, 7
  {
    match ReadFields(fields, b, Reading(slots, 0, {}, None, 0))
    case None => None
    case Some(d) => if FixedDone(fields, d) && AllSeen(fields, d.seen) then Some(d.slots) else None
  }
}
