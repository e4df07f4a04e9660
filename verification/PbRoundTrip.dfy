/** Decoding what was encoded: the struct comes back, with defaults where nothing was written, unless a string is
    unterminated. */
module PbRoundTrip {
  import opened Keys
  import opened Coding
  import opened Pb
  import opened PbEncode
  import opened PbDecode

  // ---- what comes back ---------------------------------------------------------------------------------------

  function NormalVal(f: Field, v: Val): Val
    decreases v
  {
    match v
    case Num(n) => v
    case Blob(b) => v
    case Sub(slots) => Sub(NormalStruct(f.sub, slots))
  }

  function NormalItems(f: Field, items: seq<Val>): (r: seq<Val>)
    ensures |r| == |items|
    decreases items
  {
    seq(|items|, k requires 0 <= k < |items| => NormalVal(f, items[k]))
  }

  /** A field that was not written comes back as its default. */
  function NormalSlot(f: Field, s: Slot): Slot
    decreases s
  {
    if !Present(f, s) then DefaultSlot(f) else
      match s
      case One(v) => One(NormalVal(f, v))
      case Opt(_, v) => Opt(true, NormalVal(f, v))
      case Many(items) => Many(NormalItems(f, items))
      case Alt(c) => Alt(Some(NormalVal(f, c.value)))
  }

  function NormalStruct(fields: seq<Field>, slots: seq<Slot>): (r: seq<Slot>)
    ensures |r| == |slots|
    decreases slots
  {
    seq(|slots|, i requires 0 <= i < |slots| => if i < |fields| then NormalSlot(fields[i], slots[i]) else slots[i])
  }

  /** Every written string leaves room for its terminator. */
  predicate Terminated(f: Field, v: Val)
    decreases v
  {
    match v
    case Num(_) => true
    case Blob(b) => f.ltype.Text? ==> |b| < f.dataSize
    case Sub(slots) => StructTerminated(f.sub, slots)
  }

  predicate ItemsTerminated(f: Field, items: seq<Val>, k: nat)
    decreases items
  {
    forall j :: k <= j < |items| ==> Terminated(f, items[j])
  }

  predicate SlotTerminated(f: Field, s: Slot)
    decreases s
  {
    Present(f, s) ==>
      match s
      case One(v) => Terminated(f, v)
      case Opt(_, v) => Terminated(f, v)
      case Many(items) => ItemsTerminated(f, items, 0)
      case Alt(c) => Terminated(f, c.value)
  }

  predicate StructTerminated(fields: seq<Field>, slots: seq<Slot>)
    decreases slots
  {
    |fields| == |slots| && forall i :: 0 <= i < |slots| ==> SlotTerminated(fields[i], slots[i])
  }

  // ---- tables ------------------------------------------------------------------------------------------------------

  /** Generated tables: sizes and tags are pb_size_t and no two fields of a message share a tag. */
  predicate Table(fields: seq<Field>) {
    && (forall i :: 0 <= i < |fields| ==> FieldTable(fields[i]))
    && forall i, j :: 0 <= i < j < |fields| ==> fields[i].tag != fields[j].tag
  }

  predicate FieldTable(f: Field) {
    1 <= f.tag <= SIZE_MAX && f.dataSize <= SIZE_MAX && Table(f.sub)
  }

  // ---- numbers ------------------------------------------------------------------------------------------------------

  lemma Read32Back(v: nat, rest: Bytes)
    requires v < TWO_32
    ensures Read32(Varint(v) + rest) == Number(v, rest)
  {
    VarintLength32(v);
    ParseVarintBack(v, rest, 5, TWO_64);
  }

  lemma SignedBack(n: int)
    requires SignedFits(n, 8)
    ensures Signed64(Cast64(n)) == n
  {
  }

  lemma ZigZagBack(n: int)
    requires SignedFits(n, 8)
    ensures UnZigZag(ZigZag(n)) == n
  {
    if n < 0 {
      Halves(-n - 1, 1);
    } else {
      Halves(n, 0);
    }
  }

  lemma Halves(h: nat, low: nat)
    requires low < 2
    ensures (2 * h + low) / 2 == h && (2 * h + low) % 2 == low
  {
  }

  /** The low 32 bits of a small negative number's 64-bit form are its 32-bit form. */
  lemma Signed32Back(n: int)
    requires SignedFits(n, 4)
    ensures Signed32(Cast64(n)) == n
  {
    if n < 0 {
      LowWord(n + 0x1_0000_0000, 0xFFFF_FFFF);
    } else {
      LowWord(n, 0);
    }
  }

  lemma LowWord(low: nat, high: nat)
    requires low < TWO_32
    ensures (low + 0x1_0000_0000 * high) % TWO_32 == low
  {
  }

  lemma NumberBack(f: Field, n: int, rest: Bytes)
    requires NumberFits(f.ltype, f.dataSize, n)
    ensures ReadNumber(f, NumberWire(f.ltype, n) + rest) == Some((n, rest))
  {
    hide Varint;
    hide ParseVarint;
    if f.ltype.Fix32? {
      Fixed32RoundTrip(n, rest);
    } else if f.ltype.Fix64? {
      Fixed64RoundTrip(n, rest);
    } else if f.ltype.Bool? {
      Read32Back(n, rest);
    } else if f.ltype.UVarInt? {
      Varint64Back(n, rest);
    } else if f.ltype.SVarInt? {
      ZigZagBack(n);
      Varint64Back(ZigZag(n), rest);
    } else {
      VarIntBack(f, n, rest);
    }
  }

  lemma VarIntBack(f: Field, n: int, rest: Bytes)
    requires f.ltype.VarInt? && SignedFits(n, f.dataSize)
    ensures ReadNumber(f, Varint(Cast64(n)) + rest) == Some((n, rest))
  {
    hide Varint;
    hide ParseVarint;
    hide Cast64;
    hide Signed64;
    hide Signed32;
    CastFits(n);
    Varint64Back(Cast64(n), rest);
    if f.dataSize == 8 {
      SignedBack(n);
    } else {
      Signed32Back(n);
    }
  }

  lemma CastFits(n: int)
    requires SignedFits(n, 8)
    ensures Cast64(n) < TWO_64
  {
  }

  // ---- strings ---------------------------------------------------------------------------------------

  lemma {:induction false} NoZeroInside(b: Bytes)
    requires 0 !in b
    ensures UpToZero(b) == b
  {
    if b != [] {
      assert b == [b[0]] + b[1..];
      NoZeroInside(b[1..]);
    }
  }

  lemma BlobBack(f: Field, b: Bytes, rest: Bytes)
    requires BlobFits(f, b) && f.dataSize <= SIZE_MAX && (f.ltype.BytesArray? ==> |b| + SIZE_BYTES <= f.dataSize)
    ensures ReadBlob(f, LengthPrefixed(b) + rest) == if f.ltype.Text? && |b| >= f.dataSize then None
      else Some((b, rest))
  {
    hide Varint;
    hide Read32;
    hide UpToZero;
    assert LengthPrefixed(b) + rest == Varint(|b|) + (b + rest);
    Read32Back(|b|, b + rest);
    assert (b + rest)[..|b|] == b && (b + rest)[|b|..] == rest;
    if f.ltype.Text? {
      NoZeroInside(b);
    } else if f.ltype.FixedBytes? && |b| == 0 {
      assert Zeros(f.dataSize) == b;
    }
  }

  // ---- one value -------------------------------------------------------------------------------------

  /** What reading a field's data starts from, in a struct of defaults. */
  predicate FromDefault(f: Field, prev: Val) {
    f.ltype.Submessage? ==> f.htype.Repeated? || prev == DefaultVal(f)
  }

  lemma {:induction false} ValueBack(f: Field, v: Val, rest: Bytes, prev: Val)
    requires FieldTable(f) && ValOk(f, v) && Encodable(f, v) && FromDefault(f, prev) && |ValueWire(f, v)| < TWO_32
    ensures ReadValue(f, ValueWire(f, v) + rest, prev) == if Terminated(f, v) then Some((NormalVal(f, v), rest))
      else None
    decreases v, 0
  {
    hide NumberWire;
    hide ReadNumber;
    hide ReadBlob;
    hide LengthPrefixed;
    hide StructWire;
    hide ReadStruct;
    match v {
      case Num(n) => NumberBack(f, n, rest);
      case Blob(b) => BlobBack(f, b, rest);
      case Sub(slots) => SubBack(f, slots, rest, prev);
    }
  }

  lemma {:induction false} SubBack(f: Field, slots: seq<Slot>, rest: Bytes, prev: Val)
    requires FieldTable(f) && f.ltype.Submessage? && StructOk(f.sub, slots) && StructEncodable(f.sub, slots) &&
      FromDefault(f, prev)
    requires |LengthPrefixed(StructWire(f.sub, slots, 0))| < TWO_32
    ensures ReadSub(f, LengthPrefixed(StructWire(f.sub, slots, 0)) + rest, prev) ==
      if StructTerminated(f.sub, slots) then Some((Sub(NormalStruct(f.sub, slots)), rest)) else None
    decreases slots, |slots| + 2
  {
    hide Varint;
    hide StructWire;
    hide ReadStruct;
    hide Read32;
    hide Defaults;
    hide StructOk;
    hide StructEncodable;
    hide StructTerminated;
    hide NormalStruct;
    var w := StructWire(f.sub, slots, 0);
    assert LengthPrefixed(w) + rest == Varint(|w|) + (w + rest);
    Read32Back(|w|, w + rest);
    assert (w + rest)[..|w|] == w && (w + rest)[|w|..] == rest;
    StructBack(f.sub, slots);
  }

  // ---- one record ------------------------------------------------------------------------------------

  lemma FindsIt(fields: seq<Field>, i: nat, start: nat)
    requires Table(fields) && i < |fields|
    ensures Find(fields, start, fields[i].tag) == Some(i)
  {
  }

  /** A record under field i's key is read into slot i. */
  lemma KeyBack(fields: seq<Field>, i: nat, wire: nat, body: Bytes, d: Reading)
    requires Table(fields) && i < |fields| && wire < 8
    ensures ReadFields(fields, Key(fields[i].tag, wire) + body, d) ==
      match ReadAt(fields, i, wire, body, d) case None => None case Some((e, more)) => ReadFields(fields, more, e)
  {
    hide Varint;
    hide Read32;
    hide ReadAt;
    hide Find;
    var key := 8 * fields[i].tag + wire;
    assert FieldTable(fields[i]);
    Read32Back(key, body);
    assert key / 8 == fields[i].tag && key % 8 == wire;
    FindsIt(fields, i, d.pos);
    assert |Varint(key)| >= 1;
  }

  /** The state after slot i has been read as s. */
  function After(fields: seq<Field>, i: nat, s: Slot, d: Reading): Reading
    requires i < |fields| == |d.slots|
  {
    var f := fields[i];
    var k := RequiredBefore(fields, i);
    Reading(Update(fields, d.slots, i, s), i, if f.htype.Required? && k < MAX_REQUIRED then d.seen + {k} else d.seen,
            if FixedCount(f) then Some(i) else d.fixed, if FixedCount(f) then f.arraySize else d.count)
  }

  // ---- arrays ----------------------------------------------------------------------------------------

  /** k items of the array at slot i have been read: the next is stored at k. */
  predicate HasItems(fields: seq<Field>, i: nat, items: seq<Val>, k: nat, d: Reading)
    requires i < |fields| && k <= |items|
  {
    && |d.slots| == |fields| && d.slots[i].Many?
    && (if fields[i].sized then |d.slots[i].items| == k
        else |d.slots[i].items| == fields[i].arraySize == |items| &&
             (if k == 0 then d.fixed != Some(i) && FixedDone(fields, d) else d.fixed == Some(i) && d.count == k))
    && (k > 0 ==> d.pos == i)
    && forall j :: 0 <= j < k ==> d.slots[i].items[j] == NormalVal(fields[i], items[j])
  }

  function OneItem(fields: seq<Field>, i: nat, v: Val, k: nat, d: Reading): Reading
    requires i < |fields| == |d.slots| && d.slots[i].Many?
  {
    Reading(Update(fields, d.slots, i, Many(Store(d.slots[i].items, k, v))), i, d.seen,
            if FixedCount(fields[i]) then Some(i) else d.fixed, if FixedCount(fields[i]) then k + 1 else d.count)
  }

  lemma ItemRead(fields: seq<Field>, i: nat, items: seq<Val>, k: nat, rest: Bytes, d: Reading)
    requires i < |fields| && k < |items| <= fields[i].arraySize && fields[i].htype.Repeated? &&
      HasItems(fields, i, items, k, d)
    requires FieldTable(fields[i]) && ValOk(fields[i], items[k]) && Encodable(fields[i], items[k]) &&
      |ValueWire(fields[i], items[k])| < TWO_32
    requires !Packable(fields[i].ltype)
    ensures ReadAt(fields, i, WireType(fields[i].ltype), ValueWire(fields[i], items[k]) + rest, d) ==
      if Terminated(fields[i], items[k]) then Some((OneItem(fields, i, NormalVal(fields[i], items[k]), k, d), rest))
        else None
    decreases items, 0
  {
    hide ReadValue;
    hide ValueWire;
    hide NormalVal;
    hide Terminated;
    hide ValOk;
    hide Encodable;
    hide Update;
    hide Table;
    var f := fields[i];
    var have, b := d.slots[i].items, ValueWire(f, items[k]) + rest;
    ValueBack(f, items[k], rest, PrevItem(f, have, k));
    assert ReadRepeated(f, WireType(f.ltype), b, have, k) ==
      if Terminated(f, items[k]) then Some((Store(have, k, NormalVal(f, items[k])), k + 1, rest)) else None;
  }

  lemma ItemStored(fields: seq<Field>, i: nat, items: seq<Val>, k: nat, d: Reading)
    requires i < |fields| && k < |items| && HasItems(fields, i, items, k, d) && fields[i].htype.Repeated?
    ensures HasItems(fields, i, items, k + 1, OneItem(fields, i, NormalVal(fields[i], items[k]), k, d))
  {
    hide NormalVal;
  }

  lemma AllItems(fields: seq<Field>, i: nat, items: seq<Val>, d: Reading)
    requires i < |fields| && HasItems(fields, i, items, |items|, d) && items != [] && fields[i].htype.Repeated?
    ensures d == After(fields, i, Many(NormalItems(fields[i], items)), d)
  {
    hide NormalVal;
    assert d.slots[i].items == NormalItems(fields[i], items);
    assert Update(fields, d.slots, i, d.slots[i]) == d.slots;
  }

  lemma UpdateTwice(fields: seq<Field>, i: nat, items: seq<Val>, v: Val, k: nat, d: Reading)
    requires i < |fields| == |d.slots| && d.slots[i].Many? && fields[i].htype.Repeated?
    ensures After(fields, i, Many(items), OneItem(fields, i, v, k, d)) == After(fields, i, Many(items), d)
  {
    assert Update(fields, Update(fields, d.slots, i, Many(Store(d.slots[i].items, k, v))), i, Many(items)) ==
      Update(fields, d.slots, i, Many(items));
  }

  lemma {:induction false} KeyedBack(fields: seq<Field>, i: nat, items: seq<Val>, k: nat, rest: Bytes, d: Reading)
    requires Table(fields) && i < |fields| && k <= |items| <= fields[i].arraySize && items != [] &&
      HasItems(fields, i, items, k, d)
    requires !Packable(fields[i].ltype) && fields[i].htype.Repeated? && |KeyedWire(fields[i], items, k)| < TWO_32
    requires forall j :: 0 <= j < |items| ==> ValOk(fields[i], items[j]) && Encodable(fields[i], items[j])
    ensures ReadFields(fields, KeyedWire(fields[i], items, k) + rest, d) ==
      if ItemsTerminated(fields[i], items, k) then ReadFields(fields, rest,
        After(fields, i, Many(NormalItems(fields[i], items)), d)) else None
    decreases items, |items| - k
  {
    hide ValueWire;
    hide NormalVal;
    hide NormalItems;
    hide Terminated;
    hide ReadFields;
    hide ReadAt;
    hide ValOk;
    hide Encodable;
    hide HasItems;
    hide After;
    hide OneItem;
    hide Key;
    var f := fields[i];
    if k == |items| {
      AllItems(fields, i, items, d);
      assert [] + rest == rest;
    } else {
      var more := KeyedWire(f, items, k + 1) + rest;
      assert KeyedWire(f, items, k) + rest == Key(f.tag, WireType(f.ltype)) + (ValueWire(f, items[k]) + more);
      KeyBack(fields, i, WireType(f.ltype), ValueWire(f, items[k]) + more, d);
      assert FieldTable(f);
      ItemRead(fields, i, items, k, more, d);
      if Terminated(f, items[k]) {
        ItemStored(fields, i, items, k, d);
        HasMany(fields, i, items, k, d);
        UpdateTwice(fields, i, NormalItems(f, items), NormalVal(f, items[k]), k, d);
        KeyedBack(fields, i, items, k + 1, rest, OneItem(fields, i, NormalVal(f, items[k]), k, d));
      }
    }
  }

  lemma HasMany(fields: seq<Field>, i: nat, items: seq<Val>, k: nat, d: Reading)
    requires i < |fields| && k <= |items| && HasItems(fields, i, items, k, d)
    ensures |d.slots| == |fields| && d.slots[i].Many?
  {
  }

  lemma NumbersTerminate(f: Field, v: Val)
    requires Packable(f.ltype) && ValOk(f, v)
    ensures v.Num? && Terminated(f, v) && NormalVal(f, v) == v && Encodable(f, v) && |ValueWire(f, v)| > 0
  {
    hide Varint;
  }

  /** The items of a packed record land at k and after. */
  lemma {:induction false} PackedBack(f: Field, items: seq<Val>, k: nat, into: seq<Val>)
    requires FieldTable(f) && f.htype.Repeated? && Packable(f.ltype) && k <= |items| <= f.arraySize &&
      |PackedWire(f, items, k)| < TWO_32
    requires forall j :: 0 <= j < |items| ==> ValOk(f, items[j])
    requires |into| == (if f.sized then k else |items|) && forall j :: 0 <= j < k ==> into[j] == items[j]
    ensures ReadPacked(f, PackedWire(f, items, k), into, k) == Some((items, |items|))
    decreases items, |items| - k
  {
    hide ValueWire;
    hide ReadValue;
    hide ValOk;
    if k == |items| {
      assert into == items;
    } else {
      NumbersTerminate(f, items[k]);
      ValueBack(f, items[k], PackedWire(f, items, k + 1), PrevItem(f, into, k));
      PackedBack(f, items, k + 1, Store(into, k, items[k]));
    }
  }

  lemma PackedRead(fields: seq<Field>, i: nat, items: seq<Val>, rest: Bytes, d: Reading)
    requires i < |fields| && FieldTable(fields[i]) && fields[i].htype.Repeated? && Packable(fields[i].ltype) &&
      items != []
    requires |items| <= fields[i].arraySize && HasItems(fields, i, items, 0, d)
    requires forall j :: 0 <= j < |items| ==> ValOk(fields[i], items[j])
    requires |LengthPrefixed(PackedWire(fields[i], items, 0))| < TWO_32
    ensures ReadAt(fields, i, 2, LengthPrefixed(PackedWire(fields[i], items, 0)) + rest, d) ==
      Some((After(fields, i, Many(items), d), rest))
    decreases items, |items| + 1
  {
    hide Varint;
    hide PackedWire;
    hide ReadPacked;
    hide Read32;
    hide Update;
    hide ValOk;
    var f := fields[i];
    var w := PackedWire(f, items, 0);
    assert LengthPrefixed(w) + rest == Varint(|w|) + (w + rest);
    Read32Back(|w|, w + rest);
    assert (w + rest)[..|w|] == w && (w + rest)[|w|..] == rest;
    PackedBack(f, items, 0, d.slots[i].items);
    assert ReadRepeated(f, 2, LengthPrefixed(w) + rest, d.slots[i].items, 0) == Some((items, |items|, rest));
  }

  // ---- one slot --------------------------------------------------------------------------------------

  /** The slots before i are as encoded, the rest are defaults, and nothing is outstanding. */
  predicate Upto(fields: seq<Field>, slots: seq<Slot>, i: nat, d: Reading)
    requires i <= |slots| == |fields|
  {
    && |d.slots| == |fields|
    && (forall j :: 0 <= j < i ==> d.slots[j] == NormalSlot(fields[j], slots[j]))
    && (forall j :: i <= j < |fields| ==> d.slots[j] == DefaultSlot(fields[j]))
    && (d.fixed.Some? ==> d.fixed.value < i) && FixedDone(fields, d)
    && (forall j :: 0 <= j < i && fields[j].htype.Required? && RequiredBefore(fields, j) < MAX_REQUIRED ==>
      RequiredBefore(fields, j) in d.seen)
  }

  lemma AbsentStep(fields: seq<Field>, slots: seq<Slot>, i: nat, d: Reading)
    requires i < |slots| == |fields| && Upto(fields, slots, i, d) && SlotOk(fields[i], slots[i]) &&
      !Present(fields[i], slots[i])
    ensures Upto(fields, slots, i + 1, d)
  {
    hide DefaultSlot;
    hide ValOk;
  }

  lemma PresentStep(fields: seq<Field>, slots: seq<Slot>, i: nat, d: Reading)
    requires i < |slots| == |fields| && Upto(fields, slots, i, d) && StructOk(fields, slots) &&
      Present(fields[i], slots[i])
    ensures Upto(fields, slots, i + 1, After(fields, i, NormalSlot(fields[i], slots[i]), d))
  {
    hide NormalVal;
    hide NormalItems;
    hide DefaultVal;
    hide ValOk;
    hide ZeroValue;
    var e := After(fields, i, NormalSlot(fields[i], slots[i]), d);
    assert SlotOk(fields[i], slots[i]);
    forall j | 0 <= j < |fields| && j != i
      ensures e.slots[j] == d.slots[j]
    {
      if slots[i].Alt? && fields[j].htype == fields[i].htype {
        OthersUnchosen(fields, slots, i, j);
      }
    }
  }

  lemma OthersUnchosen(fields: seq<Field>, slots: seq<Slot>, i: nat, j: nat)
    requires i < |slots| == |fields| && j < |fields| && i != j && StructOk(fields, slots)
    requires slots[i].Alt? && slots[i].chosen.Some? && fields[i].htype.Oneof? && fields[j].htype == fields[i].htype
    ensures NormalSlot(fields[j], slots[j]) == Alt(None) && DefaultSlot(fields[j]) == Alt(None)
  {
    hide ValOk;
    assert SlotOk(fields[j], slots[j]);
  }

  /** One present slot that is not an array. */
  lemma SingleRead(fields: seq<Field>, i: nat, s: Slot, v: Val, rest: Bytes, d: Reading)
    requires i < |fields| == |d.slots| && FieldTable(fields[i]) && SlotOk(fields[i], s) && Present(fields[i], s) &&
      !s.Many?
    requires v == (if s.Alt? then s.chosen.value else s.v) && Encodable(fields[i], v)
    requires d.slots[i] == DefaultSlot(fields[i]) && |ValueWire(fields[i], v)| < TWO_32
    ensures ReadAt(fields, i, WireType(fields[i].ltype), ValueWire(fields[i], v) + rest, d) ==
      if Terminated(fields[i], v) then Some((After(fields, i, NormalSlot(fields[i], s), d), rest)) else None
    decreases s, 0
  {
    hide ReadValue;
    hide ValueWire;
    hide NormalVal;
    hide Terminated;
    hide ValOk;
    hide Encodable;
    hide Update;
    hide Table;
    hide DefaultVal;
    hide ZeroValue;
    ValueBack(fields[i], v, rest, DefaultVal(fields[i]));
  }

  lemma EmptyArray(fields: seq<Field>, slots: seq<Slot>, i: nat, d: Reading)
    requires i < |slots| == |fields| && Upto(fields, slots, i, d) && SlotOk(fields[i], slots[i]) && slots[i].Many?
    ensures HasItems(fields, i, slots[i].items, 0, d)
  {
    hide ValOk;
    hide NormalSlot;
    hide DefaultVal;
  }

  lemma {:induction false} ArrayBack(fields: seq<Field>, slots: seq<Slot>, i: nat, rest: Bytes, d: Reading)
    requires i < |slots| == |fields| && Table(fields) && Upto(fields, slots, i, d) && slots[i].Many? &&
      Present(fields[i], slots[i])
    requires SlotOk(fields[i], slots[i]) && SlotEncodable(fields[i], slots[i]) &&
      |SlotWire(fields[i], slots[i])| < TWO_32
    ensures ReadFields(fields, SlotWire(fields[i], slots[i]) + rest, d) ==
      if SlotTerminated(fields[i], slots[i]) then ReadFields(fields, rest,
        After(fields, i, NormalSlot(fields[i], slots[i]), d)) else None
    decreases slots[i], 0
  {
    hide ReadFields;
    hide ReadAt;
    hide ValOk;
    hide Encodable;
    hide Terminated;
    hide NormalVal;
    hide KeyedWire;
    hide PackedWire;
    hide LengthPrefixed;
    hide HasItems;
    hide Upto;
    hide Key;
    hide After;
    var f, items := fields[i], slots[i].items;
    EmptyArray(fields, slots, i, d);
    HasMany(fields, i, items, 0, d);
    assert FieldTable(f);
    if Packable(f.ltype) {
      var w := LengthPrefixed(PackedWire(f, items, 0));
      assert SlotWire(f, slots[i]) + rest == Key(f.tag, 2) + (w + rest);
      KeyBack(fields, i, 2, w + rest, d);
      PackedRead(fields, i, items, rest, d);
      PlainItems(f, items);
    } else {
      KeyedBack(fields, i, items, 0, rest, d);
    }
  }

  lemma PlainItems(f: Field, items: seq<Val>)
    requires Packable(f.ltype) && forall j :: 0 <= j < |items| ==> ValOk(f, items[j])
    ensures NormalItems(f, items) == items && ItemsTerminated(f, items, 0)
  {
    forall j | 0 <= j < |items|
      ensures NormalVal(f, items[j]) == items[j] && Terminated(f, items[j])
    {
      NumbersTerminate(f, items[j]);
    }
  }

  lemma {:induction false} SlotBack(fields: seq<Field>, slots: seq<Slot>, i: nat, rest: Bytes, d: Reading)
    requires i < |slots| == |fields| && Table(fields) && Upto(fields, slots, i, d) && Present(fields[i], slots[i])
    requires SlotOk(fields[i], slots[i]) && SlotEncodable(fields[i], slots[i]) &&
      |SlotWire(fields[i], slots[i])| < TWO_32
    ensures |d.slots| == |fields|
    ensures ReadFields(fields, SlotWire(fields[i], slots[i]) + rest, d) ==
      if SlotTerminated(fields[i], slots[i]) then ReadFields(fields, rest,
        After(fields, i, NormalSlot(fields[i], slots[i]), d)) else None
    decreases slots[i], 1
  {
    hide ReadFields;
    hide ReadAt;
    hide ValueWire;
    hide NormalSlot;
    hide DefaultSlot;
    hide Terminated;
    hide ValOk;
    hide Encodable;
    hide Key;
    hide After;
    hide ZeroValue;
    var f, s := fields[i], slots[i];
    assert FieldTable(f);
    if s.Many? {
      ArrayBack(fields, slots, i, rest, d);
    } else {
      var v := if s.Alt? then s.chosen.value else s.v;
      assert SlotWire(f, s) + rest == Key(f.tag, WireType(f.ltype)) + (ValueWire(f, v) + rest);
      KeyBack(fields, i, WireType(f.ltype), ValueWire(f, v) + rest, d);
      SingleRead(fields, i, s, v, rest, d);
    }
  }

  // ---- a whole struct --------------------------------------------------------------------------------

  predicate TerminatedFrom(fields: seq<Field>, slots: seq<Slot>, i: nat)
    requires |fields| == |slots|
  {
    forall j :: i <= j < |slots| ==> SlotTerminated(fields[j], slots[j])
  }

  lemma TerminatedStep(fields: seq<Field>, slots: seq<Slot>, i: nat)
    requires i < |slots| == |fields|
    ensures TerminatedFrom(fields, slots, i) == (SlotTerminated(fields[i], slots[i]) &&
      TerminatedFrom(fields, slots, i + 1))
  {
    hide SlotTerminated;
  }

  lemma {:induction false} FieldsBack(fields: seq<Field>, slots: seq<Slot>, i: nat, d: Reading) returns (e: Reading)
    requires i <= |slots| == |fields| && Table(fields) && StructOk(fields, slots) && StructEncodable(fields, slots)
    requires Upto(fields, slots, i, d) && |StructWire(fields, slots, i)| < TWO_32
    ensures TerminatedFrom(fields, slots, i) ==>
      ReadFields(fields, StructWire(fields, slots, i), d) == Some(e) && Upto(fields, slots, |slots|, e)
    ensures !TerminatedFrom(fields, slots, i) ==> ReadFields(fields, StructWire(fields, slots, i), d) == None
    decreases slots, |slots| - i
  {
    hide SlotWire;
    hide SlotTerminated;
    hide TerminatedFrom;
    hide Upto;
    hide Present;
    hide Table;
    hide SlotOk;
    hide SlotEncodable;
    hide OneChosen;
    hide After;
    if i == |slots| {
      NothingLeft(fields, slots, d);
      e := d;
    } else {
      hide ReadFields;
      var w, more := SlotWire(fields[i], slots[i]), StructWire(fields, slots, i + 1);
      TerminatedStep(fields, slots, i);
      assert StructWire(fields, slots, i) == w + more;
      if Present(fields[i], slots[i]) {
        SlotBack(fields, slots, i, more, d);
        PresentStep(fields, slots, i, d);
        var next := After(fields, i, NormalSlot(fields[i], slots[i]), d);
        e := FieldsBack(fields, slots, i + 1, next);
      } else {
        AbsentWire(fields[i], slots[i]);
        assert w + more == more;
        AbsentStep(fields, slots, i, d);
        e := FieldsBack(fields, slots, i + 1, d);
      }
    }
  }

  lemma NothingLeft(fields: seq<Field>, slots: seq<Slot>, d: Reading)
    requires |fields| == |slots|
    ensures TerminatedFrom(fields, slots, |slots|) && ReadFields(fields, [], d) == Some(d) &&
      StructWire(fields, slots, |slots|) == []
  {
  }

  lemma AbsentWire(f: Field, s: Slot)
    requires !Present(f, s)
    ensures SlotWire(f, s) == [] && SlotTerminated(f, s)
  {
  }

  lemma {:induction false} RequiredAt(fields: seq<Field>, n: nat, k: nat) returns (j: nat)
    requires n <= |fields| && k < RequiredBefore(fields, n)
    ensures j < n && fields[j].htype.Required? && RequiredBefore(fields, j) == k
  {
    if k < RequiredBefore(fields, n - 1) {
      j := RequiredAt(fields, n - 1, k);
    } else {
      j := n - 1;
    }
  }

  lemma EndOk(fields: seq<Field>, slots: seq<Slot>, e: Reading)
    requires |fields| == |slots| && Upto(fields, slots, |slots|, e)
    ensures FixedDone(fields, e) && AllSeen(fields, e.seen) && e.slots == NormalStruct(fields, slots)
  {
    hide NormalSlot;
    hide DefaultSlot;
    forall k: nat | k < Min(RequiredBefore(fields, |fields|), MAX_REQUIRED)
      ensures k in e.seen
    {
      var j := RequiredAt(fields, |fields|, k);
    }
  }

  lemma StartOk(fields: seq<Field>, slots: seq<Slot>)
    requires |fields| == |slots|
    ensures Upto(fields, slots, 0, Reading(Defaults(fields), 0, {}, None, 0))
  {
    hide DefaultSlot;
  }

  /** pb_decode restores what pb_encode wrote, with unwritten fields at their defaults, if and only if every written
      string is terminated inside its buffer; an unterminated one makes the whole decode fail. */
  lemma {:induction false} StructBack(fields: seq<Field>, slots: seq<Slot>)
    requires Table(fields) && StructOk(fields, slots) && StructEncodable(fields, slots) &&
      |StructWire(fields, slots, 0)| < TWO_32
    ensures ReadStruct(fields, StructWire(fields, slots, 0), Defaults(fields)) ==
      if StructTerminated(fields, slots) then Some(NormalStruct(fields, slots)) else None
    decreases slots, |slots| + 1
  {
    hide StructWire;
    hide ReadFields;
    hide Upto;
    hide NormalStruct;
    hide Defaults;
    hide Table;
    hide SlotOk;
    hide SlotEncodable;
    hide SlotTerminated;
    hide OneChosen;
    StartOk(fields, slots);
    var e := FieldsBack(fields, slots, 0, Reading(Defaults(fields), 0, {}, None, 0));
    if TerminatedFrom(fields, slots, 0) {
      EndOk(fields, slots, e);
    }
  }

  // ---- exactly the message ---------------------------------------------------------------------------

  predicate SettledVal(f: Field, v: Val)
    decreases v
  {
    v.Sub? ==> Settled(f.sub, v.slots)
  }

  predicate SettledSlot(f: Field, s: Slot)
    decreases s
  {
    if !Present(f, s) then s == DefaultSlot(f) else
      match s
      case One(v) => SettledVal(f, v)
      case Opt(_, v) => SettledVal(f, v)
      case Many(items) => forall k :: 0 <= k < |items| ==> SettledVal(f, items[k])
      case Alt(c) => SettledVal(f, c.value)
  }

  /** Whatever the encoder leaves out holds its default already. */
  predicate Settled(fields: seq<Field>, slots: seq<Slot>)
    decreases slots
  {
    forall i :: 0 <= i < |slots| && i < |fields| ==> SettledSlot(fields[i], slots[i])
  }

  lemma {:induction false} ValueRestored(f: Field, v: Val)
    ensures NormalVal(f, v) == v <==> SettledVal(f, v)
    decreases v
  {
    if v.Sub? {
      MessageRestoredIff(f.sub, v.slots);
    }
  }

  lemma {:induction false} SlotRestored(f: Field, s: Slot)
    ensures NormalSlot(f, s) == s <==> SettledSlot(f, s)
    decreases s
  {
    hide NormalVal;
    hide SettledVal;
    if Present(f, s) {
      match s {
        case One(v) => ValueRestored(f, v);
        case Opt(_, v) => ValueRestored(f, v);
        case Alt(c) => ValueRestored(f, c.value);
        case Many(items) =>
          forall k | 0 <= k < |items|
            ensures NormalVal(f, items[k]) == items[k] <==> SettledVal(f, items[k])
          {
            ValueRestored(f, items[k]);
          }
          if forall k :: 0 <= k < |items| ==> SettledVal(f, items[k]) {
            assert NormalItems(f, items) == items;
          } else {
            var k :| 0 <= k < |items| && !SettledVal(f, items[k]);
            assert NormalItems(f, items)[k] != items[k];
          }
      }
    }
  }

  /** The decoded message is the encoded one exactly when every field the encoder left out held its default. */
  lemma {:induction false} MessageRestoredIff(fields: seq<Field>, slots: seq<Slot>)
    ensures NormalStruct(fields, slots) == slots <==> Settled(fields, slots)
    decreases slots
  {
    hide NormalSlot;
    hide SettledSlot;
    forall i | 0 <= i < |slots| && i < |fields|
      ensures NormalSlot(fields[i], slots[i]) == slots[i] <==> SettledSlot(fields[i], slots[i])
    {
      SlotRestored(fields[i], slots[i]);
    }
    if Settled(fields, slots) {
      assert NormalStruct(fields, slots) == slots;
    } else {
      var i :| 0 <= i < |slots| && i < |fields| && !SettledSlot(fields[i], slots[i]);
      assert NormalStruct(fields, slots)[i] != slots[i];
    }
  }

  lemma {:induction false} TableIsOk(fields: seq<Field>)
    requires Table(fields)
    ensures TableOk(fields)
  {
    forall i | 0 <= i < |fields|
      ensures TableOk(fields[i].sub)
    {
      assert FieldTable(fields[i]);
      TableIsOk(fields[i].sub);
    }
  }
}
