/** Prefix-compressed blocks with restart points: the format, its builder, and decoding one entry. */
module Block {
  import opened Keys
  import opened Coding

  datatype KV = KV(key: Bytes, value: Bytes)

  // ---- one entry ------------------------------------------------------------------------------------

  /** An entry that shares its first shared key bytes with its predecessor. */
  function Encoded(shared: nat, e: KV): Bytes
    requires shared <= |e.key|
  {
    Varint(shared) + Varint(|e.key| - shared) + Varint(|e.value|) + (e.key[shared..] + e.value)
  }

  datatype Header = Header(shared: nat, nonShared: nat, valueLength: nat, rest: Bytes)

  /** The three lengths at the head of b and what follows them. */
  function DecodeLengths(b: Bytes): Option<Header> {
    match ParseVarint(b, 5, TWO_32)
    case NoNumber => None
    case Number(shared, b1) =>
      match ParseVarint(b1, 5, TWO_32)
      case NoNumber => None
      case Number(nonShared, b2) =>
        match ParseVarint(b2, 5, TWO_32)
        case NoNumber => None
        case Number(valueLength, b3) => Some(Header(shared, nonShared, valueLength, b3))
  }

  /** The length check adds in 32 bits. */
  function DecodeEntry(b: Bytes): Option<Header> {
    if |b| < 3 then None else
      match DecodeLengths(b)
      case None => None
      case Some(h) => if |h.rest| < (h.nonShared + h.valueLength) % TWO_32 then None else Some(h)
  }

  lemma OneByte(b: Bytes)
    requires |b| > 0 && b[0] < 128
    ensures ParseVarint(b, 5, TWO_32) == Number(b[0], b[1..])
  {
    assert VarintEnd(b, 0, 5) == Some(1);
    assert Raw(b, 1) == b[0];
  }

  /** The fast path for three one-byte lengths agrees with three varints. */
  method FastDecodeEntry(b: Bytes) returns (r: Option<Header>)
    ensures r == DecodeEntry(b)
  {
    if |b| < 3 {
      return None;
    }
    var h: Header;
    if b[0] < 128 && b[1] < 128 && b[2] < 128 {
      OneByte(b);
      OneByte(b[1..]);
      OneByte(b[2..]);
      h := Header(b[0], b[1], b[2], b[3..]);
    } else {
      var s := GetVarint(b, 5, TWO_32);
      if s.NoNumber? {
        return None;
      }
      var n := GetVarint(s.rest, 5, TWO_32);
      if n.NoNumber? {
        return None;
      }
      var v := GetVarint(n.rest, 5, TWO_32);
      if v.NoNumber? {
        return None;
      }
      h := Header(s.value, n.value, v.value, v.rest);
    }
    r := if |h.rest| < (h.nonShared + h.valueLength) % TWO_32 then None else Some(h);
  }

  lemma DecodeEncoded(shared: nat, e: KV, rest: Bytes)
    requires shared <= |e.key| && |e.key| + |e.value| < TWO_32
    ensures DecodeEntry(Encoded(shared, e) + rest) ==
      Some(Header(shared, |e.key| - shared, |e.value|, e.key[shared..] + e.value + rest))
  {
    hide Varint;
    hide ParseVarint;
    var tail := e.key[shared..] + e.value + rest;
    var v := Varint(|e.value|) + tail;
    var n := Varint(|e.key| - shared) + v;
    assert Encoded(shared, e) + rest == Varint(shared) + n;
    Varint32Back(shared, n);
    Varint32Back(|e.key| - shared, v);
    Varint32Back(|e.value|, tail);
  }

  // ---- a whole block -----------------------------------------------------------------------------------

  /** How a list of entries is laid out: where each entry starts (and where the last one ends), how much of its key it
      shares, and which entries are restart points. */
  datatype Layout = Layout(entries: seq<KV>, offs: seq<nat>, shared: seq<nat>, marks: seq<nat>)

  predicate Shape(l: Layout) {
    && |l.offs| == |l.entries| + 1 && |l.shared| == |l.entries| && |l.marks| > 0
    && l.offs[0] == 0 && l.marks[0] == 0
    && (forall i :: 0 <= i < |l.entries| ==> EntryFits(l, i))
    && (forall j :: 0 <= j < |l.marks| ==> MarkFits(l, l.marks[j]))
    && (forall j, k :: 0 <= j < k < |l.marks| ==> l.marks[j] < l.marks[k])
  }

  /** Entry i follows entry i-1 and shares a prefix with it. */
  predicate EntryFits(l: Layout, i: int)
    requires 0 <= i < |l.entries| && |l.offs| == |l.entries| + 1 && |l.shared| == |l.entries|
  {
    && l.shared[i] <= |l.entries[i].key| && |l.entries[i].key| + |l.entries[i].value| < TWO_32
    && l.offs[i + 1] == l.offs[i] + |Encoded(l.shared[i], l.entries[i])|
    && (if i == 0 then l.shared[i] == 0
        else l.shared[i] <= |l.entries[i - 1].key| &&
             l.entries[i - 1].key[..l.shared[i]] == l.entries[i].key[..l.shared[i]])
  }

  /** A restart point is an entry that shares nothing, or the start of an empty block. */
  predicate MarkFits(l: Layout, m: nat)
    requires |l.shared| == |l.entries|
  {
    (m < |l.entries| && l.shared[m] == 0) || m == |l.entries| == 0
  }

  predicate Body(data: Bytes, l: Layout)
    requires Shape(l)
  {
    && l.offs[|l.entries|] <= |data|
    && forall i :: 0 <= i < |l.entries| ==> EntryHeld(data, l, i)
  }

  predicate EntryHeld(data: Bytes, l: Layout, i: int)
    requires 0 <= i < |l.entries| && |l.offs| == |l.entries| + 1 && |l.shared| == |l.entries|
  {
    l.shared[i] <= |l.entries[i].key| && Holds(data, l.offs[i], Encoded(l.shared[i], l.entries[i]))
  }

  lemma {:induction false} OffsAscend(l: Layout, i: nat, j: nat)
    requires Shape(l) && i <= j <= |l.entries|
    ensures l.offs[i] + (j - i) <= l.offs[j]
    decreases j
  {
    if i < j {
      OffsAscend(l, i, j - 1);
      assert EntryFits(l, j - 1);
    }
  }

  function RestartArray(l: Layout, n: nat): Bytes
    requires Shape(l) && n <= |l.marks| && l.offs[|l.entries|] < TWO_32
  {
    if n == 0 then [] else
      OffsAscend(l, l.marks[n - 1], |l.entries|);
      RestartArray(l, n - 1) + Fixed32(l.offs[l.marks[n - 1]])
  }

  lemma {:induction false} RestartAt(l: Layout, n: nat, j: nat)
    requires Shape(l) && j < n <= |l.marks| && l.offs[|l.entries|] < TWO_32
    ensures |RestartArray(l, n)| == 4 * n
    ensures RestartArray(l, n)[4 * j..4 * j + 4] ==
      (OffsAscend(l, l.marks[j], |l.entries|); Fixed32(l.offs[l.marks[j]]))
  {
    RestartLength(l, n - 1);
    if j < n - 1 {
      RestartAt(l, n - 1, j);
      assert RestartArray(l, n)[4 * j..4 * j + 4] == RestartArray(l, n - 1)[4 * j..4 * j + 4];
    }
  }

  lemma {:induction false} RestartLength(l: Layout, n: nat)
    requires Shape(l) && n <= |l.marks| && l.offs[|l.entries|] < TWO_32
    ensures |RestartArray(l, n)| == 4 * n
  {
    if n > 0 {
      RestartLength(l, n - 1);
    }
  }

  /** data is the finished block with layout l. */
  predicate Describes(data: Bytes, l: Layout) {
    && Shape(l) && Body(data, l) && l.offs[|l.entries|] < TWO_32 && |l.marks| < TWO_32
    && |data| == l.offs[|l.entries|] + 4 * |l.marks| + 4
    && data[l.offs[|l.entries|]..] == RestartArray(l, |l.marks|) + Fixed32(|l.marks|)
  }

  // ---- the builder -----------------------------------------------------------------------------------------

  /** The longest common prefix, one byte at a time. */
  method SharedPrefix(a: Bytes, b: Bytes) returns (n: nat)
    ensures n <= |a| && n <= |b| && a[..n] == b[..n]
    ensures n < |a| && n < |b| ==> a[n] != b[n]
  {
    n := 0;
    var limit := if |a| < |b| then |a| else |b|;
    while n < limit && a[n] == b[n]
      invariant n <= limit && a[..n] == b[..n]
    {
      n := n + 1;
    }
  }

  method EncodeEntry(shared: nat, e: KV) returns (r: Bytes)
    requires shared <= |e.key| && |e.key| + |e.value| < TWO_32
    ensures r == Encoded(shared, e)
  {
    var a := EncodeVarint32(shared);
    var b := EncodeVarint32(|e.key| - shared);
    var c := EncodeVarint32(|e.value|);
    r := a + b + c + (e.key[shared..] + e.value);
  }

  /** The builder's fields: the bytes, restart offsets and counter of a layout. */
  ghost predicate Building(interval: nat, buffer: Bytes, restarts: seq<nat>, counter: nat, lastKey: Bytes, l: Layout) {
    && interval >= 1 && Shape(l) && Body(buffer, l)
    && l.offs[|l.entries|] == |buffer|
    && |restarts| == |l.marks| && (forall j :: 0 <= j < |restarts| ==> restarts[j] == l.offs[l.marks[j]])
    && counter <= interval && counter == |l.entries| - l.marks[|l.marks| - 1]
    && lastKey == (if l.entries == [] then [] else l.entries[|l.entries| - 1].key)
  }

  class BlockBuilder {
    const interval: nat
    var buffer: Bytes
    var restarts: seq<nat>
    var counter: nat
    var lastKey: Bytes
    ghost var layout: Layout

    ghost predicate Valid()
      reads this
    {
      Building(interval, buffer, restarts, counter, lastKey, layout)
    }

    constructor (interval: nat)
      requires interval >= 1
      ensures Valid() && layout.entries == [] && this.interval == interval
    {
      this.interval := interval;
      buffer, restarts, counter, lastKey := [], [0], 0, [];
      layout := Layout([], [0], [], [0]);
    }

    /** Append an entry, sharing a prefix with the last key unless a restart is due. */
    method Add(key: Bytes, value: Bytes)
      requires Valid() && |key| + |value| < TWO_32
      modifies this
      ensures Valid() && layout.entries == old(layout.entries) + [KV(key, value)]
      ensures |layout.shared| == |old(layout.shared)| + 1 && layout.shared[..|old(layout.shared)|] == old(layout.shared)
      ensures layout.marks == old(layout.marks) + (if old(counter) >= interval then [|old(layout.entries)|] else [])
      ensures var n := layout.shared[|old(layout.shared)|];
        if old(counter) >= interval then n == 0
        else n <= |key| && n <= |old(lastKey)| && key[..n] == old(lastKey)[..n] &&
             (n < |key| && n < |old(lastKey)| ==> key[n] != old(lastKey)[n])
    {
      hide Encoded;
      hide Building;
      hide Shape;
      BuildingShape(interval, buffer, restarts, counter, lastKey, layout);
      ghost var l, restart := layout, counter >= interval;
      ghost var body, points, count, last := buffer, restarts, counter, lastKey;
      var shared := ChooseShared(key);
      var e := KV(key, value);
      var piece := EncodeEntry(shared, e);
      buffer := buffer + piece;
      lastKey := lastKey[..shared] + key[shared..];
      assert lastKey == key by {
        assert key[..shared] + key[shared..] == key;
      }
      counter := counter + 1;
      layout := Extended(l, e, shared, restart);
      BuildingGrows(interval, body, points, count, last, l, e, shared);
    }

    /** How much of the last key to share; a full interval starts a new restart point and shares nothing. */
    method ChooseShared(key: Bytes) returns (shared: nat)
      requires Valid()
      modifies `restarts, `counter
      ensures shared <= |key| && shared <= |lastKey| && lastKey[..shared] == key[..shared]
      ensures old(counter) < interval ==> restarts == old(restarts) && counter == old(counter)
      ensures old(counter) < interval && shared < |key| && shared < |lastKey| ==> key[shared] != lastKey[shared]
      ensures old(counter) >= interval ==> restarts == old(restarts) + [|buffer|] && counter == 0 && shared == 0
    {
      shared := 0;
      if counter < interval {
        shared := SharedPrefix(lastKey, key);
      } else {
        restarts := restarts + [|buffer|];
        counter := 0;
      }
    }

    /** Append the restart array and its length. */
    method Finish() returns (data: Bytes)
      requires Valid() && |buffer| < TWO_32 && |restarts| < TWO_32
      modifies `buffer
      ensures Describes(data, layout) && buffer == data
    {
      hide Encoded;
      hide Shape;
      hide Body;
      ghost var body := buffer;
      RestartsInRange();
      for i := 0 to |restarts|
        invariant buffer == body + RestartArray(layout, i)
      {
        buffer := buffer + Fixed32(restarts[i]);
        assert body + RestartArray(layout, i) + Fixed32(restarts[i]) == body + RestartArray(layout, i + 1);
      }
      buffer := buffer + Fixed32(|restarts|);
      data := buffer;
      RestartLength(layout, |restarts|);
      FinishedBody(body, RestartArray(layout, |restarts|) + Fixed32(|restarts|), layout);
      assert data == body + (RestartArray(layout, |restarts|) + Fixed32(|restarts|));
    }

    lemma RestartsInRange()
      requires Valid() && |buffer| < TWO_32
      ensures Shape(layout) && Body(buffer, layout) && |buffer| == layout.offs[|layout.entries|]
      ensures |restarts| == |layout.marks| && forall j :: 0 <= j < |restarts| ==>
        restarts[j] < TWO_32 && restarts[j] == layout.offs[layout.marks[j]]
    {
      forall j | 0 <= j < |restarts|
        ensures restarts[j] < TWO_32
      {
        OffsAscend(layout, layout.marks[j], |layout.entries|);
      }
    }
  }

  lemma MarksInRange(l: Layout)
    requires Shape(l)
    ensures forall j :: 0 <= j < |l.marks| ==> l.marks[j] <= |l.entries|
  {
  }

  ghost function Extended(l: Layout, e: KV, shared: nat, restart: bool): Layout
    requires Shape(l) && shared <= |e.key|
  {
    Layout(l.entries + [e], l.offs + [l.offs[|l.entries|] + |Encoded(shared, e)|], l.shared + [shared],
           if restart then l.marks + [|l.entries|] else l.marks)
  }

  lemma BuildingShape(interval: nat, buffer: Bytes, restarts: seq<nat>, counter: nat, lastKey: Bytes, l: Layout)
    requires Building(interval, buffer, restarts, counter, lastKey, l)
    ensures Shape(l) && |l.shared| == |l.entries| && |l.marks| > 0
    ensures lastKey == (if l.entries == [] then [] else l.entries[|l.entries| - 1].key)
  {
  }

  /** One entry more, at a restart point when the interval is full. */
  lemma BuildingGrows(interval: nat, buffer: Bytes, restarts: seq<nat>, counter: nat, lastKey: Bytes, l: Layout, e: KV,
          shared: nat)
    requires Building(interval, buffer, restarts, counter, lastKey, l) && |e.key| + |e.value| < TWO_32
    requires shared <= |e.key| && shared <= |lastKey| && lastKey[..shared] == e.key[..shared]
    requires counter >= interval ==> shared == 0
    ensures var restart := counter >= interval;
      Shape(l) && Building(interval, buffer + Encoded(shared, e), if restart then restarts + [|buffer|] else restarts,
        (if restart then 0 else counter) + 1, e.key, Extended(l, e, shared, restart))
  {
    hide Encoded;
    hide EntryFits;
    hide EntryHeld;
    hide MarkFits;
    hide Body;
    var restart := counter >= interval;
    MarksInRange(l);
    ExtendedShape(l, e, shared, restart);
    ExtendedBody(buffer, l, e, shared, restart);
  }

  lemma ExtendedShape(l: Layout, e: KV, shared: nat, restart: bool)
    requires Shape(l) && shared <= |e.key| && |e.key| + |e.value| < TWO_32
    requires shared <= (if l.entries == [] then 0 else |l.entries[|l.entries| - 1].key|)
    requires l.entries != [] ==> l.entries[|l.entries| - 1].key[..shared] == e.key[..shared]
    requires restart ==> shared == 0 && l.marks[|l.marks| - 1] < |l.entries|
    ensures Shape(Extended(l, e, shared, restart))
  {
    hide Encoded;
    var x := Extended(l, e, shared, restart);
    var n := |l.entries|;
    forall i | 0 <= i < |x.entries|
      ensures EntryFits(x, i)
    {
      if i < n {
        assert EntryFits(l, i);
      }
    }
    forall j | 0 <= j < |x.marks|
      ensures MarkFits(x, x.marks[j])
    {
      if j < |l.marks| {
        assert MarkFits(l, l.marks[j]);
      }
    }
  }

  lemma ExtendedBody(buffer: Bytes, l: Layout, e: KV, shared: nat, restart: bool)
    requires Shape(l) && Body(buffer, l) && |buffer| == l.offs[|l.entries|] && shared <= |e.key|
    requires Shape(Extended(l, e, shared, restart))
    ensures Body(buffer + Encoded(shared, e), Extended(l, e, shared, restart))
  {
    hide Encoded;
    var x := Extended(l, e, shared, restart);
    var data := buffer + Encoded(shared, e);
    forall i | 0 <= i < |x.entries|
      ensures EntryHeld(data, x, i)
    {
      if i < |l.entries| {
        OffsAscend(l, i + 1, |l.entries|);
        assert EntryFits(l, i) && EntryHeld(buffer, l, i);
        StillHolds(buffer, Encoded(shared, e), l.offs[i], Encoded(l.shared[i], l.entries[i]));
      } else {
        assert data[|buffer|..] == Encoded(shared, e);
      }
    }
  }

  lemma FinishedBody(body: Bytes, tail: Bytes, l: Layout)
    requires Shape(l) && Body(body, l) && |body| == l.offs[|l.entries|]
    ensures Body(body + tail, l) && (body + tail)[l.offs[|l.entries|]..] == tail
  {
    hide Encoded;
    forall i | 0 <= i < |l.entries|
      ensures EntryHeld(body + tail, l, i)
    {
      assert EntryHeld(body, l, i);
      StillHolds(body, tail, l.offs[i], Encoded(l.shared[i], l.entries[i]));
    }
  }
}
