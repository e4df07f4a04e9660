/** The decoder's streams and loops, proved to read what PbDecode says. */
module PbDecoder {
  import opened Keys
  import opened Coding
  import opened Pb
  import opened PbEncode
  import opened PbDecode
  import opened PbRoundTrip

  /** pb_istream_t: the bytes left to read. */
  class IStream {
    var left: Bytes

    constructor (b: Bytes)
      ensures left == b
    {
      left := b;
    }

    method DecodeVarint32() returns (r: Option<nat>)
      modifies this
      ensures r.Some? <==> Read32(old(left)).Number?
      ensures r.Some? ==> Read32(old(left)) == Number(r.value, left)
    {
      var p := GetVarint(left, 5, TWO_64);
      if p.NoNumber? || p.value >= TWO_32 {
        return None;
      }
      left := p.rest;
      r := Some(p.value);
    }

    /** pb_make_string_substream: the parent is left with what comes after. */
    method Substream() returns (r: Option<Bytes>)
      modifies this
      ensures r == (match Read32(old(left))
        case NoNumber => None
        case Number(n, rest) => if n <= |rest| then Some(rest[..n]) else None)
      ensures r.Some? ==> left == Read32(old(left)).rest[|r.value|..] && |left| + |r.value| < |old(left)|
    {
      var size := DecodeVarint32();
      if size.None? || size.value > |left| {
        return None;
      }
      r := Some(left[..size.value]);
      left := left[size.value..];
    }

    /** pb_skip_field. */
    method SkipField(wire: nat) returns (ok: bool)
      modifies this
      ensures ok <==> Skip(wire, old(left)).Some?
      ensures ok ==> left == Skip(wire, old(left)).value
      ensures wire == 1 ==> (ok <==> |old(left)| >= 8) && (ok ==> left == old(left)[8..])
      ensures wire == 5 ==> (ok <==> |old(left)| >= 4) && (ok ==> left == old(left)[4..])
    {
      if wire == 0 {
        while true
          invariant SkipVarint(left) == SkipVarint(old(left))
          decreases |left|
        {
          if left == [] {
            return false;
          }
          var b := left[0];
          left := left[1..];
          if b < 128 {
            return true;
          }
        }
      } else if wire == 1 || wire == 5 {
        var n := if wire == 1 then 8 else 4;
        ok := |left| >= n;
        if ok {
          left := left[n..];
        }
      } else if wire == 2 {
        var s := Substream();
        ok := s.Some?;
      } else {
        ok := false;
      }
    }
  }

  /** The decoder of the field's type. */
  method DecodeValue(stream: IStream, f: Field, prev: Val) returns (r: Option<Val>)
    modifies stream
    ensures r.Some? <==> ReadValue(f, old(stream.left), prev).Some?
    ensures r.Some? ==> ReadValue(f, old(stream.left), prev) == Some((r.value, stream.left))
    decreases |stream.left|, 1
  {
    hide ReadNumber;
    hide ReadBlob;
    hide ReadSub;
    if f.ltype.Submessage? {
      r := DecodeSubmessage(stream, f, prev);
    } else if f.ltype.BytesArray? || f.ltype.Text? || f.ltype.FixedBytes? {
      var b := ReadBlob(f, stream.left);
      if b.None? {
        return None;
      }
      stream.left := b.value.1;
      r := Some(Blob(b.value.0));
    } else {
      var n := ReadNumber(f, stream.left);
      if n.None? {
        return None;
      }
      stream.left := n.value.1;
      r := Some(Num(n.value.0));
    }
  }

  /** pb_dec_submessage: the substream is closed whatever was left in it. */
  method DecodeSubmessage(stream: IStream, f: Field, prev: Val) returns (r: Option<Val>)
    modifies stream
    ensures r.Some? <==> ReadSub(f, old(stream.left), prev).Some?
    ensures r.Some? ==> ReadSub(f, old(stream.left), prev) == Some((r.value, stream.left))
    decreases |stream.left|, 0
  {
    hide Read32;
    hide ReadStruct;
    hide Defaults;
    var bytes := stream.Substream();
    if bytes.None? {
      return None;
    }
    var substream := new IStream(bytes.value);
    var slots := DecodeStruct(substream, f.sub, if f.htype.Repeated? || !prev.Sub? then Defaults(f.sub)
      else prev.slots);
    r := if slots.None? then None else Some(Sub(slots.value));
  }

  /** The packed branch of decode_static_field. */
  method DecodePacked(substream: IStream, f: Field, items: seq<Val>, count: nat) returns (r: Option<(seq<Val>, nat)>)
    modifies substream
    ensures r == ReadPacked(f, old(substream.left), items, count)
    decreases |substream.left|, 2
  {
    hide ReadValue;
    var all, n: nat := items, count;
    while substream.left != [] && n < f.arraySize
      invariant ReadPacked(f, substream.left, all, n) == ReadPacked(f, old(substream.left), items, count)
      invariant |substream.left| <= |old(substream.left)|
      decreases |substream.left|
    {
      var v := DecodeValue(substream, f, PrevItem(f, all, n));
      if v.None? {
        return None;
      }
      all, n := Store(all, n, v.value), n + 1;
    }
    r := if substream.left != [] then None else Some((all, n));
  }

  method DecodeRepeated(stream: IStream, f: Field, wire: nat, items: seq<Val>, count: nat)
    returns (r: Option<(seq<Val>, nat)>)
    modifies stream
    ensures r.Some? <==> ReadRepeated(f, wire, old(stream.left), items, count).Some?
    ensures r.Some? ==>
      ReadRepeated(f, wire, old(stream.left), items, count) ==
      Some((r.value.0, r.value.1, stream.left))
    decreases |stream.left|, 3
  {
    hide ReadValue;
    hide ReadPacked;
    hide Read32;
    if wire == 2 && Packable(f.ltype) {
      var bytes := stream.Substream();
      if bytes.None? {
        return None;
      }
      var substream := new IStream(bytes.value);
      r := DecodePacked(substream, f, items, count);
    } else if count >= f.arraySize {
      r := None;
    } else {
      var v := DecodeValue(stream, f, PrevItem(f, items, count));
      r := if v.None? then None else Some((Store(items, count, v.value), count + 1));
    }
  }

  /** decode_static_field. */
  method DecodeField(stream: IStream, f: Field, wire: nat, slot: Slot, count: nat) returns (r: Option<(Slot, nat)>)
    modifies stream
    ensures r.Some? <==> ReadField(f, wire, old(stream.left), slot, count).Some?
    ensures r.Some? ==> ReadField(f, wire, old(stream.left), slot, count) == Some((r.value.0, r.value.1, stream.left))
    decreases |stream.left|, 4
  {
    hide ReadValue;
    hide ReadRepeated;
    var v: Option<Val>;
    match slot {
      case One(p) =>
        v := DecodeValue(stream, f, p);
        r := if v.None? then None else Some((One(v.value), count));
      case Opt(_, p) =>
        v := DecodeValue(stream, f, p);
        r := if v.None? then None else Some((Opt(true, v.value), count));
      case Many(items) =>
        var a := DecodeRepeated(stream, f, wire, items, if f.sized then |items| else count);
        r := if a.None? then None else Some((Many(a.value.0), if f.sized then count else a.value.1));
      case Alt(c) =>
        v := DecodeValue(stream, f, if c.Some? then c.value else DefaultVal(f));
        r := if v.None? then None else Some((Alt(Some(v.value)), count));
    }
  }

  // ---- the loop over records ------------------------------------------------------------------------------------

  ghost function Marked(seen: seq<bool>): set<nat> {
    set k: nat | k < |seen| && seen[k]
  }

  lemma Mark(seen: seq<bool>, k: nat)
    requires k < |seen|
    ensures Marked(seen[k := true]) == Marked(seen) + {k}
  {
  }

  lemma NoneMarked(seen: seq<bool>)
    requires forall k :: 0 <= k < |seen| ==> !seen[k]
    ensures Marked(seen) == {}
  {
  }

  ghost function AfterKey(fields: seq<Field>, key: nat, rest: Bytes, d: Reading): Option<Reading> {
    match Find(fields, d.pos, key / 8)
    case None => (match Skip(key % 8, rest) case None => None case Some(more) => ReadFields(fields, more, d))
    case Some(i) =>
      match ReadAt(fields, i, key % 8, rest, d) case None => None case Some((e, more)) => ReadFields(fields, more, e)
  }

  /** One step of the loop's specification: the record under a key that was read. */
  lemma RecordStep(fields: seq<Field>, b: Bytes, key: nat, rest: Bytes, d: Reading)
    requires b != [] && Read32(b) == Number(key, rest)
    ensures key == 0 ==> ReadFields(fields, b, d) == Some(d)
    ensures key != 0 && key / 8 == 0 && fields == [] ==> ReadFields(fields, b, d) == None
    ensures key != 0 && !(key / 8 == 0 && fields == []) ==> ReadFields(fields, b, d) == AfterKey(fields, key, rest, d)
  {
  }

  /** pb_decode_noinit: records in any order, until the stream ends or a zero key does; then every fixed-count array
      must be whole and every required field seen. */
  method DecodeStruct(stream: IStream, fields: seq<Field>, start: seq<Slot>) returns (r: Option<seq<Slot>>)
    modifies stream
    ensures r == ReadStruct(fields, old(stream.left), start)
    decreases |stream.left|, 8
  {
    hide ReadAt;
    hide Skip;
    hide Find;
    hide Read32;
    hide ReadFields;
    hide Marked;
    hide FixedDone;
    hide AllSeen;
    var seen := new bool[MAX_REQUIRED](i => false);
    NoneMarked(seen[..]);
    var iter := new FieldIter(fields);
    var slots := start;
    var fixed: Option<nat> := None;
    var count: nat := 0;
    var going := true;
    NoBytes(fields);
    while going && stream.left != []
      invariant iter.Valid() && iter.fields == fields && fresh(iter) && fresh(seen) && seen.Length == MAX_REQUIRED
      invariant |stream.left| <= |old(stream.left)|
      invariant ReadFields(fields, old(stream.left), Reading(start, 0, {}, None, 0)) ==
        if going then ReadFields(fields, stream.left, Reading(slots, iter.pos, Marked(seen[..]), fixed, count))
        else Some(Reading(slots, iter.pos, Marked(seen[..]), fixed, count))
      decreases going, |stream.left|
    {
      ghost var d := Reading(slots, iter.pos, Marked(seen[..]), fixed, count);
      ghost var b := stream.left;
      var key := stream.DecodeVarint32();
      NoKey(fields, b, d);
      if key.None? {
        return None;
      }
      RecordStep(fields, b, key.value, stream.left, d);
      Shorter(b);
      if key.value == 0 {
        going := false;
      } else if fields == [] {
        if key.value / 8 == 0 {
          return None;
        }
        FindNothing(d.pos, key.value / 8);
        var ok := stream.SkipField(key.value % 8);
        if !ok {
          return None;
        }
      } else {
        var found := iter.FindTag(key.value / 8);
        if !found {
          var ok := stream.SkipField(key.value % 8);
          if !ok {
            return None;
          }
        } else {
          var step := DecodeRecord(stream, fields, iter, d.pos, key.value % 8, slots, fixed, count, seen);
          if step.None? {
            return None;
          }
          slots, fixed, count := step.value.0, step.value.1, step.value.2;
        }
      }
    }
    ghost var e := Reading(slots, iter.pos, Marked(seen[..]), fixed, count);
    NoMoreBytes(fields, stream.left, e);
    var done := fixed.Some? ==> fixed.value < |fields| && count == fields[fixed.value].arraySize;
    DoneMeans(fields, e);
    if !done {
      return None;
    }
    var all := RequiredSeen(iter, seen);
    r := if all then Some(slots) else None;
  }

  lemma DoneMeans(fields: seq<Field>, d: Reading)
    ensures FixedDone(fields, d) == (d.fixed.Some? ==>
      d.fixed.value < |fields| && d.count == fields[d.fixed.value].arraySize)
  {
  }

  lemma NoBytes(fields: seq<Field>)
    ensures RequiredBefore(fields, 0) == 0
  {
  }

  lemma NoMoreBytes(fields: seq<Field>, b: Bytes, d: Reading)
    ensures b == [] ==> ReadFields(fields, b, d) == Some(d)
  {
  }

  lemma NoKey(fields: seq<Field>, b: Bytes, d: Reading)
    ensures b != [] && Read32(b).NoNumber? ==> ReadFields(fields, b, d) == None
  {
  }

  lemma Shorter(b: Bytes)
    ensures Read32(b).Number? ==> |Read32(b).rest| < |b|
  {
  }

  lemma FindNothing(start: nat, tag: nat)
    ensures Find([], start, tag) == None
  {
  }

  /** A record whose field was found: the fixed-count bookkeeping, the mark of a required field, and the field
      itself. */
  method DecodeRecord(stream: IStream, fields: seq<Field>, iter: FieldIter, ghost at: nat, wire: nat,
          slots: seq<Slot>, fixed: Option<nat>,
    count: nat, seen: array<bool>) returns (r: Option<(seq<Slot>, Option<nat>, nat)>)
    requires iter.Valid() && iter.fields == fields && fields != [] && seen.Length == MAX_REQUIRED
    modifies stream, seen
    ensures var d := Reading(slots, at, Marked(old(seen[..])), fixed, count);
      var a := ReadAt(fields, iter.pos, wire, old(stream.left), d);
      && (r.Some? <==> a.Some?)
      && (r.Some? ==> a == Some((Reading(r.value.0, iter.pos, Marked(seen[..]), r.value.1, r.value.2), stream.left)))
    ensures r.Some? ==> |stream.left| <= |old(stream.left)|
    decreases |stream.left|, 5
  {
    hide ReadField;
    hide Marked;
    hide Update;
    var i := iter.pos;
    var f := fields[i];
    if |slots| != |fields| {
      return None;
    }
    var now := count;
    if FixedCount(f) {
      if fixed != Some(i) {
        if fixed.Some? && (fixed.value >= |fields| || count != fields[fixed.value].arraySize) {
          return None;
        }
        now := 0;
      }
    }
    if f.htype.Required? && iter.required < MAX_REQUIRED {
      Mark(seen[..], iter.required);
      seen[iter.required] := true;
      assert seen[..] == old(seen[..])[iter.required := true];
    }
    var s := DecodeField(stream, f, wire, slots[i], now);
    if s.None? {
      return None;
    }
    r := Some((Update(fields, slots, i, s.value.0), if FixedCount(f) then Some(i) else fixed, s.value.1));
  }

  /** The iterator is run to the end of the table to count the required fields, then each mark is checked. */
  method RequiredSeen(iter: FieldIter, seen: array<bool>) returns (all: bool)
    requires iter.Valid() && seen.Length == MAX_REQUIRED
    modifies iter
    ensures all <==> AllSeen(iter.fields, Marked(seen[..]))
  {
    hide Marked;
    var total := iter.required;
    if iter.fields != [] {
      var last := iter.fields[iter.pos].htype;
      ghost var at := iter.pos;
      var more := iter.Next();
      while more
        invariant iter.Valid() && iter.fields != []
        invariant at < |iter.fields| && total == RequiredBefore(iter.fields, at) && last == iter.fields[at].htype
        invariant if more then iter.pos == at + 1 else at + 1 == |iter.fields|
        decreases |iter.fields| - at, more
      {
        total := iter.required;
        last := iter.fields[iter.pos].htype;
        at := iter.pos;
        more := iter.Next();
      }
      if last.Required? {
        total := total + 1;
      }
    }
    var n := if total > MAX_REQUIRED then MAX_REQUIRED else total;
    all := true;
    for k := 0 to n
      invariant all <==> forall j :: 0 <= j < k ==> seen[j]
    {
      all := all && seen[k];
    }
    SeenAre(iter.fields, seen[..], n);
  }

  lemma SeenAre(fields: seq<Field>, seen: seq<bool>, n: nat)
    requires |seen| == MAX_REQUIRED && n == Min(RequiredBefore(fields, |fields|), MAX_REQUIRED)
    ensures AllSeen(fields, Marked(seen)) <==> forall j :: 0 <= j < n ==> seen[j]
  {
    assert forall j: nat :: j < n ==> (j in Marked(seen) <==> seen[j]);
  }

  // ---- there and back ----------------------------------------------------------------------------------------------

  /** pb_decode. */
  method Decode(stream: IStream, fields: seq<Field>) returns (r: Option<seq<Slot>>)
    modifies stream
    ensures r == ReadStruct(fields, old(stream.left), Defaults(fields))
  {
    r := DecodeStruct(stream, fields, Defaults(fields));
  }

  /** A struct encoded into a buffer of its counted size and decoded from it. */
  method RoundTrip(fields: seq<Field>, slots: seq<Slot>) returns (e: Status, r: Option<seq<Slot>>)
    requires Table(fields) && StructOk(fields, slots) && |StructWire(fields, slots, 0)| < TWO_32
    ensures e.Done? <==> StructEncodable(fields, slots)
    ensures e.Done? ==> r == if StructTerminated(fields, slots) then Some(NormalStruct(fields, slots)) else None
  {
    hide StructWire;
    hide StructEncodable;
    hide StructTerminated;
    hide StructOk;
    hide ReadStruct;
    hide NormalStruct;
    hide Defaults;
    var bytes: Bytes;
    r := None;
    TableIsOk(fields);
    e, bytes := EncodeSized(fields, slots);
    if e.Done? {
      var stream := new IStream(bytes);
      r := Decode(stream, fields);
      StructBack(fields, slots);
    }
  }
}
