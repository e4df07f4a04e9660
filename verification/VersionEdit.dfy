/** Version edits: the tagged records of the manifest, written and read back. */
module VersionEdit {
  import opened Keys
  import opened Coding
  import opened Levels

  const COMPARATOR := 1
  const LOG_NUMBER := 2
  const NEXT_FILE_NUMBER := 3
  const LAST_SEQUENCE := 4
  const COMPACT_POINTER := 5
  const DELETED_FILE := 6
  const NEW_FILE := 7
  const PREV_LOG_NUMBER := 9

  /** A new file as the manifest records it, its bounds as encoded internal keys. */
  datatype Meta = Meta(number: nat, size: nat, smallest: Bytes, largest: Bytes)

  datatype Pair = Pair(level: nat, number: nat)

  datatype Edit = Edit(comparator: Option<Bytes>, logNumber: Option<nat>, prevLogNumber: Option<nat>,
    nextFile: Option<nat>,
                       lastSequence: Option<nat>, pointers: seq<(nat, Bytes)>, deleted: seq<Pair>,
                         added: seq<(nat, Meta)>)

  const EMPTY := Edit(None, None, None, None, None, [], [], [])

  /** The order of the set of deleted files. */
  predicate PairLess(a: Pair, b: Pair) {
    a.level < b.level || (a.level == b.level && a.number < b.number)
  }

  predicate Ascending(ps: seq<Pair>) {
    forall i, j :: 0 <= i < j < |ps| ==> PairLess(ps[i], ps[j])
  }

  /** std::set::insert. */
  function InsertPair(ps: seq<Pair>, p: Pair): seq<Pair> {
    if ps == [] || PairLess(p, ps[0]) then [p] + ps
    else if ps[0] == p then ps
    else [ps[0]] + InsertPair(ps[1..], p)
  }

  lemma {:induction false} InsertLast(ps: seq<Pair>, p: Pair)
    requires Ascending(ps + [p])
    ensures InsertPair(ps, p) == ps + [p]
  {
    if ps != [] {
      assert (ps + [p])[0] == ps[0] && (ps + [p])[|ps|] == p;
      assert PairLess(ps[0], p);
      assert ps[1..] + [p] == (ps + [p])[1..];
      InsertLast(ps[1..], p);
      assert [ps[0]] + (ps[1..] + [p]) == ps + [p];
    }
  }

  // ---- the fields of the written form ---------------------------------------------------------------

  datatype Field =
    | Comparator(name: Bytes) | LogNumber(n: nat) | PrevLogNumber(n: nat) | NextFile(n: nat) | LastSequence(n: nat)
    | Pointer(level: nat, key: Bytes) | Deleted(level: nat, n: nat) | Added(level: nat, meta: Meta)

  predicate FieldFits(f: Field) {
    match f
    case Comparator(name) => |name| < TWO_32
    case LogNumber(n) => n < TWO_64
    case PrevLogNumber(n) => n < TWO_64
    case NextFile(n) => n < TWO_64
    case LastSequence(n) => n < TWO_64
    case Pointer(level, key) => level < NUM_LEVELS && |key| < TWO_32
    case Deleted(level, n) => level < NUM_LEVELS && n < TWO_64
    case Added(level, m) =>
      level < NUM_LEVELS && m.number < TWO_64 && m.size < TWO_64 && |m.smallest| < TWO_32 && |m.largest| < TWO_32
  }

  function EncodeField(f: Field): Bytes {
    match f
    case Comparator(name) => Varint(COMPARATOR) + LengthPrefixed(name)
    case LogNumber(n) => Varint(LOG_NUMBER) + Varint(n)
    case PrevLogNumber(n) => Varint(PREV_LOG_NUMBER) + Varint(n)
    case NextFile(n) => Varint(NEXT_FILE_NUMBER) + Varint(n)
    case LastSequence(n) => Varint(LAST_SEQUENCE) + Varint(n)
    case Pointer(level, key) => Varint(COMPACT_POINTER) + (Varint(level) + LengthPrefixed(key))
    case Deleted(level, n) => Varint(DELETED_FILE) + (Varint(level) + Varint(n))
    case Added(level, m) =>
      Varint(NEW_FILE) + (Varint(level) + (Varint(m.number) +
        (Varint(m.size) + (LengthPrefixed(m.smallest) + LengthPrefixed(m.largest)))))
  }

  function EncodeFields(fs: seq<Field>): Bytes {
    if fs == [] then [] else EncodeField(fs[0]) + EncodeFields(fs[1..])
  }

  lemma {:induction false} EncodeFieldsSnoc(fs: seq<Field>, f: Field)
    ensures EncodeFields(fs + [f]) == EncodeFields(fs) + EncodeField(f)
  {
    hide EncodeField;
    if fs == [] {
      assert EncodeFields([f]) == EncodeField(f) + EncodeFields([]);
      assert fs + [f] == [f];
    } else {
      EncodeFieldsSnoc(fs[1..], f);
      assert (fs + [f])[0] == fs[0] && (fs + [f])[1..] == fs[1..] + [f];
    }
  }

  /** A level no greater than the deepest. */
  function ParseLevel(b: Bytes): (r: Parsed)
    ensures r.Number? ==> |r.rest| < |b|
  {
    match ParseVarint(b, 5, TWO_32)
    case NoNumber => NoNumber
    case Number(n, rest) => if n < NUM_LEVELS then Number(n, rest) else NoNumber
  }

  function Parse64(b: Bytes): (r: Parsed)
    ensures r.Number? ==> |r.rest| < |b|
  {
    ParseVarint(b, 10, TWO_64)
  }

  /** What follows a tag: the field and the rest of the input, or a message. */
  function ParseField(tag: nat, b: Bytes): (r: Option<(Field, Bytes)>)
    ensures r.Some? ==> |r.value.1| <= |b|
  {
    if tag == COMPARATOR then
      (match ParsePiece(b) case NoPiece => None case Piece(s, rest) => Some((Comparator(s), rest)))
    else if tag == LOG_NUMBER then
      (match Parse64(b) case NoNumber => None case Number(n, rest) => Some((LogNumber(n), rest)))
    else if tag == PREV_LOG_NUMBER then
      (match Parse64(b) case NoNumber => None case Number(n, rest) => Some((PrevLogNumber(n), rest)))
    else if tag == NEXT_FILE_NUMBER then
      (match Parse64(b) case NoNumber => None case Number(n, rest) => Some((NextFile(n), rest)))
    else if tag == LAST_SEQUENCE then
      (match Parse64(b) case NoNumber => None case Number(n, rest) => Some((LastSequence(n), rest)))
    else if tag == COMPACT_POINTER then ParsePointer(b)
    else if tag == DELETED_FILE then ParseDeleted(b)
    else if tag == NEW_FILE then ParseAdded(b)
    else None
  }

  function ParsePointer(b: Bytes): (r: Option<(Field, Bytes)>)
    ensures r.Some? ==> |r.value.1| <= |b|
  {
    match ParseLevel(b)
    case NoNumber => None
    case Number(level, b1) =>
      match ParsePiece(b1)
      case NoPiece => None
      case Piece(key, rest) => Some((Pointer(level, key), rest))
  }

  function ParseDeleted(b: Bytes): (r: Option<(Field, Bytes)>)
    ensures r.Some? ==> |r.value.1| <= |b|
  {
    match ParseLevel(b)
    case NoNumber => None
    case Number(level, b1) =>
      match Parse64(b1)
      case NoNumber => None
      case Number(n, rest) => Some((Deleted(level, n), rest))
  }

  function ParseAdded(b: Bytes): (r: Option<(Field, Bytes)>)
    ensures r.Some? ==> |r.value.1| <= |b|
  {
    match ParseLevel(b)
    case NoNumber => None
    case Number(level, b1) =>
      match Parse64(b1)
      case NoNumber => None
      case Number(number, b2) =>
        match Parse64(b2)
        case NoNumber => None
        case Number(size, b3) => ParseBounds(level, number, size, b3)
  }

  function ParseBounds(level: nat, number: nat, size: nat, b: Bytes): (r: Option<(Field, Bytes)>)
    ensures r.Some? ==> |r.value.1| <= |b|
  {
    match ParsePiece(b)
    case NoPiece => None
    case Piece(smallest, b1) =>
      match ParsePiece(b1)
      case NoPiece => None
      case Piece(largest, rest) => Some((Added(level, Meta(number, size, smallest, largest)), rest))
  }

  /** The fields at the head of b, and whether they are all of it. */
  function ParseFields(b: Bytes): (seq<Field>, bool)
    decreases |b|
  {
    match ParseVarint(b, 5, TWO_32)
    case NoNumber => ([], b == [])
    case Number(tag, rest) =>
      match ParseField(tag, rest)
      case None => ([], false)
      case Some((f, more)) => ([f] + ParseFields(more).0, ParseFields(more).1)
  }

  /** The tag of a field. */
  function TagOf(f: Field): nat {
    match f
    case Comparator(_) => COMPARATOR
    case LogNumber(_) => LOG_NUMBER
    case PrevLogNumber(_) => PREV_LOG_NUMBER
    case NextFile(_) => NEXT_FILE_NUMBER
    case LastSequence(_) => LAST_SEQUENCE
    case Pointer(_, _) => COMPACT_POINTER
    case Deleted(_, _) => DELETED_FILE
    case Added(_, _) => NEW_FILE
  }

  function Body(f: Field): Bytes {
    match f
    case Comparator(name) => LengthPrefixed(name)
    case LogNumber(n) => Varint(n)
    case PrevLogNumber(n) => Varint(n)
    case NextFile(n) => Varint(n)
    case LastSequence(n) => Varint(n)
    case Pointer(level, key) => Varint(level) + LengthPrefixed(key)
    case Deleted(level, n) => Varint(level) + Varint(n)
    case Added(level, m) =>
      Varint(level) + (Varint(m.number) + (Varint(m.size) + (LengthPrefixed(m.smallest) + LengthPrefixed(m.largest))))
  }

  lemma LevelBack(level: nat, rest: Bytes)
    requires level < NUM_LEVELS
    ensures ParseLevel(Varint(level) + rest) == Number(level, rest)
  {
    Varint32Back(level, rest);
  }

  lemma AddedBack(level: nat, m: Meta, rest: Bytes)
    requires FieldFits(Added(level, m))
    ensures ParseAdded(Body(Added(level, m)) + rest) == Some((Added(level, m), rest))
  {
    hide Varint;
    hide ParseVarint;
    hide ParsePiece;
    hide LengthPrefixed;
    var t4 := LengthPrefixed(m.largest) + rest;
    var t3 := LengthPrefixed(m.smallest) + t4;
    var t2 := Varint(m.size) + t3;
    var t1 := Varint(m.number) + t2;
    assert Body(Added(level, m)) + rest == Varint(level) + t1;
    LevelBack(level, t1);
    Varint64Back(m.number, t2);
    Varint64Back(m.size, t3);
    PieceBack(m.smallest, t4);
    PieceBack(m.largest, rest);
  }

  lemma FieldBack(f: Field, rest: Bytes)
    requires FieldFits(f)
    ensures ParseField(TagOf(f), Body(f) + rest) == Some((f, rest))
  {
    hide Varint;
    hide ParseVarint;
    hide ParsePiece;
    hide ParseAdded;
    match f {
      case Comparator(name) => PieceBack(name, rest);
      case LogNumber(n) => Varint64Back(n, rest);
      case PrevLogNumber(n) => Varint64Back(n, rest);
      case NextFile(n) => Varint64Back(n, rest);
      case LastSequence(n) => Varint64Back(n, rest);
      case Pointer(level, key) =>
        assert Body(f) + rest == Varint(level) + (LengthPrefixed(key) + rest);
        LevelBack(level, LengthPrefixed(key) + rest);
        PieceBack(key, rest);
      case Deleted(level, n) =>
        assert Body(f) + rest == Varint(level) + (Varint(n) + rest);
        LevelBack(level, Varint(n) + rest);
        Varint64Back(n, rest);
      case Added(level, m) => AddedBack(level, m, rest);
    }
  }

  lemma EncodeIsTagged(f: Field)
    ensures EncodeField(f) == Varint(TagOf(f)) + Body(f) && TagOf(f) < TWO_32
  {
  }

  predicate FieldsFit(fs: seq<Field>) {
    forall i :: 0 <= i < |fs| ==> FieldFits(fs[i])
  }

  lemma {:induction false} FieldsBack(fs: seq<Field>)
    requires FieldsFit(fs)
    ensures ParseFields(EncodeFields(fs)) == (fs, true)
  {
    hide Varint;
    hide Body;
    hide EncodeField;
    hide ParseField;
    hide FieldFits;
    if fs == [] {
      NoTag();
    } else {
      var rest := EncodeFields(fs[1..]);
      FieldsBack(fs[1..]);
      EncodeIsTagged(fs[0]);
      assert EncodeFields(fs) == Varint(TagOf(fs[0])) + (Body(fs[0]) + rest);
      hide ParseVarint;
      Varint32Back(TagOf(fs[0]), Body(fs[0]) + rest);
      FieldBack(fs[0], rest);
      assert [fs[0]] + fs[1..] == fs;
    }
  }

  lemma NoTag()
    ensures ParseVarint([], 5, TWO_32) == NoNumber
  {
  }

  // ---- edits as lists of fields ----------------------------------------------------------------------

  function OptionField(o: Option<nat>, make: nat -> Field): seq<Field> {
    if o.Some? then [make(o.value)] else []
  }

  function PointerFields(ps: seq<(nat, Bytes)>): (r: seq<Field>)
    ensures |r| == |ps|
  {
    seq(|ps|, i requires 0 <= i < |ps| => Pointer(ps[i].0, ps[i].1))
  }

  function DeletedFields(ps: seq<Pair>): (r: seq<Field>)
    ensures |r| == |ps|
  {
    seq(|ps|, i requires 0 <= i < |ps| => Deleted(ps[i].level, ps[i].number))
  }

  function AddedFields(fs: seq<(nat, Meta)>): (r: seq<Field>)
    ensures |r| == |fs|
  {
    seq(|fs|, i requires 0 <= i < |fs| => Added(fs[i].0, fs[i].1))
  }

  /** The scalar fields that are set, in the order they are written. */
  function ScalarFields(e: Edit): seq<Field> {
    (if e.comparator.Some? then [Comparator(e.comparator.value)] else []) +
    (OptionField(e.logNumber, (n: nat) => LogNumber(n)) + (OptionField(e.prevLogNumber, (n: nat) => PrevLogNumber(n)) +
    (OptionField(e.nextFile, (n: nat) => NextFile(n)) + OptionField(e.lastSequence, (n: nat) => LastSequence(n)))))
  }

  function FieldsOf(e: Edit): seq<Field> {
    ScalarFields(e) + (PointerFields(e.pointers) + (DeletedFields(e.deleted) + AddedFields(e.added)))
  }

  function ApplyField(e: Edit, f: Field): Edit {
    match f
    case Comparator(name) => e.(comparator := Some(name))
    case LogNumber(n) => e.(logNumber := Some(n))
    case PrevLogNumber(n) => e.(prevLogNumber := Some(n))
    case NextFile(n) => e.(nextFile := Some(n))
    case LastSequence(n) => e.(lastSequence := Some(n))
    case Pointer(level, key) => e.(pointers := e.pointers + [(level, key)])
    case Deleted(level, n) => e.(deleted := InsertPair(e.deleted, Pair(level, n)))
    case Added(level, m) => e.(added := e.added + [(level, m)])
  }

  function ApplyFields(e: Edit, fs: seq<Field>): Edit
    decreases |fs|
  {
    if fs == [] then e else ApplyFields(ApplyField(e, fs[0]), fs[1..])
  }

  lemma {:induction false} ApplyConcat(e: Edit, a: seq<Field>, b: seq<Field>)
    ensures ApplyFields(e, a + b) == ApplyFields(ApplyFields(e, a), b)
    decreases |a|
  {
    hide ApplyField;
    if a == [] {
      assert a + b == b;
    } else {
      ApplyConcat(ApplyField(e, a[0]), a[1..], b);
      assert (a + b)[0] == a[0] && (a + b)[1..] == a[1..] + b;
    }
  }

  lemma {:induction false} ApplyPointers(e: Edit, ps: seq<(nat, Bytes)>)
    ensures ApplyFields(e, PointerFields(ps)) == e.(pointers := e.pointers + ps)
    decreases |ps|
  {
    if ps == [] {
      assert e.pointers + ps == e.pointers;
    } else {
      var next := e.(pointers := e.pointers + [ps[0]]);
      ApplyPointers(next, ps[1..]);
      assert PointerFields(ps)[1..] == PointerFields(ps[1..]);
      assert e.pointers + [ps[0]] + ps[1..] == e.pointers + ps;
    }
  }

  lemma {:induction false} ApplyAdded(e: Edit, fs: seq<(nat, Meta)>)
    ensures ApplyFields(e, AddedFields(fs)) == e.(added := e.added + fs)
    decreases |fs|
  {
    if fs == [] {
      assert e.added + fs == e.added;
    } else {
      ApplyAdded(e.(added := e.added + [fs[0]]), fs[1..]);
      assert AddedFields(fs)[1..] == AddedFields(fs[1..]);
      assert e.added + [fs[0]] + fs[1..] == e.added + fs;
    }
  }

  lemma {:induction false} ApplyDeleted(e: Edit, ps: seq<Pair>)
    requires Ascending(e.deleted + ps)
    ensures ApplyFields(e, DeletedFields(ps)) == e.(deleted := e.deleted + ps)
    decreases |ps|
  {
    if ps == [] {
      assert e.deleted + ps == e.deleted;
    } else {
      var all := e.deleted + ps;
      assert e.deleted + [ps[0]] == all[..|e.deleted| + 1];
      assert Ascending(all[..|e.deleted| + 1]);
      InsertLast(e.deleted, ps[0]);
      assert e.deleted + [ps[0]] + ps[1..] == all;
      ApplyDeleted(e.(deleted := e.deleted + [ps[0]]), ps[1..]);
      assert DeletedFields(ps)[1..] == DeletedFields(ps[1..]);
    }
  }

  /** Clear: everything but the compaction pointers. */
  function Cleared(e: Edit): Edit {
    EMPTY.(pointers := e.pointers)
  }

  lemma ApplyScalars(e: Edit, into: Edit)
    requires into.comparator.None? && into.logNumber.None? && into.prevLogNumber.None? && into.nextFile.None? &&
      into.lastSequence.None?
    ensures ApplyFields(into, ScalarFields(e)) == into.(comparator := e.comparator, logNumber := e.logNumber,
      prevLogNumber := e.prevLogNumber, nextFile := e.nextFile, lastSequence := e.lastSequence)
  {
    var a: seq<Field> := if e.comparator.Some? then [Comparator(e.comparator.value)] else [];
    var b, c := OptionField(e.logNumber, (n: nat) => LogNumber(n)),
      OptionField(e.prevLogNumber, (n: nat) => PrevLogNumber(n));
    var d, f := OptionField(e.nextFile, (n: nat) => NextFile(n)),
      OptionField(e.lastSequence, (n: nat) => LastSequence(n));
    ApplyConcat(into, a, b + (c + (d + f)));
    var i1 := into.(comparator := e.comparator);
    AtMostOne(into, a);
    ApplyConcat(i1, b, c + (d + f));
    var i2 := i1.(logNumber := e.logNumber);
    AtMostOne(i1, b);
    ApplyConcat(i2, c, d + f);
    var i3 := i2.(prevLogNumber := e.prevLogNumber);
    AtMostOne(i2, c);
    ApplyConcat(i3, d, f);
    AtMostOne(i3, d);
    AtMostOne(i3.(nextFile := e.nextFile), f);
  }

  lemma AtMostOne(e: Edit, fs: seq<Field>)
    requires |fs| <= 1
    ensures ApplyFields(e, fs) == if fs == [] then e else ApplyField(e, fs[0])
  {
  }

  /** Decoding what e encodes to into an edit that held b: everything of e, after whatever pointers b had. */
  lemma DecodedInto(e: Edit, b: Edit)
    requires Ascending(e.deleted)
    ensures ApplyFields(Cleared(b), FieldsOf(e)) == e.(pointers := b.pointers + e.pointers)
  {
    hide ApplyFields;
    hide ApplyField;
    var c := Cleared(b);
    var p, d, a := PointerFields(e.pointers), DeletedFields(e.deleted), AddedFields(e.added);
    ApplyConcat(c, ScalarFields(e), p + (d + a));
    ApplyScalars(e, c);
    var c1 := ApplyFields(c, ScalarFields(e));
    ApplyConcat(c1, p, d + a);
    ApplyPointers(c1, e.pointers);
    var c2 := c1.(pointers := b.pointers + e.pointers);
    ApplyConcat(c2, d, a);
    assert [] + e.deleted == e.deleted && [] + e.added == e.added;
    ApplyDeleted(c2, e.deleted);
    ApplyAdded(c2.(deleted := e.deleted), e.added);
  }

  predicate EditFits(e: Edit) {
    Ascending(e.deleted) && FieldsFit(FieldsOf(e))
  }

  /** Decoding undoes encoding exactly when the receiving edit held no compaction pointers: Clear leaves those. */
  lemma RoundTripIff(e: Edit, b: Edit)
    requires EditFits(e)
    ensures ParseFields(EncodeFields(FieldsOf(e))) == (FieldsOf(e), true)
    ensures ApplyFields(Cleared(b), FieldsOf(e)) == e <==> b.pointers == []
  {
    hide EncodeFields;
    hide ParseFields;
    hide FieldsFit;
    FieldsBack(FieldsOf(e));
    DecodedInto(e, b);
    if b.pointers == [] {
      assert b.pointers + e.pointers == e.pointers;
    } else {
      assert |b.pointers + e.pointers| > |e.pointers|;
    }
  }

  // ---- the edit as an object -------------------------------------------------------------------------------

  class VersionEdit {
    var comparator: Option<Bytes>
    var logNumber: Option<nat>
    var prevLogNumber: Option<nat>
    var nextFile: Option<nat>
    var lastSequence: Option<nat>
    var pointers: seq<(nat, Bytes)>
    var deleted: seq<Pair>
    var added: seq<(nat, Meta)>

    ghost function E(): Edit
      reads this
    {
      Edit(comparator, logNumber, prevLogNumber, nextFile, lastSequence, pointers, deleted, added)
    }

    constructor ()
      ensures E() == EMPTY
    {
      comparator, logNumber, prevLogNumber, nextFile, lastSequence := None, None, None, None, None;
      pointers, deleted, added := [], [], [];
    }

    method Clear()
      modifies this
      ensures E() == Cleared(old(E()))
    {
      comparator, logNumber, prevLogNumber, nextFile, lastSequence := None, None, None, None, None;
      deleted, added := [], [];
    }

    method EncodeTo(dst: Bytes) returns (r: Bytes)
      ensures r == dst + EncodeFields(FieldsOf(E()))
    {
      hide EncodeFields;
      hide EncodeField;
      hide ScalarFields;
      ghost var fs := ScalarFields(E());
      r := EncodeScalars(dst);
      r := PutAll(dst, r, fs, PointerFields(pointers));
      r := PutAll(dst, r, fs + PointerFields(pointers), DeletedFields(deleted));
      r := PutAll(dst, r, fs + PointerFields(pointers) + DeletedFields(deleted), AddedFields(added));
      assert fs + PointerFields(pointers) + DeletedFields(deleted) + AddedFields(added) == FieldsOf(E());
    }

    method EncodeScalars(dst: Bytes) returns (r: Bytes)
      ensures r == dst + EncodeFields(ScalarFields(E()))
    {
      hide EncodeFields;
      hide EncodeField;
      NoFields();
      ghost var e := E();
      ghost var a: seq<Field> := if comparator.Some? then [Comparator(comparator.value)] else [];
      ghost var b, c := OptionField(logNumber, (n: nat) => LogNumber(n)),
        OptionField(prevLogNumber, (n: nat) => PrevLogNumber(n));
      ghost var d, f := OptionField(nextFile, (n: nat) => NextFile(n)),
        OptionField(lastSequence, (n: nat) => LastSequence(n));
      r := dst;
      if comparator.Some? {
        assert dst + [] == dst;
        r := Put(dst, r, [], Comparator(comparator.value));
        assert [] + a == a;
      } else {
        assert dst + [] == dst;
      }
      r := PutNumber(dst, r, a, logNumber, (n: nat) => LogNumber(n));
      r := PutNumber(dst, r, a + b, prevLogNumber, (n: nat) => PrevLogNumber(n));
      r := PutNumber(dst, r, a + b + c, nextFile, (n: nat) => NextFile(n));
      r := PutNumber(dst, r, a + b + c + d, lastSequence, (n: nat) => LastSequence(n));
      assert a + b + c + d + f == a + (b + (c + (d + f)));
    }

    /** A numeric field appended when it is set. */
    static method PutNumber(ghost dst: Bytes, before: Bytes, ghost fs: seq<Field>, o: Option<nat>, make: nat -> Field)
      returns (r: Bytes)
      requires before == dst + EncodeFields(fs)
      ensures r == dst + EncodeFields(fs + OptionField(o, make))
    {
      hide EncodeFields;
      r := before;
      if o.Some? {
        r := Put(dst, r, fs, make(o.value));
      } else {
        assert fs + [] == fs;
      }
    }

    static lemma NoFields()
      ensures EncodeFields([]) == []
    {
    }

    /** One tagged field appended. */
    static method Put(ghost dst: Bytes, before: Bytes, ghost fs: seq<Field>, f: Field) returns (r: Bytes)
      requires before == dst + EncodeFields(fs)
      ensures r == dst + EncodeFields(fs + [f])
    {
      hide EncodeFields;
      EncodeFieldsSnoc(fs, f);
      r := before + EncodeField(f);
      assert dst + EncodeFields(fs) + EncodeField(f) == dst + (EncodeFields(fs) + EncodeField(f));
    }

    static method PutAll(ghost dst: Bytes, before: Bytes, ghost fs: seq<Field>, more: seq<Field>) returns (r: Bytes)
      requires before == dst + EncodeFields(fs)
      ensures r == dst + EncodeFields(fs + more)
    {
      hide EncodeFields;
      r := before;
      assert fs + more[..0] == fs;
      for i := 0 to |more|
        invariant r == dst + EncodeFields(fs + more[..i])
      {
        assert fs + more[..i] + [more[i]] == fs + more[..i + 1];
        r := Put(dst, r, fs + more[..i], more[i]);
      }
      assert more[..|more|] == more;
    }

    method SetField(f: Field)
      modifies this
      ensures E() == ApplyField(old(E()), f)
    {
      match f {
        case Comparator(name) => comparator := Some(name);
        case LogNumber(n) => logNumber := Some(n);
        case PrevLogNumber(n) => prevLogNumber := Some(n);
        case NextFile(n) => nextFile := Some(n);
        case LastSequence(n) => lastSequence := Some(n);
        case Pointer(level, key) => pointers := pointers + [(level, key)];
        case Deleted(level, n) => deleted := InsertPair(deleted, Pair(level, n));
        case Added(level, m) => added := added + [(level, m)];
      }
    }

    /** Fields are set one by one until the input ends, a tag is missing, or a field is malformed. */
    method DecodeFrom(src: Bytes) returns (ok: bool)
      modifies this
      ensures E() == ApplyFields(Cleared(old(E())), ParseFields(src).0)
      ensures ok == ParseFields(src).1
    {
      hide ParseVarint;
      hide ParseField;
      hide ApplyField;
      Clear();
      var input := src;
      while true
        invariant ApplyFields(E(), ParseFields(input).0) == ApplyFields(Cleared(old(E())), ParseFields(src).0)
        invariant ParseFields(input).1 == ParseFields(src).1
        decreases |input|
      {
        var tag := GetVarint(input, 5, TWO_32);
        if tag.NoNumber? {
          return input == [];
        }
        var f := ParseField(tag.value, tag.rest);
        if f.None? {
          return false;
        }
        SetField(f.value.0);
        input := f.value.1;
      }
    }

    /** An edit written by one object and read by a fresh one. */
    method CopyOf(source: VersionEdit) returns (ok: bool)
      requires E() == EMPTY && EditFits(source.E()) && this != source
      modifies this
      ensures ok && E() == source.E()
    {
      RoundTripIff(source.E(), E());
      var b := source.EncodeTo([]);
      assert [] + EncodeFields(FieldsOf(source.E())) == EncodeFields(FieldsOf(source.E()));
      ok := DecodeFrom(b);
    }
  }
}
