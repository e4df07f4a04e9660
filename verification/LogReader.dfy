/** Reading a log back: block buffering, fragment reassembly, and what a truncated log yields. */
module LogReader {
  import opened Keys
  import opened Coding
  import opened LogFormat

  // ---- one physical record, without the buffer ---------------------------------------------------

  datatype Kind = Eof | Bad | Record(t: byte, data: Bytes)

  /** What one read yields, the file position after it, and how many bytes it reports as corrupt. */
  datatype Phys = Phys(kind: Kind, at: nat, dropped: nat)

  function Min(a: nat, b: nat): nat {
    if a < b then a else b
  }

  /** The bytes from p to the end of its block, or of the file. */
  function InBlock(file: Bytes, p: nat): nat
    requires p <= |file|
  {
    Min(BLOCK_SIZE - p % BLOCK_SIZE, |file| - p)
  }

  predicate BlockComplete(file: Bytes, p: nat)
    requires p <= |file|
  {
    |file| - p >= BLOCK_SIZE - p % BLOCK_SIZE
  }

  function LengthAt(file: Bytes, p: nat): (n: nat)
    requires p + HEADER_SIZE <= |file|
    ensures n < 65536
  {
    file[p + 4] as int + 256 * file[p + 5] as int
  }

  /** The record whose header is at p; the header and n bytes of the block from there are at hand. */
  function ReadHeader(file: Bytes, p: nat): (r: Phys)
    requires p <= |file| && HEADER_SIZE <= InBlock(file, p)
    ensures p < r.at <= |file| && (!r.kind.Bad? ==> r.dropped == 0)
  {
    var n := InBlock(file, p);
    var length := LengthAt(file, p);
    var t := file[p + 6];
    if HEADER_SIZE + length > n then
      if BlockComplete(file, p) then Phys(Bad, p + n, n) else Phys(Eof, p + n, 0)
    else if t == 0 && length == 0 then Phys(Bad, p + n, 0)
    else if !CrcMatches(DecodeFixed32(file[p..]), file[p + 6..p + HEADER_SIZE + length]) then Phys(Bad, p + n, n)
    else Phys(Record(t, file[p + HEADER_SIZE..p + HEADER_SIZE + length]), p + HEADER_SIZE + length, 0)
  }

  function ReadPhys(file: Bytes, p: nat): (r: Phys)
    requires p <= |file|
    ensures p <= r.at <= |file| && (!r.kind.Eof? ==> p < r.at) && (!r.kind.Bad? ==> r.dropped == 0)
    decreases |file| - p
  {
    if InBlock(file, p) >= HEADER_SIZE then ReadHeader(file, p)
    else if BlockComplete(file, p) then ReadPhys(file, p + InBlock(file, p))
    else Phys(Eof, |file|, 0)
  }

  // ---- one logical record ----------------------------------------------------------------------------

  datatype Outcome = Outcome(record: Option<Bytes>, at: nat, dropped: nat)

  function Unfinished(scratch: Bytes, inFragmented: bool): nat {
    if inFragmented then |scratch| else 0
  }

  function ReadLogical(file: Bytes, p: nat, scratch: Bytes, inFragmented: bool, dropped: nat): (r: Outcome)
    requires p <= |file|
    ensures p <= r.at <= |file| && (r.record.Some? ==> p < r.at)
    decreases |file| - p
  {
    var f := ReadPhys(file, p);
    match f.kind
    case Eof => Outcome(None, f.at, dropped + f.dropped)
    case Bad =>
      if inFragmented then ReadLogical(file, f.at, [], false, dropped + f.dropped + |scratch|)
      else ReadLogical(file, f.at, scratch, false, dropped + f.dropped)
    case Record(t, data) =>
      if t == FULL then Outcome(Some(data), f.at, dropped + Unfinished(scratch, inFragmented))
      else if t == FIRST then ReadLogical(file, f.at, data, true, dropped + Unfinished(scratch, inFragmented))
      else if t == MIDDLE then
        if inFragmented then ReadLogical(file, f.at, scratch + data, true, dropped)
        else ReadLogical(file, f.at, scratch, false, dropped + |data|)
      else if t == LAST then
        if inFragmented then Outcome(Some(scratch + data), f.at, dropped)
        else ReadLogical(file, f.at, scratch, false, dropped + |data|)
      else ReadLogical(file, f.at, [], false, dropped + |data| + Unfinished(scratch, inFragmented))
  }

  /** Every record a reader gets, and the bytes it reports as corrupt on the way. */
  function ReadAll(file: Bytes, p: nat): (r: (seq<Bytes>, nat))
    requires p <= |file|
    decreases |file| - p
  {
    var o := ReadLogical(file, p, [], false, 0);
    match o.record
    case None => ([], o.dropped)
    case Some(data) =>
      var more := ReadAll(file, o.at);
      ([data] + more.0, o.dropped + more.1)
  }

  // ---- the reader ----------------------------------------------------------------------------------------

  class Reader {
    const file: Bytes
    /** How far the file has been read into the buffer (end_of_buffer_offset_). */
    var endOfBuffer: nat
    var buffer: Bytes
    var eof: bool
    /** Total bytes passed to the reporter. */
    var corruption: nat

    ghost predicate Valid()
      reads this
    {
      && |buffer| <= endOfBuffer <= |file| && buffer == file[endOfBuffer - |buffer|..endOfBuffer]
      && (if eof then endOfBuffer == |file| && At() % BLOCK_SIZE + |buffer| < BLOCK_SIZE
          else endOfBuffer % BLOCK_SIZE == 0 && (buffer == [] || At() % BLOCK_SIZE + |buffer| == BLOCK_SIZE))
    }

    /** The position of the next unread byte. */
    ghost function At(): nat
      requires |buffer| <= endOfBuffer
      reads this
    {
      endOfBuffer - |buffer|
    }

    constructor (file: Bytes)
      ensures Valid() && this.file == file && At() == 0 && corruption == 0
    {
      this.file := file;
      endOfBuffer, buffer, eof, corruption := 0, [], false, 0;
    }

    /** file_->Read: the next block, or what is left of the file. */
    method FillBuffer()
      requires Valid() && !eof && |buffer| < HEADER_SIZE
      modifies this
      ensures Valid() && corruption == old(corruption)
      ensures At() == old(At()) + old(|buffer|)
      ensures eof || |buffer| == BLOCK_SIZE
      ensures ReadPhys(file, At()) == ReadPhys(file, old(At()))
    {
      hide ReadPhys;
      AfterTrailer();
      ghost var start := endOfBuffer;
      assert start % BLOCK_SIZE == 0;
      var n := if |file| - endOfBuffer < BLOCK_SIZE then |file| - endOfBuffer else BLOCK_SIZE;
      buffer := file[endOfBuffer..endOfBuffer + n];
      endOfBuffer := endOfBuffer + n;
      if |buffer| < BLOCK_SIZE {
        eof := true;
      }
    }

    /** A buffer too short for a header, with more file to come, is a block's trailer. */
    lemma AfterTrailer()
      requires Valid() && !eof && |buffer| < HEADER_SIZE
      ensures endOfBuffer % BLOCK_SIZE == 0
      ensures ReadPhys(file, endOfBuffer) == ReadPhys(file, At())
    {
    }

    /** At a header, the buffer is the rest of the block at hand. */
    lemma BufferIsBlock()
      requires Valid() && (eof || buffer != [])
      ensures |buffer| == InBlock(file, At())
      ensures BlockComplete(file, At()) <==> !eof
    {
    }

    method ReadPhysicalRecord() returns (kind: Kind)
      requires Valid()
      modifies this
      ensures Valid() && At() == ReadPhys(file, old(At())).at && kind == ReadPhys(file, old(At())).kind
      ensures corruption == old(corruption) + ReadPhys(file, old(At())).dropped
    {
      ghost var p := At();
      while |buffer| < HEADER_SIZE
        invariant Valid() && corruption == old(corruption) && ReadPhys(file, At()) == ReadPhys(file, p)
        decreases !eof, |buffer| < HEADER_SIZE
      {
        if !eof {
          FillBuffer();
        } else {
          BufferIsBlock();
          buffer := [];
          return Eof;
        }
      }
      BufferIsBlock();
      kind := ParseRecord();
    }

    /** Check the header in the buffer and consume its record, or drop the buffer. */
    method ParseRecord() returns (kind: Kind)
      requires Valid() && HEADER_SIZE <= |buffer| == InBlock(file, At()) && (BlockComplete(file, At()) <==> !eof)
      modifies this
      ensures Valid() && At() == ReadHeader(file, old(At())).at && kind == ReadHeader(file, old(At())).kind
      ensures corruption == old(corruption) + ReadHeader(file, old(At())).dropped
    {
      hide CrcMatches;
      hide DecodeFixed32;
      hide InBlock;
      hide BlockComplete;
      hide LengthAt;
      ghost var p := At();
      var length := buffer[4] as int + 256 * buffer[5] as int;
      HeaderInBuffer(length);
      if HEADER_SIZE + length > |buffer| {
        if !eof {
          corruption := corruption + |buffer|;
          kind := Bad;
        } else {
          kind := Eof;
        }
        DropBuffer();
      } else {
        kind := ParsePayload(length);
      }
    }

    method ParsePayload(length: nat) returns (kind: Kind)
      requires Valid() && HEADER_SIZE <= |buffer| == InBlock(file, At()) && length == LengthAt(file, At())
      requires HEADER_SIZE + length <= |buffer|
      modifies this
      ensures Valid() && At() == ReadHeader(file, old(At())).at && kind == ReadHeader(file, old(At())).kind
      ensures corruption == old(corruption) + ReadHeader(file, old(At())).dropped
    {
      hide CrcMatches;
      hide DecodeFixed32;
      hide InBlock;
      hide LengthAt;
      var t := buffer[6];
      PayloadInBuffer(length);
      ChecksumInBuffer();
      if t == 0 && length == 0 {
        DropBuffer();
        kind := Bad;
      } else if !CrcMatches(DecodeFixed32(buffer), buffer[6..HEADER_SIZE + length]) {
        corruption := corruption + |buffer|;
        DropBuffer();
        kind := Bad;
      } else {
        kind := Record(t, buffer[HEADER_SIZE..HEADER_SIZE + length]);
        Consume(HEADER_SIZE + length);
      }
    }

    lemma HeaderInBuffer(length: nat)
      requires Valid() && HEADER_SIZE <= |buffer| && length == buffer[4] as int + 256 * buffer[5] as int
      ensures At() + HEADER_SIZE <= |file| && length == LengthAt(file, At())
    {
    }

    lemma ChecksumInBuffer()
      requires Valid() && HEADER_SIZE <= |buffer|
      ensures DecodeFixed32(buffer) == DecodeFixed32(file[At()..])
    {
    }

    lemma PayloadInBuffer(length: nat)
      requires Valid() && HEADER_SIZE + length <= |buffer|
      ensures At() + HEADER_SIZE + length <= |file| && buffer[6] == file[At() + 6]
      ensures buffer[6..HEADER_SIZE + length] == file[At() + 6..At() + HEADER_SIZE + length]
      ensures buffer[HEADER_SIZE..HEADER_SIZE + length] == file[At() + HEADER_SIZE..At() + HEADER_SIZE + length]
    {
      assert buffer[6] == file[At()..endOfBuffer][6];
      SliceOfSlice(file, At(), endOfBuffer, 6, HEADER_SIZE + length);
      SliceOfSlice(file, At(), endOfBuffer, HEADER_SIZE, HEADER_SIZE + length);
    }

    method DropBuffer()
      requires Valid() && buffer != []
      modifies `buffer
      ensures Valid() && At() == old(At()) + |old(buffer)|
    {
      BlockEnd(At(), |buffer|);
      buffer := [];
    }

    method Consume(n: nat)
      requires Valid() && 0 < n <= |buffer|
      modifies `buffer
      ensures Valid() && At() == old(At()) + n
    {
      BlockEnd(At(), n);
      BlockEnd(At(), |buffer|);
      buffer := buffer[n..];
    }

    /** One turn of the joining loop: what a physical record does to the record under assembly, and the bytes
        reported. */
    method Join(kind: Kind, scratch0: Bytes, inFragmented0: bool, ghost p: nat, ghost dropped: nat)
      returns (record: Option<Bytes>, scratch: Bytes, inFragmented: bool, reported: nat)
      requires p <= |file| && kind == ReadPhys(file, p).kind && !kind.Eof?
      ensures var f := ReadPhys(file, p);
        ReadLogical(file, p, scratch0, inFragmented0, dropped) ==
          if record.Some? then Outcome(record, f.at, dropped + f.dropped + reported)
          else ReadLogical(file, f.at, scratch, inFragmented, dropped + f.dropped + reported)
    {
      hide ReadPhys;
      record, scratch, inFragmented, reported := None, scratch0, inFragmented0, 0;
      match kind {
        case Bad =>
          if inFragmented {
            inFragmented, scratch, reported := false, [], |scratch|;
          }
        case Record(t, fragment) =>
          if t == FULL {
            reported := Unfinished(scratch, inFragmented);
            record := Some(fragment);
          } else if t == FIRST {
            reported := Unfinished(scratch, inFragmented);
            scratch, inFragmented := fragment, true;
          } else if t == MIDDLE {
            if !inFragmented {
              reported := |fragment|;
            } else {
              scratch := scratch + fragment;
            }
          } else if t == LAST {
            if !inFragmented {
              reported := |fragment|;
            } else {
              record := Some(scratch + fragment);
            }
          } else {
            reported := |fragment| + Unfinished(scratch, inFragmented);
            inFragmented, scratch := false, [];
          }
      }
    }

    /** Join fragments until a record is complete; corruption in the middle drops what was joined. */
    method ReadRecord() returns (record: Option<Bytes>)
      requires Valid()
      modifies this
      ensures Valid()
      ensures var o := ReadLogical(file, old(At()), [], false, 0);
        record == o.record && At() == o.at && corruption == old(corruption) + o.dropped
    {
      hide ReadPhys;
      var scratch, inFragmented, reported := [], false, 0;
      ghost var p, before := At(), corruption;
      record := None;
      while record.None?
        invariant Valid() && At() <= |file| && corruption >= before
        invariant var o := ReadLogical(file, p, [], false, 0);
          if record.Some? then o == Outcome(record, At(), corruption - before)
          else o == ReadLogical(file, At(), scratch, inFragmented, corruption - before)
        decreases record.None?, |file| - At()
      {
        ghost var q, dropped := At(), corruption - before;
        var kind := ReadPhysicalRecord();
        if kind == Eof {
          return;
        }
        record, scratch, inFragmented, reported := Join(kind, scratch, inFragmented, q, dropped);
        corruption := corruption + reported;
      }
    }
  }

  lemma SliceOfSlice(s: Bytes, a: nat, e: nat, i: nat, j: nat)
    requires a <= e <= |s| && i <= j <= e - a
    ensures s[a..e][i..j] == s[a + i..a + j]
  {
    var x, y := s[a..e][i..j], s[a + i..a + j];
    assert |x| == |y|;
    forall k | 0 <= k < |x|
      ensures x[k] == y[k]
    {
      assert x[k] == s[a..e][i + k] == s[a + i + k];
    }
  }

  lemma BlockEnd(p: nat, n: nat)
    requires p % BLOCK_SIZE + n <= BLOCK_SIZE
    ensures p % BLOCK_SIZE + n == BLOCK_SIZE ==> (p + n) % BLOCK_SIZE == 0
    ensures p % BLOCK_SIZE + n < BLOCK_SIZE ==> (p + n) % BLOCK_SIZE == p % BLOCK_SIZE + n
  {
  }
}
