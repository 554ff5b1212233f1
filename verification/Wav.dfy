/** The WAV writer and reader over a seekable file. */
module Wav {
  import opened Bytes
  import opened Wrappers
  import opened WavFormat

  /** A file with its position, and the calls `os.File` and package io offer on it. */
  class File {
    var bytes: seq<byte>
    var pos: nat

    ghost predicate Valid()
      reads this
    {
      pos <= |bytes|
    }

    constructor (contents: seq<byte>)
      ensures Valid() && bytes == contents && pos == 0
    {
      bytes, pos := contents, 0;
    }

    method Seek(to: nat)
      requires to <= |bytes|
      modifies this`pos
      ensures pos == to && Valid()
    {
      pos := to;
    }

    /** Takes as many of the bytes as the device accepts. */
    method Write(p: seq<byte>, accepted: nat) returns (n: nat)
      requires Valid()
      modifies this
      ensures n == Min(accepted, |p|) && pos == old(pos) + n && Valid()
      ensures bytes == Overwrite(old(bytes), old(pos), p[..n])
    {
      n := Min(accepted, |p|);
      bytes := Overwrite(bytes, pos, p[..n]);
      pos := pos + n;
    }

    /** The next n bytes, into the front of a buffer. */
    method ReadSome(p: array<byte>, n: nat)
      requires Valid() && n <= p.Length && pos + n <= |bytes|
      modifies this`pos, p
      ensures Valid() && pos == old(pos) + n
      ensures p[..n] == bytes[old(pos)..pos] && p[n..] == old(p[..])[n..]
    {
      forall i | 0 <= i < n {
        p[i] := bytes[pos + i];
      }
      pos := pos + n;
    }

    /** `io.ReadFull`, and `io.CopyN` to nowhere: all of n bytes, or what there is and an error. */
    method ReadFull(n: nat) returns (ok: bool, p: seq<byte>)
      requires Valid()
      modifies this`pos
      ensures Valid() && ok == (old(pos) + n <= |bytes|)
      ensures ok ==> pos == old(pos) + n && p == bytes[old(pos)..pos]
    {
      ok := pos + n <= |bytes|;
      p := if ok then bytes[pos..pos + n] else bytes[pos..];
      pos := pos + |p|;
    }
  }

  /** The bytes of a file after p is written at a position: what it covers is replaced. */
  function Overwrite(b: seq<byte>, pos: nat, p: seq<byte>): seq<byte>
    requires pos <= |b|
  {
    b[..pos] + p + (if pos + |p| < |b| then b[pos + |p|..] else [])
  }

  class Writer {
    const w: File
    const format: Format
    var dataSize: nat
    var closed: bool
    ghost var data: seq<byte> // the samples accepted so far
    ghost var tail: seq<byte> // what the file held beyond them before

    ghost predicate Valid()
      reads this, w
    {
      && Positive(format)
      && dataSize == |data| % U32
      && w.bytes == (if closed then Finished(format, data, tail) else Header(format, 0, 0) + data + tail)
      && (!closed ==> w.pos == HEADER_LENGTH + |data|)
    }

    constructor (file: File, f: Format)
      requires file.Valid() && Positive(f)
      modifies file
      ensures Valid() && w == file && format == f && !closed && data == []
      ensures tail == if |old(file.bytes)| > HEADER_LENGTH then old(file.bytes)[HEADER_LENGTH..] else []
    {
      w, format, dataSize, closed := file, f, 0, false;
      data, tail := [], if |file.bytes| > HEADER_LENGTH then file.bytes[HEADER_LENGTH..] else [];
      new;
      hide Header;
      w.Seek(0);
      var header := Header(f, 0, 0);
      var n := w.Write(header, |header|);
      assert header[..n] == header && old(file.bytes)[..0] + header == header;
      assert header + [] == header;
    }

    method Write(p: seq<byte>, accepted: nat) returns (n: nat, ok: bool)
      requires Valid()
      modifies this, w
      ensures Valid() && closed == old(closed)
      ensures n == (if closed then 0 else Min(accepted, |p|)) && ok == (!closed && n == |p|)
      ensures data == old(data) + p[..n]
      ensures tail == if n <= |old(tail)| then old(tail)[n..] else []
    {
      hide Header, Overwrite, Finished;
      if closed { assert p[..0] == []; return 0, false; }
      if |p| == 0 { return 0, true; }
      ghost var front, room := Header(format, 0, 0) + data, tail;
      n := w.Write(p, accepted);
      data := data + p[..n];
      tail := if n <= |tail| then tail[n..] else [];
      Overwritten(front, room, p[..n]);
      assert front + p[..n] == Header(format, 0, 0) + data;
      assert w.bytes == Header(format, 0, 0) + data + tail;
      dataSize := (dataSize + n) % U32;
      ok := n == |p|;
    }

    /** Fills in the two sizes; a second call does nothing. */
    method Close()
      requires Valid()
      modifies this, w
      ensures Valid() && closed && data == old(data) && tail == old(tail)
      ensures old(closed) ==> w.bytes == old(w.bytes)
    {
      hide Header, Put32, Overwrite;
      if closed { return; }
      closed := true;
      var chunkSize := (dataSize + 36) % U32;
      ghost var rest := data + tail;
      assert w.bytes == Header(format, 0, 0) + rest;
      w.Seek(4);
      var n := w.Write(Put32(chunkSize), 4);
      assert Put32(chunkSize)[..n] == Put32(chunkSize);
      PatchRiff(format, chunkSize, rest);
      w.Seek(40);
      n := w.Write(Put32(dataSize), 4);
      assert Put32(dataSize)[..n] == Put32(dataSize);
      PatchData(format, chunkSize, dataSize, rest);
      w.Seek(|w.bytes|);
      assert w.bytes == Header(format, chunkSize, dataSize) + data + tail;
    }
  }

  lemma Overwritten(front: seq<byte>, room: seq<byte>, p: seq<byte>)
    ensures Overwrite(front + room, |front|, p) == front + p + (if |p| <= |room| then room[|p|..] else [])
  {
    var was, end := front + room, |front| + |p|;
    assert was[..|front|] == front;
    if end < |was| { assert was[end..] == room[|p|..]; }
  }

  lemma PatchRiff(f: Format, riffSize: nat, rest: seq<byte>)
    requires Positive(f)
    ensures var b := Header(f, 0, 0) + rest;
            Overwrite(b, 4, Put32(riffSize)) == Header(f, riffSize, 0) + rest
  {
    hide Put32, FmtPayload;
    var b := Header(f, 0, 0) + rest;
    assert b[..4] == RIFF;
  }

  lemma PatchData(f: Format, riffSize: nat, dataSize: nat, rest: seq<byte>)
    requires Positive(f)
    ensures var b := Header(f, riffSize, 0) + rest;
            Overwrite(b, 40, Put32(dataSize)) == Header(f, riffSize, dataSize) + rest
  {
    hide Put32, FmtPayload;
    var b := Header(f, riffSize, 0) + rest;
    assert b[44..] == rest;
  }

  /** `NewWriter`: refused, with the file untouched, unless every format value is positive. */
  method NewWriter(file: File, f: Format) returns (w: Option<Writer>)
    requires file.Valid()
    modifies file
    ensures w.Some? <==> Positive(f)
    ensures w.None? ==> file.bytes == old(file.bytes) && file.pos == old(file.pos)
    ensures w.Some? ==> fresh(w.value) && w.value.Valid() && w.value.w == file && w.value.format == f
                        && !w.value.closed && w.value.data == []
  {
    if f.sampleRate <= 0 || f.channels <= 0 || f.bitDepth <= 0 { return None; }
    var writer := new Writer(file, f);
    w := Some(writer);
  }

  class Reader {
    const rc: File
    const format: Format
    var remaining: nat

    constructor (file: File, f: Format, size: nat)
      ensures rc == file && format == f && remaining == size
    {
      rc, format, remaining := file, f, size;
    }

    /** Fills the front of the caller's buffer with what the stream gives of the samples that remain. */
    method Read(p: array<byte>, give: nat, fault: bool) returns (n: nat, outcome: Outcome)
      requires rc.Valid() && remaining < U32
      modifies this, rc`pos, p
      ensures rc.Valid() && remaining <= old(remaining) && n <= p.Length
      ensures (Position(remaining, rc.pos), p[..n], outcome)
           == WavFormat.Read(rc.bytes, Position(old(remaining), old(rc.pos)), Request(p.Length, give, fault))
      ensures p[rc.pos - old(rc.pos)..] == old(p[..])[rc.pos - old(rc.pos)..]
    {
      if remaining == 0 { return 0, Eof; }
      if p.Length == 0 { return 0, More; }
      hide Taken, Counted;
      var got := Taken(rc.bytes, Position(remaining, rc.pos), Request(p.Length, give, fault));
      TakenFits(rc.bytes, Position(remaining, rc.pos), Request(p.Length, give, fault));
      rc.ReadSome(p, got);
      n := Counted(got, remaining);
      remaining := remaining - n % U32;
      assert p[..n] == p[..got][..n] == rc.bytes[old(rc.pos)..old(rc.pos) + n];
      outcome := if fault then Fault else if remaining == 0 then Eof else More;
    }
  }

  datatype OpenResult = OpenOk(reader: Reader) | OpenError(error: ReadError)

  /** `NewReader`, from where the file is positioned. */
  method NewReader(file: File) returns (r: OpenResult)
    requires file.Valid()
    modifies file`pos
    ensures file.Valid()
    ensures r.OpenError? ==> Open(file.bytes[old(file.pos)..]) == Failed(r.error)
    ensures r.OpenOk? ==> fresh(r.reader) && r.reader.rc == file && old(file.pos) <= file.pos
    ensures r.OpenOk? ==> Open(file.bytes[old(file.pos)..])
                          == Opened(r.reader.format, r.reader.remaining, file.pos - old(file.pos))
  {
    hide Chunk;
    ghost var base, b := file.pos, file.bytes[file.pos..];
    var ok, header := file.ReadFull(12);
    if !ok { return OpenError(ShortRead); }
    assert header == b[..12];
    assert header[0..4] == b[0..4] && header[8..12] == b[8..12];
    if header[0..4] != RIFF || header[8..12] != WAVE { return OpenError(InvalidHeader); }
    var format: Option<Format>, dataSize: nat := None, 0;
    ghost var pos: nat := 12;
    while true
      invariant file.Valid() && file.pos == base + pos && pos <= |b| && file.bytes[base..] == b
      invariant Open(b) == Chunks(b, pos, format, dataSize)
      decreases |b| - pos
    {
      var error: Option<ReadError>;
      error, format, dataSize := ReadChunk(file, format, dataSize, base);
      if error.Some? { return OpenError(error.value); }
      pos := file.pos - base;
      if format.Some? && dataSize > 0 { break; }
    }
    var reader := new Reader(file, format.value, dataSize);
    r := OpenOk(reader);
  }

  /** One turn of the loop in `NewReader`. */
  method ReadChunk(file: File, format: Option<Format>, dataSize: nat, ghost base: nat)
      returns (error: Option<ReadError>, format': Option<Format>, dataSize': nat)
    requires file.Valid() && base <= file.pos
    modifies file`pos
    ensures file.Valid()
    ensures var c := Chunk(file.bytes[base..], old(file.pos) - base, format, dataSize);
            if error.Some? then c == ChunkError(error.value)
            else base <= file.pos && c == ChunkOk(format', dataSize', file.pos - base)
  {
    hide Get32, ParseFmt;
    ghost var b, pos := file.bytes[base..], file.pos - base;
    format', dataSize' := format, dataSize;
    var ok, chunkHeader := file.ReadFull(8);
    if !ok { return Some(ShortRead), format', dataSize'; }
    assert chunkHeader == b[pos..pos + 8];
    assert chunkHeader[0..4] == b[pos..pos + 4] && chunkHeader[4..8] == b[pos + 4..pos + 8];
    var id, size := chunkHeader[0..4], Get32(chunkHeader[4..8]);
    if size > MAX_CHUNK { return Some(ChunkTooLarge), format', dataSize'; }
    var payload;
    if id == FMT {
      if size < 16 { return Some(InvalidFmtChunk), format', dataSize'; }
      ok, payload := file.ReadFull(size);
      if !ok { return Some(ShortRead), format', dataSize'; }
      assert payload == b[pos + 8..pos + 8 + size];
      var parsed := ParseFmt(payload);
      if parsed.FmtError? { return Some(parsed.error), format', dataSize'; }
      ok, payload := file.ReadFull(size - 16);
      if !ok { return Some(ShortRead), format', dataSize'; }
      format' := Some(parsed.format);
    } else if id == DATA {
      if size > MAX_DATA_CHUNK { return Some(ChunkTooLarge), format', dataSize'; }
      dataSize' := size;
    } else {
      ok, payload := file.ReadFull(size + size % 2);
      if !ok { return Some(ShortRead), format', dataSize'; }
    }
    error := None;
  }
}
