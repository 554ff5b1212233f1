/** The WAV container: the 44-byte header written, and the chunks read back, as in the section
    "Waveform Audio File Format (WAVE)" of the Multimedia Programming Interface and Data
    Specifications 1.0. */
module WavFormat {
  import opened Bytes
  import opened Wrappers

  const MAX_CHUNK := 256 * 1024 * 1024
  const MAX_DATA_CHUNK := 500 * 1024 * 1024
  const HEADER_LENGTH := 44

  const RIFF: seq<byte> := [0x52, 0x49, 0x46, 0x46]
  const WAVE: seq<byte> := [0x57, 0x41, 0x56, 0x45]
  const FMT: seq<byte> := [0x66, 0x6D, 0x74, 0x20]
  const DATA: seq<byte> := [0x64, 0x61, 0x74, 0x61]

  datatype Format = Format(sampleRate: int, channels: int, bitDepth: int)

  /** What `NewWriter` accepts. */
  predicate Positive(f: Format) {
    f.sampleRate > 0 && f.channels > 0 && f.bitDepth > 0
  }

  /** The values fit the header fields they are written to. */
  predicate Fits(f: Format) {
    0 < f.sampleRate < U32 && 0 < f.channels < U16 && 0 < f.bitDepth < U16
  }

  /** Two's complement wrap-around of a 64-bit integer. */
  function Int64(x: int): int {
    (x + 0x8000_0000_0000_0000) % 0x1_0000_0000_0000_0000 - 0x8000_0000_0000_0000
  }

  /** Division by 8 that truncates toward zero. */
  function Eighth(x: int): int {
    if x >= 0 then x / 8 else -(-x / 8)
  }

  function ByteRate(f: Format): int {
    Eighth(Int64(Int64(f.sampleRate * f.channels) * f.bitDepth))
  }

  function BlockAlign(f: Format): int {
    Eighth(Int64(f.channels * f.bitDepth))
  }

  function FmtPayload(f: Format): (b: seq<byte>)
    requires Positive(f)
    ensures |b| == 16
  {
    Put16(1) + Put16(f.channels) + Put32(f.sampleRate) + Put32(ByteRate(f) % U32) + Put16(BlockAlign(f) % U16) + Put16(f.bitDepth)
  }

  /** The header with the two sizes that `Close` fills in. */
  function Header(f: Format, riffSize: nat, dataSize: nat): (b: seq<byte>)
    requires Positive(f)
    ensures |b| == HEADER_LENGTH
  {
    RIFF + Put32(riffSize) + WAVE + (FMT + Put32(16) + FmtPayload(f)) + (DATA + Put32(dataSize))
  }

  /** A finished file: both sizes are kept in 32 bits. */
  function Finished(f: Format, data: seq<byte>, tail: seq<byte>): seq<byte>
    requires Positive(f)
  {
    Header(f, (|data| % U32 + 36) % U32, |data| % U32) + data + tail
  }

  // ---------------------------------------------------------------- reading

  datatype ReadError = ShortRead | InvalidHeader | ChunkTooLarge | InvalidFmtChunk | UnsupportedFormat | InvalidFormatValues

  /** A reader at the first sample, or why there is none. */
  datatype Opened = Opened(format: Format, remaining: nat, pos: nat) | Failed(error: ReadError)

  datatype FmtResult = FmtOk(format: Format) | FmtError(error: ReadError)

  function ParseFmt(payload: seq<byte>): (r: FmtResult)
    requires |payload| >= 16
    ensures r.FmtOk? ==> Fits(r.format)
  {
    if Get16(payload[0..2]) != 1 then FmtError(UnsupportedFormat) else
      var f := Format(Get32(payload[4..8]), Get16(payload[2..4]), Get16(payload[14..16]));
      if f.channels == 0 || f.sampleRate == 0 || f.bitDepth == 0 then FmtError(InvalidFormatValues)
      else assert Fits(f) by { GetRange(payload); } FmtOk(f)
  }

  lemma GetRange(payload: seq<byte>)
    requires |payload| >= 16
    ensures Get16(payload[2..4]) < U16 && Get16(payload[14..16]) < U16 && Get32(payload[4..8]) < U32
  {}

  /** The format and the data size known after a chunk, and where the next one is looked for. */
  datatype ChunkResult = ChunkOk(format: Option<Format>, dataSize: nat, next: nat) | ChunkError(error: ReadError)

  /** One chunk.  A `fmt ` chunk longer than 16 bytes is read whole and then its extra bytes are
      skipped once more; the samples of a `data` chunk are not skipped. */
  function Chunk(b: seq<byte>, pos: nat, format: Option<Format>, dataSize: nat): (r: ChunkResult)
    requires pos <= |b|
    ensures r.ChunkOk? ==> pos < r.next <= |b|
  {
    if pos + 8 > |b| then ChunkError(ShortRead) else
      var id, n, at := b[pos..pos + 4], Get32(b[pos + 4..pos + 8]), pos + 8;
      if n > MAX_CHUNK then ChunkError(ChunkTooLarge)
      else if id == FMT then
        if n < 16 then ChunkError(InvalidFmtChunk)
        else if at + n > |b| then ChunkError(ShortRead)
        else
          var r := ParseFmt(b[at..at + n]);
          if r.FmtError? then ChunkError(r.error)
          else if at + n + (n - 16) > |b| then ChunkError(ShortRead)
          else ChunkOk(Some(r.format), dataSize, at + n + (n - 16))
      else if id == DATA then
        if n > MAX_DATA_CHUNK then ChunkError(ChunkTooLarge) else ChunkOk(format, n, at)
      else if at + n + n % 2 > |b| then ChunkError(ShortRead)
      else ChunkOk(format, dataSize, at + n + n % 2)
  }

  /** The chunks from `pos` on, until both a format and some data have been seen. */
  function Chunks(b: seq<byte>, pos: nat, format: Option<Format>, dataSize: nat): Opened
    requires pos <= |b|
    decreases |b| - pos
  {
    var r := Chunk(b, pos, format, dataSize);
    if r.ChunkError? then Failed(r.error)
    else if r.format.Some? && r.dataSize > 0 then Opened(r.format.value, r.dataSize, r.next)
    else Chunks(b, r.next, r.format, r.dataSize)
  }

  /** `NewReader`. */
  function Open(b: seq<byte>): Opened {
    if |b| < 12 then Failed(ShortRead)
    else if b[0..4] != RIFF || b[8..12] != WAVE then Failed(InvalidHeader)
    else Chunks(b, 12, None, 0)
  }

  /** A reader that opens has a usable format and between 1 and 2^28 bytes to give. */
  lemma {:induction false} ChunksBounds(b: seq<byte>, pos: nat, format: Option<Format>, dataSize: nat)
    requires pos <= |b| && dataSize <= MAX_CHUNK && (format.Some? ==> Fits(format.value))
    ensures var r := Chunks(b, pos, format, dataSize);
            r.Opened? ==> Fits(r.format) && 0 < r.remaining <= MAX_CHUNK && r.pos <= |b|
    decreases |b| - pos
  {
    ChunkBounds(b, pos, format, dataSize);
    hide Chunk, Fits;
    var r := Chunk(b, pos, format, dataSize);
    if r.ChunkOk? { ChunksBounds(b, r.next, r.format, r.dataSize); }
  }

  lemma ChunkBounds(b: seq<byte>, pos: nat, format: Option<Format>, dataSize: nat)
    requires pos <= |b| && dataSize <= MAX_CHUNK && (format.Some? ==> Fits(format.value))
    ensures var r := Chunk(b, pos, format, dataSize);
            r.ChunkOk? ==> r.dataSize <= MAX_CHUNK && (r.format.Some? ==> Fits(r.format.value))
  {
    hide ParseFmt, Fits, Get32;
  }

  /** What is left of the values in the header fields. */
  function Stored(f: Format): Format
    requires Positive(f)
  {
    Format(f.sampleRate % U32, f.channels % U16, f.bitDepth % U16)
  }

  lemma ParseFmtPayload(f: Format)
    requires Positive(f)
    ensures ParseFmt(FmtPayload(f)) == if Fits(Stored(f)) then FmtOk(Stored(f)) else FmtError(InvalidFormatValues)
  {
    hide Get16, Get32, Put16, Put32, Int64;
    var b := FmtPayload(f);
    assert b[0..2] == Put16(1) && b[2..4] == Put16(f.channels) && b[4..8] == Put32(f.sampleRate) && b[14..16] == Put16(f.bitDepth);
    GetPut16(1);
    GetPut16(f.channels);
    GetPut32(f.sampleRate);
    GetPut16(f.bitDepth);
  }

  /** The writer's header followed by anything: how it opens. */
  lemma OpenWritten(f: Format, riffSize: nat, dataSize: nat, rest: seq<byte>)
    requires Positive(f)
    ensures var b := Header(f, riffSize, dataSize) + rest;
            var n := dataSize % U32;
            && |b| >= HEADER_LENGTH
            && Open(b) == if !Fits(Stored(f)) then Failed(InvalidFormatValues)
                          else if n > MAX_CHUNK then Failed(ChunkTooLarge)
                          else if n > 0 then Opened(Stored(f), n, HEADER_LENGTH)
                          else Chunks(b, HEADER_LENGTH, Some(Stored(f)), 0)
  {
    hide Get32, Put32, Put16, FmtPayload, ParseFmt;
    var b := Header(f, riffSize, dataSize) + rest;
    assert b[0..4] == RIFF && b[8..12] == WAVE;
    assert b[12..16] == FMT && b[16..20] == Put32(16) && b[20..36] == FmtPayload(f);
    assert b[36..40] == DATA && b[40..44] == Put32(dataSize);
    GetPut32(16);
    GetPut32(dataSize);
    ParseFmtPayload(f);
    AfterFmt(b, f);
  }

  lemma AfterFmt(b: seq<byte>, f: Format)
    requires |b| >= HEADER_LENGTH && b[12..16] == FMT && Get32(b[16..20]) == 16
    ensures var r := ParseFmt(b[20..36]);
            Chunks(b, 12, None, 0) == if r.FmtError? then Failed(r.error) else Chunks(b, 36, Some(r.format), 0)
  {
    hide Get32, ParseFmt;
  }

  /** The file opens with this format, at the first of exactly these samples. */
  predicate Recovers(b: seq<byte>, f: Format, data: seq<byte>) {
    var r := Open(b);
    r.Opened? && r.format == f && r.remaining == |data| && r.pos + |data| <= |b| && b[r.pos..r.pos + |data|] == data
  }

  /** What was written is recovered exactly when the format values fit their fields and there are
      between 1 and 2^28 bytes of samples, whatever follows them in the file. */
  lemma RoundTrip(f: Format, data: seq<byte>, tail: seq<byte>)
    requires Positive(f)
    ensures Recovers(Finished(f, data, tail), f, data) <==> Fits(f) && 0 < |data| <= MAX_CHUNK
  {
    hide Header, Chunks;
    var n := |data| % U32;
    var h := Header(f, (n + 36) % U32, n);
    var b := h + data + tail;
    assert b == h + (data + tail);
    OpenWritten(f, (n + 36) % U32, n, data + tail);
    assert n % U32 == n;
    ChunksBounds(b, HEADER_LENGTH, if Fits(Stored(f)) then Some(Stored(f)) else None, 0);
    assert b[HEADER_LENGTH..HEADER_LENGTH + |data|] == data;
    if Fits(f) { assert Stored(f) == f; }
  }

  // ---------------------------------------------------------------- delivering the samples

  /** A call of `Read`: the room in the caller's buffer, and what the underlying stream makes of it:
      how many bytes it would give, and whether it reports an error other than the end. */
  datatype Request = Request(room: nat, give: nat, fault: bool)

  datatype Outcome = More | Eof | Fault

  datatype Position = Position(remaining: nat, pos: nat)

  function Min(a: nat, b: nat): nat {
    if a < b then a else b
  }

  /** The bytes taken from the stream; lengths are compared as 32-bit numbers. */
  function Taken(b: seq<byte>, s: Position, q: Request): nat
    requires s.pos <= |b|
  {
    Min(q.give, Min(if q.room % U32 > s.remaining then s.remaining else q.room, |b| - s.pos))
  }

  lemma TakenFits(b: seq<byte>, s: Position, q: Request)
    requires s.pos <= |b|
    ensures Taken(b, s, q) <= q.room && s.pos + Taken(b, s, q) <= |b|
  {
    assert q.room % U32 <= q.room;
  }

  /** The bytes reported of those taken: no more than remain, by the 32-bit comparison. */
  function Counted(got: nat, remaining: nat): (n: nat)
    requires remaining < U32
    ensures n <= got && n % U32 <= remaining
  {
    if got % U32 > remaining then remaining else got
  }

  function Read(b: seq<byte>, s: Position, q: Request): (Position, seq<byte>, Outcome)
    requires s.pos <= |b| && s.remaining < U32
  {
    if s.remaining == 0 then (s, [], Eof)
    else if q.room == 0 then (s, [], More)
    else
      var got := Taken(b, s, q);
      var n := Counted(got, s.remaining);
      var left := s.remaining - n % U32;
      (Position(left, s.pos + got), b[s.pos..s.pos + n], if q.fault then Fault else if left == 0 then Eof else More)
  }

  lemma ReadStaysInside(b: seq<byte>, s: Position, q: Request)
    requires s.pos <= |b| && s.remaining < U32
    ensures Read(b, s, q).0.pos <= |b| && Read(b, s, q).0.remaining <= s.remaining
  {
    TakenFits(b, s, q);
  }

  /** The bytes a run of calls delivers, and where it ends. */
  function ReadAll(b: seq<byte>, s: Position, requests: seq<Request>): (Position, seq<byte>)
    requires s.pos <= |b| && s.remaining < U32
    decreases |requests|
  {
    if requests == [] then (s, []) else
      var (s', out, _) := Read(b, s, requests[0]);
      var (end, more) := ReadAll(b, s', requests[1..]);
      (end, out + more)
  }

  /** A buffer and a stream so large that 2^32 bytes or more are taken in one call, and their count
      cut to 32 bits passes for no more than remains. */
  predicate Wraps(b: seq<byte>, s: Position, q: Request)
    requires s.pos <= |b|
  {
    s.remaining > 0 && q.room > 0 && Taken(b, s, q) >= U32 && Taken(b, s, q) % U32 <= s.remaining
  }

  /** Any call, on truncated streams too, unless it wraps: the samples come in order and without gaps;
      the end is reported exactly when the last of them has been delivered, unless the stream reports
      a fault in the same call; at the end of a truncated stream nothing comes and no end is reported. */
  lemma ReadDelivers(b: seq<byte>, s: Position, q: Request)
    requires s.pos <= |b| && s.remaining < U32 && !Wraps(b, s, q)
    ensures var (s', out, outcome) := Read(b, s, q);
            && |out| == s.remaining - s'.remaining
            && s.pos + |out| <= |b| && out == b[s.pos..s.pos + |out|]
            && (s'.remaining > 0 ==> s'.pos == s.pos + |out|) && s'.pos <= |b|
            && (outcome == Eof <==> s'.remaining == 0 && !(q.fault && q.room > 0 && s.remaining > 0))
            && (q.room > 0 && q.give > 0 && s.remaining > 0 && s.pos < |b| ==> out != [])
            && (s.pos == |b| && s.remaining > 0 ==> out == [] && s' == s && outcome != Eof)
  {
    if s.remaining > 0 && q.room > 0 { TakenCounts(b, s, q); }
  }

  lemma TakenCounts(b: seq<byte>, s: Position, q: Request)
    requires s.pos <= |b| && 0 < s.remaining < U32 && q.room > 0 && !Wraps(b, s, q)
    ensures var got, n := Taken(b, s, q), Counted(Taken(b, s, q), s.remaining);
            n <= s.remaining && n % U32 == n && (n < s.remaining ==> n == got)
    ensures q.give > 0 && s.pos < |b| ==> Taken(b, s, q) > 0 && Counted(Taken(b, s, q), s.remaining) > 0
  {
    var got := Taken(b, s, q);
    if got < U32 { assert got % U32 == got; }
  }

  /** A call that wraps hands out more than remains. */
  lemma WrappingReadsTooMuch(b: seq<byte>, s: Position, q: Request)
    requires s.pos <= |b| && s.remaining < U32 && Wraps(b, s, q)
    ensures |Read(b, s, q).1| >= U32
  {
    TakenFits(b, s, q);
  }

  lemma ReadAtEnd(b: seq<byte>, s: Position, q: Request)
    requires s.pos <= |b| && s.remaining == 0
    ensures Read(b, s, q) == (s, [], Eof) && !Wraps(b, s, q)
  {}

  /** Every call has room for a byte and is given one. */
  ghost predicate Productive(requests: seq<Request>) {
    forall k :: 0 <= k < |requests| ==> requests[k].room > 0 && requests[k].give > 0
  }

  ghost predicate NeverWraps(b: seq<byte>, s: Position, requests: seq<Request>)
    requires s.pos <= |b| && s.remaining < U32
    decreases |requests|
  {
    requests != [] ==> !Wraps(b, s, requests[0]) && NeverWraps(b, Read(b, s, requests[0]).0, requests[1..])
  }

  /** In streams or buffers under 4 GiB no call wraps. */
  lemma {:induction false} SmallNeverWraps(b: seq<byte>, s: Position, requests: seq<Request>)
    requires s.pos <= |b| && s.remaining < U32
    requires |b| < U32 || forall k :: 0 <= k < |requests| ==> requests[k].room < U32
    ensures NeverWraps(b, s, requests)
    decreases |requests|
  {
    hide Read;
    if requests != [] {
      TakenFits(b, s, requests[0]);
      ReadStaysInside(b, s, requests[0]);
      assert forall k :: 0 <= k < |requests[1..]| ==> requests[1..][k] == requests[k + 1];
      SmallNeverWraps(b, Read(b, s, requests[0]).0, requests[1..]);
    }
  }

  lemma {:induction false} ReadsDeliver(b: seq<byte>, s: Position, requests: seq<Request>)
    requires s.pos <= |b| && s.remaining < U32
    ensures var (end, out) := ReadAll(b, s, requests);
            if !NeverWraps(b, s, requests) then |out| >= U32
            else && |out| == s.remaining - end.remaining
                 && s.pos + |out| <= |b| && out == b[s.pos..s.pos + |out|]
                 && (Productive(requests) && s.pos + s.remaining <= |b| ==> end.remaining == 0 || |out| >= |requests|)
    decreases |requests|
  {
    hide Read, Wraps;
    if requests != [] {
      var q, rest := requests[0], requests[1..];
      ReadStaysInside(b, s, q);
      var (s', out, _) := Read(b, s, q);
      ReadsDeliver(b, s', rest);
      if Wraps(b, s, q) {
        WrappingReadsTooMuch(b, s, q);
      } else {
        ReadDelivers(b, s, q);
        var (end, more) := ReadAll(b, s', rest);
        if s.remaining == 0 { ReadAtEnd(b, s, q); }
        if NeverWraps(b, s', rest) { Onwards(b, s, s', out, more); }
      }
    }
  }

  lemma Onwards(b: seq<byte>, s: Position, s': Position, out: seq<byte>, more: seq<byte>)
    requires s.pos + |out| <= |b| && out == b[s.pos..s.pos + |out|]
    requires s'.pos + |more| <= |b| && more == b[s'.pos..s'.pos + |more|]
    requires s'.remaining > 0 ==> s'.pos == s.pos + |out|
    requires s'.remaining == 0 ==> more == []
    ensures s.pos + |out + more| <= |b| && out + more == b[s.pos..s.pos + |out + more|]
  {
    if s'.remaining == 0 { assert out + more == out; }
  }

  /** Reads of any sizes give a prefix of the samples, all of them once nothing remains, which with
      productive calls is after at most as many calls as there are bytes. */
  ghost predicate Gives(b: seq<byte>, s: Position, requests: seq<Request>, data: seq<byte>)
    requires s.pos <= |b| && s.remaining < U32
  {
    var (end, out) := ReadAll(b, s, requests);
    && out <= data
    && (end.remaining == 0 <==> out == data)
    && (|requests| >= |data| && Productive(requests) ==> out == data)
  }

  lemma ReadsGive(b: seq<byte>, s: Position, requests: seq<Request>, data: seq<byte>)
    requires s.pos + s.remaining <= |b| && 0 < s.remaining == |data| < U32
    requires b[s.pos..s.pos + |data|] == data
    ensures Gives(b, s, requests, data) <==> NeverWraps(b, s, requests)
  {
    hide ReadAll, NeverWraps;
    ReadsDeliver(b, s, requests);
    var (end, out) := ReadAll(b, s, requests);
    if NeverWraps(b, s, requests) { assert out == data[..|out|]; }
  }

  /** Samples written in any pieces and read back in any pieces, in files of any size: exactly the
      samples come back unless a single call takes 2^32 bytes or more and wraps. */
  lemma WriteThenRead(f: Format, data: seq<byte>, tail: seq<byte>, requests: seq<Request>)
    requires Fits(f) && 0 < |data| <= MAX_CHUNK
    ensures var b := Finished(f, data, tail);
            var r := Open(b);
            && r.Opened? && r.format == f && r.pos <= |b| && r.remaining < U32
            && (Gives(b, Position(r.remaining, r.pos), requests, data) <==> NeverWraps(b, Position(r.remaining, r.pos), requests))
  {
    hide Header, Open, Gives, NeverWraps;
    RoundTrip(f, data, tail);
    var b := Finished(f, data, tail);
    var r := Open(b);
    ReadsGive(b, Position(r.remaining, r.pos), requests, data);
  }
}
