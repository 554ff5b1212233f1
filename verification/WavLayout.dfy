/** What stands at which byte of a finished file, and how a reader gets past the chunks of files that
    other programs wrote. */
module WavLayout {
  import opened Bytes
  import opened Wrappers
  import opened WavFormat

  /** The number at these two, or four, bytes, least significant first. */
  predicate Says16(b: seq<byte>, at: nat, n: int)
    requires at + 2 <= |b|
  {
    b[at] as int + 256 * b[at + 1] as int == n
  }

  predicate Says32(b: seq<byte>, at: nat, n: int)
    requires at + 4 <= |b|
  {
    b[at] as int + 256 * b[at + 1] as int + 65536 * b[at + 2] as int + 16777216 * b[at + 3] as int == n
  }

  lemma Put16Says(b: seq<byte>, at: nat, n: nat)
    requires at + 2 <= |b| && b[at..at + 2] == Put16(n)
    ensures Says16(b, at, n % 65536)
  {
    GetPut16(n);
    assert b[at] == b[at..at + 2][0] && b[at + 1] == b[at..at + 2][1];
  }

  lemma Put32Says(b: seq<byte>, at: nat, n: nat)
    requires at + 4 <= |b| && b[at..at + 4] == Put32(n)
    ensures Says32(b, at, n % 4294967296)
  {
    GetPut32(n);
    hide Put32;
    var c := b[at..at + 4];
    assert b[at] == c[0] && b[at + 1] == c[1] && b[at + 2] == c[2] && b[at + 3] == c[3];
    assert Get32(c) == Get16(c[..2]) + 65536 * Get16(c[2..]);
  }

  lemma SaysFurther(p: seq<byte>, at: nat, b: seq<byte>, k: nat)
    requires at + 2 <= |p| && k + |p| <= |b| && b[k..k + |p|] == p
    ensures forall n :: Says16(p, at, n) ==> Says16(b, k + at, n)
    ensures at + 4 <= |p| ==> forall n :: Says32(p, at, n) ==> Says32(b, k + at, n)
  {
    assert forall i :: 0 <= i < |p| ==> p[i] == b[k + i];
  }

  lemma FormatLayout(f: Format)
    requires Positive(f)
    ensures var b := FmtPayload(f);
            && Says16(b, 0, 1) && Says16(b, 2, f.channels % 65536) && Says32(b, 4, f.sampleRate % 4294967296)
            && Says32(b, 8, ByteRate(f) % 4294967296) && Says16(b, 12, BlockAlign(f) % 65536)
            && Says16(b, 14, f.bitDepth % 65536)
  {
    hide Says16, Says32, Put16, Put32, ByteRate, BlockAlign;
    var b := FmtPayload(f);
    assert b[0..2] == Put16(1) && b[2..4] == Put16(f.channels) && b[4..8] == Put32(f.sampleRate);
    assert b[8..12] == Put32(ByteRate(f) % U32) && b[12..14] == Put16(BlockAlign(f) % U16) && b[14..16] == Put16(f.bitDepth);
    Put16Says(b, 0, 1);
    Put16Says(b, 2, f.channels);
    Put32Says(b, 4, f.sampleRate);
    Put32Says(b, 8, ByteRate(f) % U32);
    Put16Says(b, 12, BlockAlign(f) % U16);
    Put16Says(b, 14, f.bitDepth);
    Twice(ByteRate(f), U32);
    Twice(BlockAlign(f), U16);
  }

  lemma Twice(x: int, m: int)
    requires m > 0
    ensures x % m % m == x % m
  {}

  lemma HeaderLayout(b: seq<byte>, f: Format, n: nat, rest: seq<byte>)
    requires Positive(f) && n < 4294967296 && b == Header(f, (n + 36) % U32, n) + rest
    ensures |b| >= 44 && b[44..] == rest && b[20..36] == FmtPayload(f)
    ensures b[0..4] == [82, 73, 70, 70] && b[8..12] == [87, 65, 86, 69]
    ensures b[12..16] == [102, 109, 116, 32] && b[36..40] == [100, 97, 116, 97]
    ensures Says32(b, 4, (n + 36) % 4294967296) && Says32(b, 16, 16) && Says32(b, 40, n)
  {
    hide Says32, Put32, FmtPayload;
    assert b[4..8] == Put32((n + 36) % U32) && b[16..20] == Put32(16) && b[40..44] == Put32(n);
    assert b[0..4] == RIFF && b[8..12] == WAVE && b[12..16] == FMT && b[36..40] == DATA;
    Put32Says(b, 4, (n + 36) % U32);
    Put32Says(b, 16, 16);
    Put32Says(b, 40, n);
  }

  /** The header of a finished file, for any format accepted: four tags, and seven numbers, each the low
      bits of what it stands for; and behind it the samples. */
  lemma FinishedLayout(f: Format, data: seq<byte>, tail: seq<byte>)
    requires Positive(f)
    ensures var b := Finished(f, data, tail);
            && |b| >= 44 && b[44..] == data + tail
            && b[0..4] == [82, 73, 70, 70] && b[8..12] == [87, 65, 86, 69]
            && b[12..16] == [102, 109, 116, 32] && b[36..40] == [100, 97, 116, 97]
            && Says32(b, 4, (|data| + 36) % 4294967296) && Says32(b, 16, 16)
            && Says16(b, 20, 1) && Says16(b, 22, f.channels % 65536) && Says32(b, 24, f.sampleRate % 4294967296)
            && Says16(b, 34, f.bitDepth % 65536) && Says32(b, 40, |data| % 4294967296)
            && b[20..36] == FmtPayload(f)
  {
    hide Header, Says16, Says32, FmtPayload, ByteRate, BlockAlign;
    var n := |data| % U32;
    var b, p := Finished(f, data, tail), FmtPayload(f);
    assert b == Header(f, (n + 36) % U32, n) + (data + tail);
    HeaderLayout(b, f, n, data + tail);
    FormatLayout(f);
    SaysFurther(p, 0, b, 20);
    SaysFurther(p, 2, b, 20);
    SaysFurther(p, 4, b, 20);
    SaysFurther(p, 14, b, 20);
    SizeInRange(|data|);
  }

  lemma SizeInRange(n: nat)
    ensures (n % U32 + 36) % U32 == (n + 36) % 4294967296
  {}

  /** The byte rate and the block size are those of the format, as long as the machine's integers hold the
      products. */
  lemma RatesLayout(f: Format, data: seq<byte>, tail: seq<byte>)
    requires Positive(f) && f.sampleRate * f.channels * f.bitDepth < 0x8000_0000_0000_0000
    ensures var b := Finished(f, data, tail);
            && |b| >= 44
            && Says32(b, 28, f.sampleRate * f.channels * f.bitDepth / 8 % 4294967296)
            && Says16(b, 32, f.channels * f.bitDepth / 8 % 65536)
  {
    hide Finished, Header, Says16, Says32, FmtPayload, ByteRate, BlockAlign;
    FinishedLayout(f, data, tail);
    FormatLayout(f);
    RatesAreExact(f);
    SaysFurther(FmtPayload(f), 8, Finished(f, data, tail), 20);
    SaysFurther(FmtPayload(f), 12, Finished(f, data, tail), 20);
  }

  /** Products that the machine's integers hold are those of the numbers. */
  lemma RatesAreExact(f: Format)
    requires Positive(f) && f.sampleRate * f.channels * f.bitDepth < 0x8000_0000_0000_0000
    ensures ByteRate(f) == f.sampleRate * f.channels * f.bitDepth / 8 && BlockAlign(f) == f.channels * f.bitDepth / 8
  {
    hide Int64;
    var r, c, d := f.sampleRate, f.channels, f.bitDepth;
    Grows(r, c);
    Grows(c, d);
    Grows(r * c, d);
    Grows(c * d, r);
    Regroup(r, c, d);
    Held64(r * c);
    Held64(r * c * d);
    Held64(c * d);
  }

  lemma Regroup(r: int, c: int, d: int)
    ensures r * c * d == c * d * r
  {}

  lemma Held64(x: int)
    requires 0 <= x < 0x8000_0000_0000_0000
    ensures Int64(x) == x
  {}

  lemma Grows(x: int, y: int)
    requires x > 0 && y > 0
    ensures x <= x * y && x * y > 0
  {}

  // ---------------------------------------------------------------- chunks of other programs

  /** A chunk other than the two the reader looks for. */
  datatype Piece = Piece(id: seq<byte>, payload: seq<byte>)

  predicate Unknown(p: Piece) {
    |p.id| == 4 && p.id != FMT && p.id != DATA && |p.payload| <= 268435456
  }

  /** Its bytes: a payload of odd length is padded with one byte of any value. */
  function Encoded(p: Piece, pad: byte): seq<byte> {
    p.id + Put32(|p.payload|) + p.payload + (if |p.payload| % 2 == 1 then [pad] else [])
  }

  function AllEncoded(pieces: seq<Piece>, pad: byte): seq<byte> {
    if pieces == [] then [] else Encoded(pieces[0], pad) + AllEncoded(pieces[1..], pad)
  }

  /** The file has these bytes at this place. */
  predicate Holds(b: seq<byte>, at: nat, p: seq<byte>) {
    at + |p| <= |b| && b[at..at + |p|] == p
  }

  lemma HoldsParts(b: seq<byte>, at: nat, p: seq<byte>, q: seq<byte>)
    requires Holds(b, at, p + q)
    ensures Holds(b, at, p) && Holds(b, at + |p|, q)
  {
    assert b[at..at + |p|] == b[at..at + |p + q|][..|p|];
    assert b[at + |p|..at + |p| + |q|] == b[at..at + |p + q|][|p|..];
  }

  lemma SkipsOne(b: seq<byte>, at: nat, p: Piece, pad: byte, format: Option<Format>, dataSize: nat)
    requires Unknown(p) && Holds(b, at, Encoded(p, pad))
    ensures Chunk(b, at, format, dataSize) == ChunkOk(format, dataSize, at + |Encoded(p, pad)|)
  {
    hide Get32, Put32;
    var n := |p.payload|;
    var padding := if n % 2 == 1 then [pad] else [];
    HoldsParts(b, at, p.id + Put32(n) + p.payload, padding);
    HoldsParts(b, at, p.id + Put32(n), p.payload);
    HoldsParts(b, at, p.id, Put32(n));
    GetPut32(n);
    SmallIsKept(n);
    assert at + |Encoded(p, pad)| <= |b| && b[at..at + 4] == p.id && b[at + 4..at + 8] == Put32(n);
  }

  lemma SmallIsKept(n: nat)
    requires n < U32
    ensures n % U32 == n
  {}

  /** Chunks with other names are skipped, with their padding, wherever they stand: the file reads on
      from behind them. */
  lemma {:induction false} UnknownChunksAreSkipped(
      b: seq<byte>, at: nat, pieces: seq<Piece>, pad: byte, format: Option<Format>, dataSize: nat)
    requires forall k :: 0 <= k < |pieces| ==> Unknown(pieces[k])
    requires Holds(b, at, AllEncoded(pieces, pad)) && (format.None? || dataSize == 0)
    ensures Chunks(b, at, format, dataSize) == Chunks(b, at + |AllEncoded(pieces, pad)|, format, dataSize)
    decreases |pieces|
  {
    hide Chunk, Encoded, Unknown;
    if pieces != [] {
      var first, rest := Encoded(pieces[0], pad), AllEncoded(pieces[1..], pad);
      HoldsParts(b, at, first, rest);
      SkipsOne(b, at, pieces[0], pad, format, dataSize);
      UnknownChunksAreSkipped(b, at + |first|, pieces[1..], pad, format, dataSize);
    }
  }

  /** A format chunk of 16 bytes or more: the bytes beyond the first 16 are read with the chunk and then
      skipped once more, so that the next chunk is looked for as many bytes too late. */
  lemma LongFormatSkipsTwice(b: seq<byte>, at: nat, f: Format, extra: seq<byte>, dataSize: nat)
    requires Fits(f) && 16 + |extra| <= 268435456
    requires Holds(b, at, FMT + Put32(16 + |extra|) + (FmtPayload(f) + extra))
    ensures var next := at + 24 + |extra| + |extra|;
            Chunk(b, at, None, dataSize) == if |b| < next then ChunkError(ShortRead) else ChunkOk(Some(f), dataSize, next)
  {
    hide Get32, Put32, FmtPayload, ParseFmt;
    var n := 16 + |extra|;
    HoldsParts(b, at, FMT + Put32(n), FmtPayload(f) + extra);
    HoldsParts(b, at, FMT, Put32(n));
    GetPut32(n);
    SmallIsKept(n);
    ParseFmtPayload(f);
    ParseFront(FmtPayload(f), extra);
    FitsIsStored(f);
    hide Fits;
  }

  lemma FitsIsStored(f: Format)
    requires Fits(f)
    ensures Stored(f) == f
  {}

  lemma ParseFront(payload: seq<byte>, extra: seq<byte>)
    requires |payload| == 16
    ensures ParseFmt(payload + extra) == ParseFmt(payload)
  {
    var long := payload + extra;
    assert long[0..2] == payload[0..2] && long[2..4] == payload[2..4] && long[4..8] == payload[4..8];
    assert long[14..16] == payload[14..16];
  }

  lemma FormatChunk(b: seq<byte>, at: nat, f: Format)
    requires Fits(f) && Holds(b, at, FMT + Put32(16) + FmtPayload(f))
    ensures Chunks(b, at, None, 0) == Chunks(b, at + 24, Some(f), 0)
  {
    assert Positive(f);
    hide Put32, FmtPayload, Chunk, Fits;
    var none: seq<byte> := [];
    assert FmtPayload(f) + none == FmtPayload(f);
    LongFormatSkipsTwice(b, at, f, none, 0);
  }

  lemma DataChunk(b: seq<byte>, at: nat, f: Format, n: nat)
    requires 0 < n <= 268435456 && Holds(b, at, DATA + Put32(n))
    ensures Chunks(b, at, Some(f), 0) == Opened(f, n, at + 8)
  {
    hide Get32, Put32;
    HoldsParts(b, at, DATA, Put32(n));
    GetPut32(n);
    SmallIsKept(n);
    assert DATA[0] != FMT[0];
    assert Chunk(b, at, Some(f), 0) == ChunkOk(Some(f), n, at + 8);
    hide Chunk;
  }

  lemma FileStart(b: seq<byte>)
    requires Holds(b, 0, RIFF) && Holds(b, 8, WAVE)
    ensures Open(b) == Chunks(b, 12, None, 0)
  {
    hide Chunks;
  }

  lemma Recovered(b: seq<byte>, f: Format, data: seq<byte>, at: nat)
    requires Open(b) == Opened(f, |data|, at) && Holds(b, at, data)
    ensures Recovers(b, f, data)
  {
    hide Open;
  }

  /** A file in which a plain format chunk and the samples stand among any other chunks opens with that
      format at the first sample, whatever size its header names and whatever follows. */
  lemma OpensAmongOthers(
      b: seq<byte>, ahead: seq<Piece>, f: Format, between: seq<Piece>, pad: byte, data: seq<byte>)
    requires Fits(f) && 0 < |data| <= 268435456
    requires forall k :: 0 <= k < |ahead| ==> Unknown(ahead[k])
    requires forall k :: 0 <= k < |between| ==> Unknown(between[k])
    requires Holds(b, 0, RIFF) && Holds(b, 8, WAVE) && Holds(b, 12, AllEncoded(ahead, pad))
    requires var format := 12 + |AllEncoded(ahead, pad)|;
             var last := format + 24 + |AllEncoded(between, pad)|;
             && Holds(b, format, FMT + Put32(16) + FmtPayload(f)) && Holds(b, format + 24, AllEncoded(between, pad))
             && Holds(b, last, DATA + Put32(|data|)) && Holds(b, last + 8, data)
    ensures Recovers(b, f, data)
  {
    hide Recovers, Open, Put32, FmtPayload, Chunks, AllEncoded, Unknown, Fits, Holds, DATA, FMT, RIFF, WAVE;
    var format := 12 + |AllEncoded(ahead, pad)|;
    var last := format + 24 + |AllEncoded(between, pad)|;
    FileStart(b);
    UnknownChunksAreSkipped(b, 12, ahead, pad, None, 0);
    FormatChunk(b, format, f);
    UnknownChunksAreSkipped(b, format + 24, between, pad, Some(f), 0);
    DataChunk(b, last, f, |data|);
    Recovered(b, f, data, last + 8);
  }
}
