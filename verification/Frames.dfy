/** Length-prefixed frames between the daemon and its JavaScript host: the writer and blocking reader
    of one side and the incremental parser of the other. */
module Frames {
  import opened Bytes

  const HEADER_SIZE := 4
  const MAX_PAYLOAD := 16 * 1024 * 1024

  /** A 32-bit length, most significant byte first. */
  function PutLength(n: nat): (h: seq<byte>)
    requires n < 0x1_0000_0000
    ensures |h| == HEADER_SIZE
  {
    [n / 0x100_0000, n / 0x1_0000 % 256, n / 256 % 256, n % 256]
  }

  function GetLength(h: seq<byte>): nat
    requires |h| >= HEADER_SIZE
  {
    h[0] as int * 0x100_0000 + h[1] as int * 0x1_0000 + h[2] as int * 256 + h[3] as int
  }

  lemma LengthRoundTrip(n: nat)
    requires n < 0x1_0000_0000
    ensures GetLength(PutLength(n)) == n
  {
    assert n == n / 256 * 256 + n % 256;
    assert n / 256 == n / 256 / 256 * 256 + n / 256 % 256;
    assert n / 256 / 256 == n / 0x1_0000;
    assert n / 0x1_0000 == n / 0x1_0000 / 256 * 256 + n / 0x1_0000 % 256;
    assert n / 0x1_0000 / 256 == n / 0x100_0000;
  }

  /** A frame as both sides write it. */
  function Encode(payload: seq<byte>): seq<byte>
    requires |payload| < U32
  {
    PutLength(|payload|) + payload
  }

  function EncodeAll(payloads: seq<seq<byte>>): seq<byte>
    requires forall i :: 0 <= i < |payloads| ==> |payloads[i]| < U32
  {
    if payloads == [] then [] else Encode(payloads[0]) + EncodeAll(payloads[1..])
  }

  /** The payloads before the first that is over the limit. */
  function Acceptable(payloads: seq<seq<byte>>): (r: seq<seq<byte>>)
    ensures r <= payloads
    ensures r == payloads <==> forall i :: 0 <= i < |payloads| ==> |payloads[i]| <= MAX_PAYLOAD
  {
    if payloads == [] || |payloads[0]| > MAX_PAYLOAD then [] else
      var r := Acceptable(payloads[1..]);
      assert payloads == [payloads[0]] + payloads[1..];
      [payloads[0]] + r
  }

  function Concat(chunks: seq<seq<byte>>): seq<byte> {
    if chunks == [] then [] else chunks[0] + Concat(chunks[1..])
  }

  // ---------------------------------------------------------------- the incremental parser

  /** Frames handed out, bytes kept for later, and whether a length over the limit ended it all. */
  datatype Parsed = Parsed(frames: seq<seq<byte>>, rest: seq<byte>, fatal: bool)

  function ParseAll(buf: seq<byte>): Parsed
    decreases |buf|
  {
    if |buf| < HEADER_SIZE then Parsed([], buf, false) else
      var n := GetLength(buf);
      if n > MAX_PAYLOAD then Parsed([], buf, true)
      else if |buf| < HEADER_SIZE + n then Parsed([], buf, false)
      else
        var r := ParseAll(buf[HEADER_SIZE + n..]);
        Parsed([buf[HEADER_SIZE..HEADER_SIZE + n]] + r.frames, r.rest, r.fatal)
  }

  /** The parser fed chunk by chunk; a fatal length ends the process. */
  function Feed(buf: seq<byte>, chunks: seq<seq<byte>>): Parsed
    decreases |chunks|
  {
    if chunks == [] then Parsed([], buf, false) else
      var r := ParseAll(buf + chunks[0]);
      if r.fatal then r else
        var s := Feed(r.rest, chunks[1..]);
        Parsed(r.frames + s.frames, s.rest, s.fatal)
  }

  class FrameParser {
    var buf: seq<byte>

    constructor ()
      ensures buf == []
    {
      buf := [];
    }

    /** `processData`: hands out the frames that are now complete. */
    method ProcessData(chunk: seq<byte>) returns (frames: seq<seq<byte>>, fatal: bool)
      modifies this
      ensures Parsed(frames, buf, fatal) == ParseAll(old(buf) + chunk)
    {
      hide ParseAll, GetLength;
      buf := buf + chunk;
      ghost var all := ParseAll(buf);
      frames, fatal := [], false;
      while |buf| >= HEADER_SIZE
        invariant all == Parsed(frames + ParseAll(buf).frames, ParseAll(buf).rest, ParseAll(buf).fatal)
        decreases |buf|
      {
        ParseOne(buf);
        var payloadLen := GetLength(buf);
        if payloadLen > MAX_PAYLOAD {
          return frames, true;
        }
        var frameSize := HEADER_SIZE + payloadLen;
        if |buf| < frameSize {
          break;
        }
        var payload := buf[HEADER_SIZE..frameSize];
        assert frames + ([payload] + ParseAll(buf[frameSize..]).frames) == frames + [payload] + ParseAll(buf[frameSize..]).frames;
        buf := buf[frameSize..];
        frames := frames + [payload];
      }
      ParseOne(buf);
    }
  }

  /** What the first frame, or its absence, makes of a buffer. */
  lemma ParseOne(buf: seq<byte>)
    ensures var n, r := if |buf| < HEADER_SIZE then 0 else GetLength(buf), ParseAll(buf);
            if |buf| >= HEADER_SIZE && n > MAX_PAYLOAD then r == Parsed([], buf, true)
            else if |buf| < HEADER_SIZE + n then r == Parsed([], buf, false)
            else var s := ParseAll(buf[HEADER_SIZE + n..]);
                 r == Parsed([buf[HEADER_SIZE..HEADER_SIZE + n]] + s.frames, s.rest, s.fatal)
  {
    hide GetLength;
  }

  lemma HeaderDecides(a: seq<byte>, b: seq<byte>)
    requires |a| >= HEADER_SIZE
    ensures GetLength(a + b) == GetLength(a)
  {}

  /** More bytes only extend what was parsed. */
  lemma {:induction false} ParseMore(a: seq<byte>, b: seq<byte>)
    ensures var r, all := ParseAll(a), ParseAll(a + b);
            if r.fatal then all.frames == r.frames && all.fatal
            else var s := ParseAll(r.rest + b); all == Parsed(r.frames + s.frames, s.rest, s.fatal)
    decreases |a|
  {
    hide GetLength;
    var r, all := ParseAll(a), ParseAll(a + b);
    if |a| >= HEADER_SIZE { HeaderDecides(a, b); }
    if |a| >= HEADER_SIZE && GetLength(a) <= MAX_PAYLOAD && |a| >= HEADER_SIZE + GetLength(a) {
      var size := HEADER_SIZE + GetLength(a);
      var payload, more := a[HEADER_SIZE..size], a[size..];
      assert (a + b)[size..] == more + b && (a + b)[HEADER_SIZE..size] == payload;
      ParseMore(more, b);
      var r', all' := ParseAll(more), ParseAll(more + b);
      assert r == Parsed([payload] + r'.frames, r'.rest, r'.fatal);
      assert all == Parsed([payload] + all'.frames, all'.rest, all'.fatal);
      if !r.fatal {
        var s := ParseAll(r.rest + b);
        assert [payload] + (r'.frames + s.frames) == [payload] + r'.frames + s.frames;
      }
    } else if !r.fatal {
      assert r.rest == a && [] + all.frames == all.frames;
    }
  }

  /** What is kept holds no complete frame. */
  lemma {:induction false} RestIsIncomplete(buf: seq<byte>)
    ensures var r := ParseAll(buf); !r.fatal ==> ParseAll(r.rest) == Parsed([], r.rest, false)
    decreases |buf|
  {
    if |buf| >= HEADER_SIZE && GetLength(buf) <= MAX_PAYLOAD && |buf| >= HEADER_SIZE + GetLength(buf) {
      RestIsIncomplete(buf[HEADER_SIZE + GetLength(buf)..]);
    }
  }

  /** However the stream is cut into chunks, the parser hands out the same frames, stops at the same
      oversized length, and keeps the same bytes. */
  lemma {:induction false} ChunkingDoesNotMatter(buf: seq<byte>, chunks: seq<seq<byte>>)
    requires ParseAll(buf) == Parsed([], buf, false)
    ensures var fed, whole := Feed(buf, chunks), ParseAll(buf + Concat(chunks));
            fed.frames == whole.frames && fed.fatal == whole.fatal && (!fed.fatal ==> fed.rest == whole.rest)
    decreases |chunks|
  {
    if chunks == [] {
      assert buf + [] == buf;
    } else {
      var r := ParseAll(buf + chunks[0]);
      assert buf + Concat(chunks) == (buf + chunks[0]) + Concat(chunks[1..]);
      ParseMore(buf + chunks[0], Concat(chunks[1..]));
      if !r.fatal {
        RestIsIncomplete(buf + chunks[0]);
        ChunkingDoesNotMatter(r.rest, chunks[1..]);
      }
    }
  }

  lemma {:induction false} ParseEncoded(payloads: seq<seq<byte>>)
    requires forall i :: 0 <= i < |payloads| ==> |payloads[i]| < U32
    ensures var r := ParseAll(EncodeAll(payloads));
            && r.frames == Acceptable(payloads)
            && (r.fatal <==> Acceptable(payloads) != payloads)
            && (!r.fatal ==> r.rest == [])
  {
    hide GetLength, PutLength;
    if payloads != [] {
      var p, more := payloads[0], EncodeAll(payloads[1..]);
      var s := EncodeAll(payloads);
      LengthRoundTrip(|p|);
      assert s[..HEADER_SIZE] == PutLength(|p|);
      HeaderDecides(s[..HEADER_SIZE], s[HEADER_SIZE..]);
      assert s[..HEADER_SIZE] + s[HEADER_SIZE..] == s;
      assert s[HEADER_SIZE..HEADER_SIZE + |p|] == p && s[HEADER_SIZE + |p|..] == more;
      ParseEncoded(payloads[1..]);
      assert payloads == [p] + payloads[1..];
    }
  }

  /** Any payloads, written as frames and delivered in any pieces, come out unchanged and in order up
      to the first that is over 16 MiB, where the parser gives up; if there is none, all come out and
      the buffer ends empty. */
  lemma FramesRoundTrip(payloads: seq<seq<byte>>, chunks: seq<seq<byte>>)
    requires forall i :: 0 <= i < |payloads| ==> |payloads[i]| < U32
    requires Concat(chunks) == EncodeAll(payloads)
    ensures Feed([], chunks).frames == Acceptable(payloads)
    ensures Feed([], chunks) == Parsed(payloads, [], false)
       <==> forall i :: 0 <= i < |payloads| ==> |payloads[i]| <= MAX_PAYLOAD
  {
    ParseEncoded(payloads);
    ChunkingDoesNotMatter([], chunks);
    assert [] + Concat(chunks) == Concat(chunks);
  }

  // ---------------------------------------------------------------- the blocking reader

  /** End of stream before a read got anything, or in the middle of one. */
  datatype ReadResult = Frame(payload: seq<byte>) | TooLarge | EndOfStream | UnexpectedEnd

  /** `readFrame`: its result and the bytes it leaves unread. */
  function ReadFrame(stream: seq<byte>): (ReadResult, seq<byte>) {
    if |stream| < HEADER_SIZE then (if stream == [] then EndOfStream else UnexpectedEnd, [])
    else
      var n, body := GetLength(stream), stream[HEADER_SIZE..];
      if n == 0 then (Frame([]), body)
      else if n > MAX_PAYLOAD then (TooLarge, body)
      else if |body| < n then (if body == [] then EndOfStream else UnexpectedEnd, [])
      else (Frame(body[..n]), body[n..])
  }

  /** Reading frames until one cannot be read. */
  function ReadAll(stream: seq<byte>): (seq<seq<byte>>, ReadResult)
    decreases |stream|
  {
    var (r, rest) := ReadFrame(stream);
    if r.Frame? then
      var (frames, end) := ReadAll(rest);
      ([r.payload] + frames, end)
    else ([], r)
  }

  /** The two sides agree on every stream, well formed or not: same frames, and a length is too large
      for the reader exactly when it is fatal to the parser. */
  lemma {:induction false} ReaderAgreesWithParser(stream: seq<byte>)
    ensures var (frames, end) := ReadAll(stream);
            frames == ParseAll(stream).frames && (end == TooLarge <==> ParseAll(stream).fatal)
    ensures ParseAll(stream).rest == [] ==> ReadAll(stream).1 == EndOfStream
    decreases |stream|
  {
    if |stream| >= HEADER_SIZE {
      var n := GetLength(stream);
      if n <= MAX_PAYLOAD && |stream| >= HEADER_SIZE + n {
        var body := stream[HEADER_SIZE..];
        assert body[..n] == stream[HEADER_SIZE..HEADER_SIZE + n];
        assert body[n..] == stream[HEADER_SIZE + n..];
        assert n == 0 ==> body == body[n..];
        ReaderAgreesWithParser(stream[HEADER_SIZE + n..]);
      }
    }
  }

  /** The reader recovers what the other side wrote exactly when nothing it wrote is over the limit;
      only the daemon's own writer checks that. */
  lemma ReaderRoundTrip(payloads: seq<seq<byte>>)
    requires forall i :: 0 <= i < |payloads| ==> |payloads[i]| < U32
    ensures ReadAll(EncodeAll(payloads)).0 == Acceptable(payloads)
    ensures ReadAll(EncodeAll(payloads)) == (payloads, EndOfStream)
       <==> forall i :: 0 <= i < |payloads| ==> |payloads[i]| <= MAX_PAYLOAD
  {
    ParseEncoded(payloads);
    ReaderAgreesWithParser(EncodeAll(payloads));
  }

  // ---------------------------------------------------------------- connections

  /** A connection whose reads may return any non-empty part of what is there. */
  class Conn {
    var pending: seq<byte>
    var written: seq<byte>

    constructor (pending: seq<byte>)
      ensures this.pending == pending && written == []
    {
      this.pending, written := pending, [];
    }

    method Write(p: seq<byte>)
      modifies `written
      ensures written == old(written) + p
    {
      written := written + p;
    }

    method Read(limit: nat) returns (p: seq<byte>)
      requires limit > 0
      modifies `pending
      ensures |p| <= limit && p + pending == old(pending) && (p == [] <==> old(pending) == [])
    {
      if pending == [] { return []; }
      var k: nat :| 1 <= k <= limit && k <= |pending|;
      p := pending[..k];
      pending := pending[k..];
    }
  }

  /** The daemon's `writeFrame`: refuses a payload over the limit and then writes nothing. */
  method WriteFrame(conn: Conn, data: seq<byte>) returns (ok: bool)
    modifies conn`written
    ensures ok <==> |data| <= MAX_PAYLOAD
    ensures conn.written == old(conn.written) + if ok then Encode(data) else []
  {
    if |data| > MAX_PAYLOAD { return false; }
    var header := PutLength(|data|);
    conn.Write(header);
    if |data| == 0 {
      assert header + data == header;
      return true;
    }
    conn.Write(data);
    assert old(conn.written) + header + data == old(conn.written) + (header + data);
    ok := true;
  }

  /** The host's `writeFrame`, which does not look at the limit. */
  method HostWriteFrame(conn: Conn, data: seq<byte>)
    requires |data| < U32
    modifies conn`written
    ensures conn.written == old(conn.written) + Encode(data)
  {
    var header := PutLength(|data|);
    conn.Write(header);
    conn.Write(data);
    assert old(conn.written) + header + data == old(conn.written) + (header + data);
  }

  /** `io.ReadFull`: fills the buffer by as many reads as it takes. */
  method ReadFull(conn: Conn, buf: array<byte>) returns (n: nat)
    modifies conn`pending, buf
    ensures n == if |old(conn.pending)| < buf.Length then |old(conn.pending)| else buf.Length
    ensures buf[..n] == old(conn.pending)[..n] && conn.pending == old(conn.pending)[n..]
  {
    n := 0;
    ghost var all := conn.pending;
    while n < buf.Length
      invariant n <= buf.Length && n <= |all|
      invariant buf[..n] == all[..n] && conn.pending == all[n..]
    {
      var p := conn.Read(buf.Length - n);
      if p == [] { return; }
      forall i | 0 <= i < |p| {
        buf[n + i] := p[i];
      }
      assert all[n..][..|p|] == p;
      n := n + |p|;
    }
  }

  method ReadFrameFrom(conn: Conn) returns (r: ReadResult)
    modifies conn`pending
    ensures (r, conn.pending) == ReadFrame(old(conn.pending))
  {
    ghost var stream := conn.pending;
    var header := new byte[HEADER_SIZE];
    var n := ReadFull(conn, header);
    if n < HEADER_SIZE {
      assert n == |stream| && stream[n..] == [];
      return if n == 0 then EndOfStream else UnexpectedEnd;
    }
    assert header[..] == stream[..HEADER_SIZE];
    var length := GetLength(header[..]);
    assert length == GetLength(stream);
    if length == 0 { return Frame([]); }
    if length > MAX_PAYLOAD { return TooLarge; }
    var payload := new byte[length];
    ghost var body := conn.pending;
    assert body == stream[HEADER_SIZE..];
    n := ReadFull(conn, payload);
    if n < length {
      assert n == |body| && body[n..] == [];
      return if n == 0 then EndOfStream else UnexpectedEnd;
    }
    assert payload[..] == payload[..n] == body[..n];
    r := Frame(payload[..]);
  }
}
