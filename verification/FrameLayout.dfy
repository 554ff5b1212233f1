/** What stands on the wire, byte by byte, and what both sides make of any stream. */
module FrameLayout {
  import opened Bytes
  import opened Frames

  /** The number at the first four bytes, most significant first. */
  function Announced(b: seq<byte>): nat
    requires |b| >= 4
  {
    b[0] as int * 16777216 + b[1] as int * 65536 + b[2] as int * 256 + b[3] as int
  }

  lemma LengthIsAnnounced(b: seq<byte>)
    requires |b| >= 4
    ensures GetLength(b) == Announced(b)
  {}

  /** A frame is the length of its payload in four bytes, most significant first, and the payload. */
  lemma FrameIsLengthAndPayload(payload: seq<byte>)
    requires |payload| < 4294967296
    ensures var frame := Encode(payload);
            |frame| == 4 + |payload| && Announced(frame) == |payload| && frame[4..] == payload
  {
    hide PutLength, GetLength;
    var frame := Encode(payload);
    LengthRoundTrip(|payload|);
    assert frame[..4] == PutLength(|payload|);
    HeaderDecides(frame[..4], frame[4..]);
    assert frame[..4] + frame[4..] == frame;
    LengthIsAnnounced(frame);
  }

  /** Frame i stands at place cuts[i] of the stream, and the next one right behind it. */
  ghost predicate FramesStand(stream: seq<byte>, frames: seq<seq<byte>>, cuts: seq<nat>) {
    && |cuts| == |frames| + 1 && cuts[0] == 0
    && forall i :: 0 <= i < |frames| ==> FrameStands(stream, frames[i], cuts[i], cuts[i + 1])
  }

  ghost predicate FrameStands(stream: seq<byte>, frame: seq<byte>, at: nat, next: nat) {
    && next == at + 4 + |frame| <= |stream|
    && Announced(stream[at..]) == |frame| <= 16777216 && stream[at + 4..next] == frame
  }

  /** What is left holds no complete frame, or announces one over 16 MiB. */
  ghost predicate Ends(rest: seq<byte>, fatal: bool) {
    if fatal then |rest| >= 4 && Announced(rest) > 16777216
    else |rest| < 4 || (Announced(rest) <= 16777216 && |rest| < 4 + Announced(rest))
  }

  lemma ShiftedFrame(stream: seq<byte>, k: nat, frame: seq<byte>, at: nat, next: nat)
    requires k <= |stream| && FrameStands(stream[k..], frame, at, next)
    ensures FrameStands(stream, frame, k + at, k + next)
  {
    assert stream[k..][at..] == stream[k + at..];
    assert stream[k..][at + 4..next] == stream[k + at + 4..k + next];
  }

  lemma FramesFollow(stream: seq<byte>, first: seq<byte>, frames: seq<seq<byte>>, cuts: seq<nat>)
    requires 4 + |first| <= |stream| && FrameStands(stream, first, 0, 4 + |first|)
    requires FramesStand(stream[4 + |first|..], frames, cuts)
    ensures FramesStand(stream, [first] + frames, [0] + seq(|cuts|, i requires 0 <= i < |cuts| => 4 + |first| + cuts[i]))
  {
    hide FrameStands;
    var k := 4 + |first|;
    var all, cuts' := [first] + frames, [0] + seq(|cuts|, i requires 0 <= i < |cuts| => k + cuts[i]);
    forall i | 0 <= i < |all| ensures FrameStands(stream, all[i], cuts'[i], cuts'[i + 1]) {
      if i > 0 { ShiftedFrame(stream, k, frames[i - 1], cuts[i - 1], cuts[i]); }
    }
  }

  /** The frames are those that stand one behind the other from the start of the stream, as many as are
      complete, and the rest is what is left. */
  ghost predicate ParsedAt(stream: seq<byte>, r: Parsed, cuts: seq<nat>) {
    && FramesStand(stream, r.frames, cuts)
    && cuts[|r.frames|] <= |stream| && r.rest == stream[cuts[|r.frames|]..]
    && Ends(r.rest, r.fatal)
  }

  /** Any stream, well formed or not, parses to exactly that. */
  lemma {:induction false} ParsedExactly(stream: seq<byte>) returns (cuts: seq<nat>)
    ensures ParsedAt(stream, ParseAll(stream), cuts)
    decreases |stream|
  {
    hide GetLength, FramesStand, FrameStands, ParseAll, ParsedAt;
    ParseOne(stream);
    if |stream| >= 4 { LengthIsAnnounced(stream); }
    if |stream| >= 4 && Announced(stream) <= 16777216 && |stream| >= 4 + Announced(stream) {
      var k := 4 + Announced(stream);
      cuts := ParsedExactly(stream[k..]);
      cuts := ParsedBehind(stream, k, ParseAll(stream[k..]), cuts);
    } else {
      cuts := [0];
      NoFrames(stream, ParseAll(stream));
    }
  }

  lemma ParsedBehind(stream: seq<byte>, k: nat, r: Parsed, cuts: seq<nat>) returns (all: seq<nat>)
    requires |stream| >= 4 && Announced(stream) <= 16777216 && k == 4 + Announced(stream) <= |stream|
    requires ParsedAt(stream[k..], r, cuts)
    ensures ParsedAt(stream, Parsed([stream[4..k]] + r.frames, r.rest, r.fatal), all)
  {
    hide FrameStands, Ends;
    FirstStands(stream);
    FramesFollow(stream, stream[4..k], r.frames, cuts);
    all := [0] + seq(|cuts|, i requires 0 <= i < |cuts| => k + cuts[i]);
    assert stream[k..][cuts[|r.frames|]..] == stream[k + cuts[|r.frames|]..];
  }

  lemma FirstStands(stream: seq<byte>)
    requires |stream| >= 4 && Announced(stream) <= 16777216 && |stream| >= 4 + Announced(stream)
    ensures FrameStands(stream, stream[4..4 + Announced(stream)], 0, 4 + Announced(stream))
  {
    assert stream[0..] == stream;
  }

  lemma NoFrames(stream: seq<byte>, r: Parsed)
    requires r.frames == [] && r.rest == stream && Ends(stream, r.fatal)
    ensures ParsedAt(stream, r, [0])
  {
    assert stream[0..] == stream;
  }

  /** The blocking reader ends with an error for a length over 16 MiB, with the plain end of the stream
      after a whole frame or right behind a length, and otherwise in the middle of something. */
  lemma {:induction false} ReaderEnds(stream: seq<byte>)
    ensures var (frames, end) := ReadAll(stream);
            var r := ParseAll(stream);
            end == if r.fatal then TooLarge else if |r.rest| == 0 || |r.rest| == 4 then EndOfStream else UnexpectedEnd
    decreases |stream|
  {
    hide GetLength;
    if |stream| >= 4 {
      var n := GetLength(stream);
      if n <= MAX_PAYLOAD && |stream| >= 4 + n {
        var body := stream[4..];
        assert body[n..] == stream[4 + n..];
        assert n == 0 ==> body == body[n..];
        ReaderEnds(stream[4 + n..]);
      }
    }
  }
}
