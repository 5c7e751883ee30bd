/** Frames of an interactive terminal session (src/core/src/pty.rs). */
module Pty {
  import Text

  type Byte = x: int | 0 <= x < 256

  type Word = x: int | 0 <= x < 0x1_0000_0000

  const MAX_FRAME_PAYLOAD := 65536

  const HEADER_BYTES := 5

  datatype Frame = Frame(kind: Byte, payload: seq<Byte>)

  /** The answer of one call, and the bytes it leaves unread. */
  datatype Reading = Reading(result: ReadResult, rest: seq<Byte>)

  /** The frames a reader gets before the first call that delivers none, and that call's answer. */
  datatype Session = Session(frames: seq<Frame>, end: ReadResult)

  datatype ReadResult = Delivered(frame: Frame) | EndOfStream | TooLarge | Truncated

  // ----- Lengths on the wire -----

  function ToBigEndian(n: Word): (bytes: seq<Byte>)
    ensures |bytes| == 4
  {
    [n / 0x100_0000, n / 0x1_0000 % 256, n / 256 % 256, n % 256]
  }

  function FromBigEndian(bytes: seq<Byte>): Word
    requires |bytes| == 4
  {
    (bytes[0] as int) * 0x100_0000 + (bytes[1] as int) * 0x1_0000 + (bytes[2] as int) * 256 + bytes[3]
  }

  /** Every 32-bit length survives the wire. */
  lemma LengthRoundTrip(n: Word)
    ensures FromBigEndian(ToBigEndian(n)) == n
  {
    var high := n / 256;
    assert n == high * 256 + n % 256;
    assert n / 0x1_0000 == high / 256 && n / 0x100_0000 == high / 256 / 256;
  }

  /** Every four bytes are the spelling of the length they denote. */
  lemma LengthSpelling(bytes: seq<Byte>)
    requires |bytes| == 4
    ensures ToBigEndian(FromBigEndian(bytes)) == bytes
  {
    var n := FromBigEndian(bytes);
    var high: int := (bytes[0] as int) * 256 + bytes[1];
    assert n == (high * 256 + bytes[2]) * 256 + bytes[3];
    assert n / 256 == high * 256 + bytes[2] && n % 256 == bytes[3];
    assert n / 0x1_0000 == high;
    assert n / 0x100_0000 == bytes[0];
    assert (high * 256 + bytes[2]) % 256 == bytes[2] && high % 256 == bytes[1];
  }

  // ----- One frame -----

  /** The length as written: the cast to 32 bits wraps. */
  function WireLength(frame: Frame): Word {
    |frame.payload| % 0x1_0000_0000
  }

  /** What `write_frame` puts on the wire. */
  function Encode(frame: Frame): seq<Byte> {
    [frame.kind] + ToBigEndian(WireLength(frame)) + frame.payload
  }

  /** What `read_frame` does on a stream holding `bytes`. */
  function Decode(bytes: seq<Byte>): (r: Reading)
    ensures r.result.Delivered? ==> |r.rest| < |bytes|
  {
    if |bytes| < HEADER_BYTES then Reading(EndOfStream, [])
    else
      var length := FromBigEndian(bytes[1..5]);
      var rest := bytes[5..];
      if length > MAX_FRAME_PAYLOAD then Reading(TooLarge, rest)
      else if |rest| < length then Reading(Truncated, [])
      else Reading(Delivered(Frame(bytes[0], rest[..length])), rest[length..])
  }

  predicate Fits(frame: Frame) {
    |frame.payload| <= 65536
  }

  /** The length a header announces: bytes 1 to 4, the highest first. */
  function Announced(bytes: seq<Byte>): int
    requires |bytes| >= 5
  {
    (((bytes[1] as int) * 256 + bytes[2]) * 256 + bytes[3]) * 256 + bytes[4]
  }

  lemma HeaderOf(frame: Frame, rest: seq<Byte>)
    ensures var bytes := Encode(frame) + rest;
      && |Encode(frame)| == HEADER_BYTES + |frame.payload|
      && bytes[0] == frame.kind
      && FromBigEndian(bytes[1..5]) == WireLength(frame)
      && bytes[5..] == frame.payload + rest
  {
    var bytes := Encode(frame) + rest;
    assert bytes[1..5] == ToBigEndian(WireLength(frame));
    LengthRoundTrip(WireLength(frame));
  }

  /** A frame written is the frame read, whatever follows it, exactly when its payload fits. */
  lemma FrameRoundTrip(frame: Frame, rest: seq<Byte>)
    ensures Decode(Encode(frame) + rest) == Reading(Delivered(frame), rest) <==> Fits(frame)
  {
    HeaderOf(frame, rest);
    if Fits(frame) {
      assert (frame.payload + rest)[..|frame.payload|] == frame.payload;
      assert (frame.payload + rest)[|frame.payload|..] == rest;
    }
  }

  /** A payload of 4 GiB and a few bytes is delivered cut short, and the rest is taken for frames. */
  lemma WrappedLengthDesynchronizes(frame: Frame, rest: seq<Byte>)
    requires !Fits(frame)
    ensures Decode(Encode(frame) + rest) ==
      if WireLength(frame) > MAX_FRAME_PAYLOAD then Reading(TooLarge, frame.payload + rest)
      else Reading(Delivered(Frame(frame.kind, frame.payload[..WireLength(frame)])),
        frame.payload[WireLength(frame)..] + rest)
  {
    HeaderOf(frame, rest);
    var length := WireLength(frame);
    if length <= MAX_FRAME_PAYLOAD {
      assert (frame.payload + rest)[..length] == frame.payload[..length];
      assert (frame.payload + rest)[length..] == frame.payload[length..] + rest;
    }
  }

  /** A frame that is delivered was on the wire, and what is left is what followed it. */
  lemma DeliveredWasWritten(bytes: seq<Byte>)
    requires Decode(bytes).result.Delivered?
    ensures Fits(Decode(bytes).result.frame)
    ensures Encode(Decode(bytes).result.frame) + Decode(bytes).rest == bytes
  {
    var header, length, rest := bytes[1..5], FromBigEndian(bytes[1..5]), bytes[5..];
    LengthSpelling(header);
    assert Encode(Decode(bytes).result.frame) == [bytes[0]] + header + rest[..length];
    assert bytes == [bytes[0]] + header + rest[..length] + rest[length..];
  }

  // ----- A whole session -----

  function EncodeAll(frames: seq<Frame>): seq<Byte> {
    if frames == [] then [] else Encode(frames[0]) + EncodeAll(frames[1..])
  }

  function DecodeAll(bytes: seq<Byte>): Session {
    var reading := Decode(bytes);
    if reading.result.Delivered? then Before([reading.result.frame], DecodeAll(reading.rest))
    else Session([], reading.result)
  }

  function Before(frames: seq<Frame>, session: Session): Session {
    Session(frames + session.frames, session.end)
  }

  lemma BeforeBefore(a: seq<Frame>, b: seq<Frame>, session: Session)
    ensures Before(a, Before(b, session)) == Before(a + b, session)
  {
    assert a + (b + session.frames) == a + b + session.frames;
  }

  predicate AllFit(frames: seq<Frame>) {
    forall i | 0 <= i < |frames| :: Fits(frames[i])
  }

  lemma FrameThen(frame: Frame, rest: seq<Byte>)
    requires Fits(frame)
    ensures DecodeAll(Encode(frame) + rest) == Before([frame], DecodeAll(rest))
  {
    FrameRoundTrip(frame, rest);
  }

  /** Reading distributes over what was written. */
  lemma {:induction false} SessionThen(frames: seq<Frame>, rest: seq<Byte>)
    requires AllFit(frames)
    ensures DecodeAll(EncodeAll(frames) + rest) == Before(frames, DecodeAll(rest))
  {
    if frames == [] {
      assert EncodeAll(frames) + rest == rest;
      assert Before(frames, DecodeAll(rest)) == DecodeAll(rest);
    } else {
      var first, others := Encode(frames[0]), EncodeAll(frames[1..]);
      SessionThen(frames[1..], rest);
      FrameThen(frames[0], others + rest);
      Text.Regroup(first, others, rest);
      BeforeBefore([frames[0]], frames[1..], DecodeAll(rest));
      assert [frames[0]] + frames[1..] == frames;
    }
  }

  /** A whole session is read back, and then ends. */
  lemma SessionRoundTrip(frames: seq<Frame>)
    requires AllFit(frames)
    ensures DecodeAll(EncodeAll(frames)) == Session(frames, EndOfStream)
  {
    SessionThen(frames, []);
    assert EncodeAll(frames) + [] == EncodeAll(frames);
  }

  /** Different sessions look different on the wire. */
  lemma SessionInjective(a: seq<Frame>, b: seq<Frame>)
    requires AllFit(a) && AllFit(b) && EncodeAll(a) == EncodeAll(b)
    ensures a == b
  {
    SessionRoundTrip(a);
    SessionRoundTrip(b);
  }

  /** Whatever the bytes, the frames delivered are the ones the stream starts with. */
  lemma {:induction false} DeliveredIsPrefix(bytes: seq<Byte>)
    ensures AllFit(DecodeAll(bytes).frames)
    ensures EncodeAll(DecodeAll(bytes).frames) <= bytes
    decreases |bytes|
  {
    if Decode(bytes).result.Delivered? {
      DeliveredWasWritten(bytes);
      var frame, rest := Decode(bytes).result.frame, Decode(bytes).rest;
      DeliveredIsPrefix(rest);
      var frames := DecodeAll(rest).frames;
      assert DecodeAll(bytes).frames == [frame] + frames;
      PrefixBehind(frame, frames, rest);
    }
  }

  lemma PrefixBehind(frame: Frame, frames: seq<Frame>, rest: seq<Byte>)
    requires EncodeAll(frames) <= rest
    ensures EncodeAll([frame] + frames) <= Encode(frame) + rest
  {
    assert ([frame] + frames)[1..] == frames;
    assert rest == EncodeAll(frames) + rest[|EncodeAll(frames)|..];
  }

  /** A frame cut short: inside its header it reads as the end, inside its payload as an error. */
  lemma CutFrame(frame: Frame, n: nat)
    requires Fits(frame) && n < |Encode(frame)|
    ensures Decode(Encode(frame)[..n]).result == if n < HEADER_BYTES then EndOfStream else Truncated
  {
    HeaderOf(frame, []);
    var bytes := Encode(frame);
    assert bytes + [] == bytes;
    if n >= HEADER_BYTES {
      assert bytes[..n][1..5] == bytes[1..5];
      assert FromBigEndian(bytes[..n][1..5]) == |frame.payload|;
    }
  }

  /** The frames that lie whole within the first `n` bytes, and what follows them there. */
  lemma {:induction false} WholeFrames(frames: seq<Frame>, n: nat) returns (whole: nat, partial: seq<Byte>)
    requires n <= |EncodeAll(frames)|
    ensures whole <= |frames| && EncodeAll(frames)[..n] == EncodeAll(frames[..whole]) + partial
    ensures whole == |frames| ==> partial == []
    ensures whole < |frames| ==> |partial| < |Encode(frames[whole])| && partial == Encode(frames[whole])[..|partial|]
  {
    if frames == [] {
      whole, partial := 0, [];
    } else {
      var first, tail := Encode(frames[0]), EncodeAll(frames[1..]);
      if n < |first| {
        whole, partial := 0, first[..n];
        assert (first + tail)[..n] == first[..n];
      } else {
        whole, partial := WholeFrames(frames[1..], n - |first|);
        var begun := frames[1..][..whole];
        assert (first + tail)[..n] == first + tail[..n - |first|];
        assert first + (EncodeAll(begun) + partial) == first + EncodeAll(begun) + partial;
        whole := whole + 1;
        assert frames[..whole][1..] == begun;
      }
    }
  }

  /**
   A session cut anywhere delivers exactly the frames written whole. It ends as a clean end
   of stream when the cut leaves less than a header, and as an error otherwise.
   */
  lemma CutSession(frames: seq<Frame>, n: nat) returns (whole: nat)
    requires AllFit(frames) && n <= |EncodeAll(frames)|
    ensures whole <= |frames| && |EncodeAll(frames[..whole])| <= n
    ensures whole < |frames| ==> n < |EncodeAll(frames[..whole])| + |Encode(frames[whole])|
    ensures DecodeAll(EncodeAll(frames)[..n]) == Session(frames[..whole],
      if n - |EncodeAll(frames[..whole])| < HEADER_BYTES then EndOfStream else Truncated)
  {
    var partial;
    whole, partial := WholeFrames(frames, n);
    SessionThen(frames[..whole], partial);
    assert |EncodeAll(frames)[..n]| == n;
    if whole < |frames| {
      CutFrame(frames[whole], |partial|);
    }
  }

  // ----- The stream -----

  class Stream {
    var bytes: seq<Byte>

    constructor ()
      ensures bytes == []
    {
      bytes := [];
    }

    method WriteAll(data: seq<Byte>)
      modifies this
      ensures bytes == old(bytes) + data
    {
      bytes := bytes + data;
    }

    /** Fills a buffer of `n` bytes, or consumes what there is and fails. */
    method ReadExact(n: nat) returns (ok: bool, data: seq<Byte>)
      modifies this
      ensures ok == (n <= |old(bytes)|)
      ensures ok ==> |data| == n && old(bytes) == data + bytes
      ensures !ok ==> data == [] && bytes == []
    {
      ok := n <= |bytes|;
      if ok {
        data, bytes := bytes[..n], bytes[n..];
      } else {
        data, bytes := [], [];
      }
    }

    method WriteFrame(kind: Byte, payload: seq<Byte>)
      modifies this
      ensures bytes == old(bytes) + Encode(Frame(kind, payload))
      ensures |bytes| == |old(bytes)| + 5 + |payload| && bytes[..|old(bytes)|] == old(bytes)
      ensures var frame := bytes[|old(bytes)|..];
        frame[0] == kind && Announced(frame) == |payload| % 0x1_0000_0000 && frame[5..] == payload
    {
      HeaderOf(Frame(kind, payload), []);
      var length := |payload| % 0x1_0000_0000;
      WriteAll([kind]);
      WriteAll(ToBigEndian(length));
      WriteAll(payload);
      assert bytes[|old(bytes)|..] == Encode(Frame(kind, payload)) + [];
    }

    method ReadFrame() returns (r: ReadResult)
      modifies this
      ensures Reading(r, bytes) == Decode(old(bytes))
      ensures r == EndOfStream <==> |old(bytes)| < 5
      ensures r == TooLarge <==> |old(bytes)| >= 5 && Announced(old(bytes)) > 65536
      ensures r == Truncated <==>
        && |old(bytes)| >= 5 && Announced(old(bytes)) <= 65536
        && |old(bytes)| < 5 + Announced(old(bytes))
      ensures r.Delivered? ==>
        var n := 5 + Announced(old(bytes));
        && 5 <= n <= |old(bytes)|
        && r.frame == Frame(old(bytes)[0], old(bytes)[5..n]) && bytes == old(bytes)[n..]
    {
      var ok, header := ReadExact(HEADER_BYTES);
      if !ok {
        return EndOfStream;
      }
      assert old(bytes)[1..5] == header[1..5] && old(bytes)[5..] == bytes;
      var length := FromBigEndian(header[1..5]);
      if length > MAX_FRAME_PAYLOAD {
        return TooLarge;
      }
      var payload := [];
      if length > 0 {
        ok, payload := ReadExact(length);
        if !ok {
          return Truncated;
        }
      }
      assert old(bytes)[5..] == payload + bytes;
      return Delivered(Frame(header[0], payload));
    }

    /** A peer's session loop: frames until a call delivers none. */
    method ReadSession() returns (frames: seq<Frame>, end: ReadResult)
      modifies this
      ensures Session(frames, end) == DecodeAll(old(bytes))
    {
      frames := [];
      end := ReadFrame();
      ghost var unread := old(bytes);
      while end.Delivered?
        invariant Reading(end, bytes) == Decode(unread)
        invariant DecodeAll(old(bytes)) == Before(frames, DecodeAll(unread))
        decreases |unread|
      {
        BeforeBefore(frames, [end.frame], DecodeAll(bytes));
        frames := frames + [end.frame];
        unread := bytes;
        end := ReadFrame();
      }
    }
  }
}
