// Control frames on the wire: `encode_frame`, the in-place `decode_frames`, and the stream reader and
// writer that the relay server and client share.
module ControlStream {
  import opened Basics
  import opened Types
  import opened Postcard
  import opened FrameCodec
  import opened Framing

  ghost predicate Encodable(f: Frame) {
    |PutFrame(f, [])| <= MAX_FRAME_SIZE
  }

  ghost function Encoded(f: Frame): seq<u8> {
    Wrap(PutFrame(f, []))
  }

  // An encoding is never empty and its length never loses bits to the `u32` header.
  method EncodeFrame(f: Frame) returns (r: Result<seq<u8>, CodecError>)
    ensures r.Ok? <==> |PutFrame(f, [])| <= 1_048_576
    ensures r.Ok? <==> Encodable(f)
    ensures r.Ok? ==> r.value == Encoded(f) && 4 < |r.value| && HeaderLength(r.value[..4]) == |r.value| - 4
    ensures r.Err? ==> r.error == FrameTooLarge
  {
    var payload := PutFrame(f, []);
    if |payload| > MAX_FRAME_SIZE {
      return Err(FrameTooLarge);
    }
    var out := Header(|payload|);
    out := out + payload;
    WrapSlices(payload, []);
    assert out + [] == out;
    return Ok(out);
  }

  function DecodeFramePayload(payload: seq<u8>): Result<Frame, CodecError> {
    match GetFrame(payload)
    case Got(f, _) => Ok(f)
    case Bad => Err(Malformed)
  }

  ghost function Decoded(b: seq<u8>): Parse<Frame> {
    ParseAll(DecodeFramePayload, b)
  }

  class FrameBuffer {
    var buffer: seq<u8>

    constructor ()
      ensures buffer == []
    {
      buffer := [];
    }

    method Extend(bytes: seq<u8>)
      modifies this
      ensures buffer == old(buffer) + bytes
    {
      buffer := buffer + bytes;
    }

    // On an error the frames already split off are lost with the call; a malformed frame is consumed,
    // an unacceptable length is left in place.
    method DecodeFrames() returns (r: Result<seq<Frame>, CodecError>)
      modifies this
      ensures match Decoded(old(buffer)).end
              case More(leftover) => r == Ok(Decoded(old(buffer)).frames) && buffer == leftover
              case Stop(e, leftover) => r == Err(e) && buffer == leftover
    {
      var frames: seq<Frame> := [];
      ghost var decode := DecodeFramePayload;
      while true
        invariant ParseAll(decode, old(buffer)) == Prepend(frames, ParseAll(decode, buffer))
        decreases |buffer|
      {
        if |buffer| < 4 {
          break;
        }
        var len := HeaderLength(buffer[..4]);
        if len > MAX_FRAME_SIZE {
          return Err(FrameTooLarge);
        }
        if len == 0 {
          return Err(InvalidLength);
        }
        if |buffer| < 4 + len {
          break;
        }
        ghost var before := buffer;
        buffer := buffer[4..];
        var payload := buffer[..len];
        buffer := buffer[len..];
        assert payload == before[4..4 + len] && buffer == before[4 + len..];
        ParseStep(decode, before, len);
        match DecodeFramePayload(payload) {
          case Err(e) => return Err(e);
          case Ok(f) =>
            PrependTwice(frames, [f], ParseAll(decode, buffer));
            frames := frames + [f];
        }
      }
      assert ParseAll(decode, buffer) == Parse([], More(buffer));
      assert frames + [] == frames;
      return Ok(frames);
    }
  }

  // The use of the buffer: append what arrives, decode, and go on until a call fails. The frames of the
  // failing call are lost.
  method DecodeChunks(buffer: FrameBuffer, chunks: seq<seq<u8>>) returns (frames: seq<Frame>, error: Option<CodecError>)
    modifies buffer
    ensures var fed := Feed(DecodeFramePayload, old(buffer.buffer), chunks);
            match error
            case None => fed == Parse(frames, More(buffer.buffer))
            case Some(e) => fed.end == Stop(e, buffer.buffer) && frames <= fed.frames
  {
    frames, error := [], None;
    ghost var decode := DecodeFramePayload;
    ghost var fed := Feed(decode, buffer.buffer, chunks);
    var i := 0;
    assert chunks[0..] == chunks && [] + fed.frames == fed.frames;
    while i < |chunks|
      invariant i <= |chunks| && fed == Prepend(frames, Feed(decode, buffer.buffer, chunks[i..]))
    {
      FeedFirst(decode, buffer.buffer, chunks, i, frames);
      buffer.Extend(chunks[i]);
      var r := buffer.DecodeFrames();
      match r {
        case Err(e) => return frames, Some(e);
        case Ok(more) => frames := frames + more;
      }
      i := i + 1;
    }
    assert chunks[i..] == [] && frames + [] == frames;
  }

  // A byte stream whose peer has closed: what was sent is there to be read, then end of file.
  class ByteStream {
    var incoming: seq<u8>
    var outgoing: seq<u8>

    constructor (received: seq<u8>)
      ensures incoming == received && outgoing == []
    {
      incoming, outgoing := received, [];
    }

    method ReadExact(n: nat) returns (r: Option<seq<u8>>)
      modifies this`incoming
      ensures r.Some? <==> n <= |old(incoming)|
      ensures r.Some? ==> r.value == old(incoming)[..n] && incoming == old(incoming)[n..]
      ensures r.None? ==> incoming == []
    {
      if |incoming| < n {
        incoming := [];
        return None;
      }
      r := Some(incoming[..n]);
      incoming := incoming[n..];
    }

    method ReadControlFrame() returns (r: Result<Frame, ReadError>)
      modifies this`incoming
      ensures (r, incoming) == ReadFrame(DecodeFramePayload, old(incoming))
    {
      var header := ReadExact(4);
      if header.None? {
        return Err(UnexpectedEof);
      }
      var length := HeaderLength(header.value);
      if length == 0 || length > MAX_FRAME_SIZE {
        return Err(BadLength(length));
      }
      var payload := ReadExact(length);
      if payload.None? {
        return Err(UnexpectedEof);
      }
      assert payload.value == old(incoming)[4..4 + length];
      match DecodeFramePayload(payload.value) {
        case Err(_) => return Err(BadPayload);
        case Ok(f) => return Ok(f);
      }
    }

    method WriteControlFrame(f: Frame) returns (r: Result<(), CodecError>)
      modifies this`outgoing
      ensures r.Ok? <==> Encodable(f)
      ensures outgoing == if r.Ok? then old(outgoing) + Encoded(f) else old(outgoing)
    {
      var encoded := EncodeFrame(f);
      match encoded {
        case Err(e) => return Err(e);
        case Ok(bytes) =>
          outgoing := outgoing + bytes;
          return Ok(());
      }
    }
  }

  // ---- Round trip ----

  lemma PayloadRoundTrip(f: Frame, junk: seq<u8>)
    requires |PutFrame(f, junk)| < MAX_USIZE
    ensures DecodeFramePayload(PutFrame(f, junk)) == Ok(f)
  {
    FrameRoundTrip(f, junk);
  }

  ghost function EncodeAll(fs: seq<Frame>): seq<u8> {
    WrapAll(seq(|fs|, i requires 0 <= i < |fs| => PutFrame(fs[i], [])))
  }

  // Concatenated encodings decode to the frames that were encoded; whatever follows is decoded as if
  // it came alone.
  lemma FramesRoundTrip(fs: seq<Frame>, tail: seq<u8>)
    requires forall f | f in fs :: Encodable(f)
    ensures Decoded(EncodeAll(fs) + tail) == Prepend(fs, Decoded(tail))
  {
    var ps := seq(|fs|, i requires 0 <= i < |fs| => PutFrame(fs[i], []));
    forall i | 0 <= i < |fs| ensures 0 < |ps[i]| <= MAX_FRAME_SIZE && DecodeFramePayload(ps[i]) == Ok(fs[i]) {
      assert fs[i] in fs;
      PayloadRoundTrip(fs[i], []);
    }
    WrapRoundTrip(DecodeFramePayload, fs, ps, tail);
  }

  // The tail that is left is exactly an incomplete one.
  lemma FramesThenIncompleteTail(fs: seq<Frame>, tail: seq<u8>)
    requires forall f | f in fs :: Encodable(f)
    ensures Decoded(EncodeAll(fs) + tail) == Parse(fs, More(tail)) <==> Incomplete(tail)
    ensures ReadAll(DecodeFramePayload, EncodeAll(fs) + tail) == fs + ReadAll(DecodeFramePayload, tail)
  {
    FramesRoundTrip(fs, tail);
    IncompleteIsLeftOver(DecodeFramePayload, tail);
    assert fs + [] == fs;
    ReadAllIsParseAll(DecodeFramePayload, EncodeAll(fs) + tail);
    ReadAllIsParseAll(DecodeFramePayload, tail);
    if fs + Decoded(tail).frames == fs {
      assert |Decoded(tail).frames| == 0;
    }
  }

  // A reader takes exactly one frame's bytes and leaves the rest of the stream untouched.
  lemma ReadEncoded(f: Frame, rest: seq<u8>)
    requires Encodable(f)
    ensures ReadFrame(DecodeFramePayload, Encoded(f) + rest) == (Ok(f), rest)
  {
    WrapSlices(PutFrame(f, []), rest);
    PayloadRoundTrip(f, []);
  }

  // Decoding is not injective: padded varints and bytes after the frame are accepted.
  lemma NonCanonicalEncodingsAccepted()
    ensures DecodeFramePayload([0x10]) == DecodeFramePayload([0x90, 0x00]) == DecodeFramePayload([0x10, 0xFF]) == Ok(Goodbye)
  {
    assert GetVarint([0x00], 4, 0x0F) == Got(0, [0x00][1..]);
    assert [0x90, 0x00][1..] == [0x00];
  }
}
