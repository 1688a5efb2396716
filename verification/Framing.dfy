// Length-prefixed framing, whatever the payload format: `decode` turns a payload into a value.
module Framing {
  import opened Basics
  import opened Types

  datatype CodecError = FrameTooLarge | InvalidLength | Malformed

  // `put_u32(payload.len() as u32)`: the cast keeps the low 32 bits.
  function Header(length: nat): (h: seq<u8>)
    ensures |h| == 4
  {
    var n := length % 0x1_0000_0000;
    [n / 0x100_0000, n / 0x1_0000 % 0x100, n / 0x100 % 0x100, n % 0x100]
  }

  function HeaderLength(h: seq<u8>): nat
    requires |h| == 4
  {
    0x100_0000 * h[0] as int + 0x1_0000 * h[1] as int + 0x100 * h[2] as int + h[3] as int
  }

  function Wrap(payload: seq<u8>): seq<u8> {
    Header(|payload|) + payload
  }

  type Decoder<F> = seq<u8> -> Result<F, CodecError>

  // ---- What a buffer holds ----

  // The head of a buffer: not enough bytes, an unacceptable length, a bad payload, or a frame.
  datatype Head<F> =
    | Short
    | BadHeader(length: nat)
    | BadFrame(error: CodecError, rest: seq<u8>)
    | Whole(frame: F, rest: seq<u8>)

  ghost function HeadOf<F>(decode: Decoder<F>, b: seq<u8>): (h: Head<F>)
    ensures h.Whole? ==> |h.rest| < |b|
  {
    if |b| < 4 then Short
    else
      var len := HeaderLength(b[..4]);
      if len > MAX_FRAME_SIZE || len == 0 then BadHeader(len)
      else if |b| < 4 + len then Short
      else
        match decode(b[4..4 + len])
        case Err(e) => BadFrame(e, b[4 + len..])
        case Ok(f) => Whole(f, b[4 + len..])
  }

  // Where decoding ends: out of complete frames, or at the first bad one.
  datatype End = More(leftover: seq<u8>) | Stop(error: CodecError, leftover: seq<u8>)

  datatype Parse<F> = Parse(frames: seq<F>, end: End)

  ghost function Prepend<F>(fs: seq<F>, p: Parse<F>): Parse<F> {
    Parse(fs + p.frames, p.end)
  }

  ghost function ParseAll<F>(decode: Decoder<F>, b: seq<u8>): Parse<F>
    decreases |b|
  {
    match HeadOf(decode, b)
    case Short => Parse([], More(b))
    case BadHeader(len) => Parse([], Stop(if len == 0 then InvalidLength else FrameTooLarge, b))
    case BadFrame(e, rest) => Parse([], Stop(e, rest))
    case Whole(f, rest) => Prepend([f], ParseAll(decode, rest))
  }

  // ---- Round trip ----

  lemma HeaderRoundTrip(length: nat)
    requires length <= MAX_FRAME_SIZE
    ensures HeaderLength(Header(length)) == length
  {
    var a, b, c := length / 0x100, length / 0x1_0000, length / 0x100_0000;
    assert length % 0x1_0000_0000 == length;
    assert Header(length) == [c, b % 0x100, a % 0x100, length % 0x100];
    Base256(length, a, b, c);
    LengthOf(c, b % 0x100, a % 0x100, length % 0x100);
  }

  lemma LengthOf(w: u8, x: u8, y: u8, z: u8)
    ensures HeaderLength([w, x, y, z]) == 0x100_0000 * w as int + 0x1_0000 * x as int + 0x100 * y as int + z as int
  {
  }

  lemma Base256(n: nat, a: nat, b: nat, c: nat)
    requires n < 0x1_0000_0000 && a == n / 0x100 && b == n / 0x1_0000 && c == n / 0x100_0000
    ensures n == 0x100_0000 * c + 0x1_0000 * (b % 0x100) + 0x100 * (a % 0x100) + n % 0x100
  {
    assert n == 0x100 * a + n % 0x100;
    assert b == a / 0x100 && a == 0x100 * b + a % 0x100;
    assert c == b / 0x100 && b == 0x100 * c + b % 0x100;
  }

  lemma WrapSlices(payload: seq<u8>, tail: seq<u8>)
    requires |payload| <= MAX_FRAME_SIZE
    ensures var b := Wrap(payload) + tail;
            && 4 + |payload| <= |b| && HeaderLength(b[..4]) == |payload|
            && b[4..4 + |payload|] == payload && b[4 + |payload|..] == tail
  {
    HeaderRoundTrip(|payload|);
    assert (Wrap(payload) + tail)[..4] == Header(|payload|);
  }

  lemma WrapFirst<F>(decode: Decoder<F>, f: F, payload: seq<u8>, tail: seq<u8>)
    requires 0 < |payload| <= MAX_FRAME_SIZE && decode(payload) == Ok(f)
    ensures ParseAll(decode, Wrap(payload) + tail) == Prepend([f], ParseAll(decode, tail))
  {
    WrapSlices(payload, tail);
    assert HeadOf(decode, Wrap(payload) + tail) == Whole(f, tail);
  }

  lemma PrependTwice<F>(fs: seq<F>, gs: seq<F>, p: Parse<F>)
    ensures Prepend(fs, Prepend(gs, p)) == Prepend(fs + gs, p)
  {
    assert fs + (gs + p.frames) == fs + gs + p.frames;
  }

  lemma ParseStep<F>(decode: Decoder<F>, b: seq<u8>, len: nat)
    requires 4 <= |b| && HeaderLength(b[..4]) == len && 0 < len <= MAX_FRAME_SIZE && 4 + len <= |b|
    ensures match decode(b[4..4 + len])
            case Ok(f) => ParseAll(decode, b) == Prepend([f], ParseAll(decode, b[4 + len..]))
            case Err(e) => ParseAll(decode, b) == Parse([], Stop(e, b[4 + len..]))
  {
  }

  ghost predicate Payloads<F>(decode: Decoder<F>, fs: seq<F>, ps: seq<seq<u8>>) {
    |fs| == |ps| && forall i | 0 <= i < |ps| :: 0 < |ps[i]| <= MAX_FRAME_SIZE && decode(ps[i]) == Ok(fs[i])
  }

  ghost function WrapAll(ps: seq<seq<u8>>): seq<u8> {
    if ps == [] then [] else Wrap(ps[0]) + WrapAll(ps[1..])
  }

  lemma {:induction false} WrapRoundTrip<F>(decode: Decoder<F>, fs: seq<F>, ps: seq<seq<u8>>, tail: seq<u8>)
    requires Payloads(decode, fs, ps)
    ensures ParseAll(decode, WrapAll(ps) + tail) == Prepend(fs, ParseAll(decode, tail))
  {
    if ps == [] {
      assert WrapAll(ps) + tail == tail;
    } else {
      var rest := WrapAll(ps[1..]) + tail;
      calc {
        ParseAll(decode, WrapAll(ps) + tail);
        { assert WrapAll(ps) + tail == Wrap(ps[0]) + rest; }
        ParseAll(decode, Wrap(ps[0]) + rest);
        { WrapFirst(decode, fs[0], ps[0], rest); }
        Prepend([fs[0]], ParseAll(decode, rest));
        { WrapRoundTrip(decode, fs[1..], ps[1..], tail); }
        Prepend([fs[0]], Prepend(fs[1..], ParseAll(decode, tail)));
        { PrependTwice([fs[0]], fs[1..], ParseAll(decode, tail)); assert fs == [fs[0]] + fs[1..]; }
        Prepend(fs, ParseAll(decode, tail));
      }
    }
  }

  ghost predicate Incomplete(tail: seq<u8>) {
    |tail| < 4 || (0 < HeaderLength(tail[..4]) <= MAX_FRAME_SIZE && |tail| < 4 + HeaderLength(tail[..4]))
  }

  lemma IncompleteIsLeftOver<F>(decode: Decoder<F>, tail: seq<u8>)
    ensures Incomplete(tail) <==> ParseAll(decode, tail) == Parse([], More(tail))
  {
  }

  // ---- Chunking ----

  lemma HeadAppend<F>(decode: Decoder<F>, a: seq<u8>, b: seq<u8>)
    ensures match HeadOf(decode, a)
            case Short => true
            case BadHeader(len) => HeadOf(decode, a + b) == BadHeader(len)
            case BadFrame(e, rest) => HeadOf(decode, a + b) == BadFrame(e, rest + b)
            case Whole(f, rest) => HeadOf(decode, a + b) == Whole(f, rest + b)
  {
    if |a| >= 4 {
      assert (a + b)[..4] == a[..4];
      var len := HeaderLength(a[..4]);
      if |a| >= 4 + len {
        assert (a + b)[4..4 + len] == a[4..4 + len];
        assert (a + b)[4 + len..] == a[4 + len..] + b;
      }
    }
  }

  // Bytes that arrive later never change what the bytes already here decode to.
  lemma {:induction false} ParseAppend<F>(decode: Decoder<F>, a: seq<u8>, b: seq<u8>)
    ensures var p := ParseAll(decode, a);
            match p.end
            case More(leftover) => ParseAll(decode, a + b) == Prepend(p.frames, ParseAll(decode, leftover + b))
            case Stop(e, leftover) => ParseAll(decode, a + b) == Parse(p.frames, Stop(e, leftover + b))
    decreases |a|
  {
    HeadAppend(decode, a, b);
    var head := HeadOf(decode, a);
    if head.Whole? {
      var q := ParseAll(decode, head.rest);
      ParseAppend(decode, head.rest, b);
      if q.end.More? {
        PrependTwice([head.frame], q.frames, ParseAll(decode, q.end.leftover + b));
      }
    }
  }

  ghost function Concat(chunks: seq<seq<u8>>): seq<u8> {
    if chunks == [] then [] else chunks[0] + Concat(chunks[1..])
  }

  // Append a chunk, decode, and go on until a call fails.
  ghost function Feed<F>(decode: Decoder<F>, buffer: seq<u8>, chunks: seq<seq<u8>>): Parse<F>
    decreases |chunks|
  {
    if chunks == [] then Parse([], More(buffer))
    else
      var p := ParseAll(decode, buffer + chunks[0]);
      match p.end
      case More(leftover) => Prepend(p.frames, Feed(decode, leftover, chunks[1..]))
      case Stop(_, _) => p
  }

  lemma FeedFirst<F>(decode: Decoder<F>, buffer: seq<u8>, chunks: seq<seq<u8>>, i: nat, frames: seq<F>)
    requires i < |chunks|
    ensures var p := ParseAll(decode, buffer + chunks[i]);
            var fed := Prepend(frames, Feed(decode, buffer, chunks[i..]));
            match p.end
            case More(leftover) => fed == Prepend(frames + p.frames, Feed(decode, leftover, chunks[i + 1..]))
            case Stop(_, _) => fed == Prepend(frames, p)
  {
    var rest := chunks[i..];
    assert rest[0] == chunks[i] && rest[1..] == chunks[i + 1..];
    var p := ParseAll(decode, buffer + chunks[i]);
    if p.end.More? {
      PrependTwice(frames, p.frames, Feed(decode, p.end.leftover, chunks[i + 1..]));
    }
  }

  // The same frames, then the same leftover or the same first error.
  ghost predicate SameOutcome<F>(p: Parse<F>, q: Parse<F>) {
    && p.frames == q.frames
    && match (p.end, q.end)
       case (More(l), More(m)) => l == m
       case (Stop(e, _), Stop(d, _)) => e == d
       case _ => false
  }

  lemma {:induction false} LeftoverIsIncomplete<F>(decode: Decoder<F>, b: seq<u8>)
    requires ParseAll(decode, b).end.More?
    ensures Incomplete(ParseAll(decode, b).end.leftover)
    ensures |ParseAll(decode, b).end.leftover| < 4 + MAX_FRAME_SIZE
    decreases |b|
  {
    var head := HeadOf(decode, b);
    if head.Whole? {
      LeftoverIsIncomplete(decode, head.rest);
    }
  }

  // However a byte stream is cut into chunks, feeding them one at a time gives what one call on the
  // whole stream gives.
  lemma {:induction false} ChunkingInvariant<F>(decode: Decoder<F>, buffer: seq<u8>, chunks: seq<seq<u8>>)
    requires Incomplete(buffer)
    ensures SameOutcome(Feed(decode, buffer, chunks), ParseAll(decode, buffer + Concat(chunks)))
    decreases |chunks|
  {
    if chunks == [] {
      IncompleteIsLeftOver(decode, buffer);
      assert buffer + Concat(chunks) == buffer;
    } else {
      var here, later := buffer + chunks[0], Concat(chunks[1..]);
      assert buffer + Concat(chunks) == here + later;
      ParseAppend(decode, here, later);
      if ParseAll(decode, here).end.More? {
        LeftoverIsIncomplete(decode, here);
        ChunkingInvariant(decode, ParseAll(decode, here).end.leftover, chunks[1..]);
      }
    }
  }

  // ---- Reading one frame from a stream ----

  datatype ReadError = UnexpectedEof | BadLength(length: nat) | BadPayload

  ghost function ReadFrame<F>(decode: Decoder<F>, b: seq<u8>): (Result<F, ReadError>, seq<u8>) {
    if |b| < 4 then (Err(UnexpectedEof), [])
    else
      var len := HeaderLength(b[..4]);
      if len == 0 || len > MAX_FRAME_SIZE then (Err(BadLength(len)), b[4..])
      else if |b| < 4 + len then (Err(UnexpectedEof), [])
      else
        match decode(b[4..4 + len])
        case Err(_) => (Err(BadPayload), b[4 + len..])
        case Ok(f) => (Ok(f), b[4 + len..])
  }

  // A strict prefix of a frame is not enough for the stream reader, whatever follows the frame.
  lemma ReadShort<F>(decode: Decoder<F>, payload: seq<u8>, tail: seq<u8>, arrived: seq<u8>)
    requires 0 < |payload| <= MAX_FRAME_SIZE
    requires arrived <= Wrap(payload) + tail && |arrived| < |Wrap(payload)|
    ensures ReadFrame(decode, arrived).0 == Err(UnexpectedEof)
  {
    WrapSlices(payload, tail);
    if |arrived| >= 4 {
      assert arrived[..4] == (Wrap(payload) + tail)[..4];
    }
  }

  // On every byte string the stream reader and the buffer decoder see the same first frame, the same
  // lack of one, or both reject.
  lemma ReadersAgree<F>(decode: Decoder<F>, b: seq<u8>)
    ensures var (r, rest) := ReadFrame(decode, b);
            match r
            case Ok(f) => |rest| < |b| && ParseAll(decode, b) == Prepend([f], ParseAll(decode, rest))
            case Err(UnexpectedEof) => ParseAll(decode, b) == Parse([], More(b))
            case Err(BadLength(n)) =>
              ParseAll(decode, b) == Parse([], Stop(if n == 0 then InvalidLength else FrameTooLarge, b))
            case Err(BadPayload) => ParseAll(decode, b).frames == [] && ParseAll(decode, b).end.Stop?
  {
  }

  // Reading frame by frame until the stream gives no more.
  ghost function ReadAll<F>(decode: Decoder<F>, b: seq<u8>): seq<F>
    decreases |b|
  {
    var (r, rest) := ReadFrame(decode, b);
    if r.Ok? && |rest| < |b| then [r.value] + ReadAll(decode, rest) else []
  }

  lemma {:induction false} ReadAllIsParseAll<F>(decode: Decoder<F>, b: seq<u8>)
    ensures ReadAll(decode, b) == ParseAll(decode, b).frames
    decreases |b|
  {
    ReadersAgree(decode, b);
    var (r, rest) := ReadFrame(decode, b);
    if r.Ok? {
      ReadAllIsParseAll(decode, rest);
    }
  }
}
