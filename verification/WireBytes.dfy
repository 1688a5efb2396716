// The bytes themselves, field by field, for short values: which tag, which order, which number format.
module WireBytes {
  import opened Basics
  import opened Types
  import Ordered
  import Utf8
  import opened Postcard
  import opened FrameCodec
  import opened Framing
  import opened ControlStream

  type Ascii = c: char | c as int < 0x80 witness 'a'

  // A one-letter string, a small number and an id below 256.
  lemma Letter(c: Ascii, rest: seq<u8>)
    ensures PutString([c], rest) == [1, c as int] + rest
  {
    assert Utf8.Encode([c]) == [c as int];
  }

  // One character of each length.
  lemma Utf8Bytes()
    ensures Utf8.EncodeChar('A') == [0x41] && Utf8.EncodeChar(0xE9 as char) == [0xC3, 0xA9]
    ensures Utf8.EncodeChar(0x20AC as char) == [0xE2, 0x82, 0xAC] && Utf8.EncodeChar(0x1_F600 as char) == [0xF0, 0x9F, 0x98, 0x80]
  {
  }

  function Id(n: u8): (bs: seq<u8>)
    ensures |bs| == 17
  {
    [16, 0, 0, 0, 0, 0, 0, 0, 0, 0, 0, 0, 0, 0, 0, 0, n]
  }

  lemma {:induction false} ZeroBytes(width: nat)
    ensures BigEndian(0, width) == seq(width, i => 0)
  {
    if width > 0 { ZeroBytes(width - 1); }
  }

  lemma SmallId(n: u8, width: nat, rest: seq<u8>)
    requires width == 16
    ensures PutUuid(n, rest) == Id(n) + rest
  {
    ZeroBytes(width - 1);
    assert BigEndian(n, width) == BigEndian(0, width - 1) + [n];
    assert BigEndian(n, width) == [0, 0, 0, 0, 0, 0, 0, 0, 0, 0, 0, 0, 0, 0, 0, n];
  }

  // Varints: seven bits a byte, the low ones first, the high bit set on all but the last.
  lemma TwoByteVarint(low: nat, high: nat, rest: seq<u8>)
    requires low < 0x80 && 0 < high < 0x80
    ensures PutVarint(low + 0x80 * high, rest) == [0x80 + low, high] + rest
  {
    assert (low + 0x80 * high) / 0x80 == high && (low + 0x80 * high) % 0x80 == low;
    assert PutVarint(high, rest) == [high] + rest;
  }

  // Signed numbers alternate: 0, -1, 1, -2, 2 are 0, 1, 2, 3, 4.
  lemma Alternating(n: int)
    requires 0 <= n < 0x8000_0000_0000_0000
    ensures ZigZag(n) == n + n && ZigZag(-n - 1) == n + n + 1
  {
  }

  lemma SignedBytes(n: int, rest: seq<u8>)
    requires 0 <= n < 0x40
    ensures PutI64(n, rest) == [n + n] + rest && PutI64(-n - 1, rest) == [n + n + 1] + rest
  {
    Alternating(n);
  }

  lemma NoMetadata(rest: seq<u8>)
    ensures PutMetadata(map[], rest) == [0] + rest
  {
    var none: Metadata := map[];
    assert Ordered.Sorted(none.Keys) == [];
  }

  // One entry: the count, then key and value.
  lemma OneEntry(k: Ascii, v: Ascii, rest: seq<u8>)
    ensures PutMetadata(map[[k] := [v]], rest) == [1, 1, k as int, 1, v as int] + rest
  {
    var m: Metadata := map[[k] := [v]];
    var keys := Ordered.Sorted(m.Keys);
    assert |m.Keys| == 1 && keys == [[k]] by {
      assert m.Keys == {[k]};
      assert keys[0] in keys;
    }
    Letter(v, rest);
    Letter(k, PutString([v], rest));
    assert PutEntries(keys[1..], m, rest) == rest;
    assert PutEntries(keys, m, rest) == PutString([k], PutString([v], rest));
    assert [1] + ([1, k as int] + ([1, v as int] + rest)) == [1, 1, k as int, 1, v as int] + rest;
  }

  // ---- Frames ----

  // A frame is its tag and its body.
  lemma Tagged(f: Frame)
    ensures PutFrame(f, []) == [FrameTag(f)] + PutBody(f, [])
  {
  }

  lemma Tags(f: Frame)
    ensures f.Hello? <==> FrameTag(f) == 0
    ensures f.Auth? <==> FrameTag(f) == 1
    ensures f.AuthAccepted? <==> FrameTag(f) == 2
    ensures f.AuthRejected? <==> FrameTag(f) == 3
    ensures f.RegisterNode? <==> FrameTag(f) == 4
    ensures f.RegisterService? <==> FrameTag(f) == 5
    ensures f.RegisterServiceAccepted? <==> FrameTag(f) == 6
    ensures f.UnregisterService? <==> FrameTag(f) == 7
    ensures f.ServiceList? <==> FrameTag(f) == 8
    ensures f.Heartbeat? <==> FrameTag(f) == 9
    ensures f.HeartbeatAck? <==> FrameTag(f) == 10
    ensures f.OpenStream? <==> FrameTag(f) == 11
    ensures f.OpenStreamAck? <==> FrameTag(f) == 12
    ensures f.StreamData? <==> FrameTag(f) == 13
    ensures f.CloseStream? <==> FrameTag(f) == 14
    ensures f.Error? <==> FrameTag(f) == 15
    ensures f.Goodbye? <==> FrameTag(f) == 16
  {
  }

  lemma HandshakeBytes(token: Ascii, id: u8)
    ensures PutBody(Hello(1), []) == [1]
    ensures PutBody(Auth([token], id), []) == [1, token as int] + (Id(id) + [])
    ensures PutBody(AuthAccepted(Admin), []) == [0] && PutBody(AuthAccepted(User), []) == [1]
    ensures PutBody(AuthRejected, []) == [] && PutBody(Goodbye, []) == []
    ensures PutBody(Error([token]), []) == [1, token as int]
  {
    SmallId(id, 16, []);
    Letter(token, PutUuid(id, []));
    Letter(token, []);
  }

  // Host name, operating system, architecture, client version, metadata.
  lemma NodeBytes(h: Ascii, o: Ascii, a: Ascii, v: Ascii, rest: seq<u8>)
    ensures PutNodeMetadata(NodeMetadata([h], [o], [a], [v], map[]), rest)
            == [1, h as int] + ([1, o as int] + ([1, a as int] + ([1, v as int] + ([0] + rest))))
  {
    NoMetadata(rest);
    Letter(v, [0] + rest);
    Letter(a, [1, v as int] + ([0] + rest));
    Letter(o, [1, a as int] + ([1, v as int] + ([0] + rest)));
    Letter(h, [1, o as int] + ([1, a as int] + ([1, v as int] + ([0] + rest))));
  }

  // The public key follows as it is.
  lemma RegisterNodeBytes(metadata: NodeMetadata, key: Key32)
    ensures PutBody(RegisterNode(metadata, key), []) == PutNodeMetadata(metadata, key)
  {
    assert key + [] == key;
  }

  lemma ExposureBytes(host: Ascii, port: u8, rest: seq<u8>)
    requires port < 0x80
    ensures PutExposure(Some([host]), Some(port), rest) == [1, 1, host as int, 1, port] + rest
    ensures PutExposure(None, None, rest) == [0, 0] + rest
  {
    var p := PutOption(Some(port as u16), PutU16, rest);
    assert p == [1, port] + rest;
    Letter(host, p);
    assert [1] + ([1, host as int] + p) == [1, 1, host as int, 1, port] + rest;
  }

  // Id, name, node, protocol, local address, public host, public port, metadata.
  lemma ServiceBytes(id: u8, name: Ascii, node: u8, address: Ascii, host: Ascii, port: u8, rest: seq<u8>)
    requires port < 0x80
    ensures PutService(ServiceDefinition(id, [name], node, Tcp, [address], Some([host]), Some(port), map[]), rest)
            == Id(id) + ([1, name as int] + (Id(node) + ([2] + ([1, address as int] + ([1, 1, host as int, 1, port] + ([0] + rest))))))
  {
    var m := PutMetadata(map[], rest);
    NoMetadata(rest);
    var x := PutExposure(Some([host]), Some(port), m);
    ExposureBytes(host, port, m);
    var y := PutString([address], x);
    Letter(address, x);
    var z := PutProtocol(Tcp, y);
    ProtocolBytes(y);
    var u := PutUuid(node, z);
    SmallId(node, 16, z);
    var v := PutString([name], u);
    Letter(name, u);
    SmallId(id, 16, v);
  }

  lemma ProtocolBytes(rest: seq<u8>)
    ensures PutProtocol(Http, rest) == [0] + rest && PutProtocol(Https, rest) == [1] + rest && PutProtocol(Tcp, rest) == [2] + rest
  {
  }

  lemma ServiceFrameBytes(service: ServiceDefinition, id: u8)
    ensures PutBody(RegisterService(service), []) == PutBody(RegisterServiceAccepted(service), []) == PutService(service, [])
    ensures PutBody(UnregisterService(id), []) == Id(id) + []
  {
    SmallId(id, 16, []);
  }

  // The count, then the services.
  lemma ServiceListBytes(service: ServiceDefinition, one: seq<ServiceDefinition>)
    requires one == [service]
    ensures PutBody(ServiceList(one), []) == [1] + PutService(service, [])
  {
    assert one[1..] == [];
    assert PutServices(one, []) == PutService(service, PutServices(one[1..], []));
  }

  function Absent<T>(): Option<T> { None }

  // A reading is four bytes, the low one first.
  lemma ReadingBytes(b: u8, rest: seq<u8>)
    ensures PutOption(Some(b as u32), PutF32, rest) == [1, b, 0, 0, 0] + rest
    ensures PutOption(Some((0x100 * b) as u32), PutF32, rest) == [1, 0, b, 0, 0] + rest
    ensures PutOption(Some((0x1_0000 * b) as u32), PutF32, rest) == [1, 0, 0, b, 0] + rest
    ensures PutOption(Some((0x100_0000 * b) as u32), PutF32, rest) == [1, 0, 0, 0, b] + rest
    ensures PutOption(Absent<u32>(), PutF32, rest) == [0] + rest
  {
    LittleEndian(b, rest);
  }

  lemma LittleEndian(b: u8, rest: seq<u8>)
    ensures PutF32(b, rest) == [b, 0, 0, 0] + rest && PutF32(0x100 * b, rest) == [0, b, 0, 0] + rest
    ensures PutF32(0x1_0000 * b, rest) == [0, 0, b, 0] + rest && PutF32(0x100_0000 * b, rest) == [0, 0, 0, b] + rest
  {
  }

  lemma CounterBytes(n: u8, rest: seq<u8>)
    requires n < 0x80
    ensures PutOption(Some(n as u64), PutU64, rest) == [1, n] + rest && PutOption(Absent<u64>(), PutU64, rest) == [0] + rest
  {
  }

  // The readings in order: processor, memory, load, received, sent.
  lemma ReadingsBytes(s: HeartbeatSnapshot, cpu: u8, memory: u8, load: u8, rx: u8, tx: u8, rest: seq<u8>)
    requires s.cpuPercent == Some(cpu) && s.memoryPercent == Some(memory) && s.loadAverage == Some(load)
    requires s.networkRx == Some(rx) && s.networkTx == Some(tx) && rx < 0x80 && tx < 0x80
    ensures PutReadings(s, rest)
            == [1, cpu, 0, 0, 0] + ([1, memory, 0, 0, 0] + ([1, load, 0, 0, 0] + ([1, rx] + ([1, tx] + rest))))
  {
    CounterBytes(tx, rest);
    CounterBytes(rx, [1, tx] + rest);
    var r3 := [1, rx] + ([1, tx] + rest);
    ReadingBytes(load, r3);
    ReadingBytes(memory, [1, load, 0, 0, 0] + r3);
    ReadingBytes(cpu, [1, memory, 0, 0, 0] + ([1, load, 0, 0, 0] + r3));
  }

  // Sequence, time sent, readings.
  lemma HeartbeatBytes(s: HeartbeatSnapshot, sequence: u8, sentAt: u8)
    requires sequence < 0x80 && sentAt < 0x40 && s.sequence == sequence && s.sentAt == sentAt
    ensures PutBody(Heartbeat(s), []) == [sequence] + ([sentAt + sentAt] + PutReadings(s, []))
    ensures PutBody(HeartbeatAck(sequence, sentAt), []) == [sequence] + ([sentAt + sentAt] + [])
  {
    SignedBytes(sentAt, PutReadings(s, []));
    SignedBytes(sentAt, []);
  }

  // The tunnel's id, then the service's.
  lemma OpenStreamBytes(tunnel: u8, service: u8)
    ensures PutBody(OpenStream(tunnel, service), []) == Id(tunnel) + (Id(service) + [])
  {
    SmallId(service, 16, []);
    SmallId(tunnel, 16, Id(service) + []);
  }

  lemma StreamBytes(tunnel: u8, data: u8)
    ensures PutBody(OpenStreamAck(tunnel), []) == PutBody(CloseStream(tunnel), []) == Id(tunnel) + []
    ensures PutBody(StreamData(tunnel, [data]), []) == Id(tunnel) + ([1] + ([data] + []))
  {
    SmallId(tunnel, 16, []);
    SmallId(tunnel, 16, PutBytes([data], []));
  }

  lemma ByteStep(x: nat, d: u8, n: nat)
    requires n == 0x100 * x + d
    ensures n / 0x100 == x && n % 0x100 == d
  {
  }

  // The length in front: four bytes, the high one first.
  lemma HeaderBytes(a: u8, b: u8, c: u8, d: u8)
    ensures Header(0x100 * (0x100 * (0x100 * a + b) + c) + d) == [a, b, c, d]
  {
    var x := 0x100 * a + b;
    var y := 0x100 * x + c;
    var n := 0x100 * y + d;
    ByteStep(y, d, n);
    ByteStep(x, c, y);
    ByteStep(a, b, x);
    HighBytes(n);
  }

  lemma HighBytes(n: nat)
    requires n < 0x1_0000_0000
    ensures Header(n) == [n / 0x100 / 0x100 / 0x100, n / 0x100 / 0x100 % 0x100, n / 0x100 % 0x100, n % 0x100]
  {
  }

  // ---- What is not a frame ----

  // Unknown tags, at the head of a frame or of a choice inside it, are refused.
  lemma UnknownTags(tag: u8, rest: seq<u8>)
    requires tag < 0x80
    ensures tag > 16 ==> GetFrame([tag] + rest) == Bad
    ensures tag > 2 ==> GetProtocol([tag] + rest) == Bad
    ensures tag > 1 ==> GetTokenKind([tag] + rest) == Bad && GetOption([tag] + rest, GetU64) == Bad
  {
    assert ([tag] + rest)[1..] == rest;
  }

  // So are values that end early, numbers of more bits than their type has, and ids of another length.
  lemma Truncated(n: nat, short: seq<u8>, rest: seq<u8>)
    requires |short| < n < 0x80
    ensures GetBytes([n] + short) == Bad && GetFrame([]) == Bad
    ensures n != 16 ==> GetUuid([n] + rest) == Bad
    ensures GetU16([0xFF, 0xFF, 0x04] + rest) == Bad
  {
    assert ([n] + short)[1..] == short && ([n] + rest)[1..] == rest;
    var b := [0xFF, 0xFF, 0x04] + rest;
    assert b[1..][1..][0] == 0x04;
    assert GetVarint(b[1..][1..], 1, 0x03) == Bad;
    assert GetVarint(b[1..], 2, 0x03) == Bad;
  }

  // A frame of exactly one mebibyte is the longest that is read.
  lemma LongestFrame(decode: Decoder<Frame>, b: seq<u8>)
    requires |b| >= 4
    ensures var n := HeaderLength(b[..4]);
            && (HeadOf(decode, b) == BadHeader(n) <==> n == 0 || n > 1_048_576)
            && (ReadFrame(decode, b).0 == Err(BadLength(n)) <==> n == 0 || n > 1_048_576)
  {
  }

  // What stops decoding, and where: an unacceptable length is left in place, a bad payload is consumed.
  lemma WhatStops(b: seq<u8>)
    requires |b| >= 4
    ensures var n := HeaderLength(b[..4]);
            && (n == 0 ==> Decoded(b) == Parse([], Stop(InvalidLength, b)))
            && (n > 1_048_576 ==> Decoded(b) == Parse([], Stop(FrameTooLarge, b)))
            && (0 < n <= 1_048_576 && |b| >= 4 + n && GetFrame(b[4..4 + n]) == Bad ==> Decoded(b) == Parse([], Stop(Malformed, b[4 + n..])))
  {
  }
}
