// The derived Postcard encoding of `Frame` and of every record inside it, field by field.
module FrameCodec {
  import opened Basics
  import opened Types
  import opened Postcard
  import Ordered

  // ---- Enums ----

  // The variant index of a unit-only enum.
  function GetTag(bs: seq<u8>, variants: nat): (r: Read<nat>)
    ensures r.Got? ==> r.value < variants
  {
    var (tag, rest) :- GetU32(bs);
    if tag < variants then Got(tag, rest) else Bad
  }

  lemma TagRoundTrip(tag: nat, variants: nat, rest: seq<u8>)
    requires tag < variants < 0x80
    ensures GetTag(PutVarint(tag, rest), variants) == Got(tag, rest)
  {
    U32RoundTrip(tag, rest);
  }

  function PutTokenKind(k: TokenKind, rest: seq<u8>): (r: seq<u8>)
    ensures |rest| < |r|
  {
    PutVarint(if k.Admin? then 0 else 1, rest)
  }

  function GetTokenKind(bs: seq<u8>): Read<TokenKind> {
    var (tag, rest) :- GetTag(bs, 2);
    Got(if tag == 0 then Admin else User, rest)
  }

  function PutProtocol(p: Protocol, rest: seq<u8>): (r: seq<u8>)
    ensures |rest| < |r|
  {
    PutVarint(match p case Http => 0 case Https => 1 case Tcp => 2, rest)
  }

  function GetProtocol(bs: seq<u8>): Read<Protocol> {
    var (tag, rest) :- GetTag(bs, 3);
    Got(if tag == 0 then Http else if tag == 1 then Https else Tcp, rest)
  }

  // ---- Metadata: a map in key order; a repeated key keeps its last value ----

  function PutEntries(keys: seq<string>, m: Metadata, rest: seq<u8>): (r: seq<u8>)
    requires forall k | k in keys :: k in m
    ensures |keys| + |rest| <= |r|
  {
    if keys == [] then rest
    else PutString(keys[0], PutString(m[keys[0]], PutEntries(keys[1..], m, rest)))
  }

  function GetEntries(bs: seq<u8>, n: nat, acc: Metadata): Read<Metadata>
    decreases n
  {
    if n == 0 then Got(acc, bs)
    else
      var (k, b1) :- GetString(bs);
      var (v, b2) :- GetString(b1);
      GetEntries(b2, n - 1, acc[k := v])
  }

  lemma {:induction false} EntriesRoundTrip(keys: seq<string>, m: Metadata, acc: Metadata, rest: seq<u8>)
    requires forall k | k in keys :: k in m
    requires forall k | k in acc :: k in m && acc[k] == m[k]
    requires forall k | k in m :: k in acc || k in keys
    requires |PutEntries(keys, m, rest)| < MAX_USIZE
    ensures GetEntries(PutEntries(keys, m, rest), |keys|, acc) == Got(m, rest)
  {
    if keys == [] {
      assert acc == m;
    } else {
      var k := keys[0];
      var tail := PutEntries(keys[1..], m, rest);
      StringRoundTrip(k, PutString(m[k], tail));
      StringRoundTrip(m[k], tail);
      assert forall j | j in m :: j in acc[k := m[k]] || j in keys[1..];
      EntriesRoundTrip(keys[1..], m, acc[k := m[k]], rest);
    }
  }

  function PutMetadata(m: Metadata, rest: seq<u8>): (r: seq<u8>)
    ensures |m| + |rest| < |r|
  {
    PutVarint(|m|, PutEntries(Ordered.Sorted(m.Keys), m, rest))
  }

  function GetMetadata(bs: seq<u8>): Read<Metadata> {
    var (n, rest) :- GetU64(bs);
    GetEntries(rest, n, map[])
  }

  lemma MetadataRoundTrip(m: Metadata, rest: seq<u8>)
    requires |PutMetadata(m, rest)| < MAX_USIZE
    ensures GetMetadata(PutMetadata(m, rest)) == Got(m, rest)
  {
    var keys := Ordered.Sorted(m.Keys);
    U64RoundTrip(|m|, PutEntries(keys, m, rest));
    EntriesRoundTrip(keys, m, map[], rest);
  }

  // ---- Records ----

  function PutNodeMetadata(m: NodeMetadata, rest: seq<u8>): (r: seq<u8>)
    ensures |rest| < |r|
  {
    PutString(m.hostname, PutString(m.os, PutString(m.arch,
      PutString(m.clientVersion, PutMetadata(m.metadata, rest)))))
  }

  function GetNodeMetadata(bs: seq<u8>): Read<NodeMetadata> {
    var (hostname, b1) :- GetString(bs);
    var (os, b2) :- GetString(b1);
    var (arch, b3) :- GetString(b2);
    var (clientVersion, b4) :- GetString(b3);
    var (metadata, b5) :- GetMetadata(b4);
    Got(NodeMetadata(hostname, os, arch, clientVersion, metadata), b5)
  }

  lemma NodeMetadataRoundTrip(m: NodeMetadata, rest: seq<u8>)
    requires |PutNodeMetadata(m, rest)| < MAX_USIZE
    ensures GetNodeMetadata(PutNodeMetadata(m, rest)) == Got(m, rest)
  {
    var b4 := PutMetadata(m.metadata, rest);
    var b3 := PutString(m.clientVersion, b4);
    var b2 := PutString(m.arch, b3);
    var b1 := PutString(m.os, b2);
    StringRoundTrip(m.hostname, b1);
    StringRoundTrip(m.os, b2);
    StringRoundTrip(m.arch, b3);
    StringRoundTrip(m.clientVersion, b4);
    MetadataRoundTrip(m.metadata, rest);
  }

  // The exposure: where a service is reached.
  function PutExposure(host: Option<string>, port: Option<u16>, rest: seq<u8>): seq<u8> {
    PutOption(host, PutString, PutOption(port, PutU16, rest))
  }

  function PutService(s: ServiceDefinition, rest: seq<u8>): (r: seq<u8>)
    ensures |rest| < |r|
  {
    PutUuid(s.serviceId, PutString(s.serviceName, PutUuid(s.nodeId, PutProtocol(s.protocol,
      PutString(s.localAddress, PutExposure(s.publicHost, s.publicPort, PutMetadata(s.metadata, rest)))))))
  }

  function GetService(bs: seq<u8>): Read<ServiceDefinition> {
    var (serviceId, b1) :- GetUuid(bs);
    var (serviceName, b2) :- GetString(b1);
    var (nodeId, b3) :- GetUuid(b2);
    var (protocol, b4) :- GetProtocol(b3);
    var (localAddress, b5) :- GetString(b4);
    var (publicHost, b6) :- GetOption(b5, GetString);
    var (publicPort, b7) :- GetOption(b6, GetU16);
    var (metadata, b8) :- GetMetadata(b7);
    Got(ServiceDefinition(serviceId, serviceName, nodeId, protocol, localAddress, publicHost, publicPort, metadata), b8)
  }

  lemma ExposureRoundTrip(host: Option<string>, port: Option<u16>, rest: seq<u8>)
    requires |PutExposure(host, port, rest)| < MAX_USIZE
    ensures var b := PutOption(port, PutU16, rest);
            && GetOption(PutExposure(host, port, rest), GetString) == Got(host, b)
            && GetOption(b, GetU16) == Got(port, rest)
  {
    var b := PutOption(port, PutU16, rest);
    if host.Some? { StringRoundTrip(host.value, b); }
    if port.Some? { U16RoundTrip(port.value, rest); }
    OptionRoundTrip(host, PutString, GetString, b);
    OptionRoundTrip(port, PutU16, GetU16, rest);
  }

  lemma ServiceRoundTrip(s: ServiceDefinition, rest: seq<u8>)
    requires |PutService(s, rest)| < MAX_USIZE
    ensures GetService(PutService(s, rest)) == Got(s, rest)
  {
    var b7 := PutMetadata(s.metadata, rest);
    var b5 := PutExposure(s.publicHost, s.publicPort, b7);
    var b4 := PutString(s.localAddress, b5);
    var b3 := PutProtocol(s.protocol, b4);
    var b2 := PutUuid(s.nodeId, b3);
    UuidRoundTrip(s.serviceId, PutString(s.serviceName, b2));
    StringRoundTrip(s.serviceName, b2);
    UuidRoundTrip(s.nodeId, b3);
    TagRoundTrip(match s.protocol case Http => 0 case Https => 1 case Tcp => 2, 3, b4);
    StringRoundTrip(s.localAddress, b5);
    ExposureRoundTrip(s.publicHost, s.publicPort, b7);
    MetadataRoundTrip(s.metadata, rest);
  }

  function PutServices(ss: seq<ServiceDefinition>, rest: seq<u8>): (r: seq<u8>)
    ensures |ss| + |rest| <= |r|
  {
    if ss == [] then rest else PutService(ss[0], PutServices(ss[1..], rest))
  }

  function GetServices(bs: seq<u8>, n: nat): Read<seq<ServiceDefinition>>
    decreases n
  {
    if n == 0 then Got([], bs)
    else
      var (s, b1) :- GetService(bs);
      var (ss, b2) :- GetServices(b1, n - 1);
      Got([s] + ss, b2)
  }

  lemma {:induction false} ServicesRoundTrip(ss: seq<ServiceDefinition>, rest: seq<u8>)
    requires |PutServices(ss, rest)| < MAX_USIZE
    ensures GetServices(PutServices(ss, rest), |ss|) == Got(ss, rest)
  {
    if ss != [] {
      ServiceRoundTrip(ss[0], PutServices(ss[1..], rest));
      ServicesRoundTrip(ss[1..], rest);
      assert ss == [ss[0]] + ss[1..];
    }
  }

  function PutServiceList(ss: seq<ServiceDefinition>, rest: seq<u8>): (r: seq<u8>)
    ensures |rest| < |r|
  {
    PutVarint(|ss|, PutServices(ss, rest))
  }

  function GetServiceList(bs: seq<u8>): Read<seq<ServiceDefinition>> {
    var (n, b1) :- GetU64(bs);
    GetServices(b1, n)
  }

  lemma ServiceListRoundTrip(ss: seq<ServiceDefinition>, rest: seq<u8>)
    requires |PutServiceList(ss, rest)| < MAX_USIZE
    ensures GetServiceList(PutServiceList(ss, rest)) == Got(ss, rest)
  {
    U64RoundTrip(|ss|, PutServices(ss, rest));
    ServicesRoundTrip(ss, rest);
  }

  function PutReadings(s: HeartbeatSnapshot, rest: seq<u8>): seq<u8> {
    PutOption(s.cpuPercent, PutF32, PutOption(s.memoryPercent, PutF32, PutOption(s.loadAverage, PutF32,
      PutOption(s.networkRx, PutU64, PutOption(s.networkTx, PutU64, rest)))))
  }

  function PutSnapshot(s: HeartbeatSnapshot, rest: seq<u8>): (r: seq<u8>) {
    PutU64(s.sequence, PutI64(s.sentAt, PutReadings(s, rest)))
  }

  function GetSnapshot(bs: seq<u8>): Read<HeartbeatSnapshot> {
    var (sequence, b1) :- GetU64(bs);
    var (sentAt, b2) :- GetI64(b1);
    var (cpu, b3) :- GetOption(b2, GetF32);
    var (memory, b4) :- GetOption(b3, GetF32);
    var (load, b5) :- GetOption(b4, GetF32);
    var (rx, b6) :- GetOption(b5, GetU64);
    var (tx, b7) :- GetOption(b6, GetU64);
    Got(HeartbeatSnapshot(sequence, sentAt, cpu, memory, load, rx, tx), b7)
  }

  lemma OptionF32RoundTrip(o: Option<u32>, rest: seq<u8>)
    ensures GetOption(PutOption(o, PutF32, rest), GetF32) == Got(o, rest)
  {
    if o.Some? { F32RoundTrip(o.value, rest); }
    OptionRoundTrip(o, PutF32, GetF32, rest);
  }

  lemma OptionU64RoundTrip(o: Option<u64>, rest: seq<u8>)
    ensures GetOption(PutOption(o, PutU64, rest), GetU64) == Got(o, rest)
  {
    if o.Some? { U64RoundTrip(o.value, rest); }
    OptionRoundTrip(o, PutU64, GetU64, rest);
  }

  lemma SnapshotRoundTrip(s: HeartbeatSnapshot, rest: seq<u8>)
    ensures GetSnapshot(PutSnapshot(s, rest)) == Got(s, rest)
  {
    var b6 := PutOption(s.networkTx, PutU64, rest);
    var b5 := PutOption(s.networkRx, PutU64, b6);
    var b4 := PutOption(s.loadAverage, PutF32, b5);
    var b3 := PutOption(s.memoryPercent, PutF32, b4);
    U64RoundTrip(s.sequence, PutI64(s.sentAt, PutReadings(s, rest)));
    I64RoundTrip(s.sentAt, PutReadings(s, rest));
    OptionF32RoundTrip(s.cpuPercent, b3);
    OptionF32RoundTrip(s.memoryPercent, b4);
    OptionF32RoundTrip(s.loadAverage, b5);
    OptionU64RoundTrip(s.networkRx, b6);
    OptionU64RoundTrip(s.networkTx, rest);
  }

  // ---- Frames ----

  function FrameTag(f: Frame): (tag: nat)
    ensures tag < 17
  {
    match f
    case Hello(_) => 0
    case Auth(_, _) => 1
    case AuthAccepted(_) => 2
    case AuthRejected => 3
    case RegisterNode(_, _) => 4
    case RegisterService(_) => 5
    case RegisterServiceAccepted(_) => 6
    case UnregisterService(_) => 7
    case ServiceList(_) => 8
    case Heartbeat(_) => 9
    case HeartbeatAck(_, _) => 10
    case OpenStream(_, _) => 11
    case OpenStreamAck(_) => 12
    case StreamData(_, _) => 13
    case CloseStream(_) => 14
    case Error(_) => 15
    case Goodbye => 16
  }

  function PutBody(f: Frame, rest: seq<u8>): seq<u8> {
    match f
    case Hello(version) => PutU16(version, rest)
    case Auth(token, nodeId) => PutString(token, PutUuid(nodeId, rest))
    case AuthAccepted(kind) => PutTokenKind(kind, rest)
    case AuthRejected => rest
    case RegisterNode(metadata, publicKey) => PutNodeMetadata(metadata, publicKey + rest)
    case RegisterService(service) => PutService(service, rest)
    case RegisterServiceAccepted(service) => PutService(service, rest)
    case UnregisterService(serviceId) => PutUuid(serviceId, rest)
    case ServiceList(services) => PutServiceList(services, rest)
    case Heartbeat(snapshot) => PutSnapshot(snapshot, rest)
    case HeartbeatAck(sequence, serverTime) => PutU64(sequence, PutI64(serverTime, rest))
    case OpenStream(tunnelId, serviceId) => PutUuid(tunnelId, PutUuid(serviceId, rest))
    case OpenStreamAck(tunnelId) => PutUuid(tunnelId, rest)
    case StreamData(tunnelId, data) => PutUuid(tunnelId, PutBytes(data, rest))
    case CloseStream(tunnelId) => PutUuid(tunnelId, rest)
    case Error(message) => PutString(message, rest)
    case Goodbye => rest
  }

  function PutFrame(f: Frame, rest: seq<u8>): (r: seq<u8>)
    ensures |PutBody(f, rest)| < |r|
  {
    PutVarint(FrameTag(f), PutBody(f, rest))
  }

  function GetBody(tag: nat, bs: seq<u8>): Read<Frame> {
    match tag
    case 0 => var (version, b) :- GetU16(bs); Got(Hello(version), b)
    case 1 =>
      var (token, b1) :- GetString(bs);
      var (nodeId, b2) :- GetUuid(b1);
      Got(Auth(token, nodeId), b2)
    case 2 => var (kind, b) :- GetTokenKind(bs); Got(AuthAccepted(kind), b)
    case 3 => Got(AuthRejected, bs)
    case 4 =>
      var (metadata, b1) :- GetNodeMetadata(bs);
      var (publicKey, b2) :- GetRaw(b1, 32);
      Got(RegisterNode(metadata, publicKey), b2)
    case 5 => var (service, b) :- GetService(bs); Got(RegisterService(service), b)
    case 6 => var (service, b) :- GetService(bs); Got(RegisterServiceAccepted(service), b)
    case 7 => var (serviceId, b) :- GetUuid(bs); Got(UnregisterService(serviceId), b)
    case 8 => var (services, b) :- GetServiceList(bs); Got(ServiceList(services), b)
    case 9 => var (snapshot, b) :- GetSnapshot(bs); Got(Heartbeat(snapshot), b)
    case 10 =>
      var (sequence, b1) :- GetU64(bs);
      var (serverTime, b2) :- GetI64(b1);
      Got(HeartbeatAck(sequence, serverTime), b2)
    case 11 =>
      var (tunnelId, b1) :- GetUuid(bs);
      var (serviceId, b2) :- GetUuid(b1);
      Got(OpenStream(tunnelId, serviceId), b2)
    case 12 => var (tunnelId, b) :- GetUuid(bs); Got(OpenStreamAck(tunnelId), b)
    case 13 =>
      var (tunnelId, b1) :- GetUuid(bs);
      var (data, b2) :- GetBytes(b1);
      Got(StreamData(tunnelId, data), b2)
    case 14 => var (tunnelId, b) :- GetUuid(bs); Got(CloseStream(tunnelId), b)
    case 15 => var (message, b) :- GetString(bs); Got(Error(message), b)
    case 16 => Got(Goodbye, bs)
    case _ => Bad
  }

  function GetFrame(bs: seq<u8>): Read<Frame> {
    var (tag, rest) :- GetU32(bs);
    GetBody(tag, rest)
  }

  // One lemma a variant; unit variants need none.

  lemma HelloBody(version: u16, rest: seq<u8>)
    ensures GetBody(0, PutU16(version, rest)) == Got(Hello(version), rest)
  {
    U16RoundTrip(version, rest);
  }

  lemma AuthBody(token: string, nodeId: Uuid, rest: seq<u8>)
    requires |PutString(token, PutUuid(nodeId, rest))| < MAX_USIZE
    ensures GetBody(1, PutString(token, PutUuid(nodeId, rest))) == Got(Auth(token, nodeId), rest)
  {
    StringRoundTrip(token, PutUuid(nodeId, rest));
    UuidRoundTrip(nodeId, rest);
  }

  lemma AuthAcceptedBody(kind: TokenKind, rest: seq<u8>)
    ensures GetBody(2, PutTokenKind(kind, rest)) == Got(AuthAccepted(kind), rest)
  {
    TagRoundTrip(if kind.Admin? then 0 else 1, 2, rest);
  }

  lemma RegisterNodeBody(metadata: NodeMetadata, publicKey: Key32, rest: seq<u8>)
    requires |PutNodeMetadata(metadata, publicKey + rest)| < MAX_USIZE
    ensures GetBody(4, PutNodeMetadata(metadata, publicKey + rest)) == Got(RegisterNode(metadata, publicKey), rest)
  {
    NodeMetadataRoundTrip(metadata, publicKey + rest);
    RawRoundTrip(publicKey, rest);
  }

  lemma ServiceDispatch(bs: seq<u8>, service: ServiceDefinition, rest: seq<u8>)
    requires GetService(bs) == Got(service, rest)
    ensures GetBody(5, bs) == Got(RegisterService(service), rest)
    ensures GetBody(6, bs) == Got(RegisterServiceAccepted(service), rest)
  {}

  lemma ServiceBody(service: ServiceDefinition, rest: seq<u8>)
    requires |PutService(service, rest)| < MAX_USIZE
    ensures GetBody(5, PutService(service, rest)) == Got(RegisterService(service), rest)
    ensures GetBody(6, PutService(service, rest)) == Got(RegisterServiceAccepted(service), rest)
  {
    ServiceRoundTrip(service, rest);
    ServiceDispatch(PutService(service, rest), service, rest);
  }

  lemma ServiceListDispatch(bs: seq<u8>, services: seq<ServiceDefinition>, rest: seq<u8>)
    requires GetServiceList(bs) == Got(services, rest)
    ensures GetBody(8, bs) == Got(ServiceList(services), rest)
  {}

  lemma ServiceListBody(services: seq<ServiceDefinition>, rest: seq<u8>)
    requires |PutServiceList(services, rest)| < MAX_USIZE
    ensures GetBody(8, PutServiceList(services, rest)) == Got(ServiceList(services), rest)
  {
    ServiceListRoundTrip(services, rest);
    ServiceListDispatch(PutServiceList(services, rest), services, rest);
  }

  lemma HeartbeatBody(snapshot: HeartbeatSnapshot, rest: seq<u8>)
    ensures GetBody(9, PutSnapshot(snapshot, rest)) == Got(Heartbeat(snapshot), rest)
  {
    SnapshotRoundTrip(snapshot, rest);
  }

  lemma HeartbeatAckBody(sequence: u64, serverTime: i64, rest: seq<u8>)
    ensures GetBody(10, PutU64(sequence, PutI64(serverTime, rest))) == Got(HeartbeatAck(sequence, serverTime), rest)
  {
    U64RoundTrip(sequence, PutI64(serverTime, rest));
    I64RoundTrip(serverTime, rest);
  }

  lemma IdBody(id: Uuid, rest: seq<u8>)
    ensures GetBody(7, PutUuid(id, rest)) == Got(UnregisterService(id), rest)
    ensures GetBody(12, PutUuid(id, rest)) == Got(OpenStreamAck(id), rest)
    ensures GetBody(14, PutUuid(id, rest)) == Got(CloseStream(id), rest)
  {
    UuidRoundTrip(id, rest);
  }

  lemma OpenStreamBody(tunnelId: Uuid, serviceId: Uuid, rest: seq<u8>)
    ensures GetBody(11, PutUuid(tunnelId, PutUuid(serviceId, rest))) == Got(OpenStream(tunnelId, serviceId), rest)
  {
    UuidRoundTrip(tunnelId, PutUuid(serviceId, rest));
    UuidRoundTrip(serviceId, rest);
  }

  lemma StreamDataBody(tunnelId: Uuid, data: seq<u8>, rest: seq<u8>)
    requires |data| < MAX_USIZE
    ensures GetBody(13, PutUuid(tunnelId, PutBytes(data, rest))) == Got(StreamData(tunnelId, data), rest)
  {
    UuidRoundTrip(tunnelId, PutBytes(data, rest));
    BytesRoundTrip(data, rest);
  }

  lemma ErrorDispatch(bs: seq<u8>, message: string, rest: seq<u8>)
    requires GetString(bs) == Got(message, rest)
    ensures GetBody(15, bs) == Got(Error(message), rest)
  {}

  lemma ErrorBody(message: string, rest: seq<u8>)
    requires |PutString(message, rest)| < MAX_USIZE
    ensures GetBody(15, PutString(message, rest)) == Got(Error(message), rest)
  {
    StringRoundTrip(message, rest);
    ErrorDispatch(PutString(message, rest), message, rest);
  }

  lemma SetupBodyRoundTrip(f: Frame, rest: seq<u8>)
    requires FrameTag(f) < 8 && |PutBody(f, rest)| < MAX_USIZE
    ensures GetBody(FrameTag(f), PutBody(f, rest)) == Got(f, rest)
  {
    match f
    case Hello(version) => HelloBody(version, rest);
    case Auth(token, nodeId) => AuthBody(token, nodeId, rest);
    case AuthAccepted(kind) => AuthAcceptedBody(kind, rest);
    case AuthRejected =>
    case RegisterNode(metadata, publicKey) => RegisterNodeBody(metadata, publicKey, rest);
    case RegisterService(service) => ServiceBody(service, rest);
    case RegisterServiceAccepted(service) => ServiceBody(service, rest);
    case UnregisterService(serviceId) => IdBody(serviceId, rest);
  }

  lemma TrafficBodyRoundTrip(f: Frame, rest: seq<u8>)
    requires FrameTag(f) >= 8 && |PutBody(f, rest)| < MAX_USIZE
    ensures GetBody(FrameTag(f), PutBody(f, rest)) == Got(f, rest)
  {
    match f
    case ServiceList(services) => ServiceListBody(services, rest);
    case Heartbeat(snapshot) => HeartbeatBody(snapshot, rest);
    case HeartbeatAck(sequence, serverTime) => HeartbeatAckBody(sequence, serverTime, rest);
    case OpenStream(tunnelId, serviceId) => OpenStreamBody(tunnelId, serviceId, rest);
    case OpenStreamAck(tunnelId) => IdBody(tunnelId, rest);
    case StreamData(tunnelId, data) => StreamDataBody(tunnelId, data, rest);
    case CloseStream(tunnelId) => IdBody(tunnelId, rest);
    case Error(message) => ErrorBody(message, rest);
    case Goodbye =>
  }

  // Every frame of every variant decodes to itself, and decoding stops exactly where it ends.
  lemma FrameRoundTrip(f: Frame, rest: seq<u8>)
    requires |PutFrame(f, rest)| < MAX_USIZE
    ensures GetFrame(PutFrame(f, rest)) == Got(f, rest)
  {
    U32RoundTrip(FrameTag(f), PutBody(f, rest));
    if FrameTag(f) < 8 { SetupBodyRoundTrip(f, rest); } else { TrafficBodyRoundTrip(f, rest); }
  }
}
