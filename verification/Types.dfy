// The shared domain and wire types of crates/libongrok.
module Types {
  import opened Basics

  const PROTOCOL_VERSION: u16 := 1
  const MAX_FRAME_SIZE: nat := 1024 * 1024

  datatype TokenKind = Admin | User
  datatype Protocol = Http | Https | Tcp
  datatype TransportKind = Quic | TcpTlsYamux
  datatype NodeStatus = Online | Offline

  type Key32 = k: seq<u8> | |k| == 32 witness seq(32, _ => 0)

  // `BTreeMap<String, String>`.
  type Metadata = map<string, string>

  datatype NodeMetadata = NodeMetadata(
    hostname: string, os: string, arch: string, clientVersion: string, metadata: Metadata)

  datatype ServiceDefinition = ServiceDefinition(
    serviceId: Uuid, serviceName: string, nodeId: Uuid, protocol: Protocol, localAddress: string,
    publicHost: Option<string>, publicPort: Option<u16>, metadata: Metadata)

  // The three `f32` readings are kept as their IEEE 754 bit patterns.
  datatype HeartbeatSnapshot = HeartbeatSnapshot(
    sequence: u64, sentAt: i64, cpuPercent: Option<u32>, memoryPercent: Option<u32>,
    loadAverage: Option<u32>, networkRx: Option<u64>, networkTx: Option<u64>)

  datatype NodeRecord = NodeRecord(
    nodeId: Uuid, publicKey: Option<Key32>, metadata: NodeMetadata, publicIp: string,
    sourcePort: u16, transport: TransportKind, status: NodeStatus, connectedAt: i64,
    lastHeartbeatAt: Option<i64>, rttMs: Option<u32>)

  datatype NodeMetric = NodeMetric(
    nodeId: Uuid, recordedAt: i64, rttMs: Option<u32>, snapshot: HeartbeatSnapshot)

  datatype Frame =
    | Hello(version: u16)
    | Auth(token: string, nodeId: Uuid)
    | AuthAccepted(kind: TokenKind)
    | AuthRejected
    | RegisterNode(metadata: NodeMetadata, publicKey: Key32)
    | RegisterService(service: ServiceDefinition)
    | RegisterServiceAccepted(service: ServiceDefinition)
    | UnregisterService(serviceId: Uuid)
    | ServiceList(services: seq<ServiceDefinition>)
    | Heartbeat(snapshot: HeartbeatSnapshot)
    | HeartbeatAck(sequence: u64, serverTime: i64)
    | OpenStream(tunnelId: Uuid, serviceId: Uuid)
    | OpenStreamAck(tunnelId: Uuid)
    | StreamData(tunnelId: Uuid, data: seq<u8>)
    | CloseStream(tunnelId: Uuid)
    | Error(message: string)
    | Goodbye
}
