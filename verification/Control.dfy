// Nodes, sessions and tokens: what one control frame, a lost connection, a token rotation and a restart
// do to the server. Each is one step, as in runs where frames are handled one at a time.
module Control {
  import opened Basics
  import opened Types
  import opened Validation
  import opened Registry
  import opened Ledger

  // A token is known by its hash only.
  type Hash = Key32

  datatype TokenState = TokenState(adminHash: Option<Hash>, userHash: Option<Hash>) {
    function Authenticate(hash: Hash): Option<TokenKind> {
      if adminHash == Some(hash) then Some(Admin)
      else if userHash == Some(hash) then Some(User)
      else None
    }

    function Set(kind: TokenKind, hash: Option<Hash>): TokenState {
      match kind
      case Admin => this.(adminHash := hash)
      case User => this.(userHash := hash)
    }
  }

  datatype Session = Session(id: Uuid, kind: TokenKind, conn: nat)

  datatype EventKind = NodeOnline | NodeOffline | ServiceRegistered | ServiceDeleted

  datatype Event = Event(at: i64, kind: EventKind, nodeId: Uuid, serviceId: Option<Uuid>)

  // `closed` are the connections this server has closed; a handler learns of it at its next read.
  datatype Relay = Relay(
    tokens: TokenState, storedTokens: Option<TokenState>,
    nodes: map<Uuid, NodeRecord>, storedNodes: map<Uuid, NodeRecord>,
    sessions: map<Uuid, Session>, closed: set<nat>,
    ledger: Ledger, metrics: seq<NodeMetric>, events: multiset<Event>)

  // An authenticated connection and what its handler remembers.
  datatype Conn = Conn(
    handle: nat, transport: TransportKind, nodeId: Uuid, kind: TokenKind, sessionId: Uuid,
    ip: string, port: u16, registered: bool)

  // Two readings of the clock: when the frame is processed and when it is answered.
  datatype Clock = Clock(now: i64, later: i64)

  datatype Reply =
    | ServiceAccepted(service: ServiceDefinition)
    | ServiceRefused(error: RegisterError)
    | NodeNotRegistered
    | Ack(sequence: u64, serverTime: i64)
    | Unsupported

  datatype Handled =
    | Continue(s: Relay, registered: bool, reply: Option<Reply>)
    | Leave(s: Relay)
    | Abandon(s: Relay)

  // How a registration is decided: `register_service` on the services of one relay.
  type Registrar = (Ledger, ServiceDefinition, Uuid) -> (Ledger, Result<ServiceDefinition, RegisterError>)

  function RegistrarOf(cfg: Config): Registrar {
    (l: Ledger, service: ServiceDefinition, nodeId: Uuid) => Registered(cfg, l, service, nodeId)
  }

  // ---- Steps ----

  function PutNode(s: Relay, n: NodeRecord): Relay {
    s.(nodes := s.nodes[n.nodeId := n], storedNodes := s.storedNodes[n.nodeId := n])
  }

  function Record(s: Relay, e: Event): Relay {
    s.(events := s.events + multiset{e})
  }

  // The new session takes the node's entry; whatever held it, even this same connection, is closed.
  function ActivateSession(s: Relay, me: Conn): Relay {
    var closed := if me.nodeId in s.sessions then s.closed + {s.sessions[me.nodeId].conn} else s.closed;
    s.(sessions := s.sessions[me.nodeId := Session(me.sessionId, me.kind, me.handle)], closed := closed)
  }

  predicate ValidIdentity(s: Relay, nodeId: Uuid, key: Key32) {
    nodeId in s.nodes && s.nodes[nodeId].publicKey.Some? ==> s.nodes[nodeId].publicKey.value == key
  }

  function NewNode(me: Conn, metadata: NodeMetadata, key: Key32, now: i64): NodeRecord {
    NodeRecord(me.nodeId, Some(key), metadata, me.ip, me.port, me.transport, Online, now, None, None)
  }

  predicate NodeAccepted(s: Relay, me: Conn, metadata: NodeMetadata, key: Key32) {
    ValidMetadata(metadata.metadata) && ValidIdentity(s, me.nodeId, key)
  }

  function RegisteredNode(s: Relay, me: Conn, metadata: NodeMetadata, key: Key32, clock: Clock): Relay {
    Record(PutNode(ActivateSession(s, me), NewNode(me, metadata, key, clock.now)),
           Event(clock.later, NodeOnline, me.nodeId, None))
  }

  // Round-trip time in milliseconds, between zero and an hour.
  function RoundTrip(now: i64, sentAt: i64): (rtt: u32)
    ensures now <= sentAt ==> rtt == 0
    ensures sentAt <= now ==> rtt == if now - sentAt <= 3_600_000 then now - sentAt else 3_600_000
  {
    var d := SaturatingSub(now, sentAt);
    if d < 0 then 0 else if d > 3_600_000 then 3_600_000 else d
  }

  function Beaten(n: NodeRecord, now: i64, rtt: u32): NodeRecord {
    n.(status := Online, lastHeartbeatAt := Some(now), rttMs := Some(rtt))
  }

  function RecordHeartbeat(s: Relay, nodeId: Uuid, snapshot: HeartbeatSnapshot, now: i64): Relay {
    if nodeId in s.nodes then
      var rtt := RoundTrip(now, snapshot.sentAt);
      var beaten := Beaten(s.nodes[nodeId], now, rtt);
      s.(nodes := s.nodes[nodeId := beaten], storedNodes := s.storedNodes[beaten.nodeId := beaten],
         metrics := s.metrics + [NodeMetric(nodeId, now, Some(rtt), snapshot)])
    else s
  }

  function PublishService(register: Registrar, s: Relay, me: Conn, service: ServiceDefinition, clock: Clock): (Relay, Reply) {
    if !me.registered || service.nodeId != me.nodeId then (s, NodeNotRegistered)
    else
      match register(s.ledger, service, me.nodeId)
      case (l, Err(e)) => (s.(ledger := l), ServiceRefused(e))
      case (l, Ok(accepted)) =>
        (Record(s.(ledger := l), Event(clock.later, ServiceRegistered, me.nodeId, Some(accepted.serviceId))), ServiceAccepted(accepted))
  }

  function WithdrawService(s: Relay, me: Conn, serviceId: Uuid, clock: Clock): Relay {
    var l := Unregistered(s.ledger, serviceId, me.nodeId);
    if serviceId in s.ledger.table && s.ledger.table[serviceId].nodeId == me.nodeId then
      Record(s.(ledger := l), Event(clock.later, ServiceDeleted, me.nodeId, Some(serviceId)))
    else s
  }

  // One frame of the control loop, the same for both transports but for the tag it records.
  function HandleFrame(register: Registrar, s: Relay, me: Conn, f: Frame, clock: Clock): Handled {
    if f.RegisterNode? then
      if NodeAccepted(s, me, f.metadata, f.publicKey) then
        Continue(RegisteredNode(s, me, f.metadata, f.publicKey, clock), true, None)
      else Abandon(s)
    else if f.RegisterService? then
      var (t, reply) := PublishService(register, s, me, f.service, clock);
      Continue(t, me.registered, Some(reply))
    else if f.UnregisterService? then Continue(WithdrawService(s, me, f.serviceId, clock), me.registered, None)
    else if f.Heartbeat? then
      Continue(RecordHeartbeat(s, me.nodeId, f.snapshot, clock.now), me.registered, Some(Ack(f.snapshot.sequence, clock.later)))
    else if f.Goodbye? then Leave(s)
    else Continue(s, me.registered, Some(Unsupported))
  }

  ghost predicate Current(s: Relay, me: Conn) {
    me.nodeId in s.sessions && s.sessions[me.nodeId].id == me.sessionId
  }

  // Teardown removes the entry only while it is this session's own.
  function Teardown(s: Relay, me: Conn, now: i64): Relay {
    if me.nodeId in s.sessions && s.sessions[me.nodeId].id == me.sessionId then
      var t := s.(sessions := s.sessions - {me.nodeId});
      if me.nodeId in s.nodes then
        var offline := s.nodes[me.nodeId].(status := Offline);
        Record(t.(nodes := t.nodes[me.nodeId := offline], storedNodes := t.storedNodes[offline.nodeId := offline]),
               Event(now, NodeOffline, me.nodeId, None))
      else t
    else s
  }

  // QUIC leaves through `?` without teardown; Yamux tears down however the loop ends.
  function Exit(s: Relay, me: Conn, goodbye: bool, now: i64): Relay {
    if goodbye || me.transport.TcpTlsYamux? then Teardown(s, me, now) else s
  }

  // ---- Tokens ----

  function Revoked(sessions: map<Uuid, Session>, kind: TokenKind): set<Uuid> {
    set n | n in sessions && sessions[n].kind == kind
  }

  function ConnsOf(sessions: map<Uuid, Session>, gone: set<Uuid>): set<nat>
    requires gone <= sessions.Keys
  {
    set n | n in gone :: sessions[n].conn
  }

  function SetOffline(nodes: map<Uuid, NodeRecord>, gone: set<Uuid>): map<Uuid, NodeRecord> {
    map n | n in nodes :: if n in gone then nodes[n].(status := Offline) else nodes[n]
  }

  function OfflineEvents(known: set<Uuid>, gone: set<Uuid>, now: i64): multiset<Event> {
    multiset(set n | n in gone && n in known :: Event(now, NodeOffline, n, None))
  }

  // The updated nodes go to the store one by one.
  function StoreAll(stored: map<Uuid, NodeRecord>, nodes: map<Uuid, NodeRecord>, gone: set<Uuid>): map<Uuid, NodeRecord> {
    map n | n in stored || (n in nodes && n in gone) ::
      if n in nodes && n in gone then nodes[n].(status := Offline) else stored[n]
  }

  function ReplaceToken(s: Relay, kind: TokenKind, hash: Option<Hash>, now: i64): Relay {
    var gone := Revoked(s.sessions, kind);
    var tokens := s.tokens.Set(kind, hash);
    s.(tokens := tokens, storedTokens := Some(tokens),
       sessions := s.sessions - gone,
       closed := s.closed + ConnsOf(s.sessions, gone),
       nodes := SetOffline(s.nodes, gone), storedNodes := StoreAll(s.storedNodes, s.nodes, gone),
       events := s.events + OfflineEvents(s.nodes.Keys, gone, now))
  }

  // A new process on the same database; the environment's hashes are used only when none are stored.
  function Restarted(s: Relay, adminHash: Hash, userHash: Hash): Relay {
    var tokens := if s.storedTokens.Some? then s.storedTokens.value else TokenState(Some(adminHash), Some(userHash));
    s.(tokens := tokens, storedTokens := Some(tokens), nodes := s.storedNodes, sessions := map[], closed := {})
  }

  // ---- Whole sessions ----

  datatype Ending = Ending(s: Relay, replies: seq<Reply>, goodbye: bool)

  // The control loop over the frames that arrive before the stream ends; running out is a read error.
  function ServeFrames(register: Registrar, s: Relay, me: Conn, inbox: seq<(Frame, Clock)>): Ending
    decreases |inbox|
  {
    if inbox == [] then Ending(s, [], false)
    else
      match HandleFrame(register, s, me, inbox[0].0, inbox[0].1)
      case Leave(t) => Ending(t, [], true)
      case Abandon(t) => Ending(t, [], false)
      case Continue(t, registered, reply) =>
        var e := ServeFrames(register, t, me.(registered := registered), inbox[1..]);
        e.(replies := (if reply.Some? then [reply.value] else []) + e.replies)
  }

  function ServeAndExit(register: Registrar, s: Relay, me: Conn, inbox: seq<(Frame, Clock)>, now: i64): Ending {
    var e := ServeFrames(register, s, me, inbox);
    e.(s := Exit(e.s, me, e.goodbye, now))
  }
}
