// The client's control program (`run_quic`, `run_yamux`) talking to the server's handler over two
// first-in first-out frame channels. The server side answers with `HandleFrame`, on a relay state that
// other connections may change between any two steps.
module Handshake {
  import opened Basics
  import opened Types
  import opened Registry
  import opened Ledger
  import opened Control

  datatype ClientError =
    | RejectedProtocol | RejectedToken | RejectedService
    | InvalidHello | InvalidAuth | InvalidService | InvalidAck

  // Where the client's program stands; `beats` heartbeats have been acknowledged.
  datatype Client =
    | SendHello | AwaitHello
    | SendAuth | AwaitAuth
    | SendNode
    | SendService | AwaitService
    | SendBeat(beats: nat) | AwaitAck(beats: nat, snapshot: HeartbeatSnapshot)
    | SendGoodbye
    | Finished
    | ClientFailed(clientError: ClientError)

  datatype ServerError = UnsupportedVersion | ExpectedHello | ExpectedAuth | AuthenticationRejected | NodeRejected

  datatype Server =
    | ReadHello
    | ReadAuth
    | Loop(me: Conn)
    | Writing(frame: Frame, next: Server)
    | Closed
    | ServerFailed(serverError: ServerError)

  // Both builds' protocol versions, what the client was started with, and what the server knows of the
  // connection before it authenticates.
  datatype Params = Params(
    clientVersion: u16, serverVersion: u16,
    token: string, hash: string -> Hash, nodeId: Uuid, metadata: NodeMetadata, key: Key32,
    service: Option<ServiceDefinition>, once: bool, link: Conn)

  // A side is `gone` when its stream has failed under it.
  datatype System = System(
    client: Client, server: Server, toServer: seq<Frame>, toClient: seq<Frame>,
    published: map<Uuid, string>, relay: Relay, clientGone: bool, serverGone: bool)

  predicate ClientOver(s: System) {
    s.clientGone || s.client.Finished? || s.client.ClientFailed?
  }

  predicate ServerOver(s: System) {
    s.serverGone || s.server.Closed? || s.server.ServerFailed?
  }

  predicate Awaiting(c: Client) {
    c.AwaitHello? || c.AwaitAuth? || c.AwaitService? || c.AwaitAck?
  }

  // ---- The client ----

  // `sequence += 1` on a `u64`.
  function Sequence(beats: nat): u64 {
    beats % 0x1_0000_0000_0000_0000
  }

  function AfterNode(p: Params): Client {
    if p.service.Some? then SendService else SendBeat(0)
  }

  // What the client writes at each sending point, and where it stands afterwards.
  function ClientWrites(p: Params, c: Client, sampled: HeartbeatSnapshot): (Frame, Client)
    requires !Awaiting(c) && !c.Finished? && !c.ClientFailed? && (c.SendService? ==> p.service.Some?)
  {
    match c
    case SendHello => (Hello(p.clientVersion), AwaitHello)
    case SendAuth => (Auth(p.token, p.nodeId), AwaitAuth)
    case SendNode => (RegisterNode(p.metadata, p.key), AfterNode(p))
    case SendService => (RegisterService(p.service.value), AwaitService)
    case SendBeat(n) =>
      var snapshot := sampled.(sequence := Sequence(n + 1));
      (Heartbeat(snapshot), AwaitAck(n, snapshot))
    case SendGoodbye => (Goodbye, Finished)
  }

  function ClientReads(p: Params, c: Client, f: Frame): Client
    requires Awaiting(c)
  {
    match c
    case AwaitHello =>
      if f.Hello? && f.version == p.clientVersion then SendAuth
      else ClientFailed(if f.Error? then RejectedProtocol else InvalidHello)
    case AwaitAuth =>
      if f.AuthAccepted? then SendNode
      else ClientFailed(if f.AuthRejected? then RejectedToken else InvalidAuth)
    case AwaitService =>
      if f.RegisterServiceAccepted? then SendBeat(0)
      else ClientFailed(if f.Error? then RejectedService else InvalidService)
    case AwaitAck(n, snapshot) =>
      if f.HeartbeatAck? && f.sequence == snapshot.sequence then (if p.once then SendGoodbye else SendBeat(n + 1))
      else ClientFailed(InvalidAck)
  }

  function Published(p: Params, s: System, f: Frame): map<Uuid, string> {
    if s.client.AwaitService? && f.RegisterServiceAccepted? && p.service.Some? then
      s.published[f.service.serviceId := p.service.value.localAddress]
    else s.published
  }

  // One step of the client; none while it is over or waits on a live server.
  function ClientMove(p: Params, s: System, sampled: HeartbeatSnapshot): Option<System> {
    if ClientOver(s) || (s.client.SendService? && p.service.None?) then None
    else if Awaiting(s.client) then
      if s.toClient != [] then
        var f := s.toClient[0];
        Some(s.(client := ClientReads(p, s.client, f), toClient := s.toClient[1..], published := Published(p, s, f)))
      else if ServerOver(s) then Some(s.(clientGone := true))
      else None
    else
      var (f, c) := ClientWrites(p, s.client, sampled);
      Some(s.(client := c, toServer := s.toServer + [f]))
  }

  // ---- The server ----

  function Wire(reply: Reply, text: string): Frame {
    match reply
    case ServiceAccepted(service) => RegisterServiceAccepted(service)
    case Ack(sequence, serverTime) => HeartbeatAck(sequence, serverTime)
    case _ => Error(text)
  }

  function HelloRead(p: Params, f: Frame, text: string): Server {
    if !f.Hello? then ServerFailed(ExpectedHello)
    else if f.version == p.serverVersion then Writing(Hello(p.serverVersion), ReadAuth)
    else Writing(Error(text), ServerFailed(UnsupportedVersion))
  }

  function AuthRead(p: Params, tokens: TokenState, f: Frame): Server {
    if !f.Auth? then ServerFailed(ExpectedAuth)
    else
      match tokens.Authenticate(p.hash(f.token))
      case None => Writing(AuthRejected, ServerFailed(AuthenticationRejected))
      case Some(kind) => Writing(AuthAccepted(kind), Loop(p.link.(nodeId := f.nodeId, kind := kind, registered := false)))
  }

  function LoopRead(register: Registrar, relay: Relay, me: Conn, f: Frame, clock: Clock, text: string): (Server, Relay) {
    match HandleFrame(register, relay, me, f, clock)
    case Continue(t, registered, None) => (Loop(me.(registered := registered)), t)
    case Continue(t, registered, Some(reply)) => (Writing(Wire(reply, text), Loop(me.(registered := registered))), t)
    case Leave(t) => (Closed, Exit(t, me, true, clock.later))
    case Abandon(t) => (ServerFailed(NodeRejected), Exit(t, me, false, clock.later))
  }

  function ServerMove(p: Params, register: Registrar, s: System, clock: Clock, text: string): Option<System> {
    if ServerOver(s) then None
    else if s.server.Writing? then
      Some(s.(server := s.server.next, toClient := s.toClient + [s.server.frame]))
    else if s.toServer == [] then
      if ClientOver(s) then Some(s.(serverGone := true)) else None
    else
      var f := s.toServer[0];
      var t := s.(toServer := s.toServer[1..]);
      match s.server
      case ReadHello => Some(t.(server := HelloRead(p, f, text)))
      case ReadAuth => Some(t.(server := AuthRead(p, s.relay.tokens, f)))
      case Loop(me) =>
        var (server, relay) := LoopRead(register, s.relay, me, f, clock, text);
        Some(t.(server := server, relay := relay))
  }

  // ---- Runs ----

  // Besides the two programs' own steps: another connection changes the relay, or a side's stream fails
  // and takes with it whatever is still in flight to that side.
  datatype Label =
    | ClientStep(sampled: HeartbeatSnapshot)
    | ServerStep(clock: Clock, text: string)
    | Elsewhere(relay: Relay)
    | ClientLost
    | ServerLost

  ghost predicate Next(p: Params, register: Registrar, s: System, a: Label, t: System) {
    match a
    case ClientStep(sampled) => ClientMove(p, s, sampled) == Some(t)
    case ServerStep(clock, text) => ServerMove(p, register, s, clock, text) == Some(t)
    case Elsewhere(relay) => t == s.(relay := relay)
    case ClientLost => !ClientOver(s) && t == s.(clientGone := true)
    case ServerLost => !ServerOver(s) && t == s.(serverGone := true)
  }

  predicate Initial(s: System) {
    s.client == SendHello && s.server == ReadHello && s.toServer == [] && s.toClient == []
    && s.published == map[] && !s.clientGone && !s.serverGone
  }

  ghost predicate IsRun(p: Params, register: Registrar, ws: seq<System>, acts: seq<Label>) {
    && |ws| == |acts| + 1 && Initial(ws[0])
    && forall i | 0 <= i < |acts| :: Next(p, register, ws[i], acts[i], ws[i + 1])
  }

  // What is used of a registrar: an accepted service keeps the local address it was submitted with.
  ghost predicate KeepsAddresses(register: Registrar) {
    forall l, s, n :: register(l, s, n).1.Ok? ==> register(l, s, n).1.value.localAddress == s.localAddress
  }

  // ---- The joint invariant ----

  // The frames written since the client last read an answer.
  function Unanswered(p: Params, c: Client): seq<Frame> {
    match c
    case AwaitHello => [Hello(p.clientVersion)]
    case AwaitAuth => [Auth(p.token, p.nodeId)]
    case SendService => [RegisterNode(p.metadata, p.key)]
    case AwaitService => if p.service.Some? then [RegisterNode(p.metadata, p.key), RegisterService(p.service.value)] else []
    case SendBeat(n) => if n == 0 && p.service.None? then [RegisterNode(p.metadata, p.key)] else []
    case AwaitAck(n, snapshot) =>
      if n == 0 && p.service.None? then [RegisterNode(p.metadata, p.key), Heartbeat(snapshot)] else [Heartbeat(snapshot)]
    case Finished => [Goodbye]
    case _ => []
  }

  // The answers the client's program provides for.
  predicate Answers(p: Params, c: Client, f: Frame) {
    match c
    case AwaitService =>
      f.Error? || (f.RegisterServiceAccepted? && p.service.Some? && f.service.localAddress == p.service.value.localAddress)
    case AwaitAck(_, snapshot) => f.HeartbeatAck? && f.sequence == snapshot.sequence
    case _ => false
  }

  predicate InLoop(c: Client) {
    c.SendNode? || c.SendService? || c.AwaitService? || c.SendBeat? || c.AwaitAck? || c.SendGoodbye? || c.Finished?
    || c == ClientFailed(RejectedService)
  }

  // The client's RegisterNode is still on its way.
  predicate NodePending(p: Params, s: System) {
    s.client.SendNode? || (s.toServer != [] && s.toServer[0] == RegisterNode(p.metadata, p.key) && s.toServer == Unanswered(p, s.client))
  }

  predicate ServingInvariant(p: Params, s: System, me: Conn) {
    if !me.registered then
      || (s.client.AwaitAuth? && s.toServer == [] && s.toClient == [AuthAccepted(me.kind)])
      || (InLoop(s.client) && NodePending(p, s) && s.toClient == [])
    else
      && InLoop(s.client) && !NodePending(p, s)
      && (if Awaiting(s.client) && s.toServer == [] then |s.toClient| == 1 && Answers(p, s.client, s.toClient[0])
          else s.toClient == [])
      && (s.client.Finished? ==> s.toServer != [])
  }

  // The pending frame is the answer to the question the client waits on.
  predicate WritingInvariant(p: Params, s: System, f: Frame, next: Server) {
    && s.toServer == [] && s.toClient == []
    && (p.clientVersion == p.serverVersion <==> next != ServerFailed(UnsupportedVersion))
    && match next
       case ReadAuth => s.client.AwaitHello? && f == Hello(p.serverVersion)
       case ServerFailed(UnsupportedVersion) => s.client.AwaitHello? && f.Error?
       case ServerFailed(AuthenticationRejected) => s.client.AwaitAuth? && f == AuthRejected
       case Loop(me) =>
         if me.registered then Awaiting(s.client) && Answers(p, s.client, f)
         else s.client.AwaitAuth? && f == AuthAccepted(me.kind)
       case _ => false
  }

  predicate FailedInvariant(p: Params, s: System, e: ServerError) {
    match e
    case UnsupportedVersion =>
      && p.clientVersion != p.serverVersion && s.toServer == []
      && (if s.client.AwaitHello? then |s.toClient| == 1 && s.toClient[0].Error?
          else s.client == ClientFailed(RejectedProtocol) && s.toClient == [])
    case AuthenticationRejected =>
      && p.clientVersion == p.serverVersion && s.toServer == []
      && (if s.client.AwaitAuth? then s.toClient == [AuthRejected]
          else s.client == ClientFailed(RejectedToken) && s.toClient == [])
    case NodeRejected =>
      && p.clientVersion == p.serverVersion && s.toClient == []
      && (s.client.SendService? || s.client.AwaitService? || s.client.SendBeat? || s.client.AwaitAck?)
    case _ => false
  }

  predicate ServerInvariant(p: Params, s: System) {
    match s.server
    case ReadHello =>
      s.toClient == [] && (s.client.SendHello? || (s.client.AwaitHello? && s.toServer == Unanswered(p, s.client)))
    case ReadAuth =>
      && p.clientVersion == p.serverVersion
      && (|| (s.client.AwaitHello? && s.toServer == [] && s.toClient == [Hello(p.serverVersion)])
          || (s.client.SendAuth? && s.toClient == [])
          || (s.client.AwaitAuth? && s.toServer == Unanswered(p, s.client) && s.toClient == []))
    case Loop(me) => p.clientVersion == p.serverVersion && ServingInvariant(p, s, me)
    case Writing(f, next) => WritingInvariant(p, s, f, next)
    case Closed => p.clientVersion == p.serverVersion && s.client.Finished? && s.toServer == [] && s.toClient == []
    case ServerFailed(e) => FailedInvariant(p, s, e)
  }

  // What is left to read are the last of the unanswered frames, in order.
  predicate ChannelInvariant(p: Params, s: System) {
    var u := Unanswered(p, s.client);
    s.toServer == [] || s.toServer == u || (|u| == 2 && s.toServer == [u[1]])
  }

  predicate ClientInvariant(p: Params, s: System) {
    && (s.client.SendService? || s.client.AwaitService? || s.client == ClientFailed(RejectedService) ==> p.service.Some?)
    && (s.client.AwaitAck? ==> s.client.snapshot.sequence == Sequence(s.client.beats + 1))
    && (s.client.SendGoodbye? || s.client.Finished? ==> p.once)
    && (if p.service.Some? && (s.client.SendBeat? || s.client.AwaitAck? || s.client.SendGoodbye? || s.client.Finished?)
        then |s.published| == 1 && forall id | id in s.published :: s.published[id] == p.service.value.localAddress
        else s.published == map[])
  }

  predicate Joint(p: Params, s: System) {
    ChannelInvariant(p, s) && ClientInvariant(p, s) && ServerInvariant(p, s)
  }

  lemma StartsJoint(p: Params, s: System)
    requires Initial(s)
    ensures Joint(p, s)
  {
  }

  lemma SetupWriteKeepsJoint(p: Params, s: System, sampled: HeartbeatSnapshot, t: System)
    requires Joint(p, s) && ClientMove(p, s, sampled) == Some(t)
    requires s.client.SendHello? || s.client.SendAuth? || s.client.SendNode?
    ensures ChannelInvariant(p, t) && ClientInvariant(p, t) && ServerInvariant(p, t)
  {
  }

  lemma WriteKeepsJoint(p: Params, s: System, sampled: HeartbeatSnapshot, t: System)
    requires Joint(p, s) && ClientMove(p, s, sampled) == Some(t) && !Awaiting(s.client)
    ensures ChannelInvariant(p, t) && ClientInvariant(p, t) && ServerInvariant(p, t)
  {
    if s.client.SendHello? || s.client.SendAuth? || s.client.SendNode? {
      SetupWriteKeepsJoint(p, s, sampled, t);
    }
  }

  lemma ReadKeepsJoint(p: Params, s: System, sampled: HeartbeatSnapshot, t: System)
    requires Joint(p, s) && ClientMove(p, s, sampled) == Some(t) && Awaiting(s.client)
    ensures ChannelInvariant(p, t) && ClientInvariant(p, t) && ServerInvariant(p, t)
  {
  }

  // ---- What the control loop does with the client's frames ----

  lemma NodeFrame(register: Registrar, relay: Relay, me: Conn, f: Frame, clock: Clock)
    requires f.RegisterNode?
    ensures var h := HandleFrame(register, relay, me, f, clock);
            h.Abandon? || (h.Continue? && h.registered && h.reply.None?)
  {
  }

  lemma ServiceFrame(register: Registrar, relay: Relay, me: Conn, f: Frame, clock: Clock)
    requires f.RegisterService? && KeepsAddresses(register)
    ensures var h := HandleFrame(register, relay, me, f, clock);
            && h.Continue? && h.registered == me.registered && h.reply.Some?
            && (h.reply.value.ServiceRefused? || h.reply.value.NodeNotRegistered?
                || (h.reply.value.ServiceAccepted? && h.reply.value.service.localAddress == f.service.localAddress))
  {
    assert register(relay.ledger, f.service, me.nodeId).1.Ok?
           ==> register(relay.ledger, f.service, me.nodeId).1.value.localAddress == f.service.localAddress;
  }

  lemma BeatFrame(register: Registrar, relay: Relay, me: Conn, f: Frame, clock: Clock)
    requires f.Heartbeat?
    ensures var h := HandleFrame(register, relay, me, f, clock);
            h.Continue? && h.registered == me.registered && h.reply == Some(Ack(f.snapshot.sequence, clock.later))
  {
  }

  lemma NodeStepKeepsJoint(p: Params, register: Registrar, s: System, clock: Clock, text: string, t: System)
    requires Joint(p, s) && s.server.Loop? && KeepsAddresses(register) && ServerMove(p, register, s, clock, text) == Some(t)
    requires s.toServer != [] && s.toServer[0].RegisterNode?
    ensures ChannelInvariant(p, t) && ClientInvariant(p, t) && ServerInvariant(p, t)
  {
    NodeFrame(register, s.relay, s.server.me, s.toServer[0], clock);
  }

  lemma ServiceStepKeepsJoint(p: Params, register: Registrar, s: System, clock: Clock, text: string, t: System)
    requires Joint(p, s) && s.server.Loop? && KeepsAddresses(register) && ServerMove(p, register, s, clock, text) == Some(t)
    requires s.toServer != [] && s.toServer[0].RegisterService?
    ensures ChannelInvariant(p, t) && ClientInvariant(p, t) && ServerInvariant(p, t)
  {
    ServiceFrame(register, s.relay, s.server.me, s.toServer[0], clock);
  }

  lemma BeatStepKeepsJoint(p: Params, register: Registrar, s: System, clock: Clock, text: string, t: System)
    requires Joint(p, s) && s.server.Loop? && KeepsAddresses(register) && ServerMove(p, register, s, clock, text) == Some(t)
    requires s.toServer != [] && s.toServer[0].Heartbeat?
    ensures ChannelInvariant(p, t) && ClientInvariant(p, t) && ServerInvariant(p, t)
  {
    BeatFrame(register, s.relay, s.server.me, s.toServer[0], clock);
  }

  lemma LoopStepKeepsJoint(p: Params, register: Registrar, s: System, clock: Clock, text: string, t: System)
    requires Joint(p, s) && s.server.Loop? && KeepsAddresses(register) && ServerMove(p, register, s, clock, text) == Some(t)
    ensures ChannelInvariant(p, t) && ClientInvariant(p, t) && ServerInvariant(p, t)
  {
    if s.toServer != [] {
      if s.toServer[0].RegisterNode? {
        NodeStepKeepsJoint(p, register, s, clock, text, t);
      } else if s.toServer[0].RegisterService? {
        ServiceStepKeepsJoint(p, register, s, clock, text, t);
      } else if s.toServer[0].Heartbeat? {
        BeatStepKeepsJoint(p, register, s, clock, text, t);
      }
    }
  }

  lemma ServerStepKeepsJoint(p: Params, register: Registrar, s: System, clock: Clock, text: string, t: System)
    requires Joint(p, s) && KeepsAddresses(register) && ServerMove(p, register, s, clock, text) == Some(t)
    ensures ChannelInvariant(p, t) && ClientInvariant(p, t) && ServerInvariant(p, t)
  {
    if s.server.Loop? {
      LoopStepKeepsJoint(p, register, s, clock, text, t);
    }
  }

  lemma {:induction false} JointAlways(p: Params, register: Registrar, ws: seq<System>, acts: seq<Label>, i: nat)
    requires IsRun(p, register, ws, acts) && KeepsAddresses(register) && i < |ws|
    ensures Joint(p, ws[i])
  {
    if i == 0 {
      StartsJoint(p, ws[0]);
    } else {
      JointAlways(p, register, ws, acts, i - 1);
      assert Next(p, register, ws[i - 1], acts[i - 1], ws[i - 1 + 1]);
      StepKeepsJoint(p, register, ws[i - 1], acts[i - 1], ws[i]);
    }
  }

  lemma StepKeepsJoint(p: Params, register: Registrar, s: System, a: Label, t: System)
    requires Joint(p, s) && KeepsAddresses(register) && Next(p, register, s, a, t)
    ensures Joint(p, t)
  {
    match a
    case ClientStep(sampled) =>
      if Awaiting(s.client) { ReadKeepsJoint(p, s, sampled, t); } else { WriteKeepsJoint(p, s, sampled, t); }
    case ServerStep(clock, text) => ServerStepKeepsJoint(p, register, s, clock, text, t);
    case _ =>
  }

  // ---- What every run keeps ----

  // While either side is still going, one of the two programs can take a step of its own.
  lemma NoDeadlock(p: Params, register: Registrar, ws: seq<System>, acts: seq<Label>, i: nat, sampled: HeartbeatSnapshot, clock: Clock, text: string)
    requires IsRun(p, register, ws, acts) && KeepsAddresses(register) && i < |ws|
    ensures ClientMove(p, ws[i], sampled).None? && ServerMove(p, register, ws[i], clock, text).None?
            <==> ClientOver(ws[i]) && ServerOver(ws[i])
  {
    JointAlways(p, register, ws, acts, i);
  }

  // At most two frames are in flight to the server and one to the client, and none of the branches for
  // an unexpected frame is ever taken.
  lemma NothingUnexpected(p: Params, register: Registrar, ws: seq<System>, acts: seq<Label>, i: nat)
    requires IsRun(p, register, ws, acts) && KeepsAddresses(register) && i < |ws|
    ensures |ws[i].toServer| <= 2 && |ws[i].toClient| <= 1
    ensures ws[i].client.ClientFailed? ==>
              ws[i].client.clientError.RejectedProtocol? || ws[i].client.clientError.RejectedToken? || ws[i].client.clientError.RejectedService?
    ensures ws[i].server.ServerFailed? ==> !ws[i].server.serverError.ExpectedHello? && !ws[i].server.serverError.ExpectedAuth?
  {
    JointAlways(p, register, ws, acts, i);
  }

  // A heartbeat that reaches the control loop comes from a registered connection, and an acknowledgement
  // in flight carries the sequence number being awaited, which counts the heartbeats.
  lemma HeartbeatsInStep(p: Params, register: Registrar, ws: seq<System>, acts: seq<Label>, i: nat)
    requires IsRun(p, register, ws, acts) && KeepsAddresses(register) && i < |ws|
    ensures var s := ws[i];
            && (s.server.Loop? && s.toServer != [] && s.toServer[0].Heartbeat? ==>
                  s.server.me.registered && s.client.AwaitAck? && s.toServer[0].snapshot == s.client.snapshot)
            && (forall f | f in s.toClient && f.HeartbeatAck? :: s.client.AwaitAck? && f.sequence == Sequence(s.client.beats + 1))
            && (s.client.AwaitAck? && s.toClient != [] ==> s.toClient[0].HeartbeatAck?)
  {
    JointAlways(p, register, ws, acts, i);
  }

  // ---- Published services ----

  // The server's step that accepts the client's service, as this record.
  predicate AcceptsService(p: Params, register: Registrar, s: System, a: Label, service: ServiceDefinition) {
    && a.ServerStep? && !s.serverGone && s.server.Loop? && p.service.Some?
    && s.toServer != [] && s.toServer[0] == RegisterService(p.service.value)
    && PublishService(register, s.relay, s.server.me, p.service.value, a.clock).1 == ServiceAccepted(service)
  }

  predicate Announces(f: Frame, id: Uuid) {
    f.RegisterServiceAccepted? && f.service.serviceId == id
  }

  // The id is published, or on its way to be.
  predicate Announced(s: System, id: Uuid) {
    || id in s.published
    || (s.toClient != [] && Announces(s.toClient[0], id))
    || (s.server.Writing? && Announces(s.server.frame, id))
  }

  // Only a service frame is answered with an acceptance.
  lemma OnlyServiceFramesAccept(register: Registrar, relay: Relay, me: Conn, f: Frame, clock: Clock)
    ensures var h := HandleFrame(register, relay, me, f, clock);
            h.Continue? && h.reply.Some? && h.reply.value.ServiceAccepted? ==>
              f.RegisterService? && h.reply.value == PublishService(register, relay, me, f.service, clock).1
  {
  }

  lemma StepAnnounces(p: Params, register: Registrar, s: System, a: Label, t: System, id: Uuid)
    requires Joint(p, s) && Next(p, register, s, a, t) && Announced(t, id) && !Announced(s, id)
    ensures exists service: ServiceDefinition :: service.serviceId == id && AcceptsService(p, register, s, a, service)
  {
    assert a.ServerStep?;
    if s.server.Loop? && s.toServer != [] {
      OnlyServiceFramesAccept(register, s.relay, s.server.me, s.toServer[0], a.clock);
      assert AcceptsService(p, register, s, a, t.server.frame.service);
    }
  }

  ghost predicate WasAccepted(p: Params, register: Registrar, ws: seq<System>, acts: seq<Label>, i: nat, id: Uuid)
    requires i <= |acts| < |ws|
  {
    exists j: nat, service: ServiceDefinition | j < i :: service.serviceId == id && AcceptsService(p, register, ws[j], acts[j], service)
  }

  lemma {:induction false} AnnouncedWasAccepted(p: Params, register: Registrar, ws: seq<System>, acts: seq<Label>, i: nat, id: Uuid)
    requires IsRun(p, register, ws, acts) && KeepsAddresses(register) && i < |ws| && Announced(ws[i], id)
    ensures WasAccepted(p, register, ws, acts, i, id)
  {
    assert i > 0;
    if Announced(ws[i - 1], id) {
      AnnouncedWasAccepted(p, register, ws, acts, i - 1, id);
    } else {
      JointAlways(p, register, ws, acts, i - 1);
      assert Next(p, register, ws[i - 1], acts[i - 1], ws[i - 1 + 1]);
      StepAnnounces(p, register, ws[i - 1], acts[i - 1], ws[i], id);
    }
  }

  // The client offers a local address only under an id the server accepted at an earlier step, and the
  // address is the one it submitted with that registration.
  lemma PublishedAddress(p: Params, register: Registrar, ws: seq<System>, acts: seq<Label>, i: nat)
    requires IsRun(p, register, ws, acts) && KeepsAddresses(register) && i < |ws|
    ensures var s := ws[i];
            && |s.published| <= 1
            && (forall id | id in s.published :: p.service.Some? && s.published[id] == p.service.value.localAddress)
            && (forall id | id in s.published :: WasAccepted(p, register, ws, acts, i, id))
            && (forall f | f in s.toClient && f.RegisterServiceAccepted? :: p.service.Some? && f.service.localAddress == p.service.value.localAddress)
  {
    JointAlways(p, register, ws, acts, i);
    forall id | id in ws[i].published ensures WasAccepted(p, register, ws, acts, i, id) {
      AnnouncedWasAccepted(p, register, ws, acts, i, id);
    }
  }

  // Two builds of this version never fall out over the version.
  lemma SameBuildsAgree(p: Params, register: Registrar, ws: seq<System>, acts: seq<Label>, i: nat)
    requires IsRun(p, register, ws, acts) && KeepsAddresses(register) && i < |ws|
    requires p.clientVersion == PROTOCOL_VERSION && p.serverVersion == PROTOCOL_VERSION
    ensures ws[i].client != ClientFailed(RejectedProtocol) && ws[i].server != ServerFailed(UnsupportedVersion)
  {
    JointAlways(p, register, ws, acts, i);
  }

  // ---- Admission ----

  // The server's step that reads the client's token and finds it among its own.
  predicate Authenticates(p: Params, s: System, a: Label) {
    && a.ServerStep? && s.server.ReadAuth? && !s.serverGone
    && s.toServer != [] && s.toServer[0] == Auth(p.token, p.nodeId)
    && s.relay.tokens.Authenticate(p.hash(p.token)).Some?
  }

  predicate Admitted(server: Server) {
    server.Loop? || server.Closed? || server == ServerFailed(NodeRejected) || (server.Writing? && server.next.Loop?)
  }

  lemma AdmissionAuthenticates(p: Params, register: Registrar, s: System, a: Label, t: System)
    requires Joint(p, s) && Next(p, register, s, a, t) && Admitted(t.server) && !Admitted(s.server)
    ensures Authenticates(p, s, a)
  {
  }

  lemma {:induction false} AdmittedAfterAuthentication(p: Params, register: Registrar, ws: seq<System>, acts: seq<Label>, i: nat)
    requires IsRun(p, register, ws, acts) && KeepsAddresses(register) && i < |ws| && Admitted(ws[i].server)
    ensures exists j | 0 <= j < i :: Authenticates(p, ws[j], acts[j])
  {
    assert i > 0;
    assert Next(p, register, ws[i - 1], acts[i - 1], ws[i - 1 + 1]);
    JointAlways(p, register, ws, acts, i - 1);
    if Admitted(ws[i - 1].server) {
      AdmittedAfterAuthentication(p, register, ws, acts, i - 1);
    } else {
      AdmissionAuthenticates(p, register, ws[i - 1], acts[i - 1], ws[i]);
    }
  }

  // A client that got past the handshake runs the server's version, and its token was one of the
  // server's at the step that read it.
  lemma HandshakeCompletesOnlyIf(p: Params, register: Registrar, ws: seq<System>, acts: seq<Label>, i: nat)
    requires IsRun(p, register, ws, acts) && KeepsAddresses(register) && i < |ws| && InLoop(ws[i].client)
    ensures p.clientVersion == p.serverVersion
    ensures exists j | 0 <= j < i :: Authenticates(p, ws[j], acts[j])
  {
    JointAlways(p, register, ws, acts, i);
    AdmittedAfterAuthentication(p, register, ws, acts, i);
  }

  // ---- What the connection is served as ----

  // The connection the server has admitted, as its handler remembers it.
  function Served(server: Server): Option<Conn> {
    match server
    case Loop(me) => Some(me)
    case Writing(_, Loop(me)) => Some(me)
    case _ => None
  }

  // The server's step that reads the client's token and finds it to be of this kind.
  predicate Grants(p: Params, s: System, a: Label, kind: TokenKind) {
    && a.ServerStep? && s.server.ReadAuth? && !s.serverGone
    && s.toServer != [] && s.toServer[0] == Auth(p.token, p.nodeId)
    && s.relay.tokens.Authenticate(p.hash(p.token)) == Some(kind)
  }

  ghost predicate WasGranted(p: Params, ws: seq<System>, acts: seq<Label>, i: nat, kind: TokenKind)
    requires i <= |acts| < |ws|
  {
    exists j: nat | j < i :: Grants(p, ws[j], acts[j], kind)
  }

  // A server step admits the connection as what it presented itself with, or goes on serving it.
  lemma StepServes(p: Params, register: Registrar, s: System, a: Label, t: System)
    requires Joint(p, s) && Next(p, register, s, a, t) && Served(t.server).Some?
    ensures var me := Served(t.server).value;
            if Served(s.server).Some? then me == Served(s.server).value.(registered := me.registered)
            else me == p.link.(nodeId := p.nodeId, kind := me.kind, registered := false) && Grants(p, s, a, me.kind)
  {
  }

  // In every run the server serves the connection under the node id the client sent, as the kind that an
  // earlier step found its token to be; an acceptance on its way names that kind.
  lemma {:induction false} ServedAsGranted(p: Params, register: Registrar, ws: seq<System>, acts: seq<Label>, i: nat)
    requires IsRun(p, register, ws, acts) && KeepsAddresses(register) && i < |ws| && Served(ws[i].server).Some?
    ensures var me := Served(ws[i].server).value;
            && me == p.link.(nodeId := p.nodeId, kind := me.kind, registered := me.registered)
            && WasGranted(p, ws, acts, i, me.kind)
  {
    assert i > 0;
    JointAlways(p, register, ws, acts, i - 1);
    assert Next(p, register, ws[i - 1], acts[i - 1], ws[i - 1 + 1]);
    StepServes(p, register, ws[i - 1], acts[i - 1], ws[i]);
    if Served(ws[i - 1].server).Some? {
      ServedAsGranted(p, register, ws, acts, i - 1);
    }
  }

  lemma AcceptanceNamesKind(p: Params, register: Registrar, ws: seq<System>, acts: seq<Label>, i: nat)
    requires IsRun(p, register, ws, acts) && KeepsAddresses(register) && i < |ws|
    ensures forall f | f in ws[i].toClient && f.AuthAccepted? :: WasGranted(p, ws, acts, i, f.kind)
    ensures ws[i].server.Writing? && ws[i].server.frame.AuthAccepted? ==> WasGranted(p, ws, acts, i, ws[i].server.frame.kind)
  {
    JointAlways(p, register, ws, acts, i);
    if Served(ws[i].server).Some? {
      ServedAsGranted(p, register, ws, acts, i);
    }
  }

  // So the session its RegisterNode enters is filed under that node, connection and kind.
  lemma SessionAsGranted(p: Params, register: Registrar, ws: seq<System>, acts: seq<Label>, i: nat)
    requires IsRun(p, register, ws, acts) && KeepsAddresses(register) && i < |acts|
    requires acts[i].ServerStep? && ws[i].server.Loop? && ws[i].toServer != [] && ws[i].toServer[0].RegisterNode?
    requires ws[i + 1].server.Loop?
    ensures var sessions := ws[i + 1].relay.sessions;
            && p.nodeId in sessions && sessions[p.nodeId].id == p.link.sessionId && sessions[p.nodeId].conn == p.link.handle
            && WasGranted(p, ws, acts, i, sessions[p.nodeId].kind)
  {
    ServedAsGranted(p, register, ws, acts, i);
    assert Next(p, register, ws[i], acts[i], ws[i + 1]);
    var me, f := ws[i].server.me, ws[i].toServer[0];
    RegistrationEnters(register, ws[i].relay, me, f, acts[i].clock);
  }

  lemma RegistrationEnters(register: Registrar, relay: Relay, me: Conn, f: Frame, clock: Clock)
    requires f.RegisterNode?
    ensures var h := HandleFrame(register, relay, me, f, clock);
            h.Continue? ==> me.nodeId in h.s.sessions && h.s.sessions[me.nodeId] == Session(me.sessionId, me.kind, me.handle)
  {
  }

  // ---- What ends a side ----

  // The client goes on only for the answer to what it sent; an answer that refuses it ends it as refused.
  lemma ClientGoesOnIff(p: Params, s: System, sampled: HeartbeatSnapshot, t: System)
    requires ClientMove(p, s, sampled) == Some(t) && Awaiting(s.client) && s.toClient != []
    ensures var f := s.toClient[0];
            && t.toClient == s.toClient[1..] && t.toServer == s.toServer
            && (!t.client.ClientFailed? <==>
                  || (s.client.AwaitHello? && f == Hello(p.clientVersion))
                  || (s.client.AwaitAuth? && f.AuthAccepted?)
                  || (s.client.AwaitService? && f.RegisterServiceAccepted?)
                  || (s.client.AwaitAck? && f.HeartbeatAck? && f.sequence == s.client.snapshot.sequence))
            && (t.client == ClientFailed(RejectedProtocol) <==> s.client.AwaitHello? && f.Error?)
            && (t.client == ClientFailed(RejectedToken) <==> s.client.AwaitAuth? && f.AuthRejected?)
            && (t.client == ClientFailed(RejectedService) <==> s.client.AwaitService? && f.Error?)
            && (t.client == ClientFailed(InvalidAck) ==> s.client.AwaitAck?)
            && (t.client == ClientFailed(InvalidHello) ==> s.client.AwaitHello?)
  {
  }

  // A handler that returns, and one over Yamux that fails, leaves no session of its own behind; a failing
  // one over QUIC leaves the relay as it is.
  lemma LoopEnds(p: Params, register: Registrar, s: System, clock: Clock, text: string, t: System)
    requires ServerMove(p, register, s, clock, text) == Some(t) && s.server.Loop?
    ensures var me := s.server.me;
            && (t.server.Closed? <==> s.toServer != [] && s.toServer[0].Goodbye?)
            && (t.server.Closed? || (t.server.ServerFailed? && me.transport.TcpTlsYamux?) ==> !Current(t.relay, me))
            && (t.server.ServerFailed? && me.transport.Quic? ==> t.relay == s.relay)
  {
  }

  // What the server writes in answer to each frame: a heartbeat's number with the time, the record accepted
  // for a service, an error otherwise; node data, withdrawals and Goodbye are not answered.
  lemma AnswersWritten(p: Params, register: Registrar, s: System, clock: Clock, text: string, t: System)
    requires ServerMove(p, register, s, clock, text) == Some(t) && s.server.Loop? && s.toServer != []
    ensures var f, me := s.toServer[0], s.server.me;
            var accepted := f.RegisterService? && me.registered && f.service.nodeId == me.nodeId && register(s.relay.ledger, f.service, me.nodeId).1.Ok?;
            && (t.server.Writing? <==> !f.RegisterNode? && !f.UnregisterService? && !f.Goodbye?)
            && (t.server.Writing? ==> t.server.next.Loop?)
            && (f.Heartbeat? ==> t.server.frame == HeartbeatAck(f.snapshot.sequence, clock.later))
            && (accepted ==> t.server.frame == RegisterServiceAccepted(register(s.relay.ledger, f.service, me.nodeId).1.value))
            && (t.server.Writing? && !f.Heartbeat? && !accepted ==> t.server.frame == Error(text))
  {
  }

  // ---- Heartbeat numbers ----

  // The heartbeats the client has written in the first n steps.
  function HeartbeatsWritten(ws: seq<System>, acts: seq<Label>, n: nat): nat
    requires n <= |acts| < |ws|
  {
    if n == 0 then 0
    else
      HeartbeatsWritten(ws, acts, n - 1)
      + (if acts[n - 1].ClientStep? && ws[n - 1].client.SendBeat? then 1 else 0)
  }

  // After that many heartbeats: each has been acknowledged, or the last, numbered with their count as a
  // `u64` that wraps, is awaiting it.
  predicate Counted(c: Client, written: nat) {
    match c
    case SendBeat(n) => written == n
    case AwaitAck(n, snapshot) => written == n + 1 && snapshot.sequence == written % 0x1_0000_0000_0000_0000
    case SendGoodbye => true
    case Finished => true
    case ClientFailed(_) => true
    case _ => written == 0
  }

  lemma StepCountsHeartbeats(p: Params, register: Registrar, s: System, a: Label, t: System, written: nat)
    requires Next(p, register, s, a, t) && Counted(s.client, written)
    ensures Counted(t.client, written + (if a.ClientStep? && s.client.SendBeat? then 1 else 0))
  {
  }

  // The heartbeats carry the numbers 1, 2, 3 and so on.
  lemma {:induction false} HeartbeatsNumbered(p: Params, register: Registrar, ws: seq<System>, acts: seq<Label>, i: nat)
    requires IsRun(p, register, ws, acts) && i < |ws|
    ensures Counted(ws[i].client, HeartbeatsWritten(ws, acts, i))
  {
    if i > 0 {
      HeartbeatsNumbered(p, register, ws, acts, i - 1);
      assert Next(p, register, ws[i - 1], acts[i - 1], ws[i - 1 + 1]);
      StepCountsHeartbeats(p, register, ws[i - 1], acts[i - 1], ws[i], HeartbeatsWritten(ws, acts, i - 1));
    }
  }

  // ---- Ends ----

  function Rank(c: Client): nat {
    match c
    case SendHello => 10
    case AwaitHello => 9
    case SendAuth => 8
    case AwaitAuth => 7
    case SendNode => 6
    case SendService => 5
    case AwaitService => 4
    case SendBeat(_) => 3
    case AwaitAck(_, _) => 2
    case SendGoodbye => 1
    case _ => 0
  }

  function Remaining(s: System): nat {
    4 * Rank(s.client) + 3 * |s.toServer| + |s.toClient| + (if s.server.Writing? then 2 else 0)
    + (if s.server.Closed? || s.server.ServerFailed? then 0 else 1)
    + (if s.clientGone then 0 else 1) + (if s.serverGone then 0 else 1)
  }

  lemma ClientApproachesEnd(p: Params, s: System, sampled: HeartbeatSnapshot, t: System)
    requires ClientMove(p, s, sampled) == Some(t) && p.once
    ensures Remaining(t) < Remaining(s)
  {
  }

  lemma ServerApproachesEnd(p: Params, register: Registrar, s: System, clock: Clock, text: string, t: System)
    requires ServerMove(p, register, s, clock, text) == Some(t) && Joint(p, s)
    ensures Remaining(t) < Remaining(s)
  {
  }

  // With `--once`, every step of either program brings the end nearer.
  lemma StepApproachesEnd(p: Params, register: Registrar, s: System, a: Label, t: System)
    requires Next(p, register, s, a, t) && p.once && Joint(p, s)
    ensures if a.Elsewhere? then Remaining(t) == Remaining(s) else Remaining(t) < Remaining(s)
  {
    match a
    case ClientStep(sampled) => ClientApproachesEnd(p, s, sampled, t);
    case ServerStep(clock, text) => ServerApproachesEnd(p, register, s, clock, text, t);
    case _ =>
  }

  // The steps of the two programs, and failures, among the first n.
  function OwnSteps(acts: seq<Label>, n: nat): nat
    requires n <= |acts|
  {
    if n == 0 then 0 else OwnSteps(acts, n - 1) + (if acts[n - 1].Elsewhere? then 0 else 1)
  }

  lemma {:induction false} OwnStepsBound(p: Params, register: Registrar, ws: seq<System>, acts: seq<Label>, n: nat)
    requires IsRun(p, register, ws, acts) && KeepsAddresses(register) && p.once && n <= |acts|
    ensures OwnSteps(acts, n) + Remaining(ws[n]) <= Remaining(ws[0])
  {
    if n > 0 {
      OwnStepsBound(p, register, ws, acts, n - 1);
      JointAlways(p, register, ws, acts, n - 1);
      assert Next(p, register, ws[n - 1], acts[n - 1], ws[n - 1 + 1]);
      StepApproachesEnd(p, register, ws[n - 1], acts[n - 1], ws[n]);
    }
  }

  // However others interleave, a run with `--once` has at most 43 steps of its own.
  lemma OnceRunsEnd(p: Params, register: Registrar, ws: seq<System>, acts: seq<Label>)
    requires IsRun(p, register, ws, acts) && KeepsAddresses(register) && p.once
    ensures OwnSteps(acts, |acts|) <= 43
  {
    OwnStepsBound(p, register, ws, acts, |acts|);
  }

  // How a run can end if no stream fails: both sides of each ending.
  predicate Outcome(p: Params, s: System) {
    || (p.once && s.client.Finished? && s.server.Closed?)
    || (p.clientVersion != p.serverVersion && s.client == ClientFailed(RejectedProtocol) && s.server == ServerFailed(UnsupportedVersion))
    || (p.clientVersion == p.serverVersion && s.client == ClientFailed(RejectedToken) && s.server == ServerFailed(AuthenticationRejected))
    || (p.clientVersion == p.serverVersion && p.service.Some? && s.client == ClientFailed(RejectedService) && s.serverGone)
    || (p.clientVersion == p.serverVersion && s.clientGone && s.server == ServerFailed(NodeRejected))
  }

  // Without failures a side finds its stream gone only because the other side left.
  predicate LeftBehind(s: System) {
    (s.clientGone ==> s.server == ServerFailed(NodeRejected)) && (s.serverGone ==> s.client == ClientFailed(RejectedService))
  }

  lemma StepLeavesBehind(p: Params, register: Registrar, s: System, a: Label, t: System)
    requires Joint(p, s) && LeftBehind(s) && Next(p, register, s, a, t) && !a.ClientLost? && !a.ServerLost?
    ensures LeftBehind(t)
  {
  }

  lemma {:induction false} LeftBehindAlways(p: Params, register: Registrar, ws: seq<System>, acts: seq<Label>, i: nat)
    requires IsRun(p, register, ws, acts) && KeepsAddresses(register) && i < |ws|
    requires forall a | a in acts :: !a.ClientLost? && !a.ServerLost?
    ensures LeftBehind(ws[i])
  {
    if i > 0 {
      LeftBehindAlways(p, register, ws, acts, i - 1);
      assert Next(p, register, ws[i - 1], acts[i - 1], ws[i - 1 + 1]) && acts[i - 1] in acts;
      JointAlways(p, register, ws, acts, i - 1);
      StepLeavesBehind(p, register, ws[i - 1], acts[i - 1], ws[i]);
    }
  }

  lemma EndsMatch(p: Params, register: Registrar, ws: seq<System>, acts: seq<Label>, i: nat)
    requires IsRun(p, register, ws, acts) && KeepsAddresses(register) && i < |ws|
    requires forall a | a in acts :: !a.ClientLost? && !a.ServerLost?
    ensures ClientOver(ws[i]) && ServerOver(ws[i]) <==> Outcome(p, ws[i])
  {
    JointAlways(p, register, ws, acts, i);
    LeftBehindAlways(p, register, ws, acts, i);
  }

  // ---- When a run succeeds ----

  // The server turns the client down: an unknown token, bad node data, or a service it does not accept.
  predicate TurnsDown(p: Params, register: Registrar, s: System, a: Label) {
    && a.ServerStep? && !s.serverGone && s.toServer != []
    && match s.server
       case ReadAuth => s.relay.tokens.Authenticate(p.hash(p.token)).None?
       case Loop(me) =>
         var f := s.toServer[0];
         || (f.RegisterNode? && !NodeAccepted(s.relay, me, f.metadata, f.publicKey))
         || (f.RegisterService? && !PublishService(register, s.relay, me, f.service, a.clock).1.ServiceAccepted?)
       case _ => false
  }

  // The client has been turned down, whether or not it knows yet.
  predicate TurnedDown(s: System) {
    || s.client.ClientFailed?
    || s.server.ServerFailed? || (s.server.Writing? && s.server.next.ServerFailed?)
    || (s.client.AwaitService? && s.server.Writing? && s.server.frame.Error?)
    || (s.client.AwaitService? && s.toClient != [] && s.toClient[0].Error?)
  }

  lemma ServiceFrameAnswer(register: Registrar, relay: Relay, me: Conn, f: Frame, clock: Clock)
    requires f.RegisterService?
    ensures var h := HandleFrame(register, relay, me, f, clock);
            h.Continue? && h.reply == Some(PublishService(register, relay, me, f.service, clock).1)
  {
  }

  lemma NodeFrameAnswer(register: Registrar, relay: Relay, me: Conn, f: Frame, clock: Clock)
    requires f.RegisterNode?
    ensures HandleFrame(register, relay, me, f, clock).Abandon? <==> !NodeAccepted(relay, me, f.metadata, f.publicKey)
  {
  }

  lemma LoopStepTurnsDown(p: Params, register: Registrar, s: System, a: Label, t: System)
    requires Joint(p, s) && Next(p, register, s, a, t) && a.ServerStep? && s.server.Loop? && s.toServer != []
    ensures TurnedDown(t) <==> TurnedDown(s) || TurnsDown(p, register, s, a)
  {
    var f := s.toServer[0];
    if f.RegisterNode? {
      NodeFrameAnswer(register, s.relay, s.server.me, f, a.clock);
      NodeFrame(register, s.relay, s.server.me, f, a.clock);
    } else if f.RegisterService? {
      ServiceFrameAnswer(register, s.relay, s.server.me, f, a.clock);
    } else if f.Heartbeat? {
      BeatFrame(register, s.relay, s.server.me, f, a.clock);
    }
  }

  lemma StepTurnsDown(p: Params, register: Registrar, s: System, a: Label, t: System)
    requires Joint(p, s) && Next(p, register, s, a, t) && p.clientVersion == p.serverVersion
    ensures TurnedDown(t) <==> TurnedDown(s) || TurnsDown(p, register, s, a)
  {
    if a.ServerStep? && s.server.Loop? && s.toServer != [] {
      LoopStepTurnsDown(p, register, s, a, t);
    }
  }

  ghost predicate EverTurnsDown(p: Params, register: Registrar, ws: seq<System>, acts: seq<Label>, i: nat)
    requires i <= |acts| < |ws|
  {
    exists j | 0 <= j < i :: TurnsDown(p, register, ws[j], acts[j])
  }

  lemma StepAtTurnsDown(p: Params, register: Registrar, ws: seq<System>, acts: seq<Label>, i: nat)
    requires IsRun(p, register, ws, acts) && KeepsAddresses(register) && i < |acts| && p.clientVersion == p.serverVersion
    ensures TurnedDown(ws[i + 1]) <==> TurnedDown(ws[i]) || TurnsDown(p, register, ws[i], acts[i])
  {
    JointAlways(p, register, ws, acts, i);
    assert Next(p, register, ws[i], acts[i], ws[i + 1]);
    StepTurnsDown(p, register, ws[i], acts[i], ws[i + 1]);
  }

  lemma {:induction false} TurnedDownIff(p: Params, register: Registrar, ws: seq<System>, acts: seq<Label>, i: nat)
    requires IsRun(p, register, ws, acts) && KeepsAddresses(register) && i < |ws| && p.clientVersion == p.serverVersion
    ensures TurnedDown(ws[i]) <==> EverTurnsDown(p, register, ws, acts, i)
  {
    if i > 0 {
      TurnedDownIff(p, register, ws, acts, i - 1);
      StepAtTurnsDown(p, register, ws, acts, i - 1);
    }
  }

  // A finished run of equal versions in which no stream failed ended well, the client done and its
  // Goodbye read, if and only if no step turned the client down.
  lemma EndsWellIff(p: Params, register: Registrar, ws: seq<System>, acts: seq<Label>, i: nat)
    requires IsRun(p, register, ws, acts) && KeepsAddresses(register) && i < |ws| && p.clientVersion == p.serverVersion
    requires forall a | a in acts :: !a.ClientLost? && !a.ServerLost?
    requires ClientOver(ws[i]) && ServerOver(ws[i])
    ensures ws[i].client.Finished? && ws[i].server.Closed? <==> forall j | 0 <= j < i :: !TurnsDown(p, register, ws[j], acts[j])
  {
    EndsMatch(p, register, ws, acts, i);
    TurnedDownIff(p, register, ws, acts, i);
    JointAlways(p, register, ws, acts, i);
  }

  // ---- The registrar of this server ----

  lemma RegistrarKeepsAddresses(cfg: Config)
    ensures KeepsAddresses(RegistrarOf(cfg))
  {
    forall l: Ledger, s: ServiceDefinition, n: Uuid | RegistrarOf(cfg)(l, s, n).1.Ok?
      ensures RegistrarOf(cfg)(l, s, n).1.value.localAddress == s.localAddress
    {
      PlacedRecord(cfg, l.table, Adopt(l.table, s, n));
    }
  }
}
