// The two transports do the same to the server, up to the transport tag and the connection handle.
module Transports {
  import opened Basics
  import opened Types
  import opened Validation
  import L = Ledger
  import opened Control

  function Untagged(nodes: map<Uuid, NodeRecord>): map<Uuid, NodeRecord> {
    map n | n in nodes :: nodes[n].(transport := Quic)
  }

  function Unhandled(sessions: map<Uuid, Session>): map<Uuid, Session> {
    map n | n in sessions :: sessions[n].(conn := 0)
  }

  // Everything but transport tags and connection handles.
  function Erased(s: Relay): Relay {
    s.(nodes := Untagged(s.nodes), storedNodes := Untagged(s.storedNodes), sessions := Unhandled(s.sessions), closed := {})
  }

  ghost predicate SameClient(me: Conn, you: Conn) {
    you == me.(handle := you.handle, transport := you.transport)
  }

  ghost predicate SameHandled(a: Handled, b: Handled) {
    match (a, b)
    case (Continue(s, r, p), Continue(t, q, o)) => Erased(s) == Erased(t) && r == q && p == o
    case (Leave(s), Leave(t)) => Erased(s) == Erased(t)
    case (Abandon(s), Abandon(t)) => Erased(s) == Erased(t)
    case _ => false
  }

  // The parts of equal erasures.
  lemma ErasedParts(s: Relay, t: Relay)
    requires Erased(s) == Erased(t)
    ensures s.tokens == t.tokens && s.storedTokens == t.storedTokens && s.ledger == t.ledger
    ensures s.metrics == t.metrics && s.events == t.events
    ensures Untagged(s.nodes) == Untagged(t.nodes) && Untagged(s.storedNodes) == Untagged(t.storedNodes)
    ensures Unhandled(s.sessions) == Unhandled(t.sessions)
  {
  }

  lemma UntaggedAt(a: map<Uuid, NodeRecord>, b: map<Uuid, NodeRecord>, n: Uuid)
    requires Untagged(a) == Untagged(b)
    ensures n in a <==> n in b
    ensures n in a ==> a[n].(transport := Quic) == b[n].(transport := Quic)
  {
    assert n in a <==> n in Untagged(a);
    assert n in b <==> n in Untagged(b);
    if n in a { assert Untagged(a)[n] == Untagged(b)[n]; }
  }

  lemma UntaggedPut(a: map<Uuid, NodeRecord>, b: map<Uuid, NodeRecord>, n: Uuid, x: NodeRecord, y: NodeRecord)
    requires Untagged(a) == Untagged(b) && x.(transport := Quic) == y.(transport := Quic)
    ensures Untagged(a[n := x]) == Untagged(b[n := y])
  {
    assert Untagged(a[n := x]) == Untagged(a)[n := x.(transport := Quic)];
    assert Untagged(b[n := y]) == Untagged(b)[n := y.(transport := Quic)];
  }

  lemma UnhandledAt(a: map<Uuid, Session>, b: map<Uuid, Session>, n: Uuid)
    requires Unhandled(a) == Unhandled(b)
    ensures n in a <==> n in b
    ensures n in a ==> a[n].id == b[n].id
  {
    assert n in a <==> n in Unhandled(a);
    assert n in b <==> n in Unhandled(b);
    if n in a { assert Unhandled(a)[n] == Unhandled(b)[n]; }
  }

  lemma ActivationAlike(s: Relay, t: Relay, me: Conn, you: Conn)
    requires Erased(s) == Erased(t) && SameClient(me, you)
    ensures Erased(ActivateSession(s, me)) == Erased(ActivateSession(t, you))
  {
    ErasedParts(s, t);
    var e := Session(me.sessionId, me.kind, 0);
    assert Unhandled(s.sessions[me.nodeId := Session(me.sessionId, me.kind, me.handle)]) == Unhandled(s.sessions)[me.nodeId := e];
    assert Unhandled(t.sessions[me.nodeId := Session(me.sessionId, me.kind, you.handle)]) == Unhandled(t.sessions)[me.nodeId := e];
  }

  lemma PutNodeAlike(s: Relay, t: Relay, x: NodeRecord, y: NodeRecord, e: Event)
    requires Erased(s) == Erased(t) && x.(transport := Quic) == y.(transport := Quic)
    ensures Erased(Record(PutNode(s, x), e)) == Erased(Record(PutNode(t, y), e))
  {
    ErasedParts(s, t);
    assert x.nodeId == x.(transport := Quic).nodeId == y.nodeId;
    UntaggedPut(s.nodes, t.nodes, x.nodeId, x, y);
    UntaggedPut(s.storedNodes, t.storedNodes, x.nodeId, x, y);
  }

  lemma NodeFrameAlike(s: Relay, t: Relay, me: Conn, you: Conn, metadata: NodeMetadata, key: Key32, clock: Clock)
    requires Erased(s) == Erased(t) && SameClient(me, you)
    ensures NodeAccepted(s, me, metadata, key) <==> NodeAccepted(t, you, metadata, key)
    ensures Erased(RegisteredNode(s, me, metadata, key, clock)) == Erased(RegisteredNode(t, you, metadata, key, clock))
  {
    ErasedParts(s, t);
    UntaggedAt(s.nodes, t.nodes, me.nodeId);
    ActivationAlike(s, t, me, you);
    PutNodeAlike(ActivateSession(s, me), ActivateSession(t, you), NewNode(me, metadata, key, clock.now),
                 NewNode(you, metadata, key, clock.now), Event(clock.later, NodeOnline, me.nodeId, None));
  }

  lemma HeartbeatAlike(s: Relay, t: Relay, nodeId: Uuid, snapshot: HeartbeatSnapshot, now: i64)
    requires Erased(s) == Erased(t)
    ensures Erased(RecordHeartbeat(s, nodeId, snapshot, now)) == Erased(RecordHeartbeat(t, nodeId, snapshot, now))
  {
    ErasedParts(s, t);
    UntaggedAt(s.nodes, t.nodes, nodeId);
    if nodeId in s.nodes {
      var rtt := RoundTrip(now, snapshot.sentAt);
      var x, y := Beaten(s.nodes[nodeId], now, rtt), Beaten(t.nodes[nodeId], now, rtt);
      assert x.nodeId == y.nodeId by { assert s.nodes[nodeId].(transport := Quic).nodeId == t.nodes[nodeId].(transport := Quic).nodeId; }
      UntaggedPut(s.nodes, t.nodes, nodeId, x, y);
      UntaggedPut(s.storedNodes, t.storedNodes, x.nodeId, x, y);
    }
  }

  // What depends on the services alone depends on nothing that is erased.
  lemma LedgerAlike(s: Relay, t: Relay, l: L.Ledger, events: multiset<Event>)
    requires Erased(s) == Erased(t)
    ensures Erased(s.(ledger := l, events := events)) == Erased(t.(ledger := l, events := events))
  {
    ErasedParts(s, t);
  }

  lemma PublishAlike(register: Registrar, s: Relay, t: Relay, me: Conn, you: Conn, service: ServiceDefinition, clock: Clock)
    requires Erased(s) == Erased(t) && SameClient(me, you)
    ensures var (a, p) := PublishService(register, s, me, service, clock);
            var (b, q) := PublishService(register, t, you, service, clock);
            Erased(a) == Erased(b) && p == q
  {
    ErasedParts(s, t);
    var (l, r) := register(s.ledger, service, me.nodeId);
    LedgerAlike(s, t, l, s.events);
    if r.Ok? {
      LedgerAlike(s, t, l, s.events + multiset{Event(clock.later, ServiceRegistered, me.nodeId, Some(r.value.serviceId))});
    }
  }

  lemma WithdrawAlike(s: Relay, t: Relay, me: Conn, you: Conn, id: Uuid, clock: Clock)
    requires Erased(s) == Erased(t) && SameClient(me, you)
    ensures Erased(WithdrawService(s, me, id, clock)) == Erased(WithdrawService(t, you, id, clock))
  {
    ErasedParts(s, t);
    LedgerAlike(s, t, L.Unregistered(s.ledger, id, me.nodeId),
                s.events + multiset{Event(clock.later, ServiceDeleted, me.nodeId, Some(id))});
  }

  lemma ServiceFrameAlike(register: Registrar, s: Relay, t: Relay, me: Conn, you: Conn, f: Frame, clock: Clock)
    requires Erased(s) == Erased(t) && SameClient(me, you) && (f.RegisterService? || f.UnregisterService?)
    ensures SameHandled(HandleFrame(register, s, me, f, clock), HandleFrame(register, t, you, f, clock))
  {
    if f.RegisterService? {
      PublishAlike(register, s, t, me, you, f.service, clock);
    } else {
      WithdrawAlike(s, t, me, you, f.serviceId, clock);
    }
  }

  lemma NodeFrameHandledAlike(register: Registrar, s: Relay, t: Relay, me: Conn, you: Conn, f: Frame, clock: Clock)
    requires Erased(s) == Erased(t) && SameClient(me, you) && f.RegisterNode?
    ensures SameHandled(HandleFrame(register, s, me, f, clock), HandleFrame(register, t, you, f, clock))
  {
    NodeFrameAlike(s, t, me, you, f.metadata, f.publicKey, clock);
  }

  lemma OtherFrameAlike(register: Registrar, s: Relay, t: Relay, me: Conn, you: Conn, f: Frame, clock: Clock)
    requires Erased(s) == Erased(t) && SameClient(me, you)
    requires !f.RegisterNode? && !f.RegisterService? && !f.UnregisterService?
    ensures SameHandled(HandleFrame(register, s, me, f, clock), HandleFrame(register, t, you, f, clock))
  {
    if f.Heartbeat? {
      HeartbeatAlike(s, t, me.nodeId, f.snapshot, clock.now);
    }
  }

  lemma FrameAlike(register: Registrar, s: Relay, t: Relay, me: Conn, you: Conn, f: Frame, clock: Clock)
    requires Erased(s) == Erased(t) && SameClient(me, you)
    ensures SameHandled(HandleFrame(register, s, me, f, clock), HandleFrame(register, t, you, f, clock))
  {
    var a, b := HandleFrame(register, s, me, f, clock), HandleFrame(register, t, you, f, clock);
    assert SameHandled(a, b) by {
      if f.RegisterService? || f.UnregisterService? {
        ServiceFrameAlike(register, s, t, me, you, f, clock);
      } else if f.RegisterNode? {
        NodeFrameHandledAlike(register, s, t, me, you, f, clock);
      } else {
        OtherFrameAlike(register, s, t, me, you, f, clock);
      }
    }
  }

  // The same frames at the same clock readings give the same replies, the same kind of ending, and the
  // same state when the loop ends, however it ends.
  lemma {:induction false} LoopsAlike(register: Registrar, s: Relay, t: Relay, me: Conn, you: Conn, inbox: seq<(Frame, Clock)>)
    requires Erased(s) == Erased(t) && SameClient(me, you)
    ensures var a, b := ServeFrames(register, s, me, inbox), ServeFrames(register, t, you, inbox);
            a.replies == b.replies && a.goodbye == b.goodbye && Erased(a.s) == Erased(b.s)
    decreases |inbox|
  {
    if inbox != [] {
      FrameAlike(register, s, t, me, you, inbox[0].0, inbox[0].1);
      var a := HandleFrame(register, s, me, inbox[0].0, inbox[0].1);
      var b := HandleFrame(register, t, you, inbox[0].0, inbox[0].1);
      if a.Continue? {
        LoopsAlike(register, a.s, b.s, me.(registered := a.registered), you.(registered := a.registered), inbox[1..]);
      }
    }
  }

  lemma TeardownAlike(s: Relay, t: Relay, me: Conn, you: Conn, now: i64)
    requires Erased(s) == Erased(t) && SameClient(me, you)
    ensures Erased(Teardown(s, me, now)) == Erased(Teardown(t, you, now))
    ensures Current(s, me) <==> Current(t, you)
  {
    ErasedParts(s, t);
    UnhandledAt(s.sessions, t.sessions, me.nodeId);
    UntaggedAt(s.nodes, t.nodes, me.nodeId);
    assert Unhandled(s.sessions - {me.nodeId}) == Unhandled(s.sessions) - {me.nodeId};
    assert Unhandled(t.sessions - {me.nodeId}) == Unhandled(t.sessions) - {me.nodeId};
    if Current(s, me) && me.nodeId in s.nodes {
      var x, y := s.nodes[me.nodeId].(status := Offline), t.nodes[me.nodeId].(status := Offline);
      assert x.nodeId == y.nodeId by { assert s.nodes[me.nodeId].(transport := Quic).nodeId == t.nodes[me.nodeId].(transport := Quic).nodeId; }
      UntaggedPut(s.nodes, t.nodes, me.nodeId, x, y);
      UntaggedPut(s.storedNodes, t.storedNodes, x.nodeId, x, y);
    }
  }

  lemma TeardownShows(s: Relay, me: Conn, now: i64)
    requires Current(s, me)
    ensures Erased(Teardown(s, me, now)) != Erased(s)
  {
    var t := Teardown(s, me, now);
    if Erased(t) == Erased(s) {
      ErasedParts(t, s);
      UnhandledAt(t.sessions, s.sessions, me.nodeId);
    }
  }

  // ---- How a session ends, read off its input ----

  function KnownKey(s: Relay, nodeId: Uuid): Option<Key32> {
    if nodeId in s.nodes then s.nodes[nodeId].publicKey else None
  }

  // The key of the first RegisterNode.
  function FirstKey(inbox: seq<(Frame, Clock)>): Option<Key32>
    decreases |inbox|
  {
    if inbox == [] then None
    else if inbox[0].0.RegisterNode? then Some(inbox[0].0.publicKey)
    else FirstKey(inbox[1..])
  }

  // The key every RegisterNode of the session must carry: the one on record, or else the first one sent.
  function SessionKey(known: Option<Key32>, inbox: seq<(Frame, Clock)>): Option<Key32> {
    if known.Some? then known else FirstKey(inbox)
  }

  // The frame is a RegisterNode with valid metadata and the session's key.
  predicate Registers(key: Option<Key32>, f: Frame) {
    f.RegisterNode? && ValidMetadata(f.metadata.metadata) && key == Some(f.publicKey)
  }

  predicate Passes(key: Option<Key32>, f: Frame) {
    f.RegisterNode? ==> Registers(key, f)
  }

  // The client says Goodbye, and every RegisterNode before that is acceptable.
  ghost predicate SaysGoodbye(key: Option<Key32>, inbox: seq<(Frame, Clock)>) {
    exists i :: 0 <= i < |inbox| && inbox[i].0.Goodbye? && forall j | 0 <= j < i :: Passes(key, inbox[j].0)
  }

  // The client sends an acceptable RegisterNode before any Goodbye and any unacceptable one.
  ghost predicate RegistersNode(key: Option<Key32>, inbox: seq<(Frame, Clock)>) {
    exists i :: 0 <= i < |inbox| && Registers(key, inbox[i].0) && GoesOn(key, inbox, i)
  }

  ghost predicate GoesOn(key: Option<Key32>, inbox: seq<(Frame, Clock)>, i: nat)
    requires i <= |inbox|
  {
    forall j | 0 <= j < i :: Passes(key, inbox[j].0) && !inbox[j].0.Goodbye?
  }

  lemma GoesOnFirst(key: Option<Key32>, inbox: seq<(Frame, Clock)>, i: nat)
    requires i < |inbox|
    ensures GoesOn(key, inbox, i + 1) <==> Passes(key, inbox[0].0) && !inbox[0].0.Goodbye? && GoesOn(key, inbox[1..], i)
  {
    var rest := inbox[1..];
    assert forall j | 0 <= j < i :: rest[j] == inbox[j + 1];
    if GoesOn(key, rest, i) {
      assert forall j | 0 < j < i + 1 :: inbox[j] == rest[j - 1];
    }
  }

  // Both conditions, by the first frame.
  lemma SaysGoodbyeFirst(key: Option<Key32>, inbox: seq<(Frame, Clock)>)
    requires inbox != []
    ensures SaysGoodbye(key, inbox) <==> inbox[0].0.Goodbye? || (Passes(key, inbox[0].0) && SaysGoodbye(key, inbox[1..]))
  {
    var rest := inbox[1..];
    if i :| 0 <= i < |inbox| && inbox[i].0.Goodbye? && forall j | 0 <= j < i :: Passes(key, inbox[j].0) {
      if i > 0 {
        assert rest[i - 1] == inbox[i] && forall j | 0 <= j < i - 1 :: rest[j] == inbox[j + 1];
        assert SaysGoodbye(key, rest);
      }
    }
    if Passes(key, inbox[0].0) && SaysGoodbye(key, rest) {
      var i :| 0 <= i < |rest| && rest[i].0.Goodbye? && forall j | 0 <= j < i :: Passes(key, rest[j].0);
      assert inbox[i + 1].0.Goodbye? && forall j | 0 < j < i + 1 :: inbox[j] == rest[j - 1];
    }
  }

  lemma RegistersLater(key: Option<Key32>, inbox: seq<(Frame, Clock)>)
    requires inbox != [] && !inbox[0].0.RegisterNode? && !inbox[0].0.Goodbye? && RegistersNode(key, inbox[1..])
    ensures RegistersNode(key, inbox)
  {
    var rest := inbox[1..];
    var i :| 0 <= i < |rest| && Registers(key, rest[i].0) && GoesOn(key, rest, i);
    GoesOnFirst(key, inbox, i);
    assert Registers(key, inbox[i + 1].0) && GoesOn(key, inbox, i + 1);
  }

  lemma RegistersInRest(key: Option<Key32>, inbox: seq<(Frame, Clock)>, i: nat)
    requires 0 < i < |inbox| && Registers(key, inbox[i].0) && GoesOn(key, inbox, i)
    ensures Passes(key, inbox[0].0) && !inbox[0].0.Goodbye? && RegistersNode(key, inbox[1..])
  {
    GoesOnFirst(key, inbox, i - 1);
    assert Registers(key, inbox[1..][i - 1].0) && GoesOn(key, inbox[1..], i - 1);
  }

  lemma RegistersNodeFirst(key: Option<Key32>, inbox: seq<(Frame, Clock)>)
    requires inbox != []
    ensures RegistersNode(key, inbox) <==>
              Registers(key, inbox[0].0) || (!inbox[0].0.RegisterNode? && !inbox[0].0.Goodbye? && RegistersNode(key, inbox[1..]))
  {
    if Registers(key, inbox[0].0) {
      assert GoesOn(key, inbox, 0);
    } else if RegistersNode(key, inbox) {
      var i :| 0 <= i < |inbox| && Registers(key, inbox[i].0) && GoesOn(key, inbox, i);
      RegistersInRest(key, inbox, i);
    } else if !inbox[0].0.RegisterNode? && !inbox[0].0.Goodbye? && RegistersNode(key, inbox[1..]) {
      RegistersLater(key, inbox);
    }
  }

  // What one frame does to the sender's session and to its key on record.
  lemma RegisterNodeFrame(register: Registrar, s: Relay, me: Conn, f: Frame, clock: Clock)
    requires f.RegisterNode?
    ensures var h := HandleFrame(register, s, me, f, clock);
            if NodeAccepted(s, me, f.metadata, f.publicKey)
            then h.Continue? && Current(h.s, me) && KnownKey(h.s, me.nodeId) == Some(f.publicKey)
            else h == Abandon(s)
  {
  }

  lemma OtherFrame(register: Registrar, s: Relay, me: Conn, f: Frame, clock: Clock)
    requires !f.RegisterNode?
    ensures var h := HandleFrame(register, s, me, f, clock);
            && (if f.Goodbye? then h == Leave(s) else h.Continue?)
            && (Current(h.s, me) <==> Current(s, me)) && KnownKey(h.s, me.nodeId) == KnownKey(s, me.nodeId)
  {
  }

  lemma AcceptedIff(s: Relay, me: Conn, f: Frame)
    requires f.RegisterNode?
    ensures var known := KnownKey(s, me.nodeId);
            NodeAccepted(s, me, f.metadata, f.publicKey)
            <==> Registers(if known.Some? then known else Some(f.publicKey), f)
  {
  }

  lemma {:induction false} EndingFromInput(register: Registrar, s: Relay, me: Conn, inbox: seq<(Frame, Clock)>)
    ensures var e := ServeFrames(register, s, me, inbox);
            var key := SessionKey(KnownKey(s, me.nodeId), inbox);
            && (e.goodbye <==> SaysGoodbye(key, inbox))
            && (Current(e.s, me) <==> Current(s, me) || RegistersNode(key, inbox))
    decreases |inbox|
  {
    if inbox != [] {
      var (f, clock) := inbox[0];
      var key := SessionKey(KnownKey(s, me.nodeId), inbox);
      var h := HandleFrame(register, s, me, f, clock);
      SaysGoodbyeFirst(key, inbox);
      RegistersNodeFirst(key, inbox);
      if f.RegisterNode? {
        RegisterNodeFrame(register, s, me, f, clock);
        AcceptedIff(s, me, f);
      } else {
        OtherFrame(register, s, me, f, clock);
      }
      if h.Continue? {
        EndingFromInput(register, h.s, me.(registered := h.registered), inbox[1..]);
      }
    }
  }

  // After the whole session the two servers are alike exactly if the client said Goodbye with all its
  // RegisterNode frames before that acceptable, or never had a session to tear down: none at the start
  // and no acceptable RegisterNode. Only an abnormal end of a QUIC session that exists differs.
  lemma SessionsAlikeIff(register: Registrar, s: Relay, yamux: Conn, quic: Conn, inbox: seq<(Frame, Clock)>, now: i64)
    requires yamux.transport.TcpTlsYamux? && quic.transport.Quic? && SameClient(yamux, quic)
    ensures var a, b := ServeAndExit(register, s, yamux, inbox, now), ServeAndExit(register, s, quic, inbox, now);
            var key := SessionKey(KnownKey(s, quic.nodeId), inbox);
            && a.replies == b.replies && a.goodbye == b.goodbye
            && (Erased(a.s) == Erased(b.s) <==> SaysGoodbye(key, inbox) || (!Current(s, quic) && !RegistersNode(key, inbox)))
  {
    LoopsAlike(register, s, s, yamux, quic, inbox);
    EndingFromInput(register, s, quic, inbox);
    var a, b := ServeFrames(register, s, yamux, inbox), ServeFrames(register, s, quic, inbox);
    TeardownAlike(a.s, b.s, yamux, quic, now);
    if !b.goodbye && Current(b.s, quic) {
      TeardownShows(a.s, yamux, now);
    }
  }

  // The failing input: a new node registers over QUIC and its stream ends. Its entry and its Online status
  // stay, while the same input over Yamux removes the entry and takes the node offline.
  lemma QuicErrorLeavesSession(register: Registrar, s: Relay, yamux: Conn, quic: Conn, metadata: NodeMetadata, key: Key32, clock: Clock, now: i64)
    requires yamux.transport.TcpTlsYamux? && quic.transport.Quic? && SameClient(yamux, quic)
    requires ValidMetadata(metadata.metadata) && quic.nodeId !in s.nodes
    ensures var inbox := [(RegisterNode(metadata, key), clock)];
            var a, b := ServeAndExit(register, s, yamux, inbox, now).s, ServeAndExit(register, s, quic, inbox, now).s;
            var n := quic.nodeId;
            && n in b.sessions && n in b.nodes && b.nodes[n].status.Online?
            && n !in a.sessions && n in a.nodes && a.nodes[n].status.Offline?
  {
    var f := RegisterNode(metadata, key);
    OneFrame(register, s, quic, f, clock);
    OneFrame(register, s, yamux, f, clock);
    assert NodeAccepted(s, quic, metadata, key) && NodeAccepted(s, yamux, metadata, key);
  }

  lemma OneFrame(register: Registrar, s: Relay, me: Conn, f: Frame, clock: Clock)
    requires f.RegisterNode? && NodeAccepted(s, me, f.metadata, f.publicKey)
    ensures ServeFrames(register, s, me, [(f, clock)]) == Ending(RegisteredNode(s, me, f.metadata, f.publicKey, clock), [], false)
  {
    var inbox := [(f, clock)];
    assert inbox[1..] == [];
    var t := RegisteredNode(s, me, f.metadata, f.publicKey, clock);
    assert HandleFrame(register, s, me, f, clock) == Continue(t, true, None);
    assert ServeFrames(register, t, me.(registered := true), inbox[1..]) == Ending(t, [], false);
  }
}
