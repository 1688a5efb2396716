// The two session handlers and the token handler as the source writes them: loops that update the
// locked maps and the store in place. Both handlers are proved against the one control loop of Control.
module RelayServer {
  import opened Basics
  import opened Types
  import opened Validation
  import opened RelayRegistry
  import C = Control

  type Inbox = seq<(Frame, C.Clock)>

  ghost function Prefixed(replies: seq<C.Reply>, e: C.Ending): C.Ending {
    e.(replies := replies + e.replies)
  }

  function Replies(reply: Option<C.Reply>): seq<C.Reply> {
    if reply.Some? then [reply.value] else []
  }

  lemma ServeFirst(register: C.Registrar, s: C.Relay, me: C.Conn, inbox: Inbox)
    requires inbox != []
    ensures match C.HandleFrame(register, s, me, inbox[0].0, inbox[0].1)
            case Continue(t, registered, reply) =>
              C.ServeFrames(register, s, me, inbox)
              == Prefixed(Replies(reply), C.ServeFrames(register, t, me.(registered := registered), inbox[1..]))
            case Leave(t) => C.ServeFrames(register, s, me, inbox) == C.Ending(t, [], true)
            case Abandon(t) => C.ServeFrames(register, s, me, inbox) == C.Ending(t, [], false)
  {
  }

  lemma PrefixedTwice(a: seq<C.Reply>, b: seq<C.Reply>, e: C.Ending)
    ensures Prefixed(a, Prefixed(b, e)) == Prefixed(a + b, e)
    ensures e.replies == [] ==> Prefixed(a, e) == e.(replies := a)
  {
    assert a + (b + e.replies) == a + b + e.replies;
  }

  datatype Fate = Stay | LeaveLoop | AbandonLoop

  // What a handler did with one frame, in the terms of the control loop.
  ghost function AsHandled(s: C.Relay, registered: bool, reply: Option<C.Reply>, fate: Fate): C.Handled {
    match fate
    case Stay => C.Continue(s, registered, reply)
    case LeaveLoop => C.Leave(s)
    case AbandonLoop => C.Abandon(s)
  }

  lemma ConnsOfStep(sessions: map<Uuid, C.Session>, gone: set<Uuid>, n: Uuid)
    requires gone <= sessions.Keys && n in sessions
    ensures C.ConnsOf(sessions, gone + {n}) == C.ConnsOf(sessions, gone) + {sessions[n].conn}
  {
  }

  lemma SetOfflineStep(nodes: map<Uuid, NodeRecord>, gone: set<Uuid>, n: Uuid)
    requires n !in gone
    ensures C.SetOffline(nodes, gone + {n})
            == if n in nodes then C.SetOffline(nodes, gone)[n := nodes[n].(status := Offline)] else C.SetOffline(nodes, gone)
  {
  }

  // One turn of a session's loop, against what was to be served before it.
  lemma LoopTurn(register: C.Registrar, before: C.Relay, after: C.Relay, me: C.Conn, inbox: Inbox, i: nat, replies: seq<C.Reply>,
                 registered: bool, reply: Option<C.Reply>, fate: Fate)
    requires i < |inbox|
    requires AsHandled(after, registered, reply, fate) == C.HandleFrame(register, before, me, inbox[i].0, inbox[i].1)
    ensures var whole := Prefixed(replies, C.ServeFrames(register, before, me, inbox[i..]));
            match fate
            case Stay =>
              whole == Prefixed(replies + Replies(reply), C.ServeFrames(register, after, me.(registered := registered), inbox[i + 1..]))
            case LeaveLoop => whole == C.Ending(after, replies, true)
            case AbandonLoop => whole == C.Ending(after, replies, false)
  {
    var rest := inbox[i..];
    assert rest[0] == inbox[i] && rest[1..] == inbox[i + 1..];
    ServeFirst(register, before, me, rest);
    match fate
    case Stay => PrefixedTwice(replies, Replies(reply), C.ServeFrames(register, after, me.(registered := registered), rest[1..]));
    case _ => PrefixedTwice(replies, [], C.ServeFrames(register, before, me, rest));
  }

  lemma LoopEnds(register: C.Registrar, s: C.Relay, me: C.Conn, inbox: Inbox, replies: seq<C.Reply>)
    ensures Prefixed(replies, C.ServeFrames(register, s, me, inbox[|inbox|..])) == C.Ending(s, replies, false)
  {
    assert replies + [] == replies;
  }

  // Recording one more offline node adds its event.
  lemma OfflineEventsStep(known: set<Uuid>, gone: set<Uuid>, n: Uuid, now: i64)
    requires n !in gone
    ensures C.OfflineEvents(known, gone + {n}, now)
            == C.OfflineEvents(known, gone, now) + (if n in known then multiset{C.Event(now, C.NodeOffline, n, None)} else multiset{})
  {
    var before := set m | m in gone && m in known :: C.Event(now, C.NodeOffline, m, None);
    var after := set m | m in gone + {n} && m in known :: C.Event(now, C.NodeOffline, m, None);
    var e := C.Event(now, C.NodeOffline, n, None);
    if n in known {
      assert e !in before;
      assert after == before + {e};
    } else {
      assert after == before;
    }
  }

  // Storing one more offline node writes its record.
  lemma StoreAllStep(stored: map<Uuid, NodeRecord>, nodes: map<Uuid, NodeRecord>, gone: set<Uuid>, n: Uuid)
    requires n in nodes ==> nodes[n].status.Offline?
    ensures C.StoreAll(stored, nodes, gone + {n})
            == if n in nodes then C.StoreAll(stored, nodes, gone)[n := nodes[n]] else C.StoreAll(stored, nodes, gone)
  {
    assert n in nodes ==> nodes[n].(status := Offline) == nodes[n];
  }

  class RelayServer {
    const registry: ServiceRegistry
    var tokens: C.TokenState
    var storedTokens: Option<C.TokenState>
    var nodes: map<Uuid, NodeRecord>
    var storedNodes: map<Uuid, NodeRecord>
    var sessions: map<Uuid, C.Session>
    var closed: set<nat>
    var metrics: seq<NodeMetric>
    var events: multiset<C.Event>

    ghost function View(): C.Relay
      reads this, registry
    {
      C.Relay(tokens, storedTokens, nodes, storedNodes, sessions, closed, registry.View(), metrics, events)
    }

    // `load_or_initialize_tokens` and `load_nodes` on a database a previous process left behind.
    constructor Open(registry: ServiceRegistry, ghost before: C.Relay, stored: Option<C.TokenState>, nodes: map<Uuid, NodeRecord>,
                     adminHash: C.Hash, userHash: C.Hash, metrics: seq<NodeMetric>, events: multiset<C.Event>)
      requires before.storedTokens == stored && before.storedNodes == nodes
      requires before.metrics == metrics && before.events == events
      ensures this.registry == registry
      ensures View() == C.Restarted(before, adminHash, userHash).(ledger := registry.View())
    {
      this.registry := registry;
      var loaded := if stored.Some? then stored.value else C.TokenState(Some(adminHash), Some(userHash));
      tokens := loaded;
      storedTokens := Some(loaded);
      this.nodes := nodes;
      storedNodes := nodes;
      sessions := map[];
      closed := {};
      this.metrics := metrics;
      this.events := events;
    }

    method PutNode(n: NodeRecord)
      modifies this`storedNodes
      ensures storedNodes == old(storedNodes)[n.nodeId := n]
    {
      storedNodes := storedNodes[n.nodeId := n];
    }

    method RecordEvent(e: C.Event)
      modifies this`events
      ensures events == old(events) + multiset{e}
    {
      events := events + multiset{e};
    }

    method ActivateSession(me: C.Conn)
      modifies this`sessions, this`closed
      ensures View() == C.ActivateSession(old(View()), me)
    {
      if me.nodeId in sessions {
        closed := closed + {sessions[me.nodeId].conn};
      }
      sessions := sessions[me.nodeId := C.Session(me.sessionId, me.kind, me.handle)];
    }

    method RegisterNode(me: C.Conn, metadata: NodeMetadata, key: Key32, clock: C.Clock) returns (ok: bool)
      modifies this`sessions, this`closed, this`nodes, this`storedNodes, this`events
      ensures ok <==> C.NodeAccepted(old(View()), me, metadata, key)
      ensures View() == if ok then C.RegisteredNode(old(View()), me, metadata, key, clock) else old(View())
    {
      var invalid := ValidateMetadata(metadata.metadata);
      AcceptedIffValid(metadata.metadata, invalid);
      if invalid.Some? {
        return false;
      }
      if me.nodeId in nodes && nodes[me.nodeId].publicKey.Some? && nodes[me.nodeId].publicKey.value != key {
        return false;
      }
      ActivateSession(me);
      var node := C.NewNode(me, metadata, key, clock.now);
      nodes := nodes[me.nodeId := node];
      PutNode(node);
      RecordEvent(C.Event(clock.later, C.NodeOnline, me.nodeId, None));
      return true;
    }

    method PublishService(me: C.Conn, service: ServiceDefinition, clock: C.Clock) returns (reply: C.Reply)
      modifies this`events, registry`services, registry`store, registry`tasks
      ensures (View(), reply) == C.PublishService(C.RegistrarOf(registry.cfg), old(View()), me, service, clock)
    {
      if !me.registered || service.nodeId != me.nodeId {
        return C.NodeNotRegistered;
      }
      var r := registry.RegisterService(service, me.nodeId);
      match r {
        case Err(e) => return C.ServiceRefused(e);
        case Ok(accepted) =>
          RecordEvent(C.Event(clock.later, C.ServiceRegistered, me.nodeId, Some(accepted.serviceId)));
          return C.ServiceAccepted(accepted);
      }
    }

    method WithdrawService(me: C.Conn, serviceId: Uuid, clock: C.Clock)
      modifies this`events, registry`services, registry`store, registry`tasks
      ensures View() == C.WithdrawService(old(View()), me, serviceId, clock)
    {
      var owned := serviceId in registry.services && registry.services[serviceId].nodeId == me.nodeId;
      registry.UnregisterService(serviceId, me.nodeId);
      if owned {
        RecordEvent(C.Event(clock.later, C.ServiceDeleted, me.nodeId, Some(serviceId)));
      }
    }

    method RecordHeartbeat(nodeId: Uuid, snapshot: HeartbeatSnapshot, now: i64)
      modifies this`nodes, this`storedNodes, this`metrics
      ensures View() == C.RecordHeartbeat(old(View()), nodeId, snapshot, now)
    {
      var rtt := C.RoundTrip(now, snapshot.sentAt);
      if nodeId in nodes {
        var node := nodes[nodeId].(status := Online, lastHeartbeatAt := Some(now), rttMs := Some(rtt));
        nodes := nodes[nodeId := node];
        PutNode(node);
        metrics := metrics + [NodeMetric(nodeId, now, Some(rtt), snapshot)];
      }
    }

    method EndSession(me: C.Conn, now: i64)
      modifies this`sessions, this`nodes, this`storedNodes, this`events
      ensures View() == C.Teardown(old(View()), me, now)
    {
      var active := me.nodeId in sessions && sessions[me.nodeId].id == me.sessionId;
      if active {
        sessions := sessions - {me.nodeId};
        if me.nodeId in nodes {
          var node := nodes[me.nodeId].(status := Offline);
          nodes := nodes[me.nodeId := node];
          PutNode(node);
          RecordEvent(C.Event(now, C.NodeOffline, me.nodeId, None));
        }
      }
    }

    // One turn of the Yamux loop.
    method YamuxFrame(me: C.Conn, frame: Frame, clock: C.Clock)
        returns (registered: bool, reply: Option<C.Reply>, fate: Fate)
      modifies this`sessions, this`closed, this`nodes, this`storedNodes, this`events, this`metrics
      modifies registry`services, registry`store, registry`tasks
      ensures AsHandled(View(), registered, reply, fate) == C.HandleFrame(C.RegistrarOf(registry.cfg), old(View()), me, frame, clock)
    {
      registered, reply, fate := me.registered, None, Stay;
      match frame {
        case RegisterNode(metadata, key) =>
          var ok := RegisterNode(me, metadata, key, clock);
          registered, fate := true, if ok then Stay else AbandonLoop;
        case RegisterService(service) =>
          var r := PublishService(me, service, clock);
          reply := Some(r);
        case UnregisterService(serviceId) =>
          WithdrawService(me, serviceId, clock);
        case Heartbeat(snapshot) =>
          RecordHeartbeat(me.nodeId, snapshot, clock.now);
          reply := Some(C.Ack(snapshot.sequence, clock.later));
        case Goodbye =>
          fate := LeaveLoop;
        case _ =>
          reply := Some(C.Unsupported);
      }
    }

    // The QUIC loop's own copy of the heartbeat.
    method QuicHeartbeat(me: C.Conn, snapshot: HeartbeatSnapshot, clock: C.Clock)
      modifies this`nodes, this`storedNodes, this`metrics
      ensures View() == C.RecordHeartbeat(old(View()), me.nodeId, snapshot, clock.now)
    {
      var recordedAt := clock.now;
      var rtt := C.RoundTrip(recordedAt, snapshot.sentAt);
      var updated: Option<NodeRecord> := None;
      if me.nodeId in nodes {
        nodes := nodes[me.nodeId := nodes[me.nodeId].(status := Online, lastHeartbeatAt := Some(recordedAt), rttMs := Some(rtt))];
        updated := Some(nodes[me.nodeId]);
      }
      if updated.Some? {
        PutNode(updated.value);
        metrics := metrics + [NodeMetric(me.nodeId, recordedAt, Some(rtt), snapshot)];
      }
    }

    // One turn of the QUIC loop.
    method QuicFrame(me: C.Conn, frame: Frame, clock: C.Clock)
        returns (registered: bool, reply: Option<C.Reply>, fate: Fate)
      modifies this`sessions, this`closed, this`nodes, this`storedNodes, this`events, this`metrics
      modifies registry`services, registry`store, registry`tasks
      ensures AsHandled(View(), registered, reply, fate) == C.HandleFrame(C.RegistrarOf(registry.cfg), old(View()), me, frame, clock)
    {
      registered, reply, fate := me.registered, None, Stay;
      match frame {
        case RegisterNode(metadata, key) =>
          var ok := RegisterNode(me, metadata, key, clock);
          registered, fate := true, if ok then Stay else AbandonLoop;
        case RegisterService(service) =>
          var r := PublishService(me, service, clock);
          reply := Some(r);
        case UnregisterService(serviceId) =>
          WithdrawService(me, serviceId, clock);
        case Heartbeat(snapshot) =>
          QuicHeartbeat(me, snapshot, clock);
          reply := Some(C.Ack(snapshot.sequence, clock.later));
        case Goodbye =>
          fate := LeaveLoop;
        case _ =>
          reply := Some(C.Unsupported);
      }
    }

    method YamuxLoop(conn: C.Conn, inbox: Inbox) returns (replies: seq<C.Reply>, goodbye: bool)
      modifies this`sessions, this`closed, this`nodes, this`storedNodes, this`events, this`metrics
      modifies registry`services, registry`store, registry`tasks
      ensures C.Ending(View(), replies, goodbye) == C.ServeFrames(C.RegistrarOf(registry.cfg), old(View()), conn, inbox)
    {
      var me := conn;
      replies, goodbye := [], false;
      ghost var whole := C.ServeFrames(C.RegistrarOf(registry.cfg), View(), conn, inbox);
      var i := 0;
      assert inbox[0..] == inbox && [] + whole.replies == whole.replies;
      while i < |inbox|
        invariant i <= |inbox| && me == conn.(registered := me.registered) && !goodbye
        invariant whole == Prefixed(replies, C.ServeFrames(C.RegistrarOf(registry.cfg), View(), me, inbox[i..]))
      {
        ghost var before := View();
        var registered, reply, fate := YamuxFrame(me, inbox[i].0, inbox[i].1);
        LoopTurn(C.RegistrarOf(registry.cfg), before, View(), me, inbox, i, replies, registered, reply, fate);
        if fate.AbandonLoop? {
          return;
        }
        if fate.LeaveLoop? {
          return replies, true;
        }
        me := me.(registered := registered);
        replies := replies + Replies(reply);
        i := i + 1;
      }
      LoopEnds(C.RegistrarOf(registry.cfg), View(), me, inbox, replies);
    }

    // However the loop ends, Yamux tears the session down.
    method HandleYamuxSession(conn: C.Conn, inbox: Inbox, now: i64) returns (replies: seq<C.Reply>, goodbye: bool)
      requires conn.transport.TcpTlsYamux?
      modifies this`sessions, this`closed, this`nodes, this`storedNodes, this`events, this`metrics
      modifies registry`services, registry`store, registry`tasks
      ensures C.Ending(View(), replies, goodbye) == C.ServeAndExit(C.RegistrarOf(registry.cfg), old(View()), conn, inbox, now)
    {
      replies, goodbye := YamuxLoop(conn, inbox);
      EndSession(conn, now);
    }

    method QuicLoop(conn: C.Conn, inbox: Inbox) returns (replies: seq<C.Reply>, goodbye: bool)
      modifies this`sessions, this`closed, this`nodes, this`storedNodes, this`events, this`metrics
      modifies registry`services, registry`store, registry`tasks
      ensures C.Ending(View(), replies, goodbye) == C.ServeFrames(C.RegistrarOf(registry.cfg), old(View()), conn, inbox)
    {
      var me := conn;
      replies, goodbye := [], false;
      ghost var whole := C.ServeFrames(C.RegistrarOf(registry.cfg), View(), conn, inbox);
      var i := 0;
      assert inbox[0..] == inbox && [] + whole.replies == whole.replies;
      while i < |inbox|
        invariant i <= |inbox| && me == conn.(registered := me.registered) && !goodbye
        invariant whole == Prefixed(replies, C.ServeFrames(C.RegistrarOf(registry.cfg), View(), me, inbox[i..]))
      {
        ghost var before := View();
        var registered, reply, fate := QuicFrame(me, inbox[i].0, inbox[i].1);
        LoopTurn(C.RegistrarOf(registry.cfg), before, View(), me, inbox, i, replies, registered, reply, fate);
        if fate.AbandonLoop? {
          return;
        }
        if fate.LeaveLoop? {
          return replies, true;
        }
        me := me.(registered := registered);
        replies := replies + Replies(reply);
        i := i + 1;
      }
      LoopEnds(C.RegistrarOf(registry.cfg), View(), me, inbox, replies);
    }

    // An error leaves through `?` with no teardown.
    method HandleQuicConnection(conn: C.Conn, inbox: Inbox, now: i64) returns (replies: seq<C.Reply>, goodbye: bool)
      requires conn.transport.Quic?
      modifies this`sessions, this`closed, this`nodes, this`storedNodes, this`events, this`metrics
      modifies registry`services, registry`store, registry`tasks
      ensures C.Ending(View(), replies, goodbye) == C.ServeAndExit(C.RegistrarOf(registry.cfg), old(View()), conn, inbox, now)
    {
      replies, goodbye := QuicLoop(conn, inbox);
      if goodbye {
        EndSession(conn, now);
      }
    }

    // The updated records go to the store one at a time, each with its event.
    method PersistOffline(disconnected: set<Uuid>, now: i64)
      requires forall n | n in nodes :: nodes[n].nodeId == n
      requires forall n | n in nodes && n in disconnected :: nodes[n].status.Offline?
      modifies this`storedNodes, this`events
      ensures storedNodes == C.StoreAll(old(storedNodes), nodes, disconnected)
      ensures events == old(events) + C.OfflineEvents(nodes.Keys, disconnected, now)
    {
      var todo := disconnected;
      ghost var stored, recorded := storedNodes, events;
      while todo != {}
        invariant todo <= disconnected
        invariant storedNodes == C.StoreAll(stored, nodes, disconnected - todo)
        invariant events == recorded + C.OfflineEvents(nodes.Keys, disconnected - todo, now)
        decreases todo
      {
        var n :| n in todo;
        OfflineEventsStep(nodes.Keys, disconnected - todo, n, now);
        StoreAllStep(stored, nodes, disconnected - todo, n);
        assert disconnected - (todo - {n}) == disconnected - todo + {n};
        if n in nodes {
          PutNode(nodes[n]);
          RecordEvent(C.Event(now, C.NodeOffline, n, None));
        }
        todo := todo - {n};
      }
      assert disconnected - todo == disconnected;
    }

    // Take the sessions of one kind out of the map one by one, then close their connections.
    method Disconnect(kind: TokenKind) returns (disconnected: set<Uuid>)
      modifies this`sessions, this`closed
      ensures disconnected == C.Revoked(old(sessions), kind)
      ensures sessions == old(sessions) - disconnected
      ensures closed == old(closed) + C.ConnsOf(old(sessions), disconnected)
    {
      disconnected := set n | n in sessions && sessions[n].kind == kind;
      ghost var before, open := sessions, closed;
      assert disconnected - disconnected == {};
      var removed: map<Uuid, C.Session> := map[];
      var todo := disconnected;
      while todo != {}
        invariant todo <= disconnected
        invariant closed == open && sessions == before - (disconnected - todo)
        invariant removed.Keys == disconnected - todo && forall n | n in removed :: removed[n] == before[n]
        decreases todo
      {
        var n :| n in todo;
        removed := removed[n := sessions[n]];
        sessions := sessions - {n};
        todo := todo - {n};
      }
      assert disconnected - todo == disconnected;
      todo := disconnected;
      while todo != {}
        invariant todo <= disconnected
        invariant sessions == before - disconnected && closed == open + C.ConnsOf(before, disconnected - todo)
        decreases todo
      {
        var n :| n in todo;
        ConnsOfStep(before, disconnected - todo, n);
        assert disconnected - (todo - {n}) == disconnected - todo + {n};
        closed := closed + {removed[n].conn};
        todo := todo - {n};
      }
      assert disconnected - todo == disconnected;
    }

    method MarkOffline(disconnected: set<Uuid>)
      modifies this`nodes
      ensures nodes == C.SetOffline(old(nodes), disconnected)
    {
      ghost var before := nodes;
      var todo := disconnected;
      while todo != {}
        invariant todo <= disconnected
        invariant nodes == C.SetOffline(before, disconnected - todo)
        decreases todo
      {
        var n :| n in todo;
        SetOfflineStep(before, disconnected - todo, n);
        assert disconnected - (todo - {n}) == disconnected - todo + {n};
        if n in nodes {
          nodes := nodes[n := nodes[n].(status := Offline)];
        }
        todo := todo - {n};
      }
      assert disconnected - todo == disconnected;
    }

    method ReplaceToken(kind: TokenKind, hash: Option<C.Hash>, now: i64)
      requires forall n | n in nodes :: nodes[n].nodeId == n
      modifies this
      ensures View() == C.ReplaceToken(old(View()), kind, hash, now)
    {
      var updated := tokens.Set(kind, hash);
      storedTokens := Some(updated);
      tokens := updated;
      var disconnected := Disconnect(kind);
      ghost var before := nodes;
      MarkOffline(disconnected);
      OfflineRecordsAlike(storedNodes, before, disconnected);
      PersistOffline(disconnected, now);
    }
  }

  lemma OfflineRecordsAlike(stored: map<Uuid, NodeRecord>, nodes: map<Uuid, NodeRecord>, gone: set<Uuid>)
    ensures C.StoreAll(stored, C.SetOffline(nodes, gone), gone) == C.StoreAll(stored, nodes, gone)
    ensures C.SetOffline(nodes, gone).Keys == nodes.Keys
  {
  }
}
