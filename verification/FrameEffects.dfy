// What each control frame does to the server, in the terms of its tables.
module FrameEffects {
  import opened Basics
  import opened Types
  import opened Validation
  import opened Registry
  import opened Ledger
  import opened Control

  // Nothing but the services and the events changes.
  ghost predicate OnlyServices(s: Relay, t: Relay) {
    t == s.(ledger := t.ledger, events := t.events)
  }

  ghost predicate SameElsewhere(l: Ledger, m: Ledger, id: Uuid) {
    && m.foreign == l.foreign
    && m.table == (if id in m.table then l.table[id := m.table[id]] else l.table - {id})
    && m.store == (if id in m.store then l.store[id := m.store[id]] else l.store - {id})
    && m.tasks == (if id in m.tasks then l.tasks[id := m.tasks[id]] else l.tasks - {id})
  }

  // UnregisterService from the owner takes the service out of memory, store and listeners, touches no other
  // service and records one event; from anybody else, or for an unknown id, it changes nothing. Neither
  // is answered.
  lemma UnregisterFrame(register: Registrar, s: Relay, me: Conn, id: Uuid, clock: Clock)
    ensures var h := HandleFrame(register, s, me, UnregisterService(id), clock);
            && h.Continue? && h.registered == me.registered && h.reply.None?
            && (if id in s.ledger.table && s.ledger.table[id].nodeId == me.nodeId then
                  && id !in h.s.ledger.table && id !in h.s.ledger.store && id !in h.s.ledger.tasks
                  && SameElsewhere(s.ledger, h.s.ledger, id) && OnlyServices(s, h.s)
                  && h.s.events == s.events + multiset{Event(clock.later, ServiceDeleted, me.nodeId, Some(id))}
                else h.s == s)
  {
  }

  // RegisterService is refused without effect unless the connection is registered and the service is its
  // node's own. Otherwise it is decided by `register_service` and answered with its verdict; an
  // acceptance puts the record in memory and store and records one event.
  lemma RegisterServiceFrame(cfg: Config, s: Relay, me: Conn, service: ServiceDefinition, clock: Clock)
    ensures var h := HandleFrame(RegistrarOf(cfg), s, me, RegisterService(service), clock);
            && h.Continue? && h.registered == me.registered && h.reply.Some? && OnlyServices(s, h.s)
            && (!me.registered || service.nodeId != me.nodeId ==> h.s == s && h.reply == Some(NodeNotRegistered))
            && (me.registered && service.nodeId == me.nodeId ==>
                  match Registered(cfg, s.ledger, service, me.nodeId).1
                  case Err(e) => h.reply == Some(ServiceRefused(e)) && h.s.events == s.events
                  case Ok(accepted) =>
                    && h.reply == Some(ServiceAccepted(accepted))
                    && accepted.serviceId in h.s.ledger.table && h.s.ledger.table[accepted.serviceId] == accepted
                    && accepted.serviceId in h.s.ledger.store && h.s.ledger.store[accepted.serviceId] == accepted
                    && (accepted.protocol.Tcp? ==> accepted.serviceId in h.s.ledger.tasks)
                    && h.s.events == s.events + multiset{Event(clock.later, ServiceRegistered, me.nodeId, Some(accepted.serviceId))})
  {
  }

  // An acceptable RegisterNode files the node with what it sent and where it came from, Online, in memory
  // and store; gives it this session, closing the connection that had it; and records one event. Any
  // other ends the session and changes nothing. Neither is answered.
  lemma RegisterNodeFrame(register: Registrar, s: Relay, me: Conn, metadata: NodeMetadata, key: Key32, clock: Clock)
    ensures var h := HandleFrame(register, s, me, RegisterNode(metadata, key), clock);
            var n := me.nodeId;
            if ValidMetadata(metadata.metadata)
               && (n in s.nodes && s.nodes[n].publicKey.Some? ==> s.nodes[n].publicKey.value == key) then
              && h.Continue? && h.registered && h.reply.None?
              && n in h.s.nodes && h.s.nodes[n] == NodeRecord(
                   n, Some(key), metadata, me.ip, me.port, me.transport, Online, clock.now, None, None)
              && h.s.nodes == s.nodes[n := h.s.nodes[n]] && h.s.storedNodes == s.storedNodes[n := h.s.nodes[n]]
              && n in h.s.sessions && h.s.sessions == s.sessions[n := h.s.sessions[n]]
              && h.s.sessions[n].id == me.sessionId && h.s.sessions[n].kind == me.kind && h.s.sessions[n].conn == me.handle
              && h.s.closed == s.closed + (if n in s.sessions then {s.sessions[n].conn} else {})
              && h.s.events == s.events + multiset{Event(clock.later, NodeOnline, n, None)}
              && h.s.tokens == s.tokens && h.s.storedTokens == s.storedTokens && h.s.ledger == s.ledger && h.s.metrics == s.metrics
            else h == Abandon(s)
  {
  }

  // A heartbeat is acknowledged under its own number. For a known node it sets status, time and round-trip
  // time in memory and store, keeping the rest of the record, and adds one metric; for an unknown one it
  // changes nothing.
  lemma HeartbeatFrame(register: Registrar, s: Relay, me: Conn, snapshot: HeartbeatSnapshot, clock: Clock)
    ensures var h := HandleFrame(register, s, me, Heartbeat(snapshot), clock);
            var n := me.nodeId;
            && h.Continue? && h.registered == me.registered && h.reply == Some(Ack(snapshot.sequence, clock.later))
            && (n !in s.nodes ==> h.s == s)
            && (n in s.nodes ==>
                  && n in h.s.nodes && h.s.nodes[n].status.Online? && h.s.nodes[n].lastHeartbeatAt == Some(clock.now)
                  && h.s.nodes[n].rttMs.Some?
                  && (0 <= clock.now - snapshot.sentAt <= 3_600_000 ==> h.s.nodes[n].rttMs == Some(clock.now - snapshot.sentAt))
                  && s.nodes[n] == h.s.nodes[n].(status := s.nodes[n].status, lastHeartbeatAt := s.nodes[n].lastHeartbeatAt, rttMs := s.nodes[n].rttMs)
                  && h.s.nodes == s.nodes[n := h.s.nodes[n]] && h.s.storedNodes == s.storedNodes[h.s.nodes[n].nodeId := h.s.nodes[n]]
                  && h.s.metrics == s.metrics + [NodeMetric(n, clock.now, h.s.nodes[n].rttMs, snapshot)]
                  && h.s == s.(nodes := h.s.nodes, storedNodes := h.s.storedNodes, metrics := h.s.metrics))
  {
  }

  // Goodbye ends the session; every frame that only a server sends, or that opens the handshake, is
  // answered as unsupported. None of them changes anything.
  lemma RemainingFrames(register: Registrar, s: Relay, me: Conn, f: Frame, clock: Clock)
    requires !f.RegisterNode? && !f.RegisterService? && !f.UnregisterService? && !f.Heartbeat?
    ensures HandleFrame(register, s, me, f, clock)
            == if f.Goodbye? then Leave(s) else Continue(s, me.registered, Some(Unsupported))
  {
  }

  // The end of a session that is still its node's current one takes the entry out and the node offline, in
  // memory and store, and records one event; the end of any other changes nothing. Over QUIC this is left
  // out unless the client said Goodbye.
  lemma SessionEnd(s: Relay, me: Conn, goodbye: bool, now: i64)
    ensures var t := Exit(s, me, goodbye, now);
            var n := me.nodeId;
            if (goodbye || me.transport == TcpTlsYamux) && n in s.sessions && s.sessions[n].id == me.sessionId then
              && t.sessions == s.sessions - {n}
              && t == s.(sessions := t.sessions, nodes := t.nodes, storedNodes := t.storedNodes, events := t.events)
              && (n !in s.nodes ==> t.nodes == s.nodes && t.storedNodes == s.storedNodes && t.events == s.events)
              && (n in s.nodes ==>
                    && n in t.nodes && t.nodes[n].status.Offline? && s.nodes[n] == t.nodes[n].(status := s.nodes[n].status)
                    && t.nodes == s.nodes[n := t.nodes[n]] && t.storedNodes == s.storedNodes[t.nodes[n].nodeId := t.nodes[n]]
                    && t.events == s.events + multiset{Event(now, NodeOffline, n, None)})
            else t == s
  {
  }

  // A rotation takes the nodes of the dropped sessions offline, in memory and store, and records one event
  // for each that is known; it touches no other node, no service, no metric and no other event.
  lemma RotationEffects(s: Relay, kind: TokenKind, hash: Option<Hash>, now: i64)
    requires s.storedNodes == s.nodes
    ensures var t := ReplaceToken(s, kind, hash, now);
            && t.ledger == s.ledger && t.metrics == s.metrics && t.storedNodes == t.nodes && t.nodes.Keys == s.nodes.Keys
            && (forall n | n in s.nodes ::
                  t.nodes[n] == if n in s.sessions && s.sessions[n].kind == kind then s.nodes[n].(status := Offline) else s.nodes[n])
            && (forall e :: t.events[e] == s.events[e] + if DroppedBy(s, kind, now, e) then 1 else 0)
  {
    var gone := Revoked(s.sessions, kind);
    assert forall e :: e in OfflineEvents(s.nodes.Keys, gone, now) <==> DroppedBy(s, kind, now, e);
  }

  ghost predicate DroppedBy(s: Relay, kind: TokenKind, now: i64, e: Event) {
    e == Event(now, NodeOffline, e.nodeId, None) && e.nodeId in s.nodes && e.nodeId in s.sessions && s.sessions[e.nodeId].kind == kind
  }
}
