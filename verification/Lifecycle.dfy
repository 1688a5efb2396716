// Whole runs of the control plane: connections over both transports come, send frames, are closed, get
// lost and exit, tokens rotate, and the process restarts on its database.
module Lifecycle {
  import opened Basics
  import opened Types
  import opened Validation
  import L = Ledger
  import opened Control

  // Every connection accepted by this process, and those whose handler is still running.
  datatype World = World(s: Relay, conns: map<nat, Conn>, live: set<nat>)

  datatype Label =
    | Accept(me: Conn, hash: Hash)
    | Receive(handle: nat, frame: Frame, clock: Clock)
    | Lost(handle: nat, now: i64)
    | Rotate(kind: TokenKind, replacement: Option<Hash>, now: i64)
    | Api(ledger: L.Ledger)
    | Restart(adminHash: Hash, userHash: Hash)

  ghost predicate Fresh(w: World, me: Conn) {
    && me.handle !in w.conns
    && (forall h | h in w.conns :: w.conns[h].sessionId != me.sessionId)
    && !me.registered
  }

  ghost predicate Next(register: Registrar, w: World, a: Label, v: World) {
    match a
    case Accept(me, hash) =>
      && Fresh(w, me) && w.s.tokens.Authenticate(hash) == Some(me.kind)
      && v == World(w.s, w.conns[me.handle := me], w.live + {me.handle})
    case Receive(h, f, clock) =>
      && h in w.conns && h in w.live
      && v == Received(register, w, h, f, clock)
    case Lost(h, now) =>
      && h in w.conns && h in w.live
      && v == World(Exit(w.s, w.conns[h], false, now), w.conns, w.live - {h})
    case Rotate(kind, hash, now) => v == w.(s := ReplaceToken(w.s, kind, hash, now))
    case Api(ledger) => v == w.(s := w.s.(ledger := ledger))
    case Restart(adminHash, userHash) => v == World(Restarted(w.s, adminHash, userHash), map[], {})
  }

  function Received(register: Registrar, w: World, h: nat, f: Frame, clock: Clock): World
    requires h in w.conns
  {
    var me := w.conns[h];
    match HandleFrame(register, w.s, me, f, clock)
    case Continue(t, registered, _) => World(t, w.conns[h := me.(registered := registered)], w.live)
    case Leave(t) => World(Exit(t, me, true, clock.later), w.conns, w.live - {h})
    case Abandon(t) => World(Exit(t, me, false, clock.later), w.conns, w.live - {h})
  }

  ghost predicate IsRun(register: Registrar, ws: seq<World>, acts: seq<Label>) {
    && |ws| == |acts| + 1
    && forall i | 0 <= i < |acts| :: Next(register, ws[i], acts[i], ws[i + 1])
  }

  // A connection is let in only with a token of its kind; a process starts without any.
  lemma {:induction false} ConnectionsAuthenticated(register: Registrar, ws: seq<World>, acts: seq<Label>, i: nat, h: nat)
    requires IsRun(register, ws, acts) && ws[0].conns == map[]
    requires i < |ws| && h in ws[i].conns
    ensures exists j: nat | j < i :: LetsIn(ws[j], acts[j], h, ws[i].conns[h].kind)
  {
    assert i > 0;
    assert Next(register, ws[i - 1], acts[i - 1], ws[i - 1 + 1]);
    if h in ws[i - 1].conns && !(acts[i - 1].Accept? && acts[i - 1].me.handle == h) {
      ConnectionsAuthenticated(register, ws, acts, i - 1, h);
    } else {
      assert LetsIn(ws[i - 1], acts[i - 1], h, ws[i].conns[h].kind);
    }
  }

  ghost predicate LetsIn(w: World, a: Label, h: nat, kind: TokenKind) {
    a.Accept? && a.me.handle == h && a.me.kind == kind && w.s.tokens.Authenticate(a.hash) == Some(kind)
  }

  // A Goodbye ends the handler, and with it the session if it is current; so does a RegisterNode that is
  // refused over Yamux. Over QUIC such a refusal ends the handler only.
  lemma HandlerEnds(register: Registrar, w: World, h: nat, f: Frame, clock: Clock)
    requires h in w.conns
    ensures var me := w.conns[h];
            var v := Received(register, w, h, f, clock);
            && (f.Goodbye? || (f.RegisterNode? && !NodeAccepted(w.s, me, f.metadata, f.publicKey)) <==> v.live == w.live - {h} && Ends(register, w, h, f, clock))
            && (f.Goodbye? || (Ends(register, w, h, f, clock) && me.transport.TcpTlsYamux?) ==> !Current(v.s, me))
            && (Ends(register, w, h, f, clock) && !f.Goodbye? && me.transport.Quic? ==> v.s == w.s)
  {
  }

  // A connection that is lost over Yamux has no session any more; over QUIC nothing else changes.
  lemma LostEnds(register: Registrar, w: World, h: nat, now: i64, v: World)
    requires Next(register, w, Lost(h, now), v)
    ensures var me := w.conns[h];
            && v.conns == w.conns && v.live == w.live - {h} && v.s == Exit(w.s, me, false, now)
            && (me.transport.TcpTlsYamux? ==> !Current(v.s, me))
            && (me.transport.Quic? ==> v.s == w.s)
  {
  }

  ghost predicate Ends(register: Registrar, w: World, h: nat, f: Frame, clock: Clock)
    requires h in w.conns
  {
    !HandleFrame(register, w.s, w.conns[h], f, clock).Continue?
  }

  // ---- What is durable ----

  ghost predicate Durable(s: Relay) {
    && s.storedNodes == s.nodes
    && s.storedTokens == Some(s.tokens)
    && forall n | n in s.nodes :: s.nodes[n].nodeId == n
  }

  // Every key recorded before is still recorded after.
  ghost predicate KeysKept(s: Relay, t: Relay) {
    forall n | n in s.nodes && s.nodes[n].publicKey.Some? ::
      n in t.nodes && t.nodes[n].publicKey == s.nodes[n].publicKey
  }

  lemma FrameKeepsDurable(register: Registrar, s: Relay, me: Conn, f: Frame, clock: Clock)
    requires Durable(s)
    ensures Durable(HandleFrame(register, s, me, f, clock).s) && KeysKept(s, HandleFrame(register, s, me, f, clock).s)
  {
  }

  lemma ExitKeepsDurable(s: Relay, me: Conn, goodbye: bool, now: i64)
    requires Durable(s)
    ensures Durable(Exit(s, me, goodbye, now)) && KeysKept(s, Exit(s, me, goodbye, now))
  {
  }

  lemma RotationKeepsDurable(s: Relay, kind: TokenKind, hash: Option<Hash>, now: i64)
    requires Durable(s)
    ensures Durable(ReplaceToken(s, kind, hash, now)) && KeysKept(s, ReplaceToken(s, kind, hash, now))
  {
    var gone := Revoked(s.sessions, kind);
    assert StoreAll(s.storedNodes, s.nodes, gone) == SetOffline(s.nodes, gone);
  }

  lemma StepKeepsDurable(register: Registrar, w: World, a: Label, v: World)
    requires Next(register, w, a, v) && Durable(w.s)
    ensures Durable(v.s) && KeysKept(w.s, v.s)
  {
    match a
    case Receive(h, f, clock) =>
      FrameKeepsDurable(register, w.s, w.conns[h], f, clock);
      var t := HandleFrame(register, w.s, w.conns[h], f, clock).s;
      ExitKeepsDurable(t, w.conns[h], true, clock.later);
      ExitKeepsDurable(t, w.conns[h], false, clock.later);
    case Lost(h, now) => ExitKeepsDurable(w.s, w.conns[h], false, now);
    case Rotate(kind, hash, now) => RotationKeepsDurable(w.s, kind, hash, now);
    case _ =>
  }

  // In every run, restarts included: memory and store hold the same nodes and tokens, and once a node's
  // public key is recorded it stays recorded.
  lemma {:induction false} AlwaysDurable(register: Registrar, ws: seq<World>, acts: seq<Label>, i: nat, j: nat)
    requires IsRun(register, ws, acts) && Durable(ws[0].s)
    requires i <= j < |ws|
    ensures Durable(ws[i].s) && Durable(ws[j].s) && KeysKept(ws[i].s, ws[j].s)
  {
    if j > 0 {
      AlwaysDurable(register, ws, acts, if i < j then i else i - 1, j - 1);
      assert Next(register, ws[j - 1], acts[j - 1], ws[j - 1 + 1]);
      StepKeepsDurable(register, ws[j - 1], acts[j - 1], ws[j]);
    }
  }

  // A restart authenticates exactly what was authenticated before, whatever its environment holds.
  lemma RestartKeepsTokens(s: Relay, adminHash: Hash, userHash: Hash, hash: Hash)
    requires Durable(s)
    ensures var t := Restarted(s, adminHash, userHash);
            t.tokens.Authenticate(hash) == s.tokens.Authenticate(hash) && t.nodes == s.nodes && Durable(t)
  {
  }

  // At the rotation itself no session of the kind survives, every other session is untouched, the dropped
  // connections are closed, and only the new hash authenticates as that kind. What can come later is
  // the subject of RevokedSessionIff.
  lemma RotationDropsExactlyItsKind(s: Relay, kind: TokenKind, hash: Option<Hash>, now: i64)
    ensures var t := ReplaceToken(s, kind, hash, now);
            && (forall n | n in t.sessions :: t.sessions[n].kind != kind)
            && (forall n | n in s.sessions && s.sessions[n].kind != kind :: n in t.sessions && t.sessions[n] == s.sessions[n])
            && (forall n | n in t.sessions :: n in s.sessions)
            && (forall n | n in s.sessions && n !in t.sessions :: s.sessions[n].conn in t.closed)
            && (forall h :: t.tokens.Authenticate(h) == Some(kind) ==> Some(h) == hash)
            && (forall h :: hash == Some(h) && t.tokens.Authenticate(h) != Some(kind) ==> kind.User? && t.tokens.adminHash == hash)
  {
  }

  // ---- Sessions belong to connections ----

  ghost predicate SessionsBacked(w: World) {
    && (forall a, b | a in w.conns && b in w.conns && w.conns[a].sessionId == w.conns[b].sessionId :: a == b)
    && (forall h | h in w.conns :: w.conns[h].handle == h)
    && (forall n | n in w.s.sessions :: Backed(w, n))
  }

  ghost predicate Backed(w: World, n: Uuid)
    requires n in w.s.sessions
  {
    var e := w.s.sessions[n];
    e.conn in w.conns && w.conns[e.conn].nodeId == n && w.conns[e.conn].sessionId == e.id && w.conns[e.conn].kind == e.kind
  }

  lemma QuietFrameSessions(register: Registrar, s: Relay, me: Conn, f: Frame, clock: Clock)
    requires !f.RegisterNode? && !f.Heartbeat?
    ensures var t := HandleFrame(register, s, me, f, clock).s;
            t.sessions == s.sessions && t.nodes == s.nodes && t.closed == s.closed
  {
    if f.RegisterService? {
      ServiceFrameSessions(register, s, me, f, clock);
    }
  }

  lemma ServiceFrameSessions(register: Registrar, s: Relay, me: Conn, f: Frame, clock: Clock)
    requires f.RegisterService?
    ensures var t := HandleFrame(register, s, me, f, clock).s;
            t.sessions == s.sessions && t.nodes == s.nodes && t.closed == s.closed
  {
  }

  // A frame leaves the sessions alone or gives the sender its node's entry.
  lemma FrameSessions(register: Registrar, s: Relay, me: Conn, f: Frame, clock: Clock)
    ensures var t := HandleFrame(register, s, me, f, clock).s;
            t.sessions == s.sessions || t.sessions == s.sessions[me.nodeId := Session(me.sessionId, me.kind, me.handle)]
  {
    if !f.RegisterNode? && !f.Heartbeat? {
      QuietFrameSessions(register, s, me, f, clock);
    }
  }

  lemma BackedStays(w: World, v: World)
    requires SessionsBacked(w)
    requires forall h | h in v.conns :: h in w.conns && v.conns[h] == w.conns[h].(registered := v.conns[h].registered)
    requires forall h | h in w.conns :: h in v.conns
    requires forall n | n in v.s.sessions ::
               (n in w.s.sessions && v.s.sessions[n] == w.s.sessions[n])
               || exists h | h in w.conns :: n == w.conns[h].nodeId && v.s.sessions[n] == Session(w.conns[h].sessionId, w.conns[h].kind, h)
    ensures SessionsBacked(v)
  {
    forall n | n in v.s.sessions ensures Backed(v, n) {
      if n in w.s.sessions && v.s.sessions[n] == w.s.sessions[n] { assert Backed(w, n); }
    }
  }

  lemma ReceiveKeepsSessionsBacked(register: Registrar, w: World, h: nat, f: Frame, clock: Clock)
    requires SessionsBacked(w) && h in w.conns
    ensures SessionsBacked(Received(register, w, h, f, clock))
  {
    FrameSessions(register, w.s, w.conns[h], f, clock);
    BackedStays(w, Received(register, w, h, f, clock));
  }

  lemma StepKeepsSessionsBacked(register: Registrar, w: World, a: Label, v: World)
    requires Next(register, w, a, v) && SessionsBacked(w)
    ensures SessionsBacked(v)
  {
    match a
    case Accept(me, hash) =>
      forall n | n in v.s.sessions ensures Backed(v, n) { assert Backed(w, n); }
    case Receive(h, f, clock) => ReceiveKeepsSessionsBacked(register, w, h, f, clock);
    case Lost(h, now) => BackedStays(w, v);
    case Rotate(_, _, _) => BackedStays(w, v);
    case Api(_) => BackedStays(w, v);
    case Restart(_, _) =>
  }

  // A connection whose node's entry belongs to another connection has been superseded: its exit, by
  // whatever way, changes nothing at all.
  lemma SupersededExitIsSilent(w: World, h: nat, goodbye: bool, now: i64)
    requires SessionsBacked(w) && h in w.conns
    requires w.conns[h].nodeId in w.s.sessions && w.s.sessions[w.conns[h].nodeId].conn != h
    ensures Exit(w.s, w.conns[h], goodbye, now) == w.s
  {
    assert Backed(w, w.conns[h].nodeId);
  }

  // ---- Sessions after a rotation ----

  // A session of the kind on a connection that was accepted as that kind in the earlier world.
  ghost predicate HoldsOldSession(w: World, before: World, kind: TokenKind) {
    exists n | n in w.s.sessions ::
      var e := w.s.sessions[n]; e.kind == kind && e.conn in before.conns && before.conns[e.conn].kind == kind
  }

  // Such a connection has an acceptable RegisterNode processed.
  ghost predicate OldRegisters(w: World, a: Label, before: World, kind: TokenKind) {
    && a.Receive? && a.frame.RegisterNode? && a.handle in w.conns
    && a.handle in before.conns && before.conns[a.handle].kind == kind
    && NodeAccepted(w.s, w.conns[a.handle], a.frame.metadata, a.frame.publicKey)
  }

  // Connections keep their handle and kind.
  ghost predicate Succeeds(before: World, w: World) {
    && (forall h | h in before.conns :: h in w.conns && w.conns[h].kind == before.conns[h].kind)
    && (forall h | h in w.conns :: w.conns[h].handle == h)
  }

  lemma ExitOnlyRemoves(s: Relay, me: Conn, goodbye: bool, now: i64)
    ensures forall n | n in Exit(s, me, goodbye, now).sessions :: n in s.sessions && Exit(s, me, goodbye, now).sessions[n] == s.sessions[n]
  {
  }

  lemma RegisterTakesEntry(register: Registrar, s: Relay, me: Conn, f: Frame, clock: Clock)
    requires f.RegisterNode?
    ensures var h := HandleFrame(register, s, me, f, clock);
            if NodeAccepted(s, me, f.metadata, f.publicKey)
            then h.Continue? && h.s.sessions == s.sessions[me.nodeId := Session(me.sessionId, me.kind, me.handle)]
            else h == Abandon(s)
  {
  }

  lemma HeartbeatFrameSessions(register: Registrar, s: Relay, me: Conn, f: Frame, clock: Clock)
    requires f.Heartbeat?
    ensures HandleFrame(register, s, me, f, clock).s.sessions == s.sessions
  {
  }

  lemma ReceivedSessions(register: Registrar, w: World, h: nat, f: Frame, clock: Clock)
    requires h in w.conns
    ensures var me := w.conns[h];
            var v := Received(register, w, h, f, clock);
            if f.RegisterNode? && NodeAccepted(w.s, me, f.metadata, f.publicKey)
            then v.s.sessions == w.s.sessions[me.nodeId := Session(me.sessionId, me.kind, me.handle)]
            else forall n | n in v.s.sessions :: n in w.s.sessions && v.s.sessions[n] == w.s.sessions[n]
  {
    var me := w.conns[h];
    if f.RegisterNode? {
      RegisterTakesEntry(register, w.s, me, f, clock);
    } else if f.Heartbeat? {
      HeartbeatFrameSessions(register, w.s, me, f, clock);
    } else {
      QuietFrameSessions(register, w.s, me, f, clock);
    }
    var t := HandleFrame(register, w.s, me, f, clock).s;
    ExitOnlyRemoves(t, me, true, clock.later);
    ExitOnlyRemoves(t, me, false, clock.later);
  }

  lemma StepSucceeds(register: Registrar, w: World, a: Label, v: World, before: World)
    requires Next(register, w, a, v) && !a.Restart? && Succeeds(before, w)
    ensures Succeeds(before, v)
  {
  }

  lemma ReceiveHoldsOld(register: Registrar, w: World, h: nat, f: Frame, clock: Clock, before: World, kind: TokenKind)
    requires h in w.conns && Succeeds(before, w)
    ensures var v := Received(register, w, h, f, clock);
            && (OldRegisters(w, Receive(h, f, clock), before, kind) ==> HoldsOldSession(v, before, kind))
            && (HoldsOldSession(v, before, kind) ==> HoldsOldSession(w, before, kind) || OldRegisters(w, Receive(h, f, clock), before, kind))
  {
    ReceivedSessions(register, w, h, f, clock);
    var v := Received(register, w, h, f, clock);
    if OldRegisters(w, Receive(h, f, clock), before, kind) {
      assert w.conns[h].nodeId in v.s.sessions;
    }
  }

  lemma StepHoldsOld(register: Registrar, w: World, a: Label, v: World, before: World, kind: TokenKind)
    requires Next(register, w, a, v) && !a.Restart? && Succeeds(before, w)
    ensures OldRegisters(w, a, before, kind) ==> HoldsOldSession(v, before, kind)
    ensures HoldsOldSession(v, before, kind) ==> HoldsOldSession(w, before, kind) || OldRegisters(w, a, before, kind)
  {
    match a
    case Receive(h, f, clock) => ReceiveHoldsOld(register, w, h, f, clock, before, kind);
    case Lost(h, now) => ExitOnlyRemoves(w.s, w.conns[h], false, now);
    case _ =>
  }

  ghost predicate EverHolds(ws: seq<World>, k: nat, m: nat, kind: TokenKind)
    requires k <= m < |ws|
  {
    exists i :: k < i <= m && HoldsOldSession(ws[i], ws[k], kind)
  }

  ghost predicate EverRegisters(ws: seq<World>, acts: seq<Label>, k: nat, m: nat, kind: TokenKind)
    requires k <= m <= |acts| < |ws|
  {
    exists j :: k < j < m && OldRegisters(ws[j], acts[j], ws[k], kind)
  }

  ghost predicate OldStep(w: World, a: Label, v: World, before: World, kind: TokenKind) {
    && (OldRegisters(w, a, before, kind) ==> HoldsOldSession(v, before, kind))
    && (HoldsOldSession(v, before, kind) ==> HoldsOldSession(w, before, kind) || OldRegisters(w, a, before, kind))
  }

  // Step by step from a world without such a session.
  ghost predicate OldTraced(ws: seq<World>, acts: seq<Label>, k: nat, m: nat, kind: TokenKind)
    requires k < m <= |acts| < |ws|
  {
    && !HoldsOldSession(ws[k + 1], ws[k], kind)
    && forall j | k < j < m :: OldStep(ws[j], acts[j], ws[j + 1], ws[k], kind)
  }

  lemma {:induction false} HeldThenCaused(ws: seq<World>, acts: seq<Label>, k: nat, m: nat, kind: TokenKind, i: nat)
    requires k < m <= |acts| < |ws| && OldTraced(ws, acts, k, m, kind)
    requires k < i <= m && HoldsOldSession(ws[i], ws[k], kind)
    ensures EverRegisters(ws, acts, k, m, kind)
    decreases i
  {
    assert i > k + 1;
    assert OldStep(ws[i - 1], acts[i - 1], ws[i - 1 + 1], ws[k], kind);
    if HoldsOldSession(ws[i - 1], ws[k], kind) {
      HeldThenCaused(ws, acts, k, m, kind, i - 1);
    }
  }

  lemma TracedIff(ws: seq<World>, acts: seq<Label>, k: nat, m: nat, kind: TokenKind)
    requires k < m <= |acts| < |ws| && OldTraced(ws, acts, k, m, kind)
    ensures EverHolds(ws, k, m, kind) <==> EverRegisters(ws, acts, k, m, kind)
  {
    if EverHolds(ws, k, m, kind) {
      var i :| k < i <= m && HoldsOldSession(ws[i], ws[k], kind);
      HeldThenCaused(ws, acts, k, m, kind, i);
    }
    if EverRegisters(ws, acts, k, m, kind) {
      var j :| k < j < m && OldRegisters(ws[j], acts[j], ws[k], kind);
      assert OldStep(ws[j], acts[j], ws[j + 1], ws[k], kind);
      assert k < j + 1 <= m && HoldsOldSession(ws[j + 1], ws[k], kind);
    }
  }

  lemma RotationClears(register: Registrar, w: World, a: Label, v: World, kind: TokenKind)
    requires Next(register, w, a, v) && a.Rotate? && a.kind == kind
    ensures !HoldsOldSession(v, w, kind)
  {
  }

  lemma RotatedAt(register: Registrar, ws: seq<World>, acts: seq<Label>, k: nat, kind: TokenKind)
    requires IsRun(register, ws, acts) && k < |acts| && acts[k].Rotate? && acts[k].kind == kind
    ensures !HoldsOldSession(ws[k + 1], ws[k], kind)
  {
    assert Next(register, ws[k], acts[k], ws[k + 1]);
    RotationClears(register, ws[k], acts[k], ws[k + 1], kind);
  }

  lemma StepAt(register: Registrar, ws: seq<World>, acts: seq<Label>, k: nat, i: nat, kind: TokenKind)
    requires IsRun(register, ws, acts) && k <= i < |acts| && !acts[i].Restart? && Succeeds(ws[k], ws[i])
    ensures OldStep(ws[i], acts[i], ws[i + 1], ws[k], kind)
  {
    assert Next(register, ws[i], acts[i], ws[i + 1]);
    StepHoldsOld(register, ws[i], acts[i], ws[i + 1], ws[k], kind);
  }

  lemma {:induction false} SucceedsAlways(register: Registrar, ws: seq<World>, acts: seq<Label>, k: nat, m: nat)
    requires IsRun(register, ws, acts) && k <= m <= |acts| && (forall j {:trigger acts[j]} | k <= j < m :: !acts[j].Restart?)
    requires forall h | h in ws[k].conns :: ws[k].conns[h].handle == h
    ensures Succeeds(ws[k], ws[m])
  {
    if k < m {
      SucceedsAlways(register, ws, acts, k, m - 1);
      assert Next(register, ws[m - 1], acts[m - 1], ws[m - 1 + 1]);
      StepSucceeds(register, ws[m - 1], acts[m - 1], ws[m], ws[k]);
    }
  }

  // After a rotation, and until the process restarts, a connection accepted before it holds a session of
  // the rotated kind at some point if and only if one of them sends an acceptable RegisterNode after it.
  lemma RevokedSessionIff(register: Registrar, ws: seq<World>, acts: seq<Label>, k: nat, m: nat, kind: TokenKind)
    requires IsRun(register, ws, acts) && k < m <= |acts|
    requires acts[k].Rotate? && acts[k].kind == kind && (forall j | k < j < m :: !acts[j].Restart?)
    requires forall h | h in ws[k].conns :: ws[k].conns[h].handle == h
    ensures EverHolds(ws, k, m, kind) <==> EverRegisters(ws, acts, k, m, kind)
  {
    forall j | k < j < m ensures OldStep(ws[j], acts[j], ws[j + 1], ws[k], kind) {
      SucceedsAlways(register, ws, acts, k, j);
      StepAt(register, ws, acts, k, j, kind);
    }
    RotatedAt(register, ws, acts, k, kind);
    TracedIff(ws, acts, k, m, kind);
  }

  // It happens: a client authenticates, its token is revoked, and only then does it register. It ends up
  // with an open session of a kind no token authenticates as any more.
  lemma RevokedTokenStillRegisters(
    register: Registrar, w: World, me: Conn, hash: Hash, metadata: NodeMetadata, key: Key32, clock: Clock)
      returns (ws: seq<World>, acts: seq<Label>)
    requires Fresh(w, me) && w.s.tokens.Authenticate(hash) == Some(me.kind)
    requires ValidMetadata(metadata.metadata) && me.nodeId !in w.s.nodes && me.nodeId !in w.s.sessions && me.handle !in w.s.closed
    requires forall n | n in w.s.sessions :: w.s.sessions[n].conn != me.handle
    ensures IsRun(register, ws, acts) && ws[0] == w && |acts| == 3 && acts[1] == Rotate(me.kind, None, clock.now)
    ensures var s := ws[3].s;
            && me.nodeId in s.sessions && s.sessions[me.nodeId] == Session(me.sessionId, me.kind, me.handle)
            && me.handle !in s.closed && forall h :: s.tokens.Authenticate(h) != Some(me.kind)
  {
    var f := RegisterNode(metadata, key);
    var w1 := World(w.s, w.conns[me.handle := me], w.live + {me.handle});
    var w2 := w1.(s := ReplaceToken(w1.s, me.kind, None, clock.now));
    var w3 := Received(register, w2, me.handle, f, clock);
    RevocationSparesUnregistered(w.s, me, metadata, key, clock.now);
    LateRegistration(register, w2, me, f, clock);
    ws := [w, w1, w2, w3];
    acts := [Accept(me, hash), Rotate(me.kind, None, clock.now), Receive(me.handle, f, clock)];
    ThreeSteps(register, ws, acts);
  }

  lemma RevocationSparesUnregistered(s: Relay, me: Conn, metadata: NodeMetadata, key: Key32, now: i64)
    requires ValidMetadata(metadata.metadata) && me.nodeId !in s.nodes && me.nodeId !in s.sessions && me.handle !in s.closed
    requires forall n | n in s.sessions :: s.sessions[n].conn != me.handle
    ensures var t := ReplaceToken(s, me.kind, None, now);
            && NodeAccepted(t, me, metadata, key) && me.nodeId !in t.sessions && me.handle !in t.closed
            && forall h :: t.tokens.Authenticate(h) != Some(me.kind)
  {
  }

  lemma LateRegistration(register: Registrar, w: World, me: Conn, f: Frame, clock: Clock)
    requires me.handle in w.conns && w.conns[me.handle] == me && f.RegisterNode?
    requires NodeAccepted(w.s, me, f.metadata, f.publicKey) && me.nodeId !in w.s.sessions && me.handle !in w.s.closed
    ensures var s := Received(register, w, me.handle, f, clock).s;
            && me.nodeId in s.sessions && s.sessions[me.nodeId] == Session(me.sessionId, me.kind, me.handle)
            && me.handle !in s.closed && s.tokens == w.s.tokens
  {
    assert HandleFrame(register, w.s, me, f, clock) == Continue(RegisteredNode(w.s, me, f.metadata, f.publicKey, clock), true, None);
  }

  lemma ThreeSteps(register: Registrar, ws: seq<World>, acts: seq<Label>)
    requires |ws| == 4 && |acts| == 3
    requires Next(register, ws[0], acts[0], ws[1]) && Next(register, ws[1], acts[1], ws[2]) && Next(register, ws[2], acts[2], ws[3])
    ensures IsRun(register, ws, acts)
  {
  }

  // ---- Online exactly with a session ----

  ghost predicate OnlineExactly(s: Relay) {
    && (forall n | n in s.sessions :: n in s.nodes)
    && (forall n | n in s.nodes :: s.nodes[n].status.Online? <==> n in s.sessions)
  }

  // A running, registered connection that has not been closed still owns its node's entry.
  ghost predicate OpenIsCurrent(w: World) {
    forall h | h in w.live && h in w.conns && w.conns[h].registered && h !in w.s.closed :: Current(w.s, w.conns[h])
  }

  ghost predicate LifecycleInvariant(w: World) {
    SessionsBacked(w) && OnlineExactly(w.s) && OpenIsCurrent(w)
  }

  // What the claim needs of a step: a heartbeat comes from a registered connection that has not been
  // closed, and a restart finds every stored node offline.
  ghost predicate Obeys(w: World, a: Label) {
    match a
    case Receive(h, f, _) => f.Heartbeat? && h in w.conns ==> w.conns[h].registered && h !in w.s.closed
    case Restart(_, _) => forall n | n in w.s.storedNodes :: w.s.storedNodes[n].status.Offline?
    case _ => true
  }

  // Both conditions are exact.
  lemma HeartbeatOnlineIff(s: Relay, nodeId: Uuid, snapshot: HeartbeatSnapshot, now: i64)
    requires OnlineExactly(s)
    ensures OnlineExactly(RecordHeartbeat(s, nodeId, snapshot, now)) <==> nodeId !in s.nodes || nodeId in s.sessions
  {
    if nodeId in s.nodes {
      assert RecordHeartbeat(s, nodeId, snapshot, now).nodes[nodeId].status.Online?;
    }
  }

  lemma RestartOnlineIff(s: Relay, adminHash: Hash, userHash: Hash)
    ensures OnlineExactly(Restarted(s, adminHash, userHash))
            <==> forall n | n in s.storedNodes :: s.storedNodes[n].status.Offline?
  {
  }

  lemma RegisterKeepsLifecycle(w: World, h: nat, metadata: NodeMetadata, key: Key32, clock: Clock)
    requires LifecycleInvariant(w) && h in w.conns
    ensures var me := w.conns[h];
            LifecycleInvariant(World(RegisteredNode(w.s, me, metadata, key, clock), w.conns[h := me.(registered := true)], w.live))
  {
    var me := w.conns[h];
    var v := World(RegisteredNode(w.s, me, metadata, key, clock), w.conns[h := me.(registered := true)], w.live);
    forall n | n in v.s.sessions ensures Backed(v, n) {
      assert n in w.s.sessions ==> Backed(w, n);
    }
    forall g | g in v.live && g in v.conns && v.conns[g].registered && g !in v.s.closed ensures Current(v.s, v.conns[g]) {
      if g != h {
        assert Current(w.s, w.conns[g]);
        assert me.nodeId in w.s.sessions ==> Backed(w, me.nodeId);
      }
    }
  }

  lemma HeartbeatKeepsLifecycle(w: World, h: nat, snapshot: HeartbeatSnapshot, now: i64)
    requires LifecycleInvariant(w) && h in w.conns && h in w.live
    requires w.conns[h].registered && h !in w.s.closed
    ensures LifecycleInvariant(w.(s := RecordHeartbeat(w.s, w.conns[h].nodeId, snapshot, now)))
  {
    var v := w.(s := RecordHeartbeat(w.s, w.conns[h].nodeId, snapshot, now));
    assert Current(w.s, w.conns[h]);
    HeartbeatOnlineIff(w.s, w.conns[h].nodeId, snapshot, now);
    assert forall n | n in v.s.sessions :: Backed(w, n);
  }

  lemma ExitKeepsLifecycle(w: World, h: nat, goodbye: bool, now: i64)
    requires LifecycleInvariant(w) && h in w.conns
    ensures LifecycleInvariant(World(Exit(w.s, w.conns[h], goodbye, now), w.conns, w.live - {h}))
  {
    var me := w.conns[h];
    var v := World(Exit(w.s, me, goodbye, now), w.conns, w.live - {h});
    forall n | n in v.s.sessions ensures Backed(v, n) {
      assert Backed(w, n);
    }
    forall g | g in v.live && g in v.conns && v.conns[g].registered && g !in v.s.closed ensures Current(v.s, v.conns[g]) {
      assert Current(w.s, w.conns[g]);
    }
  }

  lemma RotationKeepsLifecycle(w: World, kind: TokenKind, hash: Option<Hash>, now: i64)
    requires LifecycleInvariant(w)
    ensures LifecycleInvariant(w.(s := ReplaceToken(w.s, kind, hash, now)))
  {
    var v := w.(s := ReplaceToken(w.s, kind, hash, now));
    forall n | n in v.s.sessions ensures Backed(v, n) {
      assert Backed(w, n);
    }
    forall g | g in v.live && g in v.conns && v.conns[g].registered && g !in v.s.closed ensures Current(v.s, v.conns[g]) {
      assert Current(w.s, w.conns[g]);
      assert Backed(w, w.conns[g].nodeId);
    }
  }

  lemma SameNodesKeepLifecycle(w: World, t: Relay)
    requires LifecycleInvariant(w)
    requires t.sessions == w.s.sessions && t.nodes == w.s.nodes && t.closed == w.s.closed
    ensures LifecycleInvariant(w.(s := t))
  {
    BackedStays(w, w.(s := t));
    forall h | h in w.live && h in w.conns && w.conns[h].registered && h !in t.closed ensures Current(t, w.conns[h]) {
      assert Current(w.s, w.conns[h]);
    }
  }

  lemma ReceiveKeepsLifecycle(register: Registrar, w: World, h: nat, f: Frame, clock: Clock)
    requires LifecycleInvariant(w) && h in w.conns && h in w.live
    requires f.Heartbeat? ==> w.conns[h].registered && h !in w.s.closed
    ensures LifecycleInvariant(Received(register, w, h, f, clock))
  {
    var me := w.conns[h];
    var handled := HandleFrame(register, w.s, me, f, clock);
    if handled.Leave? || handled.Abandon? {
      assert handled.s == w.s;
      ExitKeepsLifecycle(w, h, handled.Leave?, clock.later);
    } else if f.RegisterNode? {
      RegisterKeepsLifecycle(w, h, f.metadata, f.publicKey, clock);
    } else {
      assert handled.registered == me.registered && w.conns[h := me] == w.conns;
      if f.Heartbeat? {
        HeartbeatKeepsLifecycle(w, h, f.snapshot, clock.now);
      } else {
        QuietFrameSessions(register, w.s, me, f, clock);
        SameNodesKeepLifecycle(w, handled.s);
      }
    }
  }

  lemma AcceptKeepsLifecycle(w: World, me: Conn)
    requires LifecycleInvariant(w) && Fresh(w, me)
    ensures LifecycleInvariant(World(w.s, w.conns[me.handle := me], w.live + {me.handle}))
  {
    var v := World(w.s, w.conns[me.handle := me], w.live + {me.handle});
    forall n | n in v.s.sessions ensures Backed(v, n) { assert Backed(w, n); }
    forall h | h in v.live && h in v.conns && v.conns[h].registered && h !in v.s.closed ensures Current(v.s, v.conns[h]) {
      assert Current(w.s, w.conns[h]);
    }
  }

  lemma StepKeepsLifecycle(register: Registrar, w: World, a: Label, v: World)
    requires Next(register, w, a, v) && LifecycleInvariant(w) && Obeys(w, a)
    ensures LifecycleInvariant(v)
  {
    match a
    case Accept(me, hash) => AcceptKeepsLifecycle(w, me);
    case Receive(h, f, clock) => ReceiveKeepsLifecycle(register, w, h, f, clock);
    case Lost(h, now) => ExitKeepsLifecycle(w, h, false, now);
    case Rotate(kind, hash, now) => RotationKeepsLifecycle(w, kind, hash, now);
    case Api(ledger) => SameNodesKeepLifecycle(w, v.s);
    case Restart(adminHash, userHash) => RestartOnlineIff(w.s, adminHash, userHash);
  }

  // Over both transports and however connections end, a node is Online exactly while it has a session.
  lemma {:induction false} OnlineIffSession(register: Registrar, ws: seq<World>, acts: seq<Label>, i: nat)
    requires IsRun(register, ws, acts) && LifecycleInvariant(ws[0])
    requires forall k | 0 <= k < |acts| :: Obeys(ws[k], acts[k])
    requires i < |ws|
    ensures LifecycleInvariant(ws[i])
    ensures forall n | n in ws[i].s.nodes :: ws[i].s.nodes[n].status.Online? <==> n in ws[i].s.sessions
  {
    if i > 0 {
      OnlineIffSession(register, ws, acts, i - 1);
      assert Next(register, ws[i - 1], acts[i - 1], ws[i - 1 + 1]);
      StepKeepsLifecycle(register, ws[i - 1], acts[i - 1], ws[i]);
    }
  }

  // What breaks it within one process: the token of an open session is rotated, and the heartbeat already
  // received on its connection is processed after that. The node ends up Online without a session.
  lemma LateHeartbeatWithoutSession(
    register: Registrar, w: World, h: nat, kind: TokenKind, hash: Option<Hash>, snapshot: HeartbeatSnapshot, clock: Clock)
      returns (ws: seq<World>, acts: seq<Label>)
    requires LifecycleInvariant(w) && h in w.live && h in w.conns
    requires var n := w.conns[h].nodeId; n in w.s.sessions && w.s.sessions[n].kind == kind
    ensures IsRun(register, ws, acts) && ws[0] == w && |acts| == 2
    ensures acts[0] == Rotate(kind, hash, clock.now) && acts[1] == Receive(h, Heartbeat(snapshot), clock)
    ensures var s, n := ws[2].s, w.conns[h].nodeId;
            n in s.nodes && s.nodes[n].status.Online? && n !in s.sessions && !OnlineExactly(s)
  {
    var f := Heartbeat(snapshot);
    var w1 := w.(s := ReplaceToken(w.s, kind, hash, clock.now));
    var w2 := Received(register, w1, h, f, clock);
    RotationUnseats(w.s, kind, hash, clock.now, w.conns[h].nodeId);
    LateHeartbeat(register, w1, h, snapshot, clock);
    ws, acts := [w, w1, w2], [Rotate(kind, hash, clock.now), Receive(h, f, clock)];
    TwoSteps(register, ws, acts);
  }

  lemma RotationUnseats(s: Relay, kind: TokenKind, hash: Option<Hash>, now: i64, n: Uuid)
    requires n in s.nodes && n in s.sessions && s.sessions[n].kind == kind
    ensures n in ReplaceToken(s, kind, hash, now).nodes && n !in ReplaceToken(s, kind, hash, now).sessions
  {
  }

  lemma LateHeartbeat(register: Registrar, w: World, h: nat, snapshot: HeartbeatSnapshot, clock: Clock)
    requires h in w.conns && w.conns[h].nodeId in w.s.nodes
    ensures var s, n := Received(register, w, h, Heartbeat(snapshot), clock).s, w.conns[h].nodeId;
            n in s.nodes && s.nodes[n].status.Online? && s.sessions == w.s.sessions
  {
  }

  lemma TwoSteps(register: Registrar, ws: seq<World>, acts: seq<Label>)
    requires |ws| == 3 && |acts| == 2
    requires Next(register, ws[0], acts[0], ws[1]) && Next(register, ws[1], acts[1], ws[2])
    ensures IsRun(register, ws, acts)
  {
  }

  // What breaks it at a restart: a database on which a stored node is online, as a process that died with
  // sessions open leaves it.
  lemma OnlineNodeWithoutSession(s: Relay, n: Uuid, adminHash: Hash, userHash: Hash)
    requires n in s.storedNodes && s.storedNodes[n].status.Online?
    ensures var t := Restarted(s, adminHash, userHash);
            n in t.nodes && t.nodes[n].status.Online? && n !in t.sessions && !OnlineExactly(t)
  {
    RestartOnlineIff(s, adminHash, userHash);
  }

  // A fresh process on an all-offline database starts in the invariant.
  lemma FreshProcessStarts(s: Relay)
    requires s.sessions == map[] && forall n | n in s.nodes :: s.nodes[n].status.Offline?
    ensures LifecycleInvariant(World(s, map[], {}))
  {
  }

  // In any run at all, whatever is sent on whatever connection, a superseded exit is silent.
  lemma {:induction false} SupersededAlwaysSilent(register: Registrar, ws: seq<World>, acts: seq<Label>, i: nat, h: nat, goodbye: bool, now: i64)
    requires IsRun(register, ws, acts) && SessionsBacked(ws[0])
    requires i < |ws|
    ensures SessionsBacked(ws[i])
    ensures h in ws[i].conns && ws[i].conns[h].nodeId in ws[i].s.sessions && ws[i].s.sessions[ws[i].conns[h].nodeId].conn != h
            ==> Exit(ws[i].s, ws[i].conns[h], goodbye, now) == ws[i].s
  {
    if i > 0 {
      SupersededAlwaysSilent(register, ws, acts, i - 1, h, goodbye, now);
      assert Next(register, ws[i - 1], acts[i - 1], ws[i - 1 + 1]);
      StepKeepsSessionsBacked(register, ws[i - 1], acts[i - 1], ws[i]);
    }
    if h in ws[i].conns && ws[i].conns[h].nodeId in ws[i].s.sessions && ws[i].s.sessions[ws[i].conns[h].nodeId].conn != h {
      SupersededExitIsSilent(ws[i], h, goodbye, now);
    }
  }
}
