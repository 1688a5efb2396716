// The service handlers as they really run: any number at once, each a program counter over its atomic
// sections (one per lock acquisition, store commit or bind), interleaved in any order.
module Interleaving {
  import opened Basics
  import opened Types
  import opened Validation
  import opened Registry
  import opened Ledger

  // Where a handler stands: the section it executes next.
  datatype Phase =
    | RegisterAdmit(req: ServiceDefinition, nodeId: Uuid)
    | RegisterPersist(s: ServiceDefinition)
    | RegisterCheckTask(s: ServiceDefinition)
    | RegisterBind(s: ServiceDefinition)
    | RegisterInsertTask(s: ServiceDefinition)
    | RollbackTable(s: ServiceDefinition)
    | RollbackStore(s: ServiceDefinition)
    | UnregisterTable(id: Uuid, nodeId: Uuid)
    | UnregisterStore(id: Uuid)
    | UnregisterTask(id: Uuid)
    | DeleteTable(id: Uuid)
    | DeleteTask(id: Uuid)
    | DeleteStore(id: Uuid)
    | PatchTable(id: Uuid, metadata: Metadata)
    | PatchStore(s: ServiceDefinition)
    | Finished

  datatype World = World(l: Ledger, ops: map<nat, Phase>)

  predicate Starting(p: Phase) {
    p.RegisterAdmit? || p.UnregisterTable? || p.DeleteTable? || (p.PatchTable? && ValidMetadata(p.metadata))
  }

  // The service a handler is in the middle of changing.
  function Target(p: Phase): Option<Uuid> {
    match p
    case RegisterPersist(s) => Some(s.serviceId)
    case RegisterCheckTask(s) => Some(s.serviceId)
    case RegisterBind(s) => Some(s.serviceId)
    case RegisterInsertTask(s) => Some(s.serviceId)
    case RollbackTable(s) => Some(s.serviceId)
    case RollbackStore(s) => Some(s.serviceId)
    case UnregisterStore(id) => Some(id)
    case UnregisterTask(id) => Some(id)
    case DeleteTask(id) => Some(id)
    case DeleteStore(id) => Some(id)
    case PatchStore(s) => Some(s.serviceId)
    case _ => None
  }

  // A listener bound but not yet entered in the task map.
  predicate Holds(p: Phase, port: u16) {
    p.RegisterInsertTask? && p.s.publicPort == Some(port)
  }

  predicate PortBound(w: World, port: u16) {
    Bound(w.l, port) || exists op | op in w.ops :: Holds(w.ops[op], port)
  }

  // One section of one handler. `commits` is whether its store transaction succeeds and `binds` whether
  // the operating system allows the bind when the port has no owner.
  function Section(cfg: Config, w: World, p: Phase, commits: bool, binds: bool): (Ledger, Phase) {
    var l := w.l;
    match p
    case RegisterAdmit(req, nodeId) =>
      (match Admit(cfg, l.table, req, nodeId)
       case Err(_) => (l, Finished)
       case Ok(s) => (l.(table := l.table[s.serviceId := s]), RegisterPersist(s)))
    case RegisterPersist(s) =>
      if !commits then (l, Finished)
      else (l.(store := l.store[s.serviceId := s]), if s.protocol.Tcp? then RegisterCheckTask(s) else Finished)
    case RegisterCheckTask(s) =>
      if s.publicPort.None? then (l, RollbackTable(s))
      else if s.serviceId in l.tasks then (l, Finished)
      else (l, RegisterBind(s))
    case RegisterBind(s) =>
      if s.publicPort.Some? && binds && !PortBound(w, s.publicPort.value) then (l, RegisterInsertTask(s))
      else (l, RollbackTable(s))
    case RegisterInsertTask(s) =>
      // A task already entered under the id is aborted, which frees its port.
      (if s.publicPort.Some? then l.(tasks := l.tasks[s.serviceId := s.publicPort.value]) else l, Finished)
    case RollbackTable(s) => (l.(table := l.table - {s.serviceId}), RollbackStore(s))
    case RollbackStore(s) => (if commits then l.(store := l.store - {s.serviceId}) else l, Finished)
    case UnregisterTable(id, nodeId) =>
      if id in l.table && l.table[id].nodeId == nodeId then (l.(table := l.table - {id}), UnregisterStore(id))
      else (l, Finished)
    case UnregisterStore(id) =>
      if commits then (l.(store := l.store - {id}), UnregisterTask(id)) else (l, Finished)
    case UnregisterTask(id) => (l.(tasks := l.tasks - {id}), Finished)
    case DeleteTable(id) =>
      if id in l.table then (l.(table := l.table - {id}), DeleteTask(id)) else (l, Finished)
    case DeleteTask(id) => (l.(tasks := l.tasks - {id}), DeleteStore(id))
    case DeleteStore(id) => (if commits then l.(store := l.store - {id}) else l, Finished)
    case PatchTable(id, metadata) =>
      if id in l.table then
        var s := l.table[id].(metadata := metadata);
        (l.(table := l.table[id := s]), PatchStore(s))
      else (l, Finished)
    case PatchStore(s) => (if commits then l.(store := l.store[s.serviceId := s]) else l, Finished)
    case Finished => (l, Finished)
  }

  function Advance(cfg: Config, w: World, op: nat, commits: bool, binds: bool): World
    requires op in w.ops
  {
    var (l, p) := Section(cfg, w, w.ops[op], commits, binds);
    World(l, w.ops[op := p])
  }

  datatype Label =
    | Begin(op: nat, phase: Phase)
    | Step(op: nat, commits: bool, binds: bool)
    | Others(foreign: set<u16>)

  ghost predicate Next(cfg: Config, w: World, a: Label, v: World) {
    match a
    case Begin(op, phase) => op !in w.ops && Starting(phase) && v == w.(ops := w.ops[op := phase])
    case Step(op, commits, binds) => op in w.ops && v == Advance(cfg, w, op, commits, binds)
    case Others(foreign) =>
      // Other processes take and release ports, never one that a listener of this process holds.
      && (forall port | port in foreign :: port !in w.l.tasks.Values && !exists op | op in w.ops :: Holds(w.ops[op], port))
      && v == w.(l := w.l.(foreign := foreign))
  }

  ghost predicate IsRun(cfg: Config, ws: seq<World>, acts: seq<Label>) {
    && |ws| == |acts| + 1
    && forall i | 0 <= i < |acts| :: Next(cfg, ws[i], acts[i], ws[i + 1])
  }

  // A store commit that fails leaves everything as it is and ends the handler: a registration stays in
  // memory only, an unregistered or deleted service in the store, and the former with its listener.
  lemma FailedCommit(cfg: Config, w: World, p: Phase, binds: bool)
    requires p.RegisterPersist? || p.RollbackStore? || p.UnregisterStore? || p.DeleteStore? || p.PatchStore?
    ensures Section(cfg, w, p, false, binds) == (w.l, Finished)
  {
  }

  // A port that has an owner, or that the operating system refuses, is rolled back; otherwise the listener
  // is bound and not entered yet.
  lemma BindOutcome(cfg: Config, w: World, s: ServiceDefinition, commits: bool, binds: bool)
    requires s.publicPort.Some?
    ensures var free := s.publicPort.value !in w.l.foreign && s.publicPort.value !in w.l.tasks.Values
                        && forall op | op in w.ops && w.ops[op].RegisterInsertTask? :: w.ops[op].s.publicPort != s.publicPort;
            Section(cfg, w, RegisterBind(s), commits, binds)
            == (w.l, if binds && free then RegisterInsertTask(s) else RollbackTable(s))
  {
  }

  // ---- The in-memory table, under every interleaving ----

  lemma SectionKeepsTableValid(cfg: Config, w: World, p: Phase, commits: bool, binds: bool)
    requires ValidTable(cfg, w.l.table)
    ensures ValidTable(cfg, Section(cfg, w, p, commits, binds).0.table)
  {
    match p
    case RegisterAdmit(req, nodeId) =>
      if Admit(cfg, w.l.table, req, nodeId).Ok? { AdmitKeepsTableValid(cfg, w.l.table, req, nodeId); }
    case RollbackTable(s) => RemoveKeepsTableValid(cfg, w.l.table, s.serviceId);
    case UnregisterTable(id, _) => RemoveKeepsTableValid(cfg, w.l.table, id);
    case DeleteTable(id) => RemoveKeepsTableValid(cfg, w.l.table, id);
    case PatchTable(id, metadata) =>
      if id in w.l.table { PatchKeepsTableValid(cfg, w.l.table, id, metadata); }
    case _ =>
  }

  // Whatever runs at once, rolls back or fails to commit, ids match, names are unique, and every TCP
  // service holds a port of its own inside the range.
  lemma {:induction false} TableAlwaysValid(cfg: Config, ws: seq<World>, acts: seq<Label>, i: nat)
    requires IsRun(cfg, ws, acts) && ValidTable(cfg, ws[0].l.table)
    requires i < |ws|
    ensures ValidTable(cfg, ws[i].l.table)
  {
    if i > 0 {
      TableAlwaysValid(cfg, ws, acts, i - 1);
      var w, a := ws[i - 1], acts[i - 1];
      assert Next(cfg, w, a, ws[i - 1 + 1]);
      if a.Step? { SectionKeepsTableValid(cfg, w, w.ops[a.op], a.commits, a.binds); }
    }
  }

  // ---- Every port has one owner ----

  ghost predicate PortsOwned(w: World) {
    && OneOwnerPerPort(w.l)
    && (forall op, port | op in w.ops && Holds(w.ops[op], port) :: !Bound(w.l, port))
    && (forall a, b, port | a in w.ops && b in w.ops && Holds(w.ops[a], port) && Holds(w.ops[b], port) :: a == b)
  }

  // Listeners that only go away leave every remaining port with its owner.
  lemma FewerListenersStayOwned(w: World, v: World)
    requires PortsOwned(w) && v.l.foreign == w.l.foreign
    requires forall id | id in v.l.tasks :: id in w.l.tasks && v.l.tasks[id] == w.l.tasks[id]
    requires forall op, port | op in v.ops && Holds(v.ops[op], port) :: op in w.ops && Holds(w.ops[op], port)
    ensures PortsOwned(v)
  {
    forall op, port | op in v.ops && Holds(v.ops[op], port) ensures !Bound(v.l, port) {
      assert Holds(w.ops[op], port) && !Bound(w.l, port);
    }
  }

  lemma TaskInsertStaysOwned(cfg: Config, w: World, op: nat, s: ServiceDefinition, commits: bool, binds: bool)
    requires op in w.ops && PortsOwned(w) && w.ops[op] == RegisterInsertTask(s) && s.publicPort.Some?
    ensures PortsOwned(Advance(cfg, w, op, commits, binds))
  {
    var v, mine := Advance(cfg, w, op, commits, binds), s.publicPort.value;
    assert Holds(w.ops[op], mine) && !Bound(w.l, mine);
    assert v == World(w.l.(tasks := w.l.tasks[s.serviceId := mine]), w.ops[op := Finished]);
    forall id | id in v.l.tasks && id != s.serviceId ensures v.l.tasks[id] != mine {
      assert w.l.tasks[id] in w.l.tasks.Values;
    }
    forall o, port | o in v.ops && Holds(v.ops[o], port) ensures !Bound(v.l, port) {
      assert o != op && Holds(w.ops[o], port) && !Bound(w.l, port);
      assert forall id | id in v.l.tasks && id != s.serviceId :: v.l.tasks[id] in w.l.tasks.Values;
    }
  }

  lemma BindStaysOwned(cfg: Config, w: World, op: nat, s: ServiceDefinition, commits: bool)
    requires op in w.ops && PortsOwned(w) && w.ops[op] == RegisterBind(s)
    requires s.publicPort.Some? && !PortBound(w, s.publicPort.value)
    ensures PortsOwned(Advance(cfg, w, op, commits, true))
  {
    var v, mine := Advance(cfg, w, op, commits, true), s.publicPort.value;
    assert v == World(w.l, w.ops[op := RegisterInsertTask(s)]);
    forall o, port | o in v.ops && Holds(v.ops[o], port) ensures !Bound(w.l, port) && (port == mine ==> o == op) {
      if o != op { assert Holds(w.ops[o], port); }
    }
    forall x, y, port | x in v.ops && y in v.ops && Holds(v.ops[x], port) && Holds(v.ops[y], port) ensures x == y {
      if port != mine { assert Holds(w.ops[x], port) && Holds(w.ops[y], port); }
    }
  }

  lemma StepKeepsPortsOwned(cfg: Config, w: World, op: nat, commits: bool, binds: bool)
    requires op in w.ops && PortsOwned(w)
    ensures PortsOwned(Advance(cfg, w, op, commits, binds))
  {
    var p := w.ops[op];
    if p.RegisterBind? && p.s.publicPort.Some? && binds && !PortBound(w, p.s.publicPort.value) {
      BindStaysOwned(cfg, w, op, p.s, commits);
    } else if p.RegisterInsertTask? && p.s.publicPort.Some? {
      TaskInsertStaysOwned(cfg, w, op, p.s, commits, binds);
    } else {
      var v := Advance(cfg, w, op, commits, binds);
      assert !v.ops[op].RegisterInsertTask?;
      FewerListenersStayOwned(w, v);
    }
  }

  lemma OtherLabelsKeepPortsOwned(cfg: Config, w: World, a: Label, v: World)
    requires Next(cfg, w, a, v) && !a.Step? && PortsOwned(w)
    ensures PortsOwned(v)
  {
    if a.Begin? {
      FewerListenersStayOwned(w, v);
    } else {
      forall op, port | op in v.ops && Holds(v.ops[op], port) ensures !Bound(v.l, port) {
        assert !Bound(w.l, port);
      }
      assert forall id | id in v.l.tasks :: v.l.tasks[id] in w.l.tasks.Values;
    }
  }

  // No port ever has two listeners, and none has one that another process holds.
  lemma {:induction false} PortsAlwaysOwned(cfg: Config, ws: seq<World>, acts: seq<Label>, i: nat)
    requires IsRun(cfg, ws, acts) && PortsOwned(ws[0])
    requires i < |ws|
    ensures PortsOwned(ws[i])
  {
    if i > 0 {
      PortsAlwaysOwned(cfg, ws, acts, i - 1);
      var w, a := ws[i - 1], acts[i - 1];
      assert Next(cfg, w, a, ws[i - 1 + 1]);
      if a.Step? {
        StepKeepsPortsOwned(cfg, w, a.op, a.commits, a.binds);
      } else {
        OtherLabelsKeepPortsOwned(cfg, w, a, ws[i]);
      }
    }
  }

  // ---- Memory against store ----

  ghost predicate Exclusive(w: World) {
    forall a, b | a in w.ops && b in w.ops && Target(w.ops[a]).Some? && Target(w.ops[a]) == Target(w.ops[b]) :: a == b
  }

  ghost predicate InFlight(w: World, id: Uuid) {
    exists op | op in w.ops :: Target(w.ops[op]) == Some(id)
  }

  // One id is settled: the same record or none on both sides, and a listener if it is a TCP service.
  ghost predicate AgreesAt(l: Ledger, id: Uuid) {
    && (id in l.table <==> id in l.store)
    && (id in l.table ==> l.table[id] == l.store[id] && (l.table[id].protocol.Tcp? ==> id in l.tasks))
  }

  // What a handler knows about its target between two sections.
  ghost predicate Knows(l: Ledger, p: Phase) {
    match p
    case RegisterPersist(s) => s.serviceId in l.table && l.table[s.serviceId] == s
    case RegisterCheckTask(s) => BothHave(l, s)
    case RegisterBind(s) => BothHave(l, s)
    case RegisterInsertTask(s) => BothHave(l, s) && s.publicPort.Some?
    case RollbackTable(s) => BothHave(l, s)
    case RollbackStore(s) => s.serviceId !in l.table
    case UnregisterStore(id) => id !in l.table
    case UnregisterTask(id) => id !in l.table && id !in l.store
    case DeleteTask(id) => id !in l.table
    case DeleteStore(id) => id !in l.table
    case PatchStore(s) =>
      && s.serviceId in l.table && l.table[s.serviceId] == s
      && (s.protocol.Tcp? ==> s.serviceId in l.tasks)
    case _ => true
  }

  ghost predicate BothHave(l: Ledger, s: ServiceDefinition) {
    && s.serviceId in l.table && l.table[s.serviceId] == s
    && s.serviceId in l.store && l.store[s.serviceId] == s
  }

  ghost predicate Agreement(w: World) {
    && (forall id: Uuid | !InFlight(w, id) :: AgreesAt(w.l, id))
    && (forall op | op in w.ops :: Knows(w.l, w.ops[op]))
  }

  // Two ledgers that differ in nothing but what concerns one id.
  ghost predicate SameElsewhere(l: Ledger, m: Ledger, id: Uuid) {
    forall j: Uuid | j != id ::
      && (j in l.table <==> j in m.table) && (j in l.table ==> l.table[j] == m.table[j])
      && (j in l.store <==> j in m.store) && (j in l.store ==> l.store[j] == m.store[j])
      && (j in l.tasks <==> j in m.tasks) && (j in l.tasks ==> l.tasks[j] == m.tasks[j])
  }

  ghost predicate IdsMatch(l: Ledger) {
    forall id | id in l.table :: l.table[id].serviceId == id
  }

  // A section touches its own target only, and leaves it settled or knows where it left it.
  ghost predicate StaysOnTarget(l: Ledger, p: Phase, m: Ledger, q: Phase) {
    && Knows(m, q)
    && match (Target(p), Target(q))
       case (None, None) => m == l
       case (None, Some(id)) => SameElsewhere(l, m, id)
       case (Some(id), None) => SameElsewhere(l, m, id) && AgreesAt(m, id)
       case (Some(id), Some(j)) => id == j && SameElsewhere(l, m, id)
  }

  lemma AdmitStaysOnTarget(cfg: Config, w: World, p: Phase, binds: bool)
    requires p.RegisterAdmit?
    ensures var (m, q) := Section(cfg, w, p, true, binds); StaysOnTarget(w.l, p, m, q)
  {
  }

  lemma RegisterStaysOnTarget(cfg: Config, w: World, p: Phase, binds: bool)
    requires Knows(w.l, p)
    requires p.RegisterPersist? || p.RegisterCheckTask? || p.RegisterBind? || p.RegisterInsertTask? || p.RollbackTable? || p.RollbackStore?
    ensures var (m, q) := Section(cfg, w, p, true, binds); StaysOnTarget(w.l, p, m, q)
  {
  }

  lemma SectionStaysOnTarget(cfg: Config, w: World, p: Phase, binds: bool)
    requires IdsMatch(w.l) && Knows(w.l, p)
    requires var q := Section(cfg, w, p, true, binds).1;
             Target(p).None? && Target(q).Some? ==> AgreesAt(w.l, Target(q).value)
    ensures var (m, q) := Section(cfg, w, p, true, binds); StaysOnTarget(w.l, p, m, q)
  {
    match p
    case RegisterAdmit(_, _) => AdmitStaysOnTarget(cfg, w, p, binds);
    case RegisterPersist(_) => RegisterStaysOnTarget(cfg, w, p, binds);
    case RegisterCheckTask(_) => RegisterStaysOnTarget(cfg, w, p, binds);
    case RegisterBind(_) => RegisterStaysOnTarget(cfg, w, p, binds);
    case RegisterInsertTask(_) => RegisterStaysOnTarget(cfg, w, p, binds);
    case RollbackTable(_) => RegisterStaysOnTarget(cfg, w, p, binds);
    case RollbackStore(_) => RegisterStaysOnTarget(cfg, w, p, binds);
    case _ =>
  }

  lemma KnowsElsewhere(l: Ledger, m: Ledger, id: Uuid, p: Phase)
    requires SameElsewhere(l, m, id) && Knows(l, p) && Target(p) != Some(id)
    ensures Knows(m, p)
  {
  }

  lemma StepKeepsAgreement(cfg: Config, w: World, op: nat, binds: bool)
    requires op in w.ops && IdsMatch(w.l) && Agreement(w)
    requires Exclusive(w) && Exclusive(Advance(cfg, w, op, true, binds))
    ensures Agreement(Advance(cfg, w, op, true, binds))
  {
    var p := w.ops[op];
    var (m, q) := Section(cfg, w, p, true, binds);
    var v := Advance(cfg, w, op, true, binds);
    if Target(p).None? && Target(q).Some? {
      NewTargetNotInFlight(w, v, op, Target(q).value);
    }
    SectionStaysOnTarget(cfg, w, p, binds);
    var touched := if Target(p).Some? then Target(p) else Target(q);
    forall o | o in v.ops ensures Knows(m, v.ops[o]) {
      if o != op && touched.Some? {
        assert v.ops[o] == w.ops[o] && v.ops[op] == q;
        KnowsElsewhere(w.l, m, touched.value, w.ops[o]);
      }
    }
    forall id: Uuid | !InFlight(v, id) ensures AgreesAt(m, id) {
      if touched != Some(id) {
        StillSettled(w, v, op, id);
      }
    }
  }

  lemma NewTargetNotInFlight(w: World, v: World, op: nat, id: Uuid)
    requires Exclusive(v) && op in w.ops && op in v.ops
    requires v.ops == w.ops[op := v.ops[op]] && Target(w.ops[op]).None? && Target(v.ops[op]) == Some(id)
    ensures !InFlight(w, id)
  {
    forall o | o in w.ops ensures Target(w.ops[o]) != Some(id) {
      assert o != op ==> v.ops[o] == w.ops[o];
    }
  }

  lemma StillSettled(w: World, v: World, op: nat, id: Uuid)
    requires op in w.ops && op in v.ops && v.ops == w.ops[op := v.ops[op]]
    requires !InFlight(v, id) && Target(w.ops[op]) != Some(id)
    ensures !InFlight(w, id)
  {
    forall o | o in w.ops ensures Target(w.ops[o]) != Some(id) {
      assert o != op ==> v.ops[o] == w.ops[o];
    }
  }

  ghost predicate CommitsSucceed(acts: seq<Label>) {
    forall i | 0 <= i < |acts| && acts[i].Step? :: acts[i].commits
  }

  ghost predicate NeverTwoOnOneService(ws: seq<World>) {
    forall i | 0 <= i < |ws| :: Exclusive(ws[i])
  }

  // As long as no two handlers are in the middle of changing one service, every other service has the
  // same record in memory and in the store, and a listener if it is TCP.
  lemma {:induction false} AgreementAlwaysHolds(cfg: Config, ws: seq<World>, acts: seq<Label>, i: nat)
    requires IsRun(cfg, ws, acts) && ValidTable(cfg, ws[0].l.table) && Agreement(ws[0])
    requires CommitsSucceed(acts) && NeverTwoOnOneService(ws)
    requires i < |ws|
    ensures Agreement(ws[i])
  {
    if i > 0 {
      AgreementAlwaysHolds(cfg, ws, acts, i - 1);
      TableAlwaysValid(cfg, ws, acts, i - 1);
      var w, a := ws[i - 1], acts[i - 1];
      assert Next(cfg, w, a, ws[i - 1 + 1]);
      if a.Step? {
        StepKeepsAgreement(cfg, w, a.op, a.binds);
      } else {
        OtherLabelsKeepAgreement(cfg, w, a, ws[i]);
      }
    }
  }

  lemma OtherLabelsKeepFlights(cfg: Config, w: World, a: Label, v: World, id: Uuid)
    requires Next(cfg, w, a, v) && !a.Step?
    ensures InFlight(w, id) ==> InFlight(v, id)
  {
    if InFlight(w, id) {
      var o :| o in w.ops && Target(w.ops[o]) == Some(id);
      assert o in v.ops && v.ops[o] == w.ops[o];
    }
  }

  lemma OtherLabelsKeepKnowledge(cfg: Config, w: World, a: Label, v: World, op: nat)
    requires Next(cfg, w, a, v) && !a.Step? && Agreement(w) && op in v.ops
    ensures Knows(v.l, v.ops[op])
  {
    if op in w.ops {
      assert v.ops[op] == w.ops[op] && Knows(w.l, w.ops[op]);
    }
  }

  lemma OtherLabelsKeepAgreement(cfg: Config, w: World, a: Label, v: World)
    requires Next(cfg, w, a, v) && !a.Step? && Agreement(w)
    ensures Agreement(v)
  {
    forall id: Uuid | !InFlight(v, id) ensures AgreesAt(v.l, id) {
      OtherLabelsKeepFlights(cfg, w, a, v, id);
      assert AgreesAt(w.l, id);
    }
    forall op | op in v.ops ensures Knows(v.l, v.ops[op]) {
      OtherLabelsKeepKnowledge(cfg, w, a, v, op);
    }
  }

  ghost predicate Quiescent(w: World) {
    forall op | op in w.ops :: Target(w.ops[op]).None?
  }

  // A consistent ledger with nothing in flight is where agreement starts.
  lemma ConsistentAgrees(cfg: Config, w: World)
    requires Consistent(cfg, w.l) && Quiescent(w)
    ensures Agreement(w)
  {
    forall op | op in w.ops ensures Knows(w.l, w.ops[op]) {
      assert Target(w.ops[op]).None?;
    }
  }

  // When nothing is in flight the store is the table, so it has unique names and distinct leases too,
  // and every leased port is listened on.
  lemma QuiescentStoreIsTable(cfg: Config, ws: seq<World>, acts: seq<Label>, i: nat)
    requires IsRun(cfg, ws, acts) && Consistent(cfg, ws[0].l) && Quiescent(ws[0])
    requires CommitsSucceed(acts) && NeverTwoOnOneService(ws)
    requires i < |ws| && Quiescent(ws[i])
    ensures ws[i].l.store == ws[i].l.table && ValidTable(cfg, ws[i].l.store) && EveryLeaseListens(ws[i].l)
  {
    ConsistentAgrees(cfg, ws[0]);
    AgreementAlwaysHolds(cfg, ws, acts, i);
    TableAlwaysValid(cfg, ws, acts, i);
    var w := ws[i];
    forall id: Uuid ensures AgreesAt(w.l, id) {
      assert !InFlight(w, id);
    }
    assert forall id | id in w.l.table :: AgreesAt(w.l, id);
    assert forall id | id in w.l.store :: AgreesAt(w.l, id);
    assert w.l.store == w.l.table;
  }

  // ---- A handler alone does what the Ledger says ----

  // `n` sections of one handler with nobody else running.
  function Alone(cfg: Config, l: Ledger, p: Phase, n: nat): (Ledger, Phase)
    decreases n
  {
    if n == 0 then (l, p)
    else
      var (m, q) := Section(cfg, World(l, map[]), p, true, true);
      Alone(cfg, m, q, n - 1)
  }

  lemma {:induction false} FinishedStays(cfg: Config, l: Ledger, n: nat)
    ensures Alone(cfg, l, Finished, n) == (l, Finished)
  {
    if n > 0 { FinishedStays(cfg, l, n - 1); }
  }

  lemma RollbackAlone(cfg: Config, l: Ledger, s: ServiceDefinition, n: nat)
    requires n >= 2
    ensures Alone(cfg, l, RollbackTable(s), n)
            == (l.(table := l.table - {s.serviceId}, store := l.store - {s.serviceId}), Finished)
  {
    var a := l.(table := l.table - {s.serviceId});
    var b := a.(store := a.store - {s.serviceId});
    FinishedStays(cfg, b, n - 2);
    assert Alone(cfg, a, RollbackStore(s), n - 1) == Alone(cfg, b, Finished, n - 2);
  }

  lemma BindAlone(cfg: Config, l: Ledger, s: ServiceDefinition, n: nat)
    requires s.protocol.Tcp? && s.publicPort.Some? && s.serviceId !in l.tasks && n >= 3
    ensures Alone(cfg, l, RegisterBind(s), n) == (Activated(l, s).0, Finished)
  {
    var port := s.publicPort.value;
    assert PortBound(World(l, map[]), port) == Bound(l, port);
    if Bound(l, port) {
      RollbackAlone(cfg, l, s, n - 1);
    } else {
      var m := l.(tasks := l.tasks[s.serviceId := port]);
      FinishedStays(cfg, m, n - 2);
      assert Alone(cfg, l, RegisterInsertTask(s), n - 1) == Alone(cfg, m, Finished, n - 2);
    }
  }

  lemma ActivateAlone(cfg: Config, l: Ledger, s: ServiceDefinition, n: nat)
    requires s.protocol.Tcp? && s.publicPort.Some? && n >= 4
    ensures Alone(cfg, l, RegisterCheckTask(s), n) == (Activated(l, s).0, Finished)
  {
    if s.serviceId in l.tasks {
      FinishedStays(cfg, l, n - 1);
    } else {
      BindAlone(cfg, l, s, n - 1);
    }
  }

  lemma PersistAlone(cfg: Config, l: Ledger, s: ServiceDefinition, n: nat)
    requires (s.protocol.Tcp? ==> s.publicPort.Some?) && n >= 5
    ensures Alone(cfg, l, RegisterPersist(s), n)
            == (Activated(l.(store := l.store[s.serviceId := s]), s).0, Finished)
  {
    var m := l.(store := l.store[s.serviceId := s]);
    if s.protocol.Tcp? {
      ActivateAlone(cfg, m, s, n - 1);
    } else {
      FinishedStays(cfg, m, n - 1);
    }
  }

  lemma RegisterAlone(cfg: Config, l: Ledger, req: ServiceDefinition, nodeId: Uuid, n: nat)
    requires n >= 6
    ensures Alone(cfg, l, RegisterAdmit(req, nodeId), n) == (Registered(cfg, l, req, nodeId).0, Finished)
  {
    match Admit(cfg, l.table, req, nodeId)
    case Err(_) => FinishedStays(cfg, l, n - 1);
    case Ok(s) =>
      PlacedRecord(cfg, l.table, Adopt(l.table, req, nodeId));
      PersistAlone(cfg, l.(table := l.table[s.serviceId := s]), s, n - 1);
  }

  lemma UnregisterAlone(cfg: Config, l: Ledger, id: Uuid, nodeId: Uuid, n: nat)
    requires n >= 3
    ensures Alone(cfg, l, UnregisterTable(id, nodeId), n) == (Unregistered(l, id, nodeId), Finished)
  {
    if id in l.table && l.table[id].nodeId == nodeId {
      var t := l.(table := l.table - {id});
      var u := t.(store := t.store - {id});
      FinishedStays(cfg, Removed(l, id), n - 3);
      assert Alone(cfg, u, UnregisterTask(id), n - 2) == Alone(cfg, Removed(l, id), Finished, n - 3);
      assert Alone(cfg, t, UnregisterStore(id), n - 1) == Alone(cfg, u, UnregisterTask(id), n - 2);
    } else {
      FinishedStays(cfg, l, n - 1);
    }
  }

  lemma DeleteAlone(cfg: Config, l: Ledger, id: Uuid, n: nat)
    requires n >= 3
    ensures Alone(cfg, l, DeleteTable(id), n) == (Deleted(l, id), Finished)
  {
    if id in l.table {
      var t := l.(table := l.table - {id});
      var u := t.(tasks := t.tasks - {id});
      FinishedStays(cfg, Removed(l, id), n - 3);
      assert Alone(cfg, u, DeleteStore(id), n - 2) == Alone(cfg, Removed(l, id), Finished, n - 3);
      assert Alone(cfg, t, DeleteTask(id), n - 1) == Alone(cfg, u, DeleteStore(id), n - 2);
    } else {
      FinishedStays(cfg, l, n - 1);
    }
  }

  lemma AloneStep(cfg: Config, l: Ledger, p: Phase, n: nat, m: Ledger, q: Phase)
    requires n > 0 && Section(cfg, World(l, map[]), p, true, true) == (m, q)
    ensures Alone(cfg, l, p, n) == Alone(cfg, m, q, n - 1)
  {
  }

  lemma PatchAlone(cfg: Config, l: Ledger, id: Uuid, metadata: Metadata, n: nat)
    requires ValidMetadata(metadata) && IdsMatch(l) && n >= 2
    ensures Alone(cfg, l, PatchTable(id, metadata), n) == (Patched(l, id, metadata), Finished)
  {
    if id in l.table {
      var s := l.table[id].(metadata := metadata);
      var t := l.(table := l.table[id := s]);
      AloneStep(cfg, l, PatchTable(id, metadata), n, t, PatchStore(s));
      AloneStep(cfg, t, PatchStore(s), n - 1, Patched(l, id, metadata), Finished);
      FinishedStays(cfg, Patched(l, id, metadata), n - 2);
    } else {
      FinishedStays(cfg, l, n - 1);
    }
  }
}
