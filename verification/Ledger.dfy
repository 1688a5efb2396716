// The four records that must agree about a service: the in-memory table, the durable store, the map of
// listener tasks, and the ports those listeners hold. Each request is first given as one whole step.
module Ledger {
  import opened Basics
  import opened Types
  import opened Validation
  import opened Registry

  // `tasks` gives the port each listener task bound; `foreign` are the ports other processes hold.
  datatype Ledger = Ledger(table: Table, store: Table, tasks: map<Uuid, u16>, foreign: set<u16>)

  predicate Bound(l: Ledger, port: u16) {
    port in l.foreign || port in l.tasks.Values
  }

  function Registered(cfg: Config, l: Ledger, req: ServiceDefinition, nodeId: Uuid): (Ledger, Result<ServiceDefinition, RegisterError>) {
    match Admit(cfg, l.table, req, nodeId)
    case Err(e) => (l, Err(e))
    case Ok(s) => Activated(Inserted(l, s), s)
  }

  function Inserted(l: Ledger, s: ServiceDefinition): Ledger {
    l.(table := l.table[s.serviceId := s], store := l.store[s.serviceId := s])
  }

  // A task under the same id counts as active whatever port it listens on; a failed bind removes the
  // id instead of restoring an earlier record.
  function Activated(l: Ledger, s: ServiceDefinition): (Ledger, Result<ServiceDefinition, RegisterError>) {
    if !s.protocol.Tcp? || s.serviceId in l.tasks then (l, Ok(s))
    else if s.publicPort.None? || Bound(l, s.publicPort.value) then
      (l.(table := l.table - {s.serviceId}, store := l.store - {s.serviceId}), Err(ActivationFailed))
    else (l.(tasks := l.tasks[s.serviceId := s.publicPort.value]), Ok(s))
  }

  function Removed(l: Ledger, id: Uuid): Ledger {
    l.(table := l.table - {id}, store := l.store - {id}, tasks := l.tasks - {id})
  }

  // Only the owning node may unregister; DELETE asks for no owner.
  function Unregistered(l: Ledger, id: Uuid, nodeId: Uuid): Ledger {
    if id in l.table && l.table[id].nodeId == nodeId then Removed(l, id) else l
  }

  function Deleted(l: Ledger, id: Uuid): Ledger {
    if id in l.table then Removed(l, id) else l
  }

  function Patched(l: Ledger, id: Uuid, metadata: Metadata): Ledger {
    if ValidMetadata(metadata) && id in l.table then
      var s := l.table[id].(metadata := metadata);
      l.(table := l.table[id := s], store := l.store[id := s])
    else l
  }

  // ---- What holds after every request ----

  ghost predicate OneOwnerPerPort(l: Ledger) {
    && (forall a, b | a in l.tasks && b in l.tasks && l.tasks[a] == l.tasks[b] :: a == b)
    && (forall id | id in l.tasks :: l.tasks[id] !in l.foreign)
  }

  ghost predicate EveryLeaseListens(l: Ledger) {
    forall id | id in l.table && l.table[id].protocol.Tcp? :: id in l.tasks
  }

  ghost predicate Consistent(cfg: Config, l: Ledger) {
    && ValidTable(cfg, l.table)
    && l.store == l.table
    && EveryLeaseListens(l)
    && OneOwnerPerPort(l)
  }

  // Listeners and TCP leases correspond one to one, each on its leased port.
  ghost predicate Exact(l: Ledger) {
    && (forall id | id in l.tasks :: id in l.table && l.table[id].protocol.Tcp?)
    && (forall id | id in l.table && l.table[id].protocol.Tcp? ::
          id in l.tasks && l.table[id].publicPort == Some(l.tasks[id]))
  }

  lemma ActivationKeepsListeners(l: Ledger, s: ServiceDefinition)
    requires EveryLeaseListens(l) && OneOwnerPerPort(l)
    ensures var m := Activated(Inserted(l, s), s).0; EveryLeaseListens(m) && OneOwnerPerPort(m)
  {
  }

  lemma ActivationKeepsConsistent(cfg: Config, l: Ledger, s: ServiceDefinition)
    requires Consistent(cfg, l) && ValidTable(cfg, l.table[s.serviceId := s])
    ensures Consistent(cfg, Activated(Inserted(l, s), s).0)
  {
    ActivationKeepsListeners(l, s);
    RemoveKeepsTableValid(cfg, l.table, s.serviceId);
    assert l.table[s.serviceId := s] - {s.serviceId} == l.table - {s.serviceId};
  }

  lemma RegisterKeepsConsistent(cfg: Config, l: Ledger, req: ServiceDefinition, nodeId: Uuid)
    requires Consistent(cfg, l)
    ensures Consistent(cfg, Registered(cfg, l, req, nodeId).0)
  {
    if Admit(cfg, l.table, req, nodeId).Ok? {
      AdmitKeepsTableValid(cfg, l.table, req, nodeId);
      ActivationKeepsConsistent(cfg, l, Admit(cfg, l.table, req, nodeId).value);
    }
  }

  lemma RemoveKeepsConsistent(cfg: Config, l: Ledger, id: Uuid)
    requires Consistent(cfg, l)
    ensures Consistent(cfg, Removed(l, id))
  {
    RemoveKeepsTableValid(cfg, l.table, id);
  }

  lemma PatchKeepsConsistent(cfg: Config, l: Ledger, id: Uuid, metadata: Metadata)
    requires Consistent(cfg, l)
    ensures Consistent(cfg, Patched(l, id, metadata))
  {
    if id in l.table { PatchKeepsTableValid(cfg, l.table, id, metadata); }
  }

  // ---- Exactness ----

  // The registrations after which a listener and its lease part: an accepted request that moves a TCP
  // service to another protocol, or that reuses its id under a new name and port.
  predicate Parts(cfg: Config, l: Ledger, req: ServiceDefinition, nodeId: Uuid) {
    var id := Adopt(l.table, req, nodeId).serviceId;
    && Admit(cfg, l.table, req, nodeId).Ok?
    && id in l.table && l.table[id].protocol.Tcp?
    && (!req.protocol.Tcp?
        || (Owned(l.table, nodeId, req.serviceName) == {} && req.publicPort != l.table[id].publicPort))
  }

  lemma AdoptedPort(cfg: Config, t: Table, req: ServiceDefinition, nodeId: Uuid)
    requires ValidTable(cfg, t) && Admit(cfg, t, req, nodeId).Ok? && req.protocol.Tcp?
    requires var id := Adopt(t, req, nodeId).serviceId; id in t && t[id].protocol.Tcp?
    ensures var id := Adopt(t, req, nodeId).serviceId;
            Admit(cfg, t, req, nodeId).value.publicPort == t[id].publicPort
            <==> Owned(t, nodeId, req.serviceName) != {} || req.publicPort == t[id].publicPort
  {
    var s := Adopt(t, req, nodeId);
    var id := s.serviceId;
    if Owned(t, nodeId, req.serviceName) == {} {
      assert s == req;
      if req.publicPort.None? {
        var port := FirstAvailableTcpPort(cfg, t).value;
        assert !Leases(t[id], port);
      }
    } else {
      var previous := FindOwned(t, nodeId, req.serviceName).value;
      assert id in t && t[id] == previous;
    }
  }

  // The record admitted keeps the identity and protocol it was adopted with.
  lemma AdmittedIdentity(cfg: Config, t: Table, req: ServiceDefinition, nodeId: Uuid)
    requires Admit(cfg, t, req, nodeId).Ok?
    ensures var s := Admit(cfg, t, req, nodeId).value;
            && s.serviceId == Adopt(t, req, nodeId).serviceId && s.protocol == req.protocol
            && s.serviceName == req.serviceName && ValidRecord(cfg, s.serviceId, s)
  {
    PlacedRecord(cfg, t, Adopt(t, req, nodeId));
  }

  lemma ActivationExactIff(l: Ledger, s: ServiceDefinition)
    requires Exact(l) && (s.protocol.Tcp? ==> s.publicPort.Some?)
    ensures var id := s.serviceId;
            Exact(Activated(Inserted(l, s), s).0)
            <==> !(id in l.table && l.table[id].protocol.Tcp?
                   && (!s.protocol.Tcp? || s.publicPort != l.table[id].publicPort))
  {
    var id := s.serviceId;
    var m := Activated(Inserted(l, s), s).0;
    if id in l.table && l.table[id].protocol.Tcp? {
      assert m == Inserted(l, s);
      assert m.table[id] == s && id in m.tasks;
    } else {
      assert id !in l.tasks;
    }
  }

  // From an exact ledger, a registration leaves an exact one if and only if it is not one of those.
  lemma RegisterExactIff(cfg: Config, l: Ledger, req: ServiceDefinition, nodeId: Uuid)
    requires ValidTable(cfg, l.table) && Exact(l)
    ensures Exact(Registered(cfg, l, req, nodeId).0) <==> !Parts(cfg, l, req, nodeId)
  {
    if Admit(cfg, l.table, req, nodeId).Ok? {
      var s := Admit(cfg, l.table, req, nodeId).value;
      AdmittedIdentity(cfg, l.table, req, nodeId);
      ActivationExactIff(l, s);
      if s.protocol.Tcp? && s.serviceId in l.table && l.table[s.serviceId].protocol.Tcp? {
        AdoptedPort(cfg, l.table, req, nodeId);
      }
    }
  }

  // Such registrations exist: a TCP service's id submitted again under an unused name with another free
  // port is accepted, and the listener stays on the port the record no longer has.
  lemma ReusedIdParts(cfg: Config, l: Ledger, id: Uuid, name: string, port: u16)
    requires Consistent(cfg, l) && Exact(l) && id in l.table && l.table[id].protocol.Tcp?
    requires ValidServiceName(name) && ValidMetadata(l.table[id].metadata) && forall j | j in l.table :: l.table[j].serviceName != name
    requires cfg.portStart <= port <= cfg.portEnd && !PortLeased(l.table, port)
    ensures var req := l.table[id].(serviceName := name, publicPort := Some(port));
            var (m, r) := Registered(cfg, l, req, req.nodeId);
            && Parts(cfg, l, req, req.nodeId) && r.Ok?
            && m.table[id].publicPort == Some(port) && m.tasks == l.tasks && m.tasks[id] != port && !Exact(m)
  {
    var req := l.table[id].(serviceName := name, publicPort := Some(port));
    var s := req.(publicHost := Some(cfg.publicHost));
    UnusedNameAdmitted(cfg, l.table, req, port);
    assert l.table[id].publicPort == Some(l.tasks[id]);
    assert Leases(l.table[id], l.tasks[id]) && l.tasks[id] != port;
    assert Activated(Inserted(l, s), s) == (Inserted(l, s), Ok(s));
  }

  lemma UnusedNameAdmitted(cfg: Config, t: Table, req: ServiceDefinition, port: u16)
    requires ValidServiceName(req.serviceName) && ValidMetadata(req.metadata) && forall j | j in t :: t[j].serviceName != req.serviceName
    requires req.protocol.Tcp? && req.publicPort == Some(port) && cfg.portStart <= port <= cfg.portEnd && !PortLeased(t, port)
    ensures Adopt(t, req, req.nodeId) == req && Owned(t, req.nodeId, req.serviceName) == {}
    ensures Admit(cfg, t, req, req.nodeId) == Ok(req.(publicHost := Some(cfg.publicHost)))
  {
    assert PlaceTcp(cfg, t, req) == Ok(req.(publicHost := Some(cfg.publicHost)));
  }

  // ---- Ownership ----

  // Another node's record is gone or different.
  ghost predicate Disturbs(l: Ledger, m: Ledger, nodeId: Uuid) {
    exists id | id in l.table && l.table[id].nodeId != nodeId :: id !in m.table || m.table[id] != l.table[id]
  }

  lemma ActivationTouches(l: Ledger, s: ServiceDefinition)
    ensures var m := Activated(Inserted(l, s), s).0;
            && (forall j | j in l.table && j != s.serviceId :: j in m.table && m.table[j] == l.table[j])
            && (s.serviceId in m.table ==> m.table[s.serviceId] == s)
  {
  }

  // An admitted registration touches the record under its own id only, and that one it replaces or removes.
  lemma RegistrationTouches(cfg: Config, l: Ledger, req: ServiceDefinition, nodeId: Uuid)
    requires Admit(cfg, l.table, req, nodeId).Ok?
    ensures var id, m := Adopt(l.table, req, nodeId).serviceId, Registered(cfg, l, req, nodeId).0;
            && (forall j | j in l.table && j != id :: j in m.table && m.table[j] == l.table[j])
            && (id in m.table ==> m.table[id].serviceName == req.serviceName)
  {
    AdmittedIdentity(cfg, l.table, req, nodeId);
    ActivationTouches(l, Admit(cfg, l.table, req, nodeId).value);
  }

  lemma AdoptedOwner(cfg: Config, t: Table, req: ServiceDefinition, nodeId: Uuid)
    requires ValidTable(cfg, t) && !NameTaken(t, req.serviceName, nodeId)
    ensures var id := Adopt(t, req, nodeId).serviceId;
            if Owned(t, nodeId, req.serviceName) == {} then id == req.serviceId && (id in t ==> t[id].serviceName != req.serviceName)
            else id in t && t[id].nodeId == nodeId
  {
    if Owned(t, nodeId, req.serviceName) == {} {
      var id := req.serviceId;
      assert id in t && t[id].serviceName == req.serviceName ==> id in Owned(t, nodeId, req.serviceName);
    } else {
      var previous := FindOwned(t, nodeId, req.serviceName).value;
    }
  }

  // `unregister_service` asks who owns a service; `register_service` does not: a node's registration
  // removes or replaces another node's record exactly if it is admitted under a name the node does not
  // have yet and with an id that another node's service has.
  lemma RegisterDisturbsIff(cfg: Config, l: Ledger, req: ServiceDefinition, nodeId: Uuid)
    requires ValidTable(cfg, l.table)
    ensures Disturbs(l, Registered(cfg, l, req, nodeId).0, nodeId)
            <==> && Admit(cfg, l.table, req, nodeId).Ok? && Owned(l.table, nodeId, req.serviceName) == {}
                 && req.serviceId in l.table && l.table[req.serviceId].nodeId != nodeId
  {
    if Admit(cfg, l.table, req, nodeId).Ok? {
      RegistrationTouches(cfg, l, req, nodeId);
      AdoptedOwner(cfg, l.table, req, nodeId);
    }
  }

  // It happens: a TCP service's id submitted by another node, under an unused name with a free port, is
  // accepted. The record now belongs to that node, and the listener started for the old one stays.
  lemma ForeignIdAccepted(cfg: Config, l: Ledger, req: ServiceDefinition, port: u16)
    requires Consistent(cfg, l) && Exact(l)
    requires var id := req.serviceId; id in l.table && l.table[id].protocol.Tcp? && l.table[id].nodeId != req.nodeId
    requires ValidServiceName(req.serviceName) && ValidMetadata(req.metadata) && forall j | j in l.table :: l.table[j].serviceName != req.serviceName
    requires req.protocol.Tcp? && req.publicPort == Some(port) && cfg.portStart <= port <= cfg.portEnd && !PortLeased(l.table, port)
    ensures var (m, r) := Registered(cfg, l, req, req.nodeId);
            && r.Ok? && req.serviceId in m.table && m.table[req.serviceId].nodeId == req.nodeId
            && m.tasks == l.tasks && Disturbs(l, m, req.nodeId)
  {
    UnusedNameAdmitted(cfg, l.table, req, port);
    RegisterDisturbsIff(cfg, l, req, req.nodeId);
  }

  lemma UnregisterNeverDisturbs(l: Ledger, id: Uuid, nodeId: Uuid)
    ensures !Disturbs(l, Unregistered(l, id, nodeId), nodeId)
  {
  }

  lemma RemoveKeepsExact(l: Ledger, id: Uuid)
    requires Exact(l)
    ensures Exact(Removed(l, id))
  {
  }

  lemma PatchKeepsExact(l: Ledger, id: Uuid, metadata: Metadata)
    requires Exact(l)
    ensures Exact(Patched(l, id, metadata))
  {
  }

  // ---- Failed activation ----

  lemma ListenersHoldLeases(l: Ledger, port: u16)
    requires Exact(l)
    ensures port in l.tasks.Values ==> exists id | id in l.tasks && id in l.table :: Leases(l.table[id], port)
  {
    if port in l.tasks.Values {
      var id :| id in l.tasks && l.tasks[id] == port;
      assert id in l.table && Leases(l.table[id], port);
    }
  }

  // From an exact ledger a bind fails only for ports other processes hold.
  lemma ActivationFailsOnlyForForeignPorts(cfg: Config, l: Ledger, req: ServiceDefinition, nodeId: Uuid)
    requires Consistent(cfg, l) && Exact(l)
    requires Registered(cfg, l, req, nodeId).1 == Err(ActivationFailed)
    ensures Admit(cfg, l.table, req, nodeId).Ok?
    ensures Admit(cfg, l.table, req, nodeId).value.publicPort.Some?
    ensures Admit(cfg, l.table, req, nodeId).value.publicPort.value in l.foreign
  {
    PlacedRecord(cfg, l.table, Adopt(l.table, req, nodeId));
    ListenersHoldLeases(l, Admit(cfg, l.table, req, nodeId).value.publicPort.value);
  }

  lemma ActivationFailure(l: Ledger, s: ServiceDefinition)
    requires l.store == l.table && Activated(Inserted(l, s), s).1.Err?
    ensures var m := Activated(Inserted(l, s), s).0;
            && m == l.(table := l.table - {s.serviceId}, store := l.store - {s.serviceId})
            && (m == l <==> s.serviceId !in l.table)
  {
    var id := s.serviceId;
    assert l.table[id := s] - {id} == l.table - {id};
    assert id !in l.table ==> l.table - {id} == l.table;
    assert id in l.table ==> id !in l.table - {id};
  }

  // A refused registration changes nothing, except that a failed activation also loses the record that
  // was there under the adopted id: it restores the ledger if and only if the id was new.
  lemma FailureRestoresIffNewId(cfg: Config, l: Ledger, req: ServiceDefinition, nodeId: Uuid)
    requires l.store == l.table
    requires Registered(cfg, l, req, nodeId).1.Err?
    ensures var (m, r) := Registered(cfg, l, req, nodeId);
            var id := Adopt(l.table, req, nodeId).serviceId;
            && (r.error != ActivationFailed ==> m == l)
            && (r.error == ActivationFailed ==> m == l.(table := l.table - {id}, store := l.store - {id}))
            && (r.error == ActivationFailed ==> (m == l <==> id !in l.table))
  {
    if Admit(cfg, l.table, req, nodeId).Ok? {
      AdmittedIdentity(cfg, l.table, req, nodeId);
      ActivationFailure(l, Admit(cfg, l.table, req, nodeId).value);
    } else {
      AdmissionNeverActivates(cfg, l.table, req, nodeId);
    }
  }

  lemma AdmissionNeverActivates(cfg: Config, t: Table, req: ServiceDefinition, nodeId: Uuid)
    ensures Admit(cfg, t, req, nodeId) != Err(ActivationFailed)
  {
  }

  lemma AdoptOwn(cfg: Config, t: Table, id: Uuid, req: ServiceDefinition)
    requires ValidTable(cfg, t) && id in t && !t[id].protocol.Tcp?
    requires req.serviceName == t[id].serviceName && req.nodeId == t[id].nodeId && req.serviceId == id
    ensures !NameTaken(t, req.serviceName, req.nodeId) && Adopt(t, req, req.nodeId) == req
  {
    assert id in Owned(t, req.nodeId, req.serviceName);
    assert FindOwned(t, req.nodeId, req.serviceName) == Some(t[id]);
  }

  // Such a loss happens: an HTTP service that asks to become TCP on a port another process holds is gone
  // from the table and from the store.
  lemma ProtocolChangeCanLoseTheRecord(cfg: Config, l: Ledger, id: Uuid, port: u16)
    requires Consistent(cfg, l) && Exact(l)
    requires id in l.table && !l.table[id].protocol.Tcp? && ValidMetadata(l.table[id].metadata)
    requires cfg.portStart <= port <= cfg.portEnd && port in l.foreign && !PortLeased(l.table, port)
    ensures var req := l.table[id].(protocol := Tcp, publicPort := Some(port));
            Registered(cfg, l, req, req.nodeId)
            == (l.(table := l.table - {id}, store := l.store - {id}), Err(ActivationFailed))
  {
    var req := l.table[id].(protocol := Tcp, publicPort := Some(port));
    AdoptOwn(cfg, l.table, id, req);
    var s := req.(publicHost := Some(cfg.publicHost));
    assert PlaceTcp(cfg, l.table, req) == Ok(s);
    assert Admit(cfg, l.table, req, req.nodeId) == Ok(s);
    ActivationFailure(l, s);
  }

  // ---- Whole sequential runs ----

  datatype Request =
    | Register(service: ServiceDefinition, nodeId: Uuid)
    | Unregister(id: Uuid, nodeId: Uuid)
    | Delete(id: Uuid)
    | Patch(id: Uuid, metadata: Metadata)

  function Serve(cfg: Config, l: Ledger, r: Request): Ledger {
    match r
    case Register(service, nodeId) => Registered(cfg, l, service, nodeId).0
    case Unregister(id, nodeId) => Unregistered(l, id, nodeId)
    case Delete(id) => Deleted(l, id)
    case Patch(id, metadata) => Patched(l, id, metadata)
  }

  function ServeAll(cfg: Config, l: Ledger, rs: seq<Request>): Ledger
    decreases |rs|
  {
    if rs == [] then l else ServeAll(cfg, Serve(cfg, l, rs[0]), rs[1..])
  }

  // No request of the run is a registration that parts a listener from its lease.
  predicate NeverParts(cfg: Config, l: Ledger, rs: seq<Request>)
    decreases |rs|
  {
    rs == [] || ((rs[0].Register? ==> !Parts(cfg, l, rs[0].service, rs[0].nodeId))
                 && NeverParts(cfg, Serve(cfg, l, rs[0]), rs[1..]))
  }

  lemma ServeKeeps(cfg: Config, l: Ledger, r: Request)
    requires Consistent(cfg, l)
    ensures Consistent(cfg, Serve(cfg, l, r))
    ensures Exact(l) && (r.Register? ==> !Parts(cfg, l, r.service, r.nodeId)) ==> Exact(Serve(cfg, l, r))
  {
    match r
    case Register(service, nodeId) =>
      RegisterKeepsConsistent(cfg, l, service, nodeId);
      if Exact(l) { RegisterExactIff(cfg, l, service, nodeId); }
    case Unregister(id, nodeId) =>
      RemoveKeepsConsistent(cfg, l, id);
      if Exact(l) { RemoveKeepsExact(l, id); }
    case Delete(id) =>
      RemoveKeepsConsistent(cfg, l, id);
      if Exact(l) { RemoveKeepsExact(l, id); }
    case Patch(id, metadata) =>
      PatchKeepsConsistent(cfg, l, id, metadata);
      if Exact(l) { PatchKeepsExact(l, id, metadata); }
  }

  // Every sequential run keeps table, store and listeners consistent, so that every TCP service has a
  // listener; a run without parting registrations keeps each listener on its own lease.
  lemma {:induction false} SequentialRunsKeep(cfg: Config, l: Ledger, rs: seq<Request>)
    requires Consistent(cfg, l)
    ensures Consistent(cfg, ServeAll(cfg, l, rs))
    ensures Exact(l) && NeverParts(cfg, l, rs) ==> Exact(ServeAll(cfg, l, rs))
    decreases |rs|
  {
    if rs != [] {
      ServeKeeps(cfg, l, rs[0]);
      SequentialRunsKeep(cfg, Serve(cfg, l, rs[0]), rs[1..]);
    }
  }

  // A checkable class of runs that never part: ids are fresh or adopted, names keep their protocol.
  lemma FreshIdsNeverPart(cfg: Config, l: Ledger, req: ServiceDefinition, nodeId: Uuid)
    requires Owned(l.table, nodeId, req.serviceName) == {} ==> req.serviceId !in l.table
    requires forall id | id in Owned(l.table, nodeId, req.serviceName) :: l.table[id].protocol == req.protocol
    requires forall id | id in l.table :: l.table[id].serviceId == id
    ensures !Parts(cfg, l, req, nodeId)
  {
    if Owned(l.table, nodeId, req.serviceName) != {} {
      var previous := FindOwned(l.table, nodeId, req.serviceName).value;
    }
  }

  // ---- Restart ----

  // Where each TCP service must listen.
  ghost function TcpLeases(t: Table): map<Uuid, u16> {
    map id | id in t && t[id].protocol.Tcp? && t[id].publicPort.Some? :: t[id].publicPort.value
  }

  // The restored process: the stored table on both sides and a listener on every lease.
  lemma RestoredIsConsistentAndExact(cfg: Config, l: Ledger)
    requires ValidTable(cfg, l.table) && l.store == l.table
    requires l.tasks == TcpLeases(l.table)
    requires forall id | id in l.tasks :: l.tasks[id] !in l.foreign
    ensures Consistent(cfg, l) && Exact(l)
  {
  }
}
