// Which answer each registration gets, and what each request leaves, told without the handlers' own steps.
module Outcomes {
  import opened Basics
  import opened Types
  import opened Validation
  import opened Registry
  import opened Ledger

  // ---- Registration ----

  // The id a node's service of this name already has.
  ghost predicate Publishes(t: Table, id: Uuid, nodeId: Uuid, name: string) {
    id in t && t[id].nodeId == nodeId && t[id].serviceName == name
  }

  // The id the record will have, and the port that is asked for: a service published again keeps its id,
  // and its port if it is TCP before and after.
  ghost predicate Asks(t: Table, req: ServiceDefinition, nodeId: Uuid, id: Uuid, port: Option<u16>) {
    if Publishes(t, id, nodeId, req.serviceName) then
      port == if t[id].protocol.Tcp? && req.protocol.Tcp? then t[id].publicPort else req.publicPort
    else id == req.serviceId && port == req.publicPort && forall j :: !Publishes(t, j, nodeId, req.serviceName)
  }

  lemma AdoptAsks(t: Table, req: ServiceDefinition, nodeId: Uuid, id: Uuid, port: Option<u16>)
    requires UniqueNames(t) && (forall j | j in t :: t[j].serviceId == j)
    requires Asks(t, req, nodeId, id, port)
    ensures Adopt(t, req, nodeId) == req.(serviceId := id, publicPort := port)
  {
    if Publishes(t, id, nodeId, req.serviceName) {
      assert id in Owned(t, nodeId, req.serviceName);
      var previous := FindOwned(t, nodeId, req.serviceName).value;
      assert previous == t[id];
    } else {
      forall j | j in Owned(t, nodeId, req.serviceName) ensures false {
        assert Publishes(t, j, nodeId, req.serviceName);
      }
      assert Owned(t, nodeId, req.serviceName) == {};
    }
  }

  // A name another node publishes is refused, and that only.
  lemma NameInUseIff(cfg: Config, t: Table, req: ServiceDefinition, nodeId: Uuid)
    requires ValidServiceName(req.serviceName) && ValidMetadata(req.metadata)
    ensures Admit(cfg, t, req, nodeId) == Err(NameInUse)
            <==> exists id | id in t :: t[id].serviceName == req.serviceName && t[id].nodeId != nodeId
  {
  }

  // HTTP and HTTPS: refused exactly if the server has no domain, else given the name's host and no port.
  lemma HttpOutcome(cfg: Config, t: Table, req: ServiceDefinition, nodeId: Uuid, id: Uuid, port: Option<u16>)
    requires ValidTable(cfg, t) && ValidServiceName(req.serviceName) && ValidMetadata(req.metadata) && !req.protocol.Tcp?
    requires !(exists j | j in t :: t[j].serviceName == req.serviceName && t[j].nodeId != nodeId)
    requires Asks(t, req, nodeId, id, port)
    ensures Admit(cfg, t, req, nodeId) == match cfg.httpDomain
            case None => Err(HttpNotConfigured)
            case Some(domain) => Ok(req.(serviceId := id, publicHost := Some(req.serviceName + "." + domain), publicPort := None))
  {
    AdoptAsks(t, req, nodeId, id, port);
  }

  lemma PlaceAsked(cfg: Config, t: Table, s: ServiceDefinition, p: u16)
    requires (forall j | j in t :: t[j].serviceId == j) && s.publicPort == Some(p)
    ensures PlaceTcp(cfg, t, s)
            == if p < cfg.portStart || cfg.portEnd < p then Err(PortOutOfRange(p))
               else if exists j | j in t && j != s.serviceId :: t[j].protocol.Tcp? && t[j].publicPort == Some(p) then Err(PortAlreadyLeased(p))
               else Ok(s.(publicHost := Some(cfg.publicHost)))
  {
  }

  // What a TCP registration under a free name needs to be decided.
  ghost predicate TcpDecidable(cfg: Config, t: Table, req: ServiceDefinition, nodeId: Uuid) {
    && ValidTable(cfg, t) && ValidServiceName(req.serviceName) && ValidMetadata(req.metadata) && req.protocol.Tcp?
    && !(exists j | j in t :: t[j].serviceName == req.serviceName && t[j].nodeId != nodeId)
  }

  lemma TcpIsPlaced(cfg: Config, t: Table, req: ServiceDefinition, nodeId: Uuid, id: Uuid, port: Option<u16>)
    requires TcpDecidable(cfg, t, req, nodeId) && Asks(t, req, nodeId, id, port)
    ensures Admit(cfg, t, req, nodeId) == PlaceTcp(cfg, t, req.(serviceId := id, publicPort := port))
  {
    AdoptAsks(t, req, nodeId, id, port);
  }

  // A port asked for is refused exactly outside the range or if another service leases it.
  lemma TcpAskedOutcome(cfg: Config, t: Table, req: ServiceDefinition, nodeId: Uuid, id: Uuid, p: u16)
    requires TcpDecidable(cfg, t, req, nodeId) && Asks(t, req, nodeId, id, Some(p))
    ensures Admit(cfg, t, req, nodeId)
            == if p < cfg.portStart || cfg.portEnd < p then Err(PortOutOfRange(p))
               else if exists j | j in t && j != id :: t[j].protocol.Tcp? && t[j].publicPort == Some(p) then Err(PortAlreadyLeased(p))
               else Ok(req.(serviceId := id, publicHost := Some(cfg.publicHost), publicPort := Some(p)))
  {
    TcpIsPlaced(cfg, t, req, nodeId, id, Some(p));
    PlaceAsked(cfg, t, req.(serviceId := id, publicPort := Some(p)), p);
  }

  // Without one, the least free port is given, and the registration is refused exactly if there is none.
  lemma TcpUnaskedOutcome(cfg: Config, t: Table, req: ServiceDefinition, nodeId: Uuid, id: Uuid)
    requires TcpDecidable(cfg, t, req, nodeId) && Asks(t, req, nodeId, id, None)
    ensures match Admit(cfg, t, req, nodeId)
            case Err(e) => e == NoPortsAvailable && forall p: u16 | cfg.portStart <= p <= cfg.portEnd :: PortLeased(t, p)
            case Ok(s) =>
              && s.publicPort.Some? && IsLeastFree(cfg, t, s.publicPort.value)
              && s == req.(serviceId := id, publicHost := Some(cfg.publicHost), publicPort := s.publicPort)
  {
    TcpIsPlaced(cfg, t, req, nodeId, id, None);
    PlaceWithoutPort(cfg, t, req.(serviceId := id, publicPort := None));
  }

  ghost predicate IsLeastFree(cfg: Config, t: Table, p: u16) {
    cfg.portStart <= p <= cfg.portEnd && !PortLeased(t, p) && forall q: u16 | cfg.portStart <= q < p :: PortLeased(t, q)
  }

  // ---- What DELETE and PATCH leave ----

  ghost predicate SameElsewhere(l: Ledger, m: Ledger, id: Uuid) {
    && m.foreign == l.foreign
    && m.table == (if id in m.table then l.table[id := m.table[id]] else l.table - {id})
    && m.store == (if id in m.store then l.store[id := m.store[id]] else l.store - {id})
    && m.tasks == (if id in m.tasks then l.tasks[id := m.tasks[id]] else l.tasks - {id})
  }

  // DELETE of a known service takes it out of memory, store and listeners, and nothing else.
  lemma DeleteOutcome(l: Ledger, id: Uuid)
    ensures var m := Deleted(l, id);
            if id in l.table then id !in m.table && id !in m.store && id !in m.tasks && SameElsewhere(l, m, id) else m == l
  {
  }

  // PATCH of a known service with valid metadata gives its record that metadata in memory and store, and
  // changes nothing else.
  lemma PatchOutcome(l: Ledger, id: Uuid, metadata: Metadata)
    ensures var m := Patched(l, id, metadata);
            if id in l.table && ValidMetadata(metadata) then
              && id in m.table && m.table[id] == l.table[id].(metadata := metadata)
              && id in m.store && m.store[id] == m.table[id] && m.tasks == l.tasks && SameElsewhere(l, m, id)
            else m == l
  {
  }

  // An accepted registration is in memory and store and, if TCP, listened for; a failed activation is the
  // only refusal that can come after the record was admitted.
  lemma RegisterOutcome(cfg: Config, l: Ledger, req: ServiceDefinition, nodeId: Uuid)
    ensures var (m, r) := Registered(cfg, l, req, nodeId);
            match Admit(cfg, l.table, req, nodeId)
            case Err(e) => m == l && r == Err(e)
            case Ok(s) =>
              && SameElsewhere(l, m, s.serviceId)
              && (r == Ok(s) || r == Err(ActivationFailed))
              && (r.Ok? ==> s.serviceId in m.table && m.table[s.serviceId] == s && s.serviceId in m.store && m.store[s.serviceId] == s)
              && (r.Ok? && s.protocol.Tcp? ==> s.serviceId in m.tasks)
              && (r.Err? ==> s.serviceId !in m.table && s.serviceId !in m.store && m.tasks == l.tasks
                             && s.protocol.Tcp? && s.serviceId !in l.tasks
                             && s.publicPort.Some? && (s.publicPort.value in l.foreign || s.publicPort.value in l.tasks.Values))
              && (!s.protocol.Tcp? || s.serviceId in l.tasks ==> r.Ok? && m.tasks == l.tasks)
  {
    if Admit(cfg, l.table, req, nodeId).Ok? {
      AdmittedIdentity(cfg, l.table, req, nodeId);
      ActivationOutcome(l, Admit(cfg, l.table, req, nodeId).value);
    }
  }

  lemma ActivationOutcome(l: Ledger, s: ServiceDefinition)
    requires s.protocol.Tcp? ==> s.publicPort.Some?
    ensures var (m, r) := Activated(Inserted(l, s), s);
            && SameElsewhere(l, m, s.serviceId) && (r == Ok(s) || r == Err(ActivationFailed))
            && (r.Ok? ==> s.serviceId in m.table && m.table[s.serviceId] == s && s.serviceId in m.store && m.store[s.serviceId] == s)
            && (r.Ok? && s.protocol.Tcp? ==> s.serviceId in m.tasks)
            && (r.Err? ==> s.serviceId !in m.table && s.serviceId !in m.store && m.tasks == l.tasks
                           && s.protocol.Tcp? && s.serviceId !in l.tasks
                           && (s.publicPort.value in l.foreign || s.publicPort.value in l.tasks.Values))
            && (!s.protocol.Tcp? || s.serviceId in l.tasks ==> r.Ok? && m.tasks == l.tasks)
  {
    var id := s.serviceId;
    assert l.table[id := s] - {id} == l.table - {id} && l.store[id := s] - {id} == l.store - {id};
  }
}
