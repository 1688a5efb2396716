// The service table: what a registration is admitted as, and what every admitted table satisfies.
module Registry {
  import opened Basics
  import opened Types
  import opened Validation

  datatype Config = Config(publicHost: string, httpDomain: Option<string>, portStart: u16, portEnd: u16)

  type Table = map<Uuid, ServiceDefinition>

  datatype RegisterError =
    | InvalidServiceName
    | InvalidMetadata
    | NameInUse
    | NoPortsAvailable
    | PortOutOfRange(port: u16)
    | PortAlreadyLeased(port: u16)
    | HttpNotConfigured
    | ActivationFailed

  predicate Leases(s: ServiceDefinition, port: u16) {
    s.protocol.Tcp? && s.publicPort == Some(port)
  }

  predicate PortLeased(t: Table, port: u16) {
    exists id | id in t :: Leases(t[id], port)
  }

  // ---- Allocation ----

  // The first port of `port..=end` that no TCP service leases.
  function FirstAvailable(t: Table, port: nat, end: u16): (r: Option<u16>)
    ensures r.Some? ==> port <= r.value <= end && !PortLeased(t, r.value)
    ensures r.Some? ==> forall p: u16 | port <= p < r.value :: PortLeased(t, p)
    ensures r.None? ==> forall p: u16 | port <= p <= end :: PortLeased(t, p)
    decreases end + 1 - port
  {
    if port > end then None
    else if !PortLeased(t, port) then Some(port)
    else FirstAvailable(t, port + 1, end)
  }

  function FirstAvailableTcpPort(cfg: Config, t: Table): Option<u16> {
    FirstAvailable(t, cfg.portStart, cfg.portEnd)
  }

  // ---- Admission ----

  predicate IsLeastId(m: Uuid, ids: set<Uuid>) {
    m in ids && forall x | x in ids :: m <= x
  }

  lemma LeastIdExists(ids: set<Uuid>)
    requires ids != {}
    ensures exists m: Uuid :: IsLeastId(m, ids)
    decreases ids
  {
    var x :| x in ids;
    if ids == {x} {
      assert IsLeastId(x, ids);
    } else {
      LeastIdExists(ids - {x});
      var m: Uuid :| IsLeastId(m, ids - {x});
      var least := if x < m then x else m;
      assert forall y | y in ids :: y == x || y in ids - {x};
      assert IsLeastId(least, ids);
    }
  }

  function Owned(t: Table, nodeId: Uuid, name: string): set<Uuid> {
    set id | id in t && t[id].nodeId == nodeId && t[id].serviceName == name
  }

  // `values().find(..)`: the match with the smallest id.
  function FindOwned(t: Table, nodeId: Uuid, name: string): (r: Option<ServiceDefinition>)
    ensures r.None? <==> Owned(t, nodeId, name) == {}
    ensures r.Some? ==> exists id :: IsLeastId(id, Owned(t, nodeId, name)) && r.value == t[id]
  {
    var ids := Owned(t, nodeId, name);
    if ids == {} then None
    else
      LeastIdExists(ids);
      var id :| id in ids && IsLeastId(id, ids);
      Some(t[id])
  }

  // A name this node already publishes keeps its id, and its port if both sides are TCP.
  function Adopt(t: Table, req: ServiceDefinition, nodeId: Uuid): ServiceDefinition {
    match FindOwned(t, nodeId, req.serviceName)
    case None => req
    case Some(previous) =>
      req.(serviceId := previous.serviceId,
           publicPort := if previous.protocol.Tcp? && req.protocol.Tcp? then previous.publicPort else req.publicPort)
  }

  predicate NameTaken(t: Table, name: string, nodeId: Uuid) {
    exists id | id in t :: t[id].serviceName == name && t[id].nodeId != nodeId
  }

  // Everything `register_service` decides under the services lock.
  function Admit(cfg: Config, t: Table, req: ServiceDefinition, nodeId: Uuid): Result<ServiceDefinition, RegisterError> {
    if !ValidServiceName(req.serviceName) then Err(InvalidServiceName)
    else if !ValidMetadata(req.metadata) then Err(InvalidMetadata)
    else if NameTaken(t, req.serviceName, nodeId) then Err(NameInUse)
    else Place(cfg, t, Adopt(t, req, nodeId))
  }

  function Place(cfg: Config, t: Table, s: ServiceDefinition): Result<ServiceDefinition, RegisterError> {
    match s.protocol
    case Tcp => PlaceTcp(cfg, t, s)
    case _ =>
      match cfg.httpDomain
      case None => Err(HttpNotConfigured)
      case Some(domain) => Ok(s.(publicHost := Some(s.serviceName + "." + domain), publicPort := None))
  }

  function PlaceTcp(cfg: Config, t: Table, s: ServiceDefinition): Result<ServiceDefinition, RegisterError> {
    var chosen := if s.publicPort.Some? then s.publicPort else FirstAvailableTcpPort(cfg, t);
    match chosen
    case None => Err(NoPortsAvailable)
    case Some(port) =>
      if port < cfg.portStart || port > cfg.portEnd then Err(PortOutOfRange(port))
      else if exists id | id in t :: t[id].serviceId != s.serviceId && Leases(t[id], port) then Err(PortAlreadyLeased(port))
      else Ok(s.(publicPort := Some(port), publicHost := Some(cfg.publicHost)))
  }

  // ---- What a table satisfies ----

  ghost predicate ValidRecord(cfg: Config, id: Uuid, s: ServiceDefinition) {
    && s.serviceId == id
    && ValidServiceName(s.serviceName)
    && (s.protocol.Tcp? ==> s.publicPort.Some? && cfg.portStart <= s.publicPort.value <= cfg.portEnd)
    && (!s.protocol.Tcp? ==> s.publicHost.Some? && s.serviceName + "." <= s.publicHost.value)
  }

  ghost predicate UniqueNames(t: Table) {
    forall a, b | a in t && b in t && t[a].serviceName == t[b].serviceName :: a == b
  }

  ghost predicate DistinctPorts(t: Table) {
    forall a, b | a in t && b in t && t[a].protocol.Tcp? && t[b].protocol.Tcp?
                  && t[a].publicPort == t[b].publicPort :: a == b
  }

  ghost predicate ValidTable(cfg: Config, t: Table) {
    && (forall id | id in t :: ValidRecord(cfg, id, t[id]))
    && UniqueNames(t)
    && DistinctPorts(t)
  }

  lemma AdoptedIdentity(t: Table, req: ServiceDefinition, nodeId: Uuid)
    requires forall id | id in t :: t[id].serviceId == id
    requires UniqueNames(t)
    requires !NameTaken(t, req.serviceName, nodeId)
    ensures forall id | id in t && t[id].serviceName == req.serviceName :: id == Adopt(t, req, nodeId).serviceId
  {
    forall id | id in t && t[id].serviceName == req.serviceName ensures id == Adopt(t, req, nodeId).serviceId {
      assert id in Owned(t, nodeId, req.serviceName);
    }
  }

  lemma PlacedRecord(cfg: Config, t: Table, s: ServiceDefinition)
    requires Place(cfg, t, s).Ok? && ValidServiceName(s.serviceName)
    ensures var r := Place(cfg, t, s).value;
            && r == s.(publicHost := r.publicHost, publicPort := r.publicPort)
            && ValidRecord(cfg, s.serviceId, r)
            && (r.protocol.Tcp? ==> forall id | id in t && t[id].serviceId != s.serviceId :: !Leases(t[id], r.publicPort.value))
  {
    if !s.protocol.Tcp? {
      assert s.serviceName + "." <= s.serviceName + "." + cfg.httpDomain.value;
    }
  }

  lemma InsertKeepsTableValid(cfg: Config, t: Table, s: ServiceDefinition)
    requires ValidTable(cfg, t) && ValidRecord(cfg, s.serviceId, s)
    requires forall id | id in t && t[id].serviceName == s.serviceName :: id == s.serviceId
    requires s.protocol.Tcp? ==> forall id | id in t && id != s.serviceId :: !Leases(t[id], s.publicPort.value)
    ensures ValidTable(cfg, t[s.serviceId := s])
  {
  }

  // A request with an invalid name or invalid metadata is refused, whatever the table, the name first.
  lemma InvalidRequestRefused(cfg: Config, t: Table, req: ServiceDefinition, nodeId: Uuid)
    requires !ValidServiceName(req.serviceName) || !ValidMetadata(req.metadata)
    ensures Admit(cfg, t, req, nodeId) == Err(if ValidServiceName(req.serviceName) then InvalidMetadata else InvalidServiceName)
  {
  }

  // Whatever is submitted, an admitted record keeps the table valid once inserted under its id.
  lemma AdmitKeepsTableValid(cfg: Config, t: Table, req: ServiceDefinition, nodeId: Uuid)
    requires ValidTable(cfg, t)
    requires Admit(cfg, t, req, nodeId).Ok?
    ensures var s := Admit(cfg, t, req, nodeId).value; ValidTable(cfg, t[s.serviceId := s])
  {
    var s := Adopt(t, req, nodeId);
    PlacedRecord(cfg, t, s);
    AdoptedIdentity(t, req, nodeId);
    InsertKeepsTableValid(cfg, t, Place(cfg, t, s).value);
  }

  lemma RemoveKeepsTableValid(cfg: Config, t: Table, id: Uuid)
    requires ValidTable(cfg, t)
    ensures ValidTable(cfg, t - {id})
  {
  }

  lemma PatchKeepsTableValid(cfg: Config, t: Table, id: Uuid, metadata: Metadata)
    requires ValidTable(cfg, t) && id in t
    ensures ValidTable(cfg, t[id := t[id].(metadata := metadata)])
  {
  }

  // ---- Completeness of the allocator ----

  ghost function LeasedIds(cfg: Config, t: Table): set<Uuid> {
    set id | id in t && t[id].protocol.Tcp? && t[id].publicPort.Some?
             && cfg.portStart <= t[id].publicPort.value <= cfg.portEnd
  }

  ghost function PortsOf(t: Table, ids: set<Uuid>): set<int>
    requires forall id | id in ids :: id in t && t[id].publicPort.Some?
  {
    set id | id in ids :: t[id].publicPort.value as int
  }

  lemma {:induction false} DistinctPortsCount(t: Table, ids: set<Uuid>)
    requires DistinctPorts(t)
    requires forall id | id in ids :: id in t && t[id].protocol.Tcp? && t[id].publicPort.Some?
    ensures |PortsOf(t, ids)| == |ids|
    decreases ids
  {
    if ids != {} {
      var id :| id in ids;
      var rest := ids - {id};
      DistinctPortsCount(t, rest);
      assert PortsOf(t, ids) == PortsOf(t, rest) + {t[id].publicPort.value as int};
    }
  }

  ghost function Range(lo: int, hi: int): (r: set<int>)
    requires lo <= hi
    ensures forall p :: p in r <==> lo <= p < hi
    ensures |r| == hi - lo
    decreases hi - lo
  {
    if lo == hi then {} else Range(lo, hi - 1) + {hi - 1}
  }

  lemma SubsetCount<T>(a: set<T>, b: set<T>)
    requires a <= b
    ensures |a| <= |b|
  {
    assert b == a + (b - a);
  }

  lemma FreePortMeansNotFull(cfg: Config, t: Table, free: u16)
    requires cfg.portStart <= free <= cfg.portEnd && DistinctPorts(t) && !PortLeased(t, free)
    ensures |LeasedIds(cfg, t)| <= cfg.portEnd - cfg.portStart
  {
    var ids := LeasedIds(cfg, t);
    DistinctPortsCount(t, ids);
    SubsetCount(PortsOf(t, ids), Range(cfg.portStart, cfg.portEnd + 1) - {free as int});
  }

  lemma AllLeasedMeansFull(cfg: Config, t: Table)
    requires cfg.portStart <= cfg.portEnd && DistinctPorts(t)
    requires forall p: u16 | cfg.portStart <= p <= cfg.portEnd :: PortLeased(t, p)
    ensures |LeasedIds(cfg, t)| == cfg.portEnd - cfg.portStart + 1
  {
    var ids := LeasedIds(cfg, t);
    var range := Range(cfg.portStart, cfg.portEnd + 1);
    DistinctPortsCount(t, ids);
    forall p | p in range ensures p in PortsOf(t, ids) {
      assert PortLeased(t, p);
      var id :| id in t && Leases(t[id], p);
      assert id in ids;
    }
    assert PortsOf(t, ids) == range;
  }

  // The range is exhausted exactly when as many of its ports are leased as it has.
  lemma ExhaustedIffRangeFull(cfg: Config, t: Table)
    requires cfg.portStart <= cfg.portEnd && DistinctPorts(t)
    ensures FirstAvailableTcpPort(cfg, t).None? <==> |LeasedIds(cfg, t)| == cfg.portEnd - cfg.portStart + 1
  {
    match FirstAvailableTcpPort(cfg, t)
    case None => AllLeasedMeansFull(cfg, t);
    case Some(free) => FreePortMeansNotFull(cfg, t, free);
  }

  lemma PlaceWithoutPort(cfg: Config, t: Table, s: ServiceDefinition)
    requires s.publicPort.None?
    ensures match FirstAvailableTcpPort(cfg, t)
            case None => PlaceTcp(cfg, t, s) == Err(NoPortsAvailable)
            case Some(port) => PlaceTcp(cfg, t, s) == Ok(s.(publicPort := Some(port), publicHost := Some(cfg.publicHost)))
  {
  }

  // A valid port-less TCP registration under a new name is refused exactly when the range is full, and
  // is otherwise given the least unleased port.
  lemma AllocatorComplete(cfg: Config, t: Table, req: ServiceDefinition, nodeId: Uuid)
    requires cfg.portStart <= cfg.portEnd && DistinctPorts(t)
    requires ValidServiceName(req.serviceName) && ValidMetadata(req.metadata)
    requires req.protocol.Tcp? && req.publicPort.None?
    requires forall id | id in t :: t[id].serviceName != req.serviceName
    ensures var full := |LeasedIds(cfg, t)| == cfg.portEnd - cfg.portStart + 1;
            match Admit(cfg, t, req, nodeId)
            case Err(e) => full && e == NoPortsAvailable
            case Ok(s) =>
              && !full && s.serviceId == req.serviceId && s.publicPort.Some?
              && cfg.portStart <= s.publicPort.value <= cfg.portEnd
              && !PortLeased(t, s.publicPort.value)
              && forall p: u16 | cfg.portStart <= p < s.publicPort.value :: PortLeased(t, p)
  {
    ExhaustedIffRangeFull(cfg, t);
    assert Owned(t, nodeId, req.serviceName) == {};
    assert Adopt(t, req, nodeId) == req;
    PlaceWithoutPort(cfg, t, req);
    assert Place(cfg, t, req) == PlaceTcp(cfg, t, req);
  }
}
