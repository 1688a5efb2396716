// The server's service handlers as they run one at a time: each updates the locked maps and the store
// in the source's order, and is proved to have the effect the Ledger gives it.
module RelayRegistry {
  import opened Basics
  import opened Types
  import opened Validation
  import opened Registry
  import opened Ledger

  // Records are filed again under the id they carry. The store is read in key order, so of several that
  // carry one id the last key wins: `origin` says which key each id's record was stored under.
  ghost predicate Refiled(read: Table, services: Table, origin: map<Uuid, Uuid>) {
    && services.Keys == origin.Keys
    && (forall id | id in origin ::
          origin[id] in read && read[origin[id]].serviceId == id && services[id] == read[origin[id]])
    && (forall k | k in read :: read[k].serviceId in origin && k <= origin[read[k].serviceId])
  }

  lemma RefileStep(read: Table, services: Table, origin: map<Uuid, Uuid>, k: Uuid, s: ServiceDefinition)
    requires Refiled(read, services, origin) && forall j | j in read :: j < k
    ensures Refiled(read[k := s], services[s.serviceId := s], origin[s.serviceId := k])
  {
  }

  // What has been read so far, in key order.
  ghost predicate Read(store: Table, todo: set<Uuid>, read: Table) {
    && (forall k :: k in read <==> k in store && k !in todo) && (forall k | k in read :: read[k] == store[k])
    && (forall j, k | j in read && k in todo :: j < k)
  }

  lemma ReadStep(store: Table, todo: set<Uuid>, read: Table, k: Uuid)
    requires Read(store, todo, read) && todo <= store.Keys && IsLeastId(k, todo)
    ensures Read(store, todo - {k}, read[k := store[k]]) && forall j | j in read :: j < k
  {
  }

  method LoadServices(store: Table) returns (services: Table, ghost origin: map<Uuid, Uuid>)
    ensures Refiled(store, services, origin)
    ensures (forall id | id in store :: store[id].serviceId == id) ==> services == store
  {
    services, origin := map[], map[];
    var todo := store.Keys;
    ghost var read: Table := map[];
    while todo != {}
      invariant todo <= store.Keys && Read(store, todo, read)
      invariant Refiled(read, services, origin)
      decreases todo
    {
      LeastIdExists(todo);
      var k :| IsLeastId(k, todo);
      ReadStep(store, todo, read, k);
      RefileStep(read, services, origin, k, store[k]);
      services, origin := services[store[k].serviceId := store[k]], origin[store[k].serviceId := k];
      read := read[k := store[k]];
      todo := todo - {k};
    }
    assert read == store;
    RefiledOwn(store, services, origin);
  }

  // With every record under its own id, that is the stored table itself.
  lemma RefiledOwn(store: Table, services: Table, origin: map<Uuid, Uuid>)
    requires Refiled(store, services, origin)
    ensures (forall id | id in store :: store[id].serviceId == id) ==> services == store
  {
    if forall id | id in store :: store[id].serviceId == id {
      assert forall id | id in store :: store[id].serviceId in origin;
    }
  }

  class ServiceRegistry {
    const cfg: Config
    var services: Table
    var store: Table
    var tasks: map<Uuid, u16>
    var foreign: set<u16>

    ghost function View(): Ledger
      reads this
    {
      Ledger(services, store, tasks, foreign)
    }

    // A process that has just loaded its store and listens nowhere yet.
    constructor Open(cfg: Config, stored: Table, foreign: set<u16>)
      ensures this.cfg == cfg && store == stored && tasks == map[] && this.foreign == foreign
      ensures (forall id | id in stored :: stored[id].serviceId == id) ==> services == stored
    {
      this.cfg := cfg;
      this.store := stored;
      this.tasks := map[];
      this.foreign := foreign;
      new;
      ghost var origin;
      services, origin := LoadServices(stored);
    }

    // The port's owner is whoever bound it first; a task under the same id ends the call early.
    method EnsureTcpIngress(s: ServiceDefinition) returns (ok: bool)
      modifies this`tasks
      ensures ok <==> s.publicPort.Some? && (s.serviceId in old(tasks) || !Bound(old(View()), s.publicPort.value))
      ensures tasks == if ok && s.serviceId !in old(tasks) then old(tasks)[s.serviceId := s.publicPort.value] else old(tasks)
    {
      if s.publicPort.None? {
        return false;
      }
      if s.serviceId in tasks {
        return true;
      }
      if s.publicPort.value in foreign || s.publicPort.value in tasks.Values {
        return false;
      }
      tasks := tasks[s.serviceId := s.publicPort.value];
      return true;
    }

    method RegisterService(req: ServiceDefinition, nodeId: Uuid) returns (r: Result<ServiceDefinition, RegisterError>)
      modifies this`services, this`store, this`tasks
      ensures (View(), r) == Registered(cfg, old(View()), req, nodeId)
    {
      var admitted := Admit(cfg, services, req, nodeId);
      if admitted.Err? {
        return admitted;
      }
      var service := admitted.value;
      var serviceId := service.serviceId;
      PlacedRecord(cfg, services, Adopt(services, req, nodeId));
      services := services[serviceId := service];
      store := store[serviceId := service];
      if service.protocol.Tcp? {
        var ok := EnsureTcpIngress(service);
        if !ok {
          services := services - {serviceId};
          store := store - {serviceId};
          return Err(ActivationFailed);
        }
      }
      return Ok(service);
    }

    method UnregisterService(serviceId: Uuid, nodeId: Uuid)
      modifies this`services, this`store, this`tasks
      ensures View() == Unregistered(old(View()), serviceId, nodeId)
    {
      if serviceId in services && services[serviceId].nodeId == nodeId {
        services := services - {serviceId};
        store := store - {serviceId};
        tasks := tasks - {serviceId};
      }
    }

    method DeleteService(serviceId: Uuid) returns (found: bool)
      modifies this`services, this`store, this`tasks
      ensures found <==> serviceId in old(services)
      ensures View() == Deleted(old(View()), serviceId)
    {
      if serviceId !in services {
        return false;
      }
      services := services - {serviceId};
      tasks := tasks - {serviceId};
      store := store - {serviceId};
      return true;
    }

    method PatchService(serviceId: Uuid, metadata: Metadata) returns (r: Option<ServiceDefinition>)
      modifies this`services, this`store
      ensures View() == Patched(old(View()), serviceId, metadata)
      ensures r.Some? <==> ValidMetadata(metadata) && serviceId in old(services)
      ensures r.Some? ==> r.value == services[serviceId] && r.value.metadata == metadata
    {
      var invalid := ValidateMetadata(metadata);
      AcceptedIffValid(metadata, invalid);
      if invalid.Some? || serviceId !in services {
        return None;
      }
      var updated := services[serviceId].(metadata := metadata);
      services := services[serviceId := updated];
      store := store[serviceId := updated];
      return Some(updated);
    }

    // The startup loop. It never conflicts with itself: it fails only if another process holds a
    // leased port, and otherwise every lease listens on its own port.
    method RestoreListeners() returns (ok: bool)
      requires ValidTable(cfg, services) && tasks == map[]
      modifies this`tasks
      ensures ok <==> Unheld(TcpLeases(services), foreign)
      ensures ok ==> tasks == TcpLeases(services)
    {
      ghost var leases := TcpLeases(services);
      var todo := set id | id in services && services[id].protocol.Tcp?;
      while todo != {}
        invariant todo <= services.Keys && forall id | id in todo :: services[id].protocol.Tcp?
        invariant tasks == Without(leases, todo) && Unheld(tasks, foreign)
        decreases todo
      {
        var id :| id in todo;
        NoConflictWithin(cfg, services, todo, id);
        var activated := EnsureTcpIngress(services[id]);
        if !activated {
          assert leases[id] in foreign;
          return false;
        }
        todo := todo - {id};
      }
      assert tasks == leases;
      return true;
    }
  }

  ghost predicate Unheld(leases: map<Uuid, u16>, foreign: set<u16>) {
    forall id | id in leases :: leases[id] !in foreign
  }

  ghost function Without(leases: map<Uuid, u16>, todo: set<Uuid>): map<Uuid, u16> {
    map id | id in leases && id !in todo :: leases[id]
  }

  // No lease already restored has the port of one still to come.
  lemma NoConflictWithin(cfg: Config, t: Table, todo: set<Uuid>, id: Uuid)
    requires ValidTable(cfg, t) && id in todo && id in t && t[id].protocol.Tcp?
    ensures t[id].publicPort.Some? && t[id].serviceId == id && id in TcpLeases(t)
    ensures var done := Without(TcpLeases(t), todo); id !in done && t[id].publicPort.value !in done.Values
  {
    var done := Without(TcpLeases(t), todo);
    forall p | p in done.Values ensures p != t[id].publicPort.value {
      var i :| i in done && done[i] == p;
      assert i != id;
    }
  }

  // From a quiescent process whose table and store agree, reopening the store and restoring gives back
  // the same table, a listener on each lease's exact port, and a consistent ledger.
  method Restart(cfg: Config, before: Ledger, foreign: set<u16>) returns (r: ServiceRegistry, ok: bool)
    requires ValidTable(cfg, before.table) && before.store == before.table
    ensures fresh(r) && r.services == r.store == before.table
    ensures ok <==> Unheld(TcpLeases(before.table), foreign)
    ensures ok ==> Consistent(cfg, r.View()) && Exact(r.View()) && r.tasks == TcpLeases(before.table)
  {
    r := new ServiceRegistry.Open(cfg, before.store, foreign);
    ok := r.RestoreListeners();
    if ok {
      RestoredIsConsistentAndExact(cfg, r.View());
    }
  }
}
