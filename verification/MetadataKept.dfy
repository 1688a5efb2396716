// No record with invalid metadata ever gets into memory or the store.
module MetadataKept {
  import opened Basics
  import opened Types
  import opened Validation
  import opened Registry
  import opened Ledger
  import opened Interleaving
  import opened RelayRegistry

  // The lemmas hold for any test of metadata that a table satisfies; the server's is `ValidMetadata`.
  type Test = Metadata -> bool

  ghost predicate Passes(test: Test, t: Table) {
    forall id | id in t :: test(t[id].metadata)
  }

  // ---- One registration ----

  lemma AdmittedMetadata(cfg: Config, t: Table, req: ServiceDefinition, nodeId: Uuid)
    ensures Admit(cfg, t, req, nodeId).Ok? ==>
              ValidMetadata(req.metadata) && Admit(cfg, t, req, nodeId).value.metadata == req.metadata
  {
    if !ValidMetadata(req.metadata) {
      InvalidRequestRefused(cfg, t, req, nodeId);
    } else if Admit(cfg, t, req, nodeId).Ok? {
      PlacedRecord(cfg, t, Adopt(t, req, nodeId));
    }
  }

  // What is submitted with an invalid name or invalid metadata changes nothing at all.
  lemma InvalidRegistrationChangesNothing(cfg: Config, l: Ledger, req: ServiceDefinition, nodeId: Uuid)
    requires !ValidServiceName(req.serviceName) || !ValidMetadata(req.metadata)
    ensures Registered(cfg, l, req, nodeId)
            == (l, Err(if ValidServiceName(req.serviceName) then InvalidMetadata else InvalidServiceName))
  {
    InvalidRequestRefused(cfg, l.table, req, nodeId);
  }

  // ---- Runs one at a time ----

  ghost predicate BothPass(test: Test, l: Ledger) {
    Passes(test, l.table) && Passes(test, l.store)
  }

  lemma ActivatedPasses(test: Test, l: Ledger, s: ServiceDefinition)
    requires BothPass(test, l) && test(s.metadata)
    ensures BothPass(test, Activated(Inserted(l, s), s).0)
  {
  }

  lemma RegisterPasses(cfg: Config, l: Ledger, req: ServiceDefinition, nodeId: Uuid)
    requires BothPass(ValidMetadata, l)
    ensures BothPass(ValidMetadata, Registered(cfg, l, req, nodeId).0)
  {
    AdmittedMetadata(cfg, l.table, req, nodeId);
    if Admit(cfg, l.table, req, nodeId).Ok? {
      ActivatedPasses(ValidMetadata, l, Admit(cfg, l.table, req, nodeId).value);
    }
  }

  lemma ServePasses(cfg: Config, l: Ledger, r: Request)
    requires BothPass(ValidMetadata, l)
    ensures BothPass(ValidMetadata, Serve(cfg, l, r))
  {
    if r.Register? {
      RegisterPasses(cfg, l, r.service, r.nodeId);
    }
  }

  lemma {:induction false} SequentialMetadata(cfg: Config, l: Ledger, rs: seq<Request>)
    requires BothPass(ValidMetadata, l)
    ensures BothPass(ValidMetadata, ServeAll(cfg, l, rs))
    decreases |rs|
  {
    if rs != [] {
      ServePasses(cfg, l, rs[0]);
      SequentialMetadata(cfg, Serve(cfg, l, rs[0]), rs[1..]);
    }
  }

  // A restart loads nothing that was not stored.
  lemma RestartMetadata(test: Test, store: Table, services: Table, origin: map<Uuid, Uuid>)
    requires Passes(test, store) && Refiled(store, services, origin)
    ensures Passes(test, services)
  {
  }

  // ---- Interleaved runs ----

  // What a handler carries passes too: a PATCH has validated its metadata before it takes the lock.
  ghost predicate CarriesPassing(test: Test, p: Phase) {
    match p
    case RegisterPersist(s) => test(s.metadata)
    case RegisterCheckTask(s) => test(s.metadata)
    case RegisterBind(s) => test(s.metadata)
    case RegisterInsertTask(s) => test(s.metadata)
    case PatchTable(_, metadata) => test(metadata)
    case PatchStore(s) => test(s.metadata)
    case _ => true
  }

  ghost predicate AllPass(test: Test, w: World) {
    BothPass(test, w.l) && forall op | op in w.ops :: CarriesPassing(test, w.ops[op])
  }

  lemma SectionPasses(test: Test, cfg: Config, w: World, p: Phase, commits: bool, binds: bool)
    requires BothPass(test, w.l) && CarriesPassing(test, p)
    requires p.RegisterAdmit? ==>
               Admit(cfg, w.l.table, p.req, p.nodeId).Ok? ==> test(Admit(cfg, w.l.table, p.req, p.nodeId).value.metadata)
    ensures var (m, q) := Section(cfg, w, p, commits, binds); BothPass(test, m) && CarriesPassing(test, q)
  {
  }

  lemma StepPasses(cfg: Config, w: World, a: Label, v: World)
    requires Next(cfg, w, a, v) && AllPass(ValidMetadata, w)
    ensures AllPass(ValidMetadata, v)
  {
    if a.Step? {
      var p := w.ops[a.op];
      if p.RegisterAdmit? { AdmittedMetadata(cfg, w.l.table, p.req, p.nodeId); }
      SectionPasses(ValidMetadata, cfg, w, p, a.commits, a.binds);
    }
  }

  // Under every interleaving, whatever fails to commit, every record in memory and in the store has valid
  // metadata.
  lemma {:induction false} MetadataAlwaysValid(cfg: Config, ws: seq<World>, acts: seq<Label>, i: nat)
    requires IsRun(cfg, ws, acts) && AllPass(ValidMetadata, ws[0])
    requires i < |ws|
    ensures AllPass(ValidMetadata, ws[i])
  {
    if i > 0 {
      MetadataAlwaysValid(cfg, ws, acts, i - 1);
      assert Next(cfg, ws[i - 1], acts[i - 1], ws[i - 1 + 1]);
      StepPasses(cfg, ws[i - 1], acts[i - 1], ws[i]);
    }
  }
}
