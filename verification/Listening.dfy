// Listeners against leases under interleaving: one to one whenever nothing is in flight, in runs whose
// registrations never part a listener from its lease.
module Listening {
  import opened Basics
  import opened Types
  import opened Registry
  import opened Ledger
  import opened Interleaving

  // The id has a listener exactly if it is a TCP service, and on its leased port.
  ghost predicate ListensAt(l: Ledger, id: Uuid) {
    && (id in l.tasks <==> id in l.table && l.table[id].protocol.Tcp?)
    && (id in l.tasks ==> l.table[id].publicPort == Some(l.tasks[id]))
  }

  ghost predicate FitsTask(l: Ledger, s: ServiceDefinition) {
    s.serviceId in l.tasks ==> s.protocol.Tcp? && s.publicPort == Some(l.tasks[s.serviceId])
  }

  // What a handler knows about its target's listener between two sections.
  ghost predicate KnowsTask(l: Ledger, p: Phase) {
    match p
    case RegisterPersist(s) => FitsTask(l, s)
    case RegisterCheckTask(s) => s.protocol.Tcp? && FitsTask(l, s)
    case RegisterBind(s) => s.protocol.Tcp? && s.serviceId !in l.tasks
    case RegisterInsertTask(s) => s.protocol.Tcp? && s.serviceId !in l.tasks
    case RollbackTable(s) => s.serviceId !in l.tasks
    case RollbackStore(s) => s.serviceId !in l.tasks
    case DeleteStore(id) => id !in l.tasks
    case PatchStore(s) => ListensAt(l, s.serviceId)
    case _ => true
  }

  ghost predicate Listens(w: World) {
    && (forall id: Uuid | !InFlight(w, id) :: ListensAt(w.l, id))
    && (forall op | op in w.ops :: KnowsTask(w.l, w.ops[op]))
  }

  // A registration about to be admitted does not part a listener from its lease.
  ghost predicate KeepsLease(cfg: Config, l: Ledger, p: Phase) {
    p.RegisterAdmit? ==> !Parts(cfg, l, p.req, p.nodeId)
  }

  lemma AdmissionFitsTask(cfg: Config, l: Ledger, req: ServiceDefinition, nodeId: Uuid)
    requires ValidTable(cfg, l.table) && Admit(cfg, l.table, req, nodeId).Ok? && !Parts(cfg, l, req, nodeId)
    requires ListensAt(l, Admit(cfg, l.table, req, nodeId).value.serviceId)
    ensures FitsTask(l, Admit(cfg, l.table, req, nodeId).value)
  {
    AdmittedIdentity(cfg, l.table, req, nodeId);
    var id := Adopt(l.table, req, nodeId).serviceId;
    if id in l.tasks && req.protocol.Tcp? {
      AdoptedPort(cfg, l.table, req, nodeId);
    }
  }

  lemma AdmitKnowsTask(cfg: Config, w: World, p: Phase, binds: bool)
    requires ValidTable(cfg, w.l.table) && p.RegisterAdmit? && KeepsLease(cfg, w.l, p)
    requires var q := Section(cfg, w, p, true, binds).1; Target(q).Some? ==> ListensAt(w.l, Target(q).value)
    ensures var (m, q) := Section(cfg, w, p, true, binds); KnowsTask(m, q)
  {
    if Admit(cfg, w.l.table, p.req, p.nodeId).Ok? {
      AdmissionFitsTask(cfg, w.l, p.req, p.nodeId);
    }
  }

  lemma RegisterKnowsTask(cfg: Config, w: World, p: Phase, binds: bool)
    requires Knows(w.l, p) && KnowsTask(w.l, p)
    requires p.RegisterPersist? || p.RegisterCheckTask? || p.RegisterBind? || p.RegisterInsertTask?
    ensures var (m, q) := Section(cfg, w, p, true, binds);
            KnowsTask(m, q) && (Target(q).None? ==> ListensAt(m, p.s.serviceId))
  {
  }

  lemma SectionKnowsTask(cfg: Config, w: World, p: Phase, binds: bool)
    requires ValidTable(cfg, w.l.table) && Knows(w.l, p) && KnowsTask(w.l, p) && KeepsLease(cfg, w.l, p)
    requires var q := Section(cfg, w, p, true, binds).1;
             Target(p).None? && Target(q).Some? ==> ListensAt(w.l, Target(q).value)
    ensures var (m, q) := Section(cfg, w, p, true, binds);
            KnowsTask(m, q) && (Target(p).Some? && Target(q).None? ==> ListensAt(m, Target(p).value))
  {
    if p.RegisterAdmit? {
      AdmitKnowsTask(cfg, w, p, binds);
    } else if p.RegisterPersist? || p.RegisterCheckTask? || p.RegisterBind? || p.RegisterInsertTask? {
      RegisterKnowsTask(cfg, w, p, binds);
    }
  }

  lemma TaskKnownElsewhere(l: Ledger, m: Ledger, id: Uuid, p: Phase)
    requires SameElsewhere(l, m, id) && KnowsTask(l, p) && Target(p) != Some(id)
    ensures KnowsTask(m, p)
  {
  }

  lemma StepKeepsListens(cfg: Config, w: World, op: nat, binds: bool)
    requires op in w.ops && ValidTable(cfg, w.l.table) && Agreement(w) && Listens(w) && KeepsLease(cfg, w.l, w.ops[op])
    requires Exclusive(w) && Exclusive(Advance(cfg, w, op, true, binds))
    ensures Listens(Advance(cfg, w, op, true, binds))
  {
    var p := w.ops[op];
    var (m, q) := Section(cfg, w, p, true, binds);
    var v := Advance(cfg, w, op, true, binds);
    if Target(p).None? && Target(q).Some? {
      NewTargetNotInFlight(w, v, op, Target(q).value);
    }
    SectionStaysOnTarget(cfg, w, p, binds);
    SectionKnowsTask(cfg, w, p, binds);
    var touched := if Target(p).Some? then Target(p) else Target(q);
    forall o | o in v.ops ensures KnowsTask(m, v.ops[o]) {
      if o != op && touched.Some? {
        assert v.ops[o] == w.ops[o] && v.ops[op] == q;
        TaskKnownElsewhere(w.l, m, touched.value, w.ops[o]);
      }
    }
    forall id: Uuid | !InFlight(v, id) ensures ListensAt(m, id) {
      if touched != Some(id) {
        StillSettled(w, v, op, id);
      }
    }
  }

  lemma OtherLabelsKeepListens(cfg: Config, w: World, a: Label, v: World)
    requires Next(cfg, w, a, v) && !a.Step? && Listens(w)
    ensures Listens(v)
  {
    forall id: Uuid | !InFlight(v, id) ensures ListensAt(v.l, id) {
      OtherLabelsKeepFlights(cfg, w, a, v, id);
      assert ListensAt(w.l, id);
    }
    forall op | op in v.ops ensures KnowsTask(v.l, v.ops[op]) {
      if op in w.ops { assert v.ops[op] == w.ops[op] && KnowsTask(w.l, w.ops[op]); }
    }
  }

  ghost predicate NeverPartsLease(cfg: Config, ws: seq<World>, acts: seq<Label>)
    requires |ws| > |acts|
  {
    forall i | 0 <= i < |acts| && acts[i].Step? && acts[i].op in ws[i].ops :: KeepsLease(cfg, ws[i].l, ws[i].ops[acts[i].op])
  }

  lemma {:induction false} ListensAlways(cfg: Config, ws: seq<World>, acts: seq<Label>, i: nat)
    requires IsRun(cfg, ws, acts) && ValidTable(cfg, ws[0].l.table) && Agreement(ws[0]) && Listens(ws[0])
    requires CommitsSucceed(acts) && NeverTwoOnOneService(ws) && NeverPartsLease(cfg, ws, acts)
    requires i < |ws|
    ensures Listens(ws[i])
  {
    if i > 0 {
      ListensAlways(cfg, ws, acts, i - 1);
      AgreementAlwaysHolds(cfg, ws, acts, i - 1);
      TableAlwaysValid(cfg, ws, acts, i - 1);
      var w, a := ws[i - 1], acts[i - 1];
      assert Next(cfg, w, a, ws[i - 1 + 1]);
      if a.Step? {
        StepKeepsListens(cfg, w, a.op, a.binds);
      } else {
        OtherLabelsKeepListens(cfg, w, a, ws[i]);
      }
    }
  }

  // When nothing is in flight, listeners and TCP leases are one to one, each on its leased port.
  lemma QuiescentIsExact(cfg: Config, ws: seq<World>, acts: seq<Label>, i: nat)
    requires IsRun(cfg, ws, acts) && Consistent(cfg, ws[0].l) && Exact(ws[0].l) && Quiescent(ws[0])
    requires CommitsSucceed(acts) && NeverTwoOnOneService(ws) && NeverPartsLease(cfg, ws, acts)
    requires i < |ws| && Quiescent(ws[i])
    ensures Exact(ws[i].l)
  {
    ConsistentAgrees(cfg, ws[0]);
    ExactListens(ws[0]);
    ListensAlways(cfg, ws, acts, i);
    ListensIsExact(ws[i]);
  }

  lemma ExactListens(w: World)
    requires Exact(w.l) && Quiescent(w)
    ensures Listens(w)
  {
    forall op | op in w.ops ensures KnowsTask(w.l, w.ops[op]) {
      assert Target(w.ops[op]).None?;
    }
  }

  lemma ListensIsExact(w: World)
    requires Listens(w) && Quiescent(w)
    ensures Exact(w.l)
  {
    forall id: Uuid ensures ListensAt(w.l, id) {
      assert !InFlight(w, id);
    }
    assert forall id | id in w.l.tasks :: ListensAt(w.l, id);
    assert forall id | id in w.l.table :: ListensAt(w.l, id);
  }
}
