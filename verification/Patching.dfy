// PATCH handlers that meet on one service. Each updates memory under the lock and the store after
// releasing it, so memory keeps the last to take the lock and the store the last to commit.
module Patching {
  import opened Basics
  import opened Types
  import opened Registry
  import opened Interleaving

  lemma PatchMemory(cfg: Config, w: World, op: nat, id: Uuid, metadata: Metadata)
    requires op in w.ops && w.ops[op] == PatchTable(id, metadata) && id in w.l.table
    ensures var s := w.l.table[id].(metadata := metadata);
            Advance(cfg, w, op, true, true)
            == World(w.l.(table := w.l.table[id := s]), w.ops[op := PatchStore(s)])
  {
  }

  lemma PatchCommit(cfg: Config, w: World, op: nat, s: ServiceDefinition)
    requires op in w.ops && w.ops[op] == PatchStore(s)
    ensures Advance(cfg, w, op, true, true)
            == World(w.l.(store := w.l.store[s.serviceId := s]), w.ops[op := Finished])
  {
  }

  // ---- Runs of PATCH handlers ----

  predicate IsPatch(p: Phase) {
    p.PatchTable? || p.PatchStore? || p.Finished?
  }

  ghost predicate PatchRun(cfg: Config, ws: seq<World>, acts: seq<Label>) {
    && IsRun(cfg, ws, acts) && CommitsSucceed(acts)
    && (forall a | a in acts && a.Begin? :: a.phase.PatchTable?)
    && (forall op | op in ws[0].ops :: ws[0].ops[op].PatchTable? || ws[0].ops[op].Finished?)
  }

  // The metadata of the last handler to have updated the service in memory, and of the last to have
  // committed it, among the first n steps.
  function LastInMemory(ws: seq<World>, acts: seq<Label>, n: nat, id: Uuid, initial: Metadata): Metadata
    requires n <= |acts| < |ws|
  {
    if n == 0 then initial
    else
      var before := LastInMemory(ws, acts, n - 1, id, initial);
      var w, a := ws[n - 1], acts[n - 1];
      if a.Step? && a.op in w.ops && w.ops[a.op].PatchTable? && w.ops[a.op].id == id then w.ops[a.op].metadata else before
  }

  function LastCommitted(ws: seq<World>, acts: seq<Label>, n: nat, id: Uuid, initial: Metadata): Metadata
    requires n <= |acts| < |ws|
  {
    if n == 0 then initial
    else
      var before := LastCommitted(ws, acts, n - 1, id, initial);
      var w, a := ws[n - 1], acts[n - 1];
      if a.Step? && a.op in w.ops && w.ops[a.op].PatchStore? && w.ops[a.op].s.serviceId == id then w.ops[a.op].s.metadata else before
  }

  // One service in the middle of such a run: only its metadata ever changes.
  ghost predicate PatchedTo(w: World, id: Uuid, base: ServiceDefinition, memory: Metadata, committed: Metadata) {
    && id in w.l.table && w.l.table[id] == base.(metadata := memory)
    && id in w.l.store && w.l.store[id] == base.(metadata := committed)
    && (forall op | op in w.ops :: IsPatch(w.ops[op]) && Carries(w.ops[op], id, base))
    && IdsMatch(w.l)
  }

  predicate Carries(p: Phase, id: Uuid, base: ServiceDefinition) {
    p.PatchStore? && p.s.serviceId == id ==> p.s == base.(metadata := p.s.metadata)
  }

  lemma StepPatches(cfg: Config, w: World, a: Label, v: World, id: Uuid, base: ServiceDefinition, memory: Metadata, committed: Metadata)
    requires Next(cfg, w, a, v) && (a.Step? ==> a.commits) && (a.Begin? ==> a.phase.PatchTable?)
    requires PatchedTo(w, id, base, memory, committed) && base.serviceId == id
    ensures var p := if a.Step? then w.ops[a.op] else Finished;
            PatchedTo(v, id, base,
                      if p.PatchTable? && p.id == id then p.metadata else memory,
                      if p.PatchStore? && p.s.serviceId == id then p.s.metadata else committed)
  {
    assert base.(metadata := memory).serviceId == base.serviceId;
  }

  lemma PatchedStep(cfg: Config, ws: seq<World>, acts: seq<Label>, i: nat, id: Uuid, base: ServiceDefinition)
    requires i < |acts| < |ws| && base.serviceId == id
    requires Next(cfg, ws[i], acts[i], ws[i + 1]) && (acts[i].Step? ==> acts[i].commits) && (acts[i].Begin? ==> acts[i].phase.PatchTable?)
    requires PatchedTo(ws[i], id, base, LastInMemory(ws, acts, i, id, base.metadata), LastCommitted(ws, acts, i, id, base.metadata))
    ensures PatchedTo(ws[i + 1], id, base, LastInMemory(ws, acts, i + 1, id, base.metadata), LastCommitted(ws, acts, i + 1, id, base.metadata))
  {
    var memory, committed := LastInMemory(ws, acts, i, id, base.metadata), LastCommitted(ws, acts, i, id, base.metadata);
    StepPatches(cfg, ws[i], acts[i], ws[i + 1], id, base, memory, committed);
  }

  lemma PatchLabel(cfg: Config, ws: seq<World>, acts: seq<Label>, i: nat)
    requires PatchRun(cfg, ws, acts) && i < |acts|
    ensures Next(cfg, ws[i], acts[i], ws[i + 1]) && (acts[i].Step? ==> acts[i].commits) && (acts[i].Begin? ==> acts[i].phase.PatchTable?)
  {
    assert acts[i] in acts;
  }

  lemma PatchedStarts(cfg: Config, ws: seq<World>, acts: seq<Label>, id: Uuid)
    requires PatchRun(cfg, ws, acts) && IdsMatch(ws[0].l) && ws[0].l.store == ws[0].l.table && id in ws[0].l.table
    ensures var base := ws[0].l.table[id]; PatchedTo(ws[0], id, base, base.metadata, base.metadata)
  {
  }

  lemma {:induction false} PatchedAlways(cfg: Config, ws: seq<World>, acts: seq<Label>, i: nat, id: Uuid)
    requires PatchRun(cfg, ws, acts) && IdsMatch(ws[0].l) && ws[0].l.store == ws[0].l.table && id in ws[0].l.table
    requires i < |ws|
    ensures var base := ws[0].l.table[id];
            PatchedTo(ws[i], id, base, LastInMemory(ws, acts, i, id, base.metadata), LastCommitted(ws, acts, i, id, base.metadata))
  {
    if i == 0 {
      PatchedStarts(cfg, ws, acts, id);
    } else {
      PatchedAlways(cfg, ws, acts, i - 1, id);
      PatchLabel(cfg, ws, acts, i - 1);
      PatchedStep(cfg, ws, acts, i - 1, id, ws[0].l.table[id]);
    }
  }

  // In any run of PATCH handlers, however many and however interleaved, memory and store hold the same
  // record of a service if and only if the last section that updated it in memory and the last that
  // committed it carried the same metadata.
  lemma PatchRunAgreesIff(cfg: Config, ws: seq<World>, acts: seq<Label>, i: nat, id: Uuid)
    requires PatchRun(cfg, ws, acts) && IdsMatch(ws[0].l) && ws[0].l.store == ws[0].l.table && id in ws[0].l.table
    requires i < |ws|
    ensures id in ws[i].l.table && id in ws[i].l.store
    ensures ws[i].l.table[id] == ws[i].l.store[id]
            <==> LastInMemory(ws, acts, i, id, ws[0].l.table[id].metadata) == LastCommitted(ws, acts, i, id, ws[0].l.table[id].metadata)
  {
    PatchedAlways(cfg, ws, acts, i, id);
    var base := ws[0].l.table[id];
    var m, c := LastInMemory(ws, acts, i, id, base.metadata), LastCommitted(ws, acts, i, id, base.metadata);
    assert base.(metadata := m).metadata == m && base.(metadata := c).metadata == c;
  }
}
