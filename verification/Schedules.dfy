// Which PATCH, DELETE and unregister handlers may meet: memory and store agree on a service after every
// schedule that completes them exactly if no two of them can undo each other.
module Schedules {
  import opened Basics
  import opened Types
  import opened Registry
  import opened Ledger
  import opened Interleaving
  import opened Patching
  import opened Writes

  // A run of sections only, all of whose commits succeed.
  ghost predicate RunTo(cfg: Config, w: World, v: World, ws: seq<World>, acts: seq<Label>) {
    && IsRun(cfg, ws, acts) && ws[0] == w && ws[|acts|] == v
    && forall a | a in acts :: a.Step? && a.commits
  }

  lemma Extend(cfg: Config, w: World, v: World, ws: seq<World>, acts: seq<Label>, op: nat)
    requires RunTo(cfg, w, v, ws, acts) && op in v.ops
    ensures var u := Advance(cfg, v, op, true, true);
            RunTo(cfg, w, u, ws + [u], acts + [Step(op, true, true)])
  {
    var u, a := Advance(cfg, v, op, true, true), Step(op, true, true);
    var us, as_ := ws + [u], acts + [a];
    forall i | 0 <= i < |as_| ensures Next(cfg, us[i], as_[i], us[i + 1]) {
      if i < |acts| {
        assert us[i] == ws[i] && us[i + 1] == ws[i + 1] && as_[i] == acts[i];
      } else {
        assert us[i] == v && us[i + 1] == u && as_[i] == a;
      }
    }
  }

  // The one that takes the lock first commits last.
  lemma Race(cfg: Config, w0: World, w: World, before: seq<World>, done: seq<Label>, a: nat, b: nat, id: Uuid)
      returns (ws: seq<World>, acts: seq<Label>, end: World)
    requires RunTo(cfg, w0, w, before, done) && a in w.ops && b in w.ops && a != b
    requires w.ops[a].PatchTable? && w.ops[a].id == id && w.ops[b].PatchTable? && w.ops[b].id == id
    requires id in w.l.table && w.l.table[id].serviceId == id
    ensures RunTo(cfg, w0, end, ws, acts) && end.ops == w.ops[a := Finished][b := Finished]
    ensures end.l == w.l.(table := w.l.table[id := w.l.table[id].(metadata := w.ops[b].metadata)],
                          store := w.l.store[id := w.l.table[id].(metadata := w.ops[a].metadata)])
  {
    var first, second := w.ops[a].metadata, w.ops[b].metadata;
    var s, t := w.l.table[id].(metadata := first), w.l.table[id].(metadata := second);
    var w1 := World(w.l.(table := w.l.table[id := s]), w.ops[a := PatchStore(s)]);
    PatchMemory(cfg, w, a, id, first);
    Extend(cfg, w0, w, before, done, a);
    ws, acts := before + [w1], done + [Step(a, true, true)];
    var w2 := World(w.l.(table := w.l.table[id := t]), w1.ops[b := PatchStore(t)]);
    assert w.l.table[id := s][id := t] == w.l.table[id := t];
    PatchMemory(cfg, w1, b, id, second);
    Extend(cfg, w0, w1, ws, acts, b);
    ws, acts := ws + [w2], acts + [Step(b, true, true)];
    var w3 := World(w2.l.(store := w2.l.store[id := t]), w2.ops[b := Finished]);
    PatchCommit(cfg, w2, b, t);
    Extend(cfg, w0, w2, ws, acts, b);
    ws, acts := ws + [w3], acts + [Step(b, true, true)];
    end := World(w3.l.(store := w2.l.store[id := s]), w3.ops[a := Finished]);
    assert w3.l.store[id := s] == w2.l.store[id := s];
    PatchCommit(cfg, w3, a, s);
    Extend(cfg, w0, w3, ws, acts, a);
    ws, acts := ws + [end], acts + [Step(a, true, true)];
    assert end.ops == w.ops[a := Finished][b := Finished];
  }

  // The PATCH takes the lock before the removal and commits after it.
  lemma Resurrection(cfg: Config, w0: World, w: World, before: seq<World>, done: seq<Label>, a: nat, b: nat, id: Uuid)
      returns (ws: seq<World>, acts: seq<Label>, end: World)
    requires RunTo(cfg, w0, w, before, done) && IdsMatch(w.l)
    requires PatchesOf(w, a, id) && RemovesOf(w, b, id)
    ensures RunTo(cfg, w0, end, ws, acts) && end.ops == w.ops[a := Finished][b := Finished]
    ensures IdsMatch(end.l) && id !in end.l.table && id in end.l.store
  {
    var metadata := w.ops[a].metadata;
    var s := w.l.table[id].(metadata := metadata);
    var w1 := World(w.l.(table := w.l.table[id := s]), w.ops[a := PatchStore(s)]);
    PatchMemory(cfg, w, a, id, metadata);
    Extend(cfg, w0, w, before, done, a);
    var w4: World;
    ws, acts, w4 := RemoveOne(cfg, w0, w1, before + [w1], done + [Step(a, true, true)], b, id);
    end := World(w4.l.(store := w4.l.store[id := s]), w4.ops[a := Finished]);
    PatchCommit(cfg, w4, a, s);
    Extend(cfg, w0, w4, ws, acts, a);
    ws, acts := ws + [end], acts + [Step(a, true, true)];
    assert end.ops == w.ops[a := Finished][b := Finished];
  }

  // The three sections of a removal.
  lemma DeleteSections(cfg: Config, w: World, op: nat, id: Uuid) returns (w1: World, w2: World)
    requires op in w.ops && w.ops[op] == DeleteTable(id) && id in w.l.table
    ensures w1 == Advance(cfg, w, op, true, true) && op in w1.ops && w2 == Advance(cfg, w1, op, true, true) && op in w2.ops
    ensures Advance(cfg, w2, op, true, true) == World(Removed(w.l, id), w.ops[op := Finished])
  {
    w1 := World(w.l.(table := w.l.table - {id}), w.ops[op := DeleteTask(id)]);
    w2 := World(w1.l.(tasks := w1.l.tasks - {id}), w.ops[op := DeleteStore(id)]);
    assert w1.ops[op := DeleteStore(id)] == w2.ops && w2.ops[op := Finished] == w.ops[op := Finished];
  }

  lemma UnregisterSections(cfg: Config, w: World, op: nat, id: Uuid) returns (w1: World, w2: World)
    requires id in w.l.table && op in w.ops && w.ops[op] == UnregisterTable(id, w.l.table[id].nodeId)
    ensures w1 == Advance(cfg, w, op, true, true) && op in w1.ops && w2 == Advance(cfg, w1, op, true, true) && op in w2.ops
    ensures Advance(cfg, w2, op, true, true) == World(Removed(w.l, id), w.ops[op := Finished])
  {
    w1 := World(w.l.(table := w.l.table - {id}), w.ops[op := UnregisterStore(id)]);
    w2 := World(w1.l.(store := w1.l.store - {id}), w.ops[op := UnregisterTask(id)]);
    assert w1.ops[op := UnregisterTask(id)] == w2.ops && w2.ops[op := Finished] == w.ops[op := Finished];
  }

  lemma RemoveOne(cfg: Config, w0: World, w: World, before: seq<World>, done: seq<Label>, op: nat, id: Uuid)
      returns (ws: seq<World>, acts: seq<Label>, v: World)
    requires RunTo(cfg, w0, w, before, done) && RemovesOf(w, op, id)
    ensures RunTo(cfg, w0, v, ws, acts) && v == World(Removed(w.l, id), w.ops[op := Finished])
  {
    var w1, w2: World;
    if w.ops[op].DeleteTable? {
      w1, w2 := DeleteSections(cfg, w, op, id);
    } else {
      w1, w2 := UnregisterSections(cfg, w, op, id);
    }
    Extend(cfg, w0, w, before, done, op);
    ws, acts := before + [w1], done + [Step(op, true, true)];
    Extend(cfg, w0, w1, ws, acts, op);
    ws, acts := ws + [w2], acts + [Step(op, true, true)];
    v := World(Removed(w.l, id), w.ops[op := Finished]);
    Extend(cfg, w0, w2, ws, acts, op);
    ws, acts := ws + [v], acts + [Step(op, true, true)];
  }

  // ---- Handlers about to run ----

  ghost predicate Completed(w: World) {
    forall op | op in w.ops :: w.ops[op].Finished?
  }

  predicate Pends(p: Phase) {
    p.PatchTable? || p.DeleteTable? || p.UnregisterTable? || p.Finished?
  }

  // Handlers that have passed their checks and are about to take the lock.
  ghost predicate Pending(w: World) {
    (forall op | op in w.ops :: Pends(w.ops[op])) && IdsMatch(w.l) && w.l.store == w.l.table
  }

  predicate PatchesOf(w: World, op: nat, id: Uuid) {
    op in w.ops && w.ops[op].PatchTable? && w.ops[op].id == id && id in w.l.table
  }

  // A DELETE of the service, or an unregister by the node that owns it.
  predicate RemovesOf(w: World, op: nat, id: Uuid) {
    && op in w.ops && id in w.l.table
    && (w.ops[op] == DeleteTable(id) || w.ops[op] == UnregisterTable(id, w.l.table[id].nodeId))
  }

  ghost predicate SameMetadata(w: World, id: Uuid) {
    forall a, b | PatchesOf(w, a, id) && PatchesOf(w, b, id) :: w.ops[a].metadata == w.ops[b].metadata
  }

  ghost predicate MayMeet(w: World, id: Uuid) {
    SameMetadata(w, id) && forall a, b :: !(PatchesOf(w, a, id) && RemovesOf(w, b, id))
  }

  ghost predicate AgreesOn(l: Ledger, id: Uuid) {
    RecordAt(l.table, id) == RecordAt(l.store, id)
  }

  // ---- Completing the others ----

  // What one handler's whole run leaves of a service: none stays none and its stored record stays; one
  // that the handler does not remove stays, with its owner.
  ghost predicate LeavesBe(w: World, v: World, op: nat, id: Uuid) {
    && (id !in w.l.table ==> id !in v.l.table && RecordAt(v.l.store, id) == RecordAt(w.l.store, id))
    && (id in w.l.table && !RemovesOf(w, op, id) ==> id in v.l.table && v.l.table[id].nodeId == w.l.table[id].nodeId)
  }

  lemma FinishPatch(cfg: Config, w0: World, w: World, before: seq<World>, done: seq<Label>, op: nat, id: Uuid)
      returns (ws: seq<World>, acts: seq<Label>, v: World)
    requires RunTo(cfg, w0, w, before, done) && op in w.ops && w.ops[op].PatchTable? && IdsMatch(w.l)
    ensures RunTo(cfg, w0, v, ws, acts) && v.ops == w.ops[op := Finished] && IdsMatch(v.l) && LeavesBe(w, v, op, id)
  {
    var j, metadata := w.ops[op].id, w.ops[op].metadata;
    var u := Advance(cfg, w, op, true, true);
    Extend(cfg, w0, w, before, done, op);
    ws, acts, v := before + [u], done + [Step(op, true, true)], u;
    if j in w.l.table {
      PatchMemory(cfg, w, op, j, metadata);
      PatchCommit(cfg, u, op, u.ops[op].s);
      v := Advance(cfg, u, op, true, true);
      Extend(cfg, w0, u, ws, acts, op);
      ws, acts := ws + [v], acts + [Step(op, true, true)];
    }
  }

  lemma FinishRemoval(cfg: Config, w0: World, w: World, before: seq<World>, done: seq<Label>, op: nat, id: Uuid)
      returns (ws: seq<World>, acts: seq<Label>, v: World)
    requires RunTo(cfg, w0, w, before, done) && op in w.ops && IdsMatch(w.l)
    requires w.ops[op].DeleteTable? || w.ops[op].UnregisterTable?
    ensures RunTo(cfg, w0, v, ws, acts) && v.ops == w.ops[op := Finished] && IdsMatch(v.l) && LeavesBe(w, v, op, id)
  {
    var j := w.ops[op].id;
    if RemovesOf(w, op, j) {
      ws, acts, v := RemoveOne(cfg, w0, w, before, done, op, j);
    } else {
      v := Advance(cfg, w, op, true, true);
      Extend(cfg, w0, w, before, done, op);
      ws, acts := before + [v], done + [Step(op, true, true)];
    }
  }

  lemma FinishAll(cfg: Config, w0: World, w: World, before: seq<World>, done: seq<Label>, todo: set<nat>, id: Uuid)
      returns (ws: seq<World>, acts: seq<Label>, v: World)
    requires RunTo(cfg, w0, w, before, done) && todo <= w.ops.Keys && IdsMatch(w.l)
    requires forall op | op in todo :: Pends(w.ops[op])
    ensures RunTo(cfg, w0, v, ws, acts) && v.ops.Keys == w.ops.Keys && IdsMatch(v.l)
    ensures forall op | op in w.ops :: v.ops[op] == if op in todo then Finished else w.ops[op]
    ensures id !in w.l.table ==> id !in v.l.table && RecordAt(v.l.store, id) == RecordAt(w.l.store, id)
    ensures id in w.l.table && (forall op | op in todo :: !RemovesOf(w, op, id)) ==> id in v.l.table
    decreases todo
  {
    ws, acts, v := before, done, w;
    if todo != {} {
      var op :| op in todo;
      if w.ops[op].PatchTable? {
        ws, acts, v := FinishPatch(cfg, w0, w, before, done, op, id);
      } else if !w.ops[op].Finished? {
        ws, acts, v := FinishRemoval(cfg, w0, w, before, done, op, id);
      }
      ws, acts, v := FinishAll(cfg, w0, v, ws, acts, todo - {op}, id);
    }
  }

  // ---- Losing schedules ----

  lemma DifferentPatchesLose(cfg: Config, w: World, id: Uuid, a: nat, b: nat) returns (ws: seq<World>, acts: seq<Label>, end: World)
    requires Pending(w) && forall op :: !RemovesOf(w, op, id)
    requires PatchesOf(w, a, id) && PatchesOf(w, b, id) && w.ops[a].metadata != w.ops[b].metadata
    ensures RunTo(cfg, w, end, ws, acts) && Completed(end) && !AgreesOn(end.l, id)
  {
    var v: World;
    ws, acts, v := FinishAll(cfg, w, w, [w], [], w.ops.Keys - {a, b}, id);
    ws, acts, end := Race(cfg, w, v, ws, acts, a, b, id);
    var s := v.l.table[id];
    assert s.(metadata := w.ops[a].metadata).metadata != s.(metadata := w.ops[b].metadata).metadata;
  }

  lemma PatchAndRemovalLose(cfg: Config, w: World, id: Uuid, a: nat, b: nat) returns (ws: seq<World>, acts: seq<Label>, end: World)
    requires Pending(w) && PatchesOf(w, a, id) && RemovesOf(w, b, id)
    ensures RunTo(cfg, w, end, ws, acts) && Completed(end) && id !in end.l.table && id in end.l.store
  {
    var v: World;
    ws, acts, v := Resurrection(cfg, w, w, [w], [], a, b, id);
    ws, acts, end := FinishAll(cfg, w, v, ws, acts, w.ops.Keys - {a, b}, id);
  }

  // Two PATCH requests for one service: the one that wins in memory can lose in the store, and nothing
  // repairs it.
  lemma PatchRace(cfg: Config, l: Ledger, id: Uuid, first: Metadata, second: Metadata)
      returns (ws: seq<World>, acts: seq<Label>, end: World)
    requires IdsMatch(l) && l.store == l.table && id in l.table
    ensures RunTo(cfg, World(l, map[0 := PatchTable(id, first), 1 := PatchTable(id, second)]), end, ws, acts) && Completed(end)
    ensures end.l.table == l.table[id := l.table[id].(metadata := second)]
    ensures end.l.store == l.table[id := l.table[id].(metadata := first)]
  {
    var w := World(l, map[0 := PatchTable(id, first), 1 := PatchTable(id, second)]);
    ws, acts, end := Race(cfg, w, w, [w], [], 0, 1, id);
  }

  // A PATCH and a DELETE of one service: it is gone from memory and back in the store, from where the next
  // start of the process loads it again.
  lemma DeletedServiceReturns(cfg: Config, l: Ledger, id: Uuid, metadata: Metadata)
      returns (ws: seq<World>, acts: seq<Label>, end: World)
    requires IdsMatch(l) && l.store == l.table && id in l.table
    ensures RunTo(cfg, World(l, map[0 := PatchTable(id, metadata), 1 := DeleteTable(id)]), end, ws, acts) && Completed(end)
    ensures id !in end.l.table && id in end.l.store
  {
    var w := World(l, map[0 := PatchTable(id, metadata), 1 := DeleteTable(id)]);
    ws, acts, end := Resurrection(cfg, w, w, [w], [], 0, 1, id);
  }

  // ---- Schedules that cannot lose ----

  // No section of the handler removes the service, whose owner is given.
  predicate Spares(p: Phase, id: Uuid, owner: Uuid) {
    match p
    case DeleteTable(j) => j != id
    case DeleteTask(j) => j != id
    case DeleteStore(j) => j != id
    case UnregisterTable(j, nodeId) => j != id || nodeId != owner
    case UnregisterStore(j) => j != id
    case UnregisterTask(j) => j != id
    case _ => IsPatch(p)
  }

  // Every PATCH in flight on the id carries the one metadata; memory has it as soon as one has run.
  ghost predicate OnePatch(w: World, id: Uuid, base: ServiceDefinition, metadata: Metadata) {
    var patched := base.(metadata := metadata);
    && id in w.l.table && id in w.l.store && IdsMatch(w.l)
    && (w.l.table[id] == patched || (w.l.table[id] == base && w.l.store[id] == base))
    && (w.l.store[id] == patched || w.l.store[id] == base)
    && (forall op | op in w.ops ::
          var p := w.ops[op];
          && Spares(p, id, base.nodeId) && (p.PatchTable? && p.id == id ==> p.metadata == metadata)
          && (p.PatchStore? && p.s.serviceId == id ==> p.s == patched && w.l.table[id] == patched))
    && (w.l.table[id] == w.l.store[id] || exists op | op in w.ops :: w.ops[op].PatchStore? && w.ops[op].s.serviceId == id)
  }

  lemma PatchKeepsOnePatch(cfg: Config, w: World, op: nat, binds: bool, id: Uuid, base: ServiceDefinition, metadata: Metadata)
    requires OnePatch(w, id, base, metadata) && op in w.ops && base.serviceId == id && w.ops[op].PatchTable?
    ensures OnePatch(Advance(cfg, w, op, true, binds), id, base, metadata)
  {
    var v := Advance(cfg, w, op, true, binds);
    if w.ops[op].id == id {
      assert v.ops[op].PatchStore? && v.ops[op].s.serviceId == id;
    } else if w.l.table[id] != w.l.store[id] {
      var o :| o in w.ops && w.ops[o].PatchStore? && w.ops[o].s.serviceId == id;
      assert o in v.ops && v.ops[o] == w.ops[o];
    }
  }

  lemma CommitKeepsOnePatch(cfg: Config, w: World, op: nat, binds: bool, id: Uuid, base: ServiceDefinition, metadata: Metadata)
    requires OnePatch(w, id, base, metadata) && op in w.ops && base.serviceId == id && w.ops[op].PatchStore?
    ensures OnePatch(Advance(cfg, w, op, true, binds), id, base, metadata)
  {
    var v := Advance(cfg, w, op, true, binds);
    if w.l.table[id] != w.l.store[id] && w.ops[op].s.serviceId != id {
      var o :| o in w.ops && w.ops[o].PatchStore? && w.ops[o].s.serviceId == id;
      assert o in v.ops && v.ops[o] == w.ops[o];
    }
  }

  lemma StepKeepsOnePatch(cfg: Config, w: World, op: nat, binds: bool, id: Uuid, base: ServiceDefinition, metadata: Metadata)
    requires OnePatch(w, id, base, metadata) && op in w.ops && base.serviceId == id
    ensures OnePatch(Advance(cfg, w, op, true, binds), id, base, metadata)
  {
    var p, v := w.ops[op], Advance(cfg, w, op, true, binds);
    if p.PatchTable? {
      PatchKeepsOnePatch(cfg, w, op, binds, id, base, metadata);
    } else if p.PatchStore? {
      CommitKeepsOnePatch(cfg, w, op, binds, id, base, metadata);
    } else {
      SectionWrites(cfg, w, p, true, binds, id);
      if w.l.table[id] != w.l.store[id] {
        var o :| o in w.ops && w.ops[o].PatchStore? && w.ops[o].s.serviceId == id;
        assert o in v.ops && v.ops[o] == w.ops[o];
      }
    }
  }

  predicate Removing(p: Phase, id: Uuid) {
    p == UnregisterStore(id) || p == DeleteTask(id) || p == DeleteStore(id)
  }

  predicate Manages(p: Phase) {
    IsPatch(p) || p.DeleteTable? || p.DeleteTask? || p.DeleteStore? || p.UnregisterTable? || p.UnregisterStore? || p.UnregisterTask?
  }

  // No PATCH touches the service: it is the same on both sides, or gone from memory with its removal on
  // the way to the store.
  ghost predicate OnlyRemovals(w: World, id: Uuid) {
    && IdsMatch(w.l)
    && (forall op | op in w.ops ::
          var p := w.ops[op];
          && Manages(p) && !(p.PatchStore? && p.s.serviceId == id)
          && ((p.PatchTable? && p.id == id) || Removing(p, id) ==> id !in w.l.table))
    && (AgreesOn(w.l, id) || (id !in w.l.table && exists op | op in w.ops :: Removing(w.ops[op], id)))
  }

  lemma PatchKeepsOnlyRemovals(cfg: Config, w: World, op: nat, binds: bool, id: Uuid)
    requires OnlyRemovals(w, id) && op in w.ops && (w.ops[op].PatchTable? || w.ops[op].PatchStore?)
    ensures OnlyRemovals(Advance(cfg, w, op, true, binds), id)
  {
    var v := Advance(cfg, w, op, true, binds);
    SectionWrites(cfg, w, w.ops[op], true, binds, id);
    if !AgreesOn(w.l, id) {
      var o :| o in w.ops && Removing(w.ops[o], id);
      assert o in v.ops && v.ops[o] == w.ops[o];
    }
  }

  lemma StepKeepsOnlyRemovals(cfg: Config, w: World, op: nat, binds: bool, id: Uuid)
    requires OnlyRemovals(w, id) && op in w.ops
    ensures OnlyRemovals(Advance(cfg, w, op, true, binds), id)
  {
    var p, v := w.ops[op], Advance(cfg, w, op, true, binds);
    if p.PatchTable? || p.PatchStore? {
      PatchKeepsOnlyRemovals(cfg, w, op, binds, id);
    } else {
      SectionWrites(cfg, w, p, true, binds, id);
      if !AgreesOn(w.l, id) {
        var o :| o in w.ops && Removing(w.ops[o], id);
        assert o in v.ops && (o != op ==> v.ops[o] == w.ops[o]);
      }
      if p == DeleteTask(id) || (id in w.l.table && id !in v.l.table) {
        assert Removing(v.ops[op], id);
      }
    }
  }

  // What every step keeps holds at the end of a schedule.
  lemma {:induction false} OnePatchAlways(cfg: Config, ws: seq<World>, acts: seq<Label>, i: nat, id: Uuid, base: ServiceDefinition, metadata: Metadata)
    requires |ws| == |acts| + 1 && RunTo(cfg, ws[0], ws[|acts|], ws, acts) && OnePatch(ws[0], id, base, metadata) && base.serviceId == id
    requires i < |ws|
    ensures OnePatch(ws[i], id, base, metadata)
  {
    if i > 0 {
      OnePatchAlways(cfg, ws, acts, i - 1, id, base, metadata);
      assert Next(cfg, ws[i - 1], acts[i - 1], ws[i - 1 + 1]) && acts[i - 1] in acts;
      StepKeepsOnePatch(cfg, ws[i - 1], acts[i - 1].op, acts[i - 1].binds, id, base, metadata);
    }
  }

  lemma {:induction false} OnlyRemovalsAlways(cfg: Config, ws: seq<World>, acts: seq<Label>, i: nat, id: Uuid)
    requires |ws| == |acts| + 1 && RunTo(cfg, ws[0], ws[|acts|], ws, acts) && OnlyRemovals(ws[0], id)
    requires i < |ws|
    ensures OnlyRemovals(ws[i], id)
  {
    if i > 0 {
      OnlyRemovalsAlways(cfg, ws, acts, i - 1, id);
      assert Next(cfg, ws[i - 1], acts[i - 1], ws[i - 1 + 1]) && acts[i - 1] in acts;
      StepKeepsOnlyRemovals(cfg, ws[i - 1], acts[i - 1].op, acts[i - 1].binds, id);
    }
  }

  lemma MeetingAgrees(cfg: Config, w: World, id: Uuid, ws: seq<World>, acts: seq<Label>, end: World)
    requires Pending(w) && MayMeet(w, id)
    requires RunTo(cfg, w, end, ws, acts) && Completed(end)
    ensures AgreesOn(end.l, id)
  {
    if op :| PatchesOf(w, op, id) {
      var base, metadata := w.l.table[id], w.ops[op].metadata;
      forall o | o in w.ops ensures Spares(w.ops[o], id, base.nodeId) {
        assert !RemovesOf(w, o, id);
      }
      assert forall o | o in w.ops && w.ops[o].PatchTable? && w.ops[o].id == id :: PatchesOf(w, o, id);
      assert OnePatch(w, id, base, metadata);
      OnePatchAlways(cfg, ws, acts, |acts|, id, base, metadata);
    } else {
      assert forall o | o in w.ops && w.ops[o].PatchTable? && w.ops[o].id == id && id in w.l.table :: PatchesOf(w, o, id);
      assert OnlyRemovals(w, id);
      OnlyRemovalsAlways(cfg, ws, acts, |acts|, id);
    }
  }

  // Any number of PATCH, DELETE and unregister handlers about to run: memory and store agree on a service
  // after every schedule that completes them if and only if those that PATCH it all carry the same
  // metadata and, if there is one, none deletes it and its owner does not unregister it.
  lemma SchedulesAgreeIff(cfg: Config, w: World, id: Uuid)
    requires Pending(w)
    ensures (forall ws, acts, end | RunTo(cfg, w, end, ws, acts) && Completed(end) :: AgreesOn(end.l, id)) <==> MayMeet(w, id)
  {
    if MayMeet(w, id) {
      forall ws, acts, end | RunTo(cfg, w, end, ws, acts) && Completed(end) ensures AgreesOn(end.l, id) {
        MeetingAgrees(cfg, w, id, ws, acts, end);
      }
    } else if a, b :| PatchesOf(w, a, id) && RemovesOf(w, b, id) {
      var ws, acts, end := PatchAndRemovalLose(cfg, w, id, a, b);
    } else {
      var a, b :| PatchesOf(w, a, id) && PatchesOf(w, b, id) && w.ops[a].metadata != w.ops[b].metadata;
      forall op ensures !RemovesOf(w, op, id) {
        assert !(PatchesOf(w, a, id) && RemovesOf(w, op, id));
      }
      var ws, acts, end := DifferentPatchesLose(cfg, w, id, a, b);
    }
  }
}
