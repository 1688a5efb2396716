// Which section decides what memory and store hold for a service, in any run at all: any handlers, on any
// services, with failed commits and rollbacks.
module Writes {
  import opened Basics
  import opened Types
  import opened Registry
  import opened Interleaving

  // What a section writes for one id: a record, or that there is none.
  datatype Write = Nothing | Wrote(record: Option<ServiceDefinition>)

  // The sections that run under the services lock.
  function TableWrite(cfg: Config, t: Table, p: Phase, id: Uuid): Write {
    match p
    case RegisterAdmit(req, nodeId) =>
      (match Admit(cfg, t, req, nodeId)
       case Err(_) => Nothing
       case Ok(s) => if s.serviceId == id then Wrote(Some(s)) else Nothing)
    case RollbackTable(s) => if s.serviceId == id then Wrote(None) else Nothing
    case UnregisterTable(j, nodeId) => if j == id && id in t && t[id].nodeId == nodeId then Wrote(None) else Nothing
    case DeleteTable(j) => if j == id && id in t then Wrote(None) else Nothing
    case PatchTable(j, metadata) => if j == id && id in t then Wrote(Some(t[id].(metadata := metadata))) else Nothing
    case _ => Nothing
  }

  // The sections that commit a store transaction.
  function StoreWrite(p: Phase, commits: bool, id: Uuid): Write {
    if !commits then Nothing
    else
      match p
      case RegisterPersist(s) => if s.serviceId == id then Wrote(Some(s)) else Nothing
      case RollbackStore(s) => if s.serviceId == id then Wrote(None) else Nothing
      case UnregisterStore(j) => if j == id then Wrote(None) else Nothing
      case DeleteStore(j) => if j == id then Wrote(None) else Nothing
      case PatchStore(s) => if s.serviceId == id then Wrote(Some(s)) else Nothing
      case _ => Nothing
  }

  function RecordAt(t: Table, id: Uuid): Option<ServiceDefinition> {
    if id in t then Some(t[id]) else None
  }

  function After(w: Write, before: Option<ServiceDefinition>): Option<ServiceDefinition> {
    if w.Wrote? then w.record else before
  }

  // The last writes among the first n steps.
  function LastTableWrite(cfg: Config, ws: seq<World>, acts: seq<Label>, n: nat, id: Uuid): Option<ServiceDefinition>
    requires n <= |acts| < |ws|
  {
    if n == 0 then RecordAt(ws[0].l.table, id)
    else
      var before := LastTableWrite(cfg, ws, acts, n - 1, id);
      var w, a := ws[n - 1], acts[n - 1];
      if a.Step? && a.op in w.ops then After(TableWrite(cfg, w.l.table, w.ops[a.op], id), before) else before
  }

  function LastStoreWrite(ws: seq<World>, acts: seq<Label>, n: nat, id: Uuid): Option<ServiceDefinition>
    requires n <= |acts| < |ws|
  {
    if n == 0 then RecordAt(ws[0].l.store, id)
    else
      var before := LastStoreWrite(ws, acts, n - 1, id);
      var w, a := ws[n - 1], acts[n - 1];
      if a.Step? && a.op in w.ops then After(StoreWrite(w.ops[a.op], a.commits, id), before) else before
  }

  lemma PatchWrites(cfg: Config, w: World, p: Phase, commits: bool, binds: bool, id: Uuid)
    requires IdsMatch(w.l) && (p.PatchTable? || p.PatchStore?)
    ensures var m := Section(cfg, w, p, commits, binds).0;
            && RecordAt(m.table, id) == After(TableWrite(cfg, w.l.table, p, id), RecordAt(w.l.table, id))
            && RecordAt(m.store, id) == After(StoreWrite(p, commits, id), RecordAt(w.l.store, id))
  {
  }

  lemma AdmitWrites(cfg: Config, w: World, p: Phase, commits: bool, binds: bool, id: Uuid)
    requires p.RegisterAdmit?
    ensures var m := Section(cfg, w, p, commits, binds).0;
            && RecordAt(m.table, id) == After(TableWrite(cfg, w.l.table, p, id), RecordAt(w.l.table, id))
            && RecordAt(m.store, id) == RecordAt(w.l.store, id)
  {
  }

  lemma SectionWrites(cfg: Config, w: World, p: Phase, commits: bool, binds: bool, id: Uuid)
    requires IdsMatch(w.l)
    ensures var m := Section(cfg, w, p, commits, binds).0;
            && RecordAt(m.table, id) == After(TableWrite(cfg, w.l.table, p, id), RecordAt(w.l.table, id))
            && RecordAt(m.store, id) == After(StoreWrite(p, commits, id), RecordAt(w.l.store, id))
  {
    if p.RegisterAdmit? {
      AdmitWrites(cfg, w, p, commits, binds, id);
    } else if p.PatchTable? || p.PatchStore? {
      PatchWrites(cfg, w, p, commits, binds, id);
    }
  }

  // Memory and store hold the same for a service if and only if the last section that wrote it to memory
  // and the last that committed it to the store wrote the same.
  lemma {:induction false} AgreeIffLastWritesMatch(cfg: Config, ws: seq<World>, acts: seq<Label>, i: nat, id: Uuid)
    requires IsRun(cfg, ws, acts) && ValidTable(cfg, ws[0].l.table)
    requires i < |ws|
    ensures RecordAt(ws[i].l.table, id) == LastTableWrite(cfg, ws, acts, i, id)
    ensures RecordAt(ws[i].l.store, id) == LastStoreWrite(ws, acts, i, id)
    ensures RecordAt(ws[i].l.table, id) == RecordAt(ws[i].l.store, id)
            <==> LastTableWrite(cfg, ws, acts, i, id) == LastStoreWrite(ws, acts, i, id)
  {
    if i > 0 {
      AgreeIffLastWritesMatch(cfg, ws, acts, i - 1, id);
      TableAlwaysValid(cfg, ws, acts, i - 1);
      var w, a := ws[i - 1], acts[i - 1];
      assert Next(cfg, w, a, ws[i - 1 + 1]);
      if a.Step? { SectionWrites(cfg, w, w.ops[a.op], a.commits, a.binds, id); }
    }
  }
}
