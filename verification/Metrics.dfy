// The metrics table of crates/ongrok-relay-server/src/store.rs: retention on every put, and the ordered
// query of one node's metrics.
module Metrics {
  import opened Basics
  import opened Types
  import opened Ordered
  import opened Keys

  const METRIC_RETENTION_MS: i64 := 3 * 24 * 60 * 60 * 1_000

  type Table = map<string, NodeMetric>

  // The lemmas on tables hold for any way to key a metric; the store keys by `Keys.Key`.
  type Keying = NodeMetric -> string

  function Cutoff(t: i64): i64 {
    SaturatingSub(t, METRIC_RETENTION_MS)
  }

  // Three days, in milliseconds.
  ghost predicate Outlives(recordedAt: int, put: int) {
    put - recordedAt <= 259_200_000
  }

  // The saturating cutoff decides as the plain difference does, over all of `i64`; at the bottom, where it
  // saturates, it lets everything live.
  lemma CutoffIsThreeDays(recordedAt: i64, put: i64)
    ensures recordedAt >= Cutoff(put) <==> Outlives(recordedAt, put)
    ensures put < MIN_I64 + 259_200_000 ==> Cutoff(put) == MIN_I64 && recordedAt >= Cutoff(put)
  {
  }

  // What one put leaves: its own metric, and of every node's others those at most three days older.
  ghost function Put(key: Keying, table: Table, m: NodeMetric): Table {
    var written := table[key(m) := m];
    map k | k in written && Outlives(written[k].recordedAt, m.recordedAt) :: written[k]
  }

  ghost predicate Keyed(key: Keying, table: Table) {
    forall k | k in table :: key(table[k]) == k
  }

  // Of the first n keys given, those whose metric is older than the cutoff.
  ghost function Expired(table: Table, ks: seq<string>, n: nat, cutoff: i64): seq<string>
    requires n <= |ks| && forall k | k in ks :: k in table
  {
    if n == 0 then []
    else Expired(table, ks, n - 1, cutoff) + if table[ks[n - 1]].recordedAt < cutoff then [ks[n - 1]] else []
  }

  lemma {:induction false} ExpiredAre(table: Table, ks: seq<string>, n: nat, cutoff: i64)
    requires n <= |ks| && forall k | k in ks :: k in table
    ensures forall k | k in Expired(table, ks, n, cutoff) :: k in table && table[k].recordedAt < cutoff
    ensures forall i | 0 <= i < n && table[ks[i]].recordedAt < cutoff :: ks[i] in Expired(table, ks, n, cutoff)
  {
    if n > 0 {
      ExpiredAre(table, ks, n - 1, cutoff);
    }
  }

  ghost function Without(table: Table, ks: seq<string>, n: nat): Table
    requires n <= |ks|
  {
    if n == 0 then table else Without(table, ks, n - 1) - {ks[n - 1]}
  }

  lemma {:induction false} WithoutAre(table: Table, ks: seq<string>, n: nat)
    requires n <= |ks|
    ensures Without(table, ks, n) == map k | k in table && k !in ks[..n] :: table[k]
  {
    if n > 0 {
      WithoutAre(table, ks, n - 1);
      assert ks[..n] == ks[..n - 1] + [ks[n - 1]];
    }
  }

  lemma WithoutExpired(table: Table, ks: seq<string>, cutoff: i64)
    requires forall k :: k in ks <==> k in table
    ensures var expired := Expired(table, ks, |ks|, cutoff);
            Without(table, expired, |expired|) == map k | k in table && table[k].recordedAt >= cutoff :: table[k]
  {
    var expired := Expired(table, ks, |ks|, cutoff);
    ExpiredAre(table, ks, |ks|, cutoff);
    WithoutAre(table, expired, |expired|);
    assert expired[..|expired|] == expired;
  }

  // Of the first n keys given, those that start with the prefix.
  ghost function Matching(ks: seq<string>, n: nat, prefix: string): seq<string>
    requires n <= |ks|
  {
    if n == 0 then [] else Matching(ks, n - 1, prefix) + if prefix <= ks[n - 1] then [ks[n - 1]] else []
  }

  lemma {:induction false} MatchingAre(ks: seq<string>, n: nat, prefix: string)
    requires n <= |ks| && Ascending(ks)
    ensures var r := Matching(ks, n, prefix);
            && Ascending(r)
            && (forall i | 0 <= i < |r| :: prefix <= r[i] && exists j :: 0 <= j < n && ks[j] == r[i])
            && (forall j | 0 <= j < n && prefix <= ks[j] :: ks[j] in r)
  {
    if n > 0 {
      MatchingAre(ks, n - 1, prefix);
    }
  }

  ghost predicate Selects(key: Keying, nodeId: Uuid, prefix: string) {
    forall m: NodeMetric :: prefix <= key(m) <==> m.nodeId == nodeId
  }

  // `r` are the metrics under these keys, in their order.
  ghost predicate Under(table: Table, ks: seq<string>, r: seq<NodeMetric>) {
    |r| == |ks| && forall i | 0 <= i < |ks| :: ks[i] in table && table[ks[i]] == r[i]
  }

  // The query's meaning: exactly the node's stored metrics, ascending by key.
  ghost predicate IsQuery(key: Keying, table: Table, nodeId: Uuid, r: seq<NodeMetric>) {
    && (forall m: NodeMetric :: m in r <==> m.nodeId == nodeId && key(m) in table && table[key(m)] == m)
    && (forall i, j | 0 <= i < j < |r| :: Less(key(r[i]), key(r[j])))
  }

  lemma UnderIsQuery(key: Keying, table: Table, mk: seq<string>, nodeId: Uuid, prefix: string, r: seq<NodeMetric>)
    requires Keyed(key, table) && Selects(key, nodeId, prefix) && Ascending(mk) && Under(table, mk, r)
    requires forall k :: k in mk <==> k in table && prefix <= k
    ensures IsQuery(key, table, nodeId, r)
  {
    forall i | 0 <= i < |r| ensures key(r[i]) == mk[i] && r[i].nodeId == nodeId && table[key(r[i])] == r[i] {
      assert mk[i] in mk;
    }
    forall m: NodeMetric | m.nodeId == nodeId && key(m) in table && table[key(m)] == m ensures m in r {
      var i :| 0 <= i < |mk| && mk[i] == key(m);
      assert r[i] == m;
    }
    forall i, j | 0 <= i < j < |r| ensures Less(key(r[i]), key(r[j])) {
      assert Less(mk[i], mk[j]);
    }
  }

  lemma QueryAre(key: Keying, table: Table, ks: seq<string>, nodeId: Uuid, prefix: string, r: seq<NodeMetric>)
    requires Keyed(key, table) && Selects(key, nodeId, prefix) && Ascending(ks) && forall k :: k in ks <==> k in table
    requires Under(table, Matching(ks, |ks|, prefix), r)
    ensures IsQuery(key, table, nodeId, r)
  {
    MatchingAre(ks, |ks|, prefix);
    UnderIsQuery(key, table, Matching(ks, |ks|, prefix), nodeId, prefix, r);
  }

  lemma KeySelects(nodeId: Uuid)
    ensures Selects(Key, nodeId, Prefix(nodeId))
  {
    forall m: NodeMetric ensures Prefix(nodeId) <= Key(m) <==> m.nodeId == nodeId {
      PrefixExact(nodeId, m);
    }
  }

  // `table.iter()`.
  method InOrder(keys: set<string>) returns (ks: seq<string>)
    ensures Ascending(ks) && forall k :: k in ks <==> k in keys
  {
    ks := Sorted(keys);
  }

  class MetricStore {
    var table: Table

    constructor ()
      ensures table == map[]
    {
      table := map[];
    }

    // One write transaction: insert, collect the expired keys in key order, remove them.
    method PutMetric(m: NodeMetric)
      modifies this
      ensures table == Put(Key, old(table), m)
      ensures Key(m) in table && table[Key(m)] == m
      ensures forall k :: k in table && k != Key(m) <==>
                            k in old(table) && k != Key(m) && m.recordedAt - old(table)[k].recordedAt <= 259_200_000
    {
      table := table[Key(m) := m];
      ghost var written := table;
      var cutoff := Cutoff(m.recordedAt);
      var keys := InOrder(table.Keys);
      var expired: seq<string> := [];
      for i := 0 to |keys|
        invariant table == written && forall k :: k in keys <==> k in written
        invariant expired == Expired(written, keys, i, cutoff)
      {
        if table[keys[i]].recordedAt < cutoff {
          expired := expired + [keys[i]];
        }
      }
      WithoutExpired(written, keys, cutoff);
      forall k | k in written ensures written[k].recordedAt >= cutoff <==> Outlives(written[k].recordedAt, m.recordedAt) {
        CutoffIsThreeDays(written[k].recordedAt, m.recordedAt);
      }
      for j := 0 to |expired|
        invariant table == Without(written, expired, j)
      {
        table := table - {expired[j]};
      }
    }

    // The keys that start with the node's text, in key order.
    method MetricsForNode(nodeId: Uuid) returns (metrics: seq<NodeMetric>)
      requires Keyed(Key, table)
      ensures IsQuery(Key, table, nodeId, metrics)
    {
      var prefix := UuidText(nodeId) + ":";
      var keys := InOrder(table.Keys);
      metrics := [];
      for i := 0 to |keys|
        invariant Under(table, Matching(keys, i, prefix), metrics)
      {
        if prefix <= keys[i] {
          metrics := metrics + [table[keys[i]]];
        }
      }
      KeySelects(nodeId);
      QueryAre(Key, table, keys, nodeId, prefix, metrics);
    }
  }

  // ---- Retention over any history ----

  ghost function After(key: Keying, ms: seq<NodeMetric>): Table {
    if ms == [] then map[] else Put(key, After(key, ms[..|ms| - 1]), ms[|ms| - 1])
  }

  // The i-th put was the last one under its key.
  ghost predicate LastUnder(key: Keying, ms: seq<NodeMetric>, k: string, i: int) {
    0 <= i < |ms| && key(ms[i]) == k && forall j {:trigger ms[j]} | i < j < |ms| :: key(ms[j]) != k
  }

  ghost predicate Survives(ms: seq<NodeMetric>, i: nat)
    requires i < |ms|
  {
    forall j {:trigger ms[j]} | i < j < |ms| :: Outlives(ms[i].recordedAt, ms[j].recordedAt)
  }

  lemma LastUnderUnique(key: Keying, ms: seq<NodeMetric>, k: string, i: int, j: int)
    requires LastUnder(key, ms, k, i) && LastUnder(key, ms, k, j)
    ensures i == j
  {
  }

  lemma {:induction false} AfterKeyed(key: Keying, ms: seq<NodeMetric>)
    ensures Keyed(key, After(key, ms))
    decreases |ms|
  {
    if ms != [] { AfterKeyed(key, ms[..|ms| - 1]); }
  }

  ghost predicate Holds(key: Keying, ms: seq<NodeMetric>, k: string, i: int) {
    LastUnder(key, ms, k, i) && Survives(ms, i)
  }

  // One more put: its own key now holds it, every other key keeps its last put if that survives this one.
  lemma HoldsStep(key: Keying, ms: seq<NodeMetric>, m: NodeMetric, k: string, i: int)
    ensures Holds(key, ms + [m], k, i) <==>
              if k == key(m) then i == |ms| else Holds(key, ms, k, i) && Outlives(ms[i].recordedAt, m.recordedAt)
  {
    var all := ms + [m];
    assert all[|ms|] == m && all[..|ms|] == ms;
    if Holds(key, all, k, i) && i < |ms| {
      assert all[i] == ms[i] && all[|ms|].recordedAt == m.recordedAt;
      assert forall j {:trigger ms[j]} | 0 <= j < |ms| :: all[j] == ms[j];
    }
    if k != key(m) && Holds(key, ms, k, i) && Outlives(ms[i].recordedAt, m.recordedAt) {
      assert all[i] == ms[i];
      forall j | i < j < |all| ensures Outlives(all[i].recordedAt, all[j].recordedAt) {
        assert j < |ms| ==> all[j] == ms[j];
      }
    }
  }

  lemma {:induction false} AfterAt(key: Keying, ms: seq<NodeMetric>, k: string)
    ensures k in After(key, ms) ==> exists i :: Holds(key, ms, k, i) && After(key, ms)[k] == ms[i]
    ensures forall i :: Holds(key, ms, k, i) ==> k in After(key, ms)
    decreases |ms|
  {
    if ms != [] {
      var past, m := ms[..|ms| - 1], ms[|ms| - 1];
      assert ms == past + [m];
      AfterAt(key, past, k);
      if k in After(key, ms) {
        if k == key(m) {
          HoldsStep(key, past, m, k, |past|);
        } else {
          var i :| Holds(key, past, k, i) && After(key, past)[k] == past[i];
          HoldsStep(key, past, m, k, i);
          assert ms[i] == past[i];
        }
      }
      forall i | Holds(key, ms, k, i) ensures k in After(key, ms) {
        HoldsStep(key, past, m, k, i);
        if k != key(m) {
          var j :| Holds(key, past, k, j) && After(key, past)[k] == past[j];
          LastUnderUnique(key, past, k, i, j);
        }
      }
    }
  }

  // Retention in closed form, for puts at any times in any order: the table holds, under each key, the
  // last metric put there, unless some later put has a time more than three days above its own.
  lemma RetentionClosedForm(key: Keying, ms: seq<NodeMetric>, k: string, m: NodeMetric)
    ensures k in After(key, ms) && After(key, ms)[k] == m <==>
              exists i :: LastUnder(key, ms, k, i) && ms[i] == m
                          && forall j {:trigger ms[j]} | i < j < |ms| :: ms[j].recordedAt - m.recordedAt <= 259_200_000
  {
    AfterAt(key, ms, k);
    if i: int :| LastUnder(key, ms, k, i) && ms[i] == m
                 && forall j {:trigger ms[j]} | i < j < |ms| :: ms[j].recordedAt - m.recordedAt <= 259_200_000 {
      assert Holds(key, ms, k, i);
      var j :| Holds(key, ms, k, j) && After(key, ms)[k] == ms[j];
      LastUnderUnique(key, ms, k, i, j);
    }
  }

  // With a clock that never goes back, the table is the last three days, of every node alike.
  lemma MonotoneRetention(key: Keying, ms: seq<NodeMetric>, m: NodeMetric)
    requires ms != [] && forall i, j | 0 <= i < j < |ms| :: ms[i].recordedAt <= ms[j].recordedAt
    ensures key(m) in After(key, ms) && After(key, ms)[key(m)] == m <==>
              exists i :: LastUnder(key, ms, key(m), i) && ms[i] == m && m.recordedAt >= ms[|ms| - 1].recordedAt - 259_200_000
  {
    var k, last := key(m), ms[|ms| - 1];
    RetentionClosedForm(key, ms, k, m);
    forall i: int | LastUnder(key, ms, k, i) && ms[i] == m
      ensures (forall j {:trigger ms[j]} | i < j < |ms| :: ms[j].recordedAt - m.recordedAt <= 259_200_000)
              <==> m.recordedAt >= last.recordedAt - 259_200_000
    {
      assert forall j {:trigger ms[j]} | i < j < |ms| :: ms[j].recordedAt <= last.recordedAt;
      assert i < |ms| - 1 ==> ms[|ms| - 1].recordedAt == last.recordedAt;
    }
  }

  // ---- The order of a query ----

  ghost predicate OneNode(metrics: seq<NodeMetric>) {
    && (forall i, j | 0 <= i < j < |metrics| :: metrics[i].nodeId == metrics[j].nodeId)
    && (forall i, j | 0 <= i < j < |metrics| :: Less(Key(metrics[i]), Key(metrics[j])))
  }

  // A query's result is ascending in (time, sequence) if and only if no two of its metrics have
  // different times that are both negative.
  lemma QueryNumericIff(metrics: seq<NodeMetric>)
    requires OneNode(metrics)
    ensures (forall i, j | 0 <= i < j < |metrics| :: Before(metrics[i], metrics[j]))
            <==> forall i, j | 0 <= i < j < |metrics| ::
                   !(metrics[i].recordedAt < 0 && metrics[j].recordedAt < 0 && metrics[i].recordedAt != metrics[j].recordedAt)
  {
    forall i, j | 0 <= i < j < |metrics|
      ensures Before(metrics[i], metrics[j]) <==>
                !(metrics[i].recordedAt < 0 && metrics[j].recordedAt < 0 && metrics[i].recordedAt != metrics[j].recordedAt)
    {
      LessIrreflexive(Key(metrics[i]));
      KeyOrderIsNumericIff(metrics[i], metrics[j]);
    }
  }
}
