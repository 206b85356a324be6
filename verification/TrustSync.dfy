/** Refreshing part of the trust table is as good as refreshing all of it. */
module TrustSync {
  import opened Wrappers
  import opened Tables
  import opened Executions
  import opened TrustScore

  function Lookup(rows: seq<TrustRow>, key: TrustKey): Option<TrustValue> {
    if rows == [] then None else if rows[0].key == key then Some(rows[0].value) else Lookup(rows[1..], key)
  }

  /** The table shows the target's value under its key. */
  ghost predicate Holds(rows: seq<TrustRow>, target: TrustRow) {
    Lookup(rows, target.key) == Some(target.value)
  }

  ghost predicate DistinctTargets(targets: seq<TrustRow>) {
    forall i, j | 0 <= i < j < |targets| :: targets[i].key != targets[j].key
  }

  lemma {:induction false} LookupUpsert(rows: seq<TrustRow>, row: TrustRow, key: TrustKey)
    ensures Lookup(Upsert(rows, row), key) == if key == row.key then Some(row.value) else Lookup(rows, key)
  {
    if rows != [] && rows[0].key != row.key {
      LookupUpsert(rows[1..], row, key);
    }
  }

  lemma {:induction false} UpsertNothing(rows: seq<TrustRow>, row: TrustRow)
    requires Holds(rows, row)
    ensures Upsert(rows, row) == rows
  {
    if rows[0].key != row.key {
      UpsertNothing(rows[1..], row);
    }
  }

  lemma {:induction false} UpsertAllNothing(rows: seq<TrustRow>, targets: seq<TrustRow>)
    requires forall t | t in targets :: Holds(rows, t)
    ensures UpsertAll(rows, targets) == rows
  {
    if targets != [] {
      assert targets[0] in targets;
      UpsertNothing(rows, targets[0]);
      UpsertAllNothing(rows, targets[1..]);
    }
  }

  lemma {:induction false} LookupUpsertAll(rows: seq<TrustRow>, targets: seq<TrustRow>, key: TrustKey)
    requires forall t | t in targets :: t.key != key
    ensures Lookup(UpsertAll(rows, targets), key) == Lookup(rows, key)
    decreases targets
  {
    if targets != [] {
      assert targets[0] in targets;
      LookupUpsert(rows, targets[0], key);
      LookupUpsertAll(Upsert(rows, targets[0]), targets[1..], key);
    }
  }

  lemma {:induction false} UpsertAllHolds(rows: seq<TrustRow>, targets: seq<TrustRow>, i: nat)
    requires DistinctTargets(targets) && i < |targets|
    ensures Holds(UpsertAll(rows, targets), targets[i])
    decreases targets
  {
    var next := Upsert(rows, targets[0]);
    if i == 0 {
      LookupUpsert(rows, targets[0], targets[0].key);
      assert forall t | t in targets[1..] :: t.key != targets[0].key;
      LookupUpsertAll(next, targets[1..], targets[0].key);
    } else {
      UpsertAllHolds(next, targets[1..], i - 1);
    }
  }

  // ----- the targets of a full refresh -----

  lemma {:induction false} TypeTargetsAre(d: Data, types: seq<string>)
    ensures |TypeTargets(d, types)| == |types|
    ensures forall i | 0 <= i < |types| :: TypeTargets(d, types)[i] == TypeTarget(d, types[i])
  {
    if types != [] {
      TypeTargetsAre(d, types[1..]);
    }
  }

  lemma {:induction false} DomainTargetsAre(d: Data, domains: seq<string>)
    ensures |DomainTargets(d, domains)| == |domains|
    ensures forall i | 0 <= i < |domains| :: DomainTargets(d, domains)[i] == DomainTarget(d, domains[i])
  {
    if domains != [] {
      DomainTargetsAre(d, domains[1..]);
    }
  }

  lemma {:induction false} DomainsDistinct(recs: seq<Recommendation>)
    ensures forall i, j | 0 <= i < j < |Domains(recs)| :: Domains(recs)[i] != Domains(recs)[j]
  {
    if recs != [] {
      DomainsDistinct(recs[..|recs| - 1]);
    }
  }

  lemma TypesDistinct()
    ensures forall i, j | 0 <= i < j < |DECISION_TYPES| :: DECISION_TYPES[i] != DECISION_TYPES[j]
  {
    assert "TC"[0] != "AP"[0] && "TC"[0] != "IA"[0] && "TC"[0] == "TS"[0] && "TC"[1] != "TS"[1];
    assert "PC"[0] != "TC"[0] && "BB"[0] != "TC"[0] && "AP"[0] != "IA"[0] && "AP"[0] != "TS"[0];
    assert "AP"[0] != "PC"[0] && "AP"[0] != "BB"[0] && "IA"[0] != "TS"[0] && "IA"[0] != "PC"[0];
    assert "IA"[0] != "BB"[0] && "TS"[0] != "PC"[0] && "TS"[0] != "BB"[0] && "PC"[0] != "BB"[0];
  }

  ghost predicate OfLevel(targets: seq<TrustRow>, level: string) {
    forall i | 0 <= i < |targets| :: targets[i].key.level == level
  }

  lemma TypeTargetsDistinct(d: Data)
    ensures DistinctTargets(TypeTargets(d, DECISION_TYPES)) && OfLevel(TypeTargets(d, DECISION_TYPES), "DECISION_TYPE")
  {
    TypeTargetsAre(d, DECISION_TYPES);
    TypesDistinct();
  }

  lemma DomainTargetsDistinct(d: Data)
    ensures DistinctTargets(DomainTargets(d, Domains(d.recs))) && OfLevel(DomainTargets(d, Domains(d.recs)), "DOMAIN")
  {
    DomainTargetsAre(d, Domains(d.recs));
    DomainsDistinct(d.recs);
  }

  lemma LevelsDistinct(a: seq<TrustRow>, b: seq<TrustRow>, c: seq<TrustRow>, x: string, y: string, z: string)
    requires x != y && x != z && y != z && OfLevel(a, x) && OfLevel(b, y) && OfLevel(c, z)
    requires DistinctTargets(a) && DistinctTargets(b) && DistinctTargets(c)
    ensures DistinctTargets(a + b + c)
  {
  }

  /** The three levels have different keys, and no level repeats one. */
  lemma TargetsDistinct(d: Data)
    ensures DistinctTargets(Targets(d))
  {
    TypeTargetsDistinct(d);
    DomainTargetsDistinct(d);
    LevelsDiffer();
    LevelsDistinct([GlobalTarget(d)], TypeTargets(d, DECISION_TYPES), DomainTargets(d, Domains(d.recs)),
                   "GLOBAL", "DECISION_TYPE", "DOMAIN");
  }

  lemma LevelsDiffer()
    ensures "GLOBAL" != "DECISION_TYPE" && "GLOBAL" != "DOMAIN" && "DECISION_TYPE" != "DOMAIN"
  {
    assert "GLOBAL"[0] != "DECISION_TYPE"[0] && "GLOBAL"[0] != "DOMAIN"[0] && "DECISION_TYPE"[1] != "DOMAIN"[1];
  }

  /** The table is what a full refresh would leave. */
  ghost predicate InSync(rows: seq<TrustRow>, d: Data) {
    Refreshed(rows, d) == rows
  }

  lemma InSyncIff(rows: seq<TrustRow>, d: Data)
    ensures InSync(rows, d) <==> forall t | t in Targets(d) :: Holds(rows, t)
  {
    if InSync(rows, d) {
      TargetsDistinct(d);
      forall t | t in Targets(d)
        ensures Holds(rows, t)
      {
        var i :| 0 <= i < |Targets(d)| && Targets(d)[i] == t;
        UpsertAllHolds(rows, Targets(d), i);
      }
    } else if forall t | t in Targets(d) :: Holds(rows, t) {
      UpsertAllNothing(rows, Targets(d));
    }
  }

  /** One full refresh synchronises any table; a second changes nothing. */
  lemma RefreshSynchronises(rows: seq<TrustRow>, d: Data)
    ensures InSync(Refreshed(rows, d), d)
  {
    var after := Refreshed(rows, d);
    TargetsDistinct(d);
    forall t | t in Targets(d)
      ensures Holds(after, t)
    {
      var i :| 0 <= i < |Targets(d)| && Targets(d)[i] == t;
      UpsertAllHolds(rows, Targets(d), i);
    }
    UpsertAllNothing(after, Targets(d));
  }

  // ----- at most one row per key -----

  ghost predicate UniqueRows(rows: seq<TrustRow>) {
    DistinctTargets(rows)
  }

  lemma {:induction false} UpsertKeys(rows: seq<TrustRow>, row: TrustRow, r: TrustRow)
    requires r in Upsert(rows, row)
    ensures r == row || r in rows
  {
    if rows != [] {
      if rows[0].key == row.key {
        assert r in [row] + rows[1..];
      } else if r != rows[0] {
        UpsertKeys(rows[1..], row, r);
      }
    }
  }

  lemma {:induction false} UpsertUnique(rows: seq<TrustRow>, row: TrustRow)
    requires UniqueRows(rows)
    ensures UniqueRows(Upsert(rows, row))
  {
    if rows != [] && rows[0].key != row.key {
      UpsertUnique(rows[1..], row);
      var rest := Upsert(rows[1..], row);
      forall j | 0 <= j < |rest|
        ensures rest[j].key != rows[0].key
      {
        UpsertKeys(rows[1..], row, rest[j]);
      }
    }
  }

  /** Every refresh keeps at most one row per (level, domain, decisionType). */
  lemma {:induction false} UpsertAllUnique(rows: seq<TrustRow>, targets: seq<TrustRow>)
    requires UniqueRows(rows)
    ensures UniqueRows(UpsertAll(rows, targets))
    decreases targets
  {
    if targets != [] {
      UpsertUnique(rows, targets[0]);
      UpsertAllUnique(Upsert(rows, targets[0]), targets[1..]);
    }
  }

  lemma RecordedUnique(rows: seq<TrustRow>, d: Data, route: string, finalOutcome: string, retryCount: nat)
    requires UniqueRows(rows)
    ensures UniqueRows(Recorded(rows, d, route, finalOutcome, retryCount))
  {
    UpsertUnique(rows, GlobalTarget(d));
    UpsertUnique(Upsert(rows, GlobalTarget(d)), TypeTarget(d, route));
  }

  // ----- incremental equals full -----

  /** When all targets but one hold, refreshing all amounts to refreshing that one. */
  lemma {:induction false} OnlyOneMissing(rows: seq<TrustRow>, targets: seq<TrustRow>, i: nat)
    requires DistinctTargets(targets) && i < |targets|
    requires forall j | 0 <= j < |targets| && j != i :: Holds(rows, targets[j])
    ensures UpsertAll(rows, targets) == Upsert(rows, targets[i])
    decreases targets
  {
    if i == 0 {
      var next := Upsert(rows, targets[0]);
      forall t | t in targets[1..]
        ensures Holds(next, t)
      {
        LookupUpsert(rows, targets[0], t.key);
      }
      UpsertAllNothing(next, targets[1..]);
    } else {
      UpsertNothing(rows, targets[0]);
      OnlyOneMissing(rows, targets[1..], i - 1);
    }
  }

  /** The two data sets agree on everything but the executions of one route. */
  ghost predicate DifferOnRoute(before: Data, after: Data, route: string) {
    && before.recs == after.recs
    && forall dt | dt != route :: ExecutionOutcomes(before.executions, Some(dt)) == ExecutionOutcomes(after.executions, Some(dt))
  }

  lemma OtherTargetsHold(rows: seq<TrustRow>, before: Data, after: Data, route: string, t: TrustRow)
    requires InSync(rows, before) && DifferOnRoute(before, after, route)
    requires t in TypeTargets(after, DECISION_TYPES) + DomainTargets(after, Domains(after.recs))
    ensures t.key != TrustKey("GLOBAL", None, None)
    ensures Holds(rows, t) || (route in DECISION_TYPES && t == TypeTarget(after, route))
  {
    if t in TypeTargets(after, DECISION_TYPES) {
      TypeTargetHolds(rows, before, after, route, t);
    } else {
      DomainTargetHolds(rows, before, after, t);
    }
  }

  lemma TypeTargetHolds(rows: seq<TrustRow>, before: Data, after: Data, route: string, t: TrustRow)
    requires InSync(rows, before) && DifferOnRoute(before, after, route) && t in TypeTargets(after, DECISION_TYPES)
    ensures t.key != TrustKey("GLOBAL", None, None)
    ensures Holds(rows, t) || (route in DECISION_TYPES && t == TypeTarget(after, route))
  {
    LevelsDiffer();
    TypeTargetsAre(after, DECISION_TYPES);
    TypeTargetsAre(before, DECISION_TYPES);
    var i :| 0 <= i < |DECISION_TYPES| && t == TypeTarget(after, DECISION_TYPES[i]);
    if DECISION_TYPES[i] != route {
      assert t == TypeTargets(before, DECISION_TYPES)[i];
      TargetHolds(rows, before, t);
    }
  }

  lemma DomainTargetHolds(rows: seq<TrustRow>, before: Data, after: Data, t: TrustRow)
    requires InSync(rows, before) && before.recs == after.recs && t in DomainTargets(after, Domains(after.recs))
    ensures t.key != TrustKey("GLOBAL", None, None) && Holds(rows, t)
  {
    LevelsDiffer();
    DomainTargetsAre(after, Domains(after.recs));
    DomainTargetsAre(before, Domains(before.recs));
    var i :| 0 <= i < |Domains(after.recs)| && t == DomainTarget(after, Domains(after.recs)[i]);
    assert t == DomainTargets(before, Domains(before.recs))[i];
    TargetHolds(rows, before, t);
  }

  lemma TargetHolds(rows: seq<TrustRow>, d: Data, t: TrustRow)
    requires InSync(rows, d) && (t in TypeTargets(d, DECISION_TYPES) || t in DomainTargets(d, Domains(d.recs)))
    ensures Holds(rows, t)
  {
    InSyncIff(rows, d);
    assert t in Targets(d);
  }

  /** After data changed on one route, refreshing the global row and the route's row equals refreshing everything. */
  lemma PartialIsFull(rows: seq<TrustRow>, before: Data, after: Data, route: string, finalOutcome: string, retryCount: nat)
    requires InSync(rows, before) && DifferOnRoute(before, after, route)
    requires MapOutcome(finalOutcome, retryCount).Some?
    ensures Recorded(rows, after, route, finalOutcome, retryCount) == Refreshed(rows, after)
  {
    var rest := TypeTargets(after, DECISION_TYPES) + DomainTargets(after, Domains(after.recs));
    var next := Upsert(rows, GlobalTarget(after));
    GlobalFirst(rows, after);
    forall t | t in rest
      ensures Holds(next, t) || (route in DECISION_TYPES && t == TypeTarget(after, route))
    {
      OtherTargetsHold(rows, before, after, route, t);
      LookupUpsert(rows, GlobalTarget(after), t.key);
    }
    if route in DECISION_TYPES {
      var k := RouteIndex(after, route);
      RefreshOnly(next, rest, k);
    } else {
      UpsertAllNothing(next, rest);
    }
  }

  lemma RefreshOnly(rows: seq<TrustRow>, targets: seq<TrustRow>, k: nat)
    requires DistinctTargets(targets) && k < |targets|
    requires forall t | t in targets :: Holds(rows, t) || t == targets[k]
    ensures UpsertAll(rows, targets) == Upsert(rows, targets[k])
  {
    forall j | 0 <= j < |targets| && j != k
      ensures Holds(rows, targets[j])
    {
      assert targets[j] in targets && targets[j].key != targets[k].key;
    }
    OnlyOneMissing(rows, targets, k);
  }

  /** A full refresh writes the global row, then the distinct others. */
  lemma GlobalFirst(rows: seq<TrustRow>, d: Data)
    ensures var rest := TypeTargets(d, DECISION_TYPES) + DomainTargets(d, Domains(d.recs));
            Refreshed(rows, d) == UpsertAll(Upsert(rows, GlobalTarget(d)), rest) && DistinctTargets(rest)
  {
    var rest := TypeTargets(d, DECISION_TYPES) + DomainTargets(d, Domains(d.recs));
    assert Targets(d) == [GlobalTarget(d)] + rest;
    assert Targets(d)[1..] == rest;
    TargetsDistinct(d);
    assert forall i | 0 <= i < |rest| :: rest[i] == Targets(d)[i + 1];
  }

  lemma RouteIndex(d: Data, route: string) returns (k: nat)
    requires route in DECISION_TYPES
    ensures k < |TypeTargets(d, DECISION_TYPES)| && TypeTargets(d, DECISION_TYPES)[k] == TypeTarget(d, route)
  {
    TypeTargetsAre(d, DECISION_TYPES);
    k :| 0 <= k < |DECISION_TYPES| && DECISION_TYPES[k] == route;
  }

  lemma InsertedDiffers(d: Data, e: Execution)
    ensures DifferOnRoute(d, d.(executions := d.executions + [e]), e.routerRoute)
    ensures MapOutcome(e.finalOutcome, e.retryCount).None? ==>
      forall route :: ExecutionOutcomes(d.executions + [e], route) == ExecutionOutcomes(d.executions, route)
  {
    assert (d.executions + [e])[..|d.executions|] == d.executions;
  }

  lemma SameTargets(a: Data, b: Data)
    requires a.recs == b.recs && forall route :: ExecutionOutcomes(a.executions, route) == ExecutionOutcomes(b.executions, route)
    ensures Targets(a) == Targets(b)
  {
    TypeTargetsAre(a, DECISION_TYPES);
    TypeTargetsAre(b, DECISION_TYPES);
    DomainTargetsAre(a, Domains(a.recs));
    DomainTargetsAre(b, Domains(b.recs));
    assert TypeTargets(a, DECISION_TYPES) == TypeTargets(b, DECISION_TYPES);
    assert DomainTargets(a, Domains(a.recs)) == DomainTargets(b, Domains(b.recs));
  }

  /** Recording one inserted execution, whatever its outcome and route, leaves the table a full refresh would leave. */
  lemma InsertionKeepsSync(rows: seq<TrustRow>, d: Data, e: Execution)
    requires InSync(rows, d)
    ensures var after := d.(executions := d.executions + [e]);
            var recorded := Recorded(rows, after, e.routerRoute, e.finalOutcome, e.retryCount);
            recorded == Refreshed(rows, after) && InSync(recorded, after)
  {
    var after := d.(executions := d.executions + [e]);
    InsertedDiffers(d, e);
    RefreshSynchronises(rows, after);
    if MapOutcome(e.finalOutcome, e.retryCount).Some? {
      PartialIsFull(rows, d, after, e.routerRoute, e.finalOutcome, e.retryCount);
    } else {
      SameTargets(d, after);
    }
  }

  // ----- updating an execution -----

  lemma {:induction false} OutcomesConcat(a: seq<Execution>, b: seq<Execution>, route: Option<string>)
    ensures ExecutionOutcomes(a + b, route) == ExecutionOutcomes(a, route) + ExecutionOutcomes(b, route)
  {
    if b == [] {
      assert a + b == a;
    } else {
      OutcomesConcat(a, b[..|b| - 1], route);
      assert (a + b)[..|a + b| - 1] == a + b[..|b| - 1];
    }
  }

  lemma OutcomesAround(a: seq<Execution>, e: Execution, b: seq<Execution>, route: Option<string>)
    ensures ExecutionOutcomes(a + [e] + b, route)
         == ExecutionOutcomes(a, route)
            + (if Counts(e, route) then [MapOutcome(e.finalOutcome, e.retryCount).value] else [])
            + ExecutionOutcomes(b, route)
  {
    OutcomesConcat(a + [e], b, route);
    OutcomesConcat(a, [e], route);
    assert [e][..0] == [];
  }

  lemma SampleSizeShrinks(rows: seq<TrustRow>, before: Data, after: Data)
    requires InSync(rows, before) && before.recs == after.recs
    requires |ExecutionOutcomes(after.executions, None)| != |ExecutionOutcomes(before.executions, None)|
    ensures !InSync(rows, after)
  {
    InSyncIff(rows, before);
    InSyncIff(rows, after);
    assert GlobalTarget(before) in Targets(before) && GlobalTarget(after) in Targets(after);
  }

  /**
   * Recording an execution after its outcome was changed in place leaves the fully refreshed table exactly when
   * the new outcome is a recognised one or the old one was not.
   */
  lemma UpdateKeepsSyncIff(rows: seq<TrustRow>, recs: seq<Recommendation>, a: seq<Execution>, e: Execution,
                           f: Execution, b: seq<Execution>)
    requires InSync(rows, Data(recs, a + [e] + b)) && f.routerRoute == e.routerRoute
    ensures var after := Data(recs, a + [f] + b);
            (Recorded(rows, after, f.routerRoute, f.finalOutcome, f.retryCount) == Refreshed(rows, after)
             <==> MapOutcome(f.finalOutcome, f.retryCount).Some? || MapOutcome(e.finalOutcome, e.retryCount).None?)
  {
    var before, after := Data(recs, a + [e] + b), Data(recs, a + [f] + b);
    forall route
      ensures ExecutionOutcomes(before.executions, route) == ExecutionOutcomes(a, route)
                + (if Counts(e, route) then [MapOutcome(e.finalOutcome, e.retryCount).value] else [])
                + ExecutionOutcomes(b, route)
      ensures ExecutionOutcomes(after.executions, route) == ExecutionOutcomes(a, route)
                + (if Counts(f, route) then [MapOutcome(f.finalOutcome, f.retryCount).value] else [])
                + ExecutionOutcomes(b, route)
    {
      OutcomesAround(a, e, b, route);
      OutcomesAround(a, f, b, route);
    }
    if MapOutcome(f.finalOutcome, f.retryCount).Some? {
      PartialIsFull(rows, before, after, f.routerRoute, f.finalOutcome, f.retryCount);
    } else if MapOutcome(e.finalOutcome, e.retryCount).None? {
      SameTargets(before, after);
    } else {
      SampleSizeShrinks(rows, before, after);
    }
  }

  // ----- the domain rows account for every assessed recommendation -----

  function SamplesOf(recs: seq<Recommendation>, domains: seq<string>): nat {
    if domains == [] then 0
    else SamplesOf(recs, domains[..|domains| - 1]) + |AssessedOutcomes(recs, None, Some(domains[|domains| - 1]))|
  }

  predicate IsAssessed(rec: Recommendation) {
    rec.status == ASSESSED && rec.finalOutcome.Some?
  }

  lemma {:induction false} OneMoreSample(recs: seq<Recommendation>, rec: Recommendation, domains: seq<string>)
    requires forall i, j | 0 <= i < j < |domains| :: domains[i] != domains[j]
    ensures SamplesOf(recs + [rec], domains)
         == SamplesOf(recs, domains) + if IsAssessed(rec) && rec.domain in domains then 1 else 0
  {
    if domains != [] {
      var rest, last := domains[..|domains| - 1], domains[|domains| - 1];
      OneMoreSample(recs, rec, rest);
      assert (recs + [rec])[..|recs|] == recs;
      assert rec.domain in domains <==> rec.domain in rest || rec.domain == last;
    }
  }

  lemma {:induction false} NoSampleElsewhere(recs: seq<Recommendation>, domain: string)
    requires domain !in Domains(recs)
    ensures AssessedOutcomes(recs, None, Some(domain)) == []
  {
    if recs != [] {
      NoSampleElsewhere(recs[..|recs| - 1], domain);
    }
  }

  /** The sample sizes of the domain rows add up to the number of assessed recommendations in the global row. */
  lemma {:induction false} DomainsPartition(recs: seq<Recommendation>)
    ensures SamplesOf(recs, Domains(recs)) == |AssessedOutcomes(recs, None, None)|
  {
    if recs != [] {
      var before, rec := recs[..|recs| - 1], recs[|recs| - 1];
      var domains := Domains(before);
      assert recs == before + [rec];
      DomainsPartition(before);
      DomainsDistinct(before);
      DomainsDistinct(recs);
      OneMoreSample(before, rec, Domains(recs));
      if rec.domain !in domains {
        NoSampleElsewhere(before, rec.domain);
        assert (domains + [rec.domain])[..|domains|] == domains;
      }
    }
  }
}
