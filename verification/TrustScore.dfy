/** Bayesian trust scores: the arithmetic and the materialised rows. */
module TrustScore {
  import opened Wrappers
  import opened Tables
  import opened Executions

  datatype Prior = Prior(alpha: nat, beta: nat, priorTrust: real)

  const DECISION_TYPES := ["TC", "AP", "IA", "TS", "PC", "BB"]

  const GLOBAL_PRIOR := Prior(6, 4, 0.6)

  /** PRIOR_CONFIGS[dt] ?? PRIOR_CONFIGS['GLOBAL'] */
  function PriorOf(dt: string): Prior {
    if dt == "TC" || dt == "TS" then Prior(8, 2, 0.8)
    else if dt == "IA" then Prior(7, 3, 0.7)
    else if dt == "BB" then Prior(6, 4, 0.6)
    else if dt == "PC" || dt == "AP" then Prior(5, 5, 0.5)
    else GLOBAL_PRIOR
  }

  // ----- computeScore -----

  function Weight(o: FinalOutcome): real {
    match o
    case SUCCESS => 1.0
    case MIXED => 0.5
    case _ => 0.0
  }

  function WeightedSuccesses(outcomes: seq<FinalOutcome>): real {
    if outcomes == [] then 0.0
    else WeightedSuccesses(outcomes[..|outcomes| - 1]) + Weight(outcomes[|outcomes| - 1])
  }

  /** Math.round: half up. */
  function Round(x: real): int {
    (x + 0.5).Floor
  }

  function Score(outcomes: seq<FinalOutcome>, prior: Prior): real {
    if outcomes == [] then prior.priorTrust * 100.0
    else
      var total := (|outcomes| + prior.alpha + prior.beta) as real;
      Round((WeightedSuccesses(outcomes) + prior.alpha as real) / total * 100.0) as real
  }

  method ComputeScore(assessed: seq<FinalOutcome>, prior: Prior) returns (score: real)
    ensures score == Score(assessed, prior)
  {
    if |assessed| == 0 {
      return prior.priorTrust * 100.0;
    }
    var weightedSuccesses := 0.0;
    for n := 0 to |assessed|
      invariant weightedSuccesses == WeightedSuccesses(assessed[..n])
    {
      assert assessed[..n + 1][..n] == assessed[..n];
      if assessed[n] == SUCCESS {
        weightedSuccesses := weightedSuccesses + 1.0;
      } else if assessed[n] == MIXED {
        weightedSuccesses := weightedSuccesses + 0.5;
      }
    }
    assert assessed[..|assessed|] == assessed;
    var total := (|assessed| + prior.alpha + prior.beta) as real;
    score := Round((weightedSuccesses + prior.alpha as real) / total * 100.0) as real;
  }

  // ----- what is scored -----

  function MapOutcome(finalOutcome: string, retryCount: nat): Option<FinalOutcome> {
    if finalOutcome == "COMMITTED" then Some(if retryCount == 0 then SUCCESS else MIXED)
    else if finalOutcome == "FAILED" || finalOutcome == "BLOCKED" then Some(FAILURE)
    else if finalOutcome == "ABANDONED" then Some(ABANDONED)
    else None
  }

  datatype Data = Data(recs: seq<Recommendation>, executions: seq<Execution>)

  predicate Counts(e: Execution, route: Option<string>) {
    MapOutcome(e.finalOutcome, e.retryCount).Some? && (route.Some? ==> e.routerRoute == route.value)
  }

  /** loadExecutionOutcomes, optionally for one route. */
  function ExecutionOutcomes(executions: seq<Execution>, route: Option<string>): seq<FinalOutcome> {
    if executions == [] then []
    else
      var e := executions[|executions| - 1];
      ExecutionOutcomes(executions[..|executions| - 1], route)
      + if Counts(e, route) then [MapOutcome(e.finalOutcome, e.retryCount).value] else []
  }

  /** Assessed recommendations with an outcome, for one decision type or domain if given. */
  function AssessedOutcomes(recs: seq<Recommendation>, decisionType: Option<string>, domain: Option<string>): seq<FinalOutcome> {
    if recs == [] then []
    else
      var rec := recs[|recs| - 1];
      AssessedOutcomes(recs[..|recs| - 1], decisionType, domain)
      + if rec.status == ASSESSED && rec.finalOutcome.Some? && (decisionType.Some? ==> rec.decisionType == decisionType.value)
           && (domain.Some? ==> rec.domain == domain.value)
        then [rec.finalOutcome.value] else []
  }

  /** The domains of assessed recommendations, in order of first appearance. */
  function Domains(recs: seq<Recommendation>): seq<string> {
    if recs == [] then []
    else
      var rec, before := recs[|recs| - 1], Domains(recs[..|recs| - 1]);
      if rec.status == ASSESSED && rec.finalOutcome.Some? && rec.domain !in before then before + [rec.domain] else before
  }

  // ----- the materialised table -----

  datatype TrustKey = TrustKey(level: string, domain: Option<string>, decisionType: Option<string>)
  datatype TrustValue = TrustValue(score: real, sampleSize: nat, priorAlpha: nat, priorBeta: nat)
  datatype TrustRow = TrustRow(key: TrustKey, value: TrustValue)

  function ValueOf(outcomes: seq<FinalOutcome>, prior: Prior): TrustValue {
    TrustValue(Score(outcomes, prior), |outcomes|, prior.alpha, prior.beta)
  }

  function GlobalTarget(d: Data): TrustRow {
    TrustRow(TrustKey("GLOBAL", None, None),
             ValueOf(AssessedOutcomes(d.recs, None, None) + ExecutionOutcomes(d.executions, None), GLOBAL_PRIOR))
  }

  function TypeTarget(d: Data, dt: string): TrustRow {
    TrustRow(TrustKey("DECISION_TYPE", None, Some(dt)),
             ValueOf(AssessedOutcomes(d.recs, Some(dt), None) + ExecutionOutcomes(d.executions, Some(dt)), PriorOf(dt)))
  }

  function DomainTarget(d: Data, domain: string): TrustRow {
    TrustRow(TrustKey("DOMAIN", Some(domain), None), ValueOf(AssessedOutcomes(d.recs, None, Some(domain)), GLOBAL_PRIOR))
  }

  function TypeTargets(d: Data, types: seq<string>): seq<TrustRow> {
    if types == [] then [] else [TypeTarget(d, types[0])] + TypeTargets(d, types[1..])
  }

  function DomainTargets(d: Data, domains: seq<string>): seq<TrustRow> {
    if domains == [] then [] else [DomainTarget(d, domains[0])] + DomainTargets(d, domains[1..])
  }

  /** upsertTrustScore: overwrite the first row with the key, or append one. */
  function Upsert(rows: seq<TrustRow>, row: TrustRow): seq<TrustRow> {
    if rows == [] then [row]
    else if rows[0].key == row.key then [row] + rows[1..]
    else [rows[0]] + Upsert(rows[1..], row)
  }

  function UpsertAll(rows: seq<TrustRow>, targets: seq<TrustRow>): seq<TrustRow>
    decreases targets
  {
    if targets == [] then rows else UpsertAll(Upsert(rows, targets[0]), targets[1..])
  }

  function Targets(d: Data): seq<TrustRow> {
    [GlobalTarget(d)] + TypeTargets(d, DECISION_TYPES) + DomainTargets(d, Domains(d.recs))
  }

  /** recalculateAll as a function of the table and the data. */
  function Refreshed(rows: seq<TrustRow>, d: Data): seq<TrustRow> {
    UpsertAll(rows, Targets(d))
  }

  /** recordExecutionOutcome: the global row, and the row of the route when that is a decision type. */
  function Recorded(rows: seq<TrustRow>, d: Data, route: string, finalOutcome: string, retryCount: nat): seq<TrustRow> {
    if MapOutcome(finalOutcome, retryCount).None? then rows
    else
      var global := Upsert(rows, GlobalTarget(d));
      if route in DECISION_TYPES then Upsert(global, TypeTarget(d, route)) else global
  }

  lemma {:induction false} UpsertAllConcat(rows: seq<TrustRow>, a: seq<TrustRow>, b: seq<TrustRow>)
    ensures UpsertAll(rows, a + b) == UpsertAll(UpsertAll(rows, a), b)
    decreases a
  {
    if a == [] {
      assert a + b == b;
    } else {
      UpsertAllConcat(Upsert(rows, a[0]), a[1..], b);
      assert (a + b)[1..] == a[1..] + b;
    }
  }

  lemma {:induction false} UpsertAt(rows: seq<TrustRow>, row: TrustRow, i: nat)
    requires i <= |rows| && (forall j | 0 <= j < i :: rows[j].key != row.key) && (i < |rows| ==> rows[i].key == row.key)
    ensures Upsert(rows, row) == if i < |rows| then rows[i := row] else rows + [row]
  {
    if i > 0 {
      UpsertAt(rows[1..], row, i - 1);
    }
  }

  class TrustScoreService {
    var rows: seq<TrustRow>

    constructor ()
      ensures rows == []
    {
      rows := [];
    }

    /** findFirst, then update or create, in one transaction. */
    method UpsertTrustScore(row: TrustRow)
      modifies this
      ensures rows == Upsert(old(rows), row)
    {
      var i := 0;
      while i < |rows| && rows[i].key != row.key
        invariant 0 <= i <= |rows| && rows == old(rows)
        invariant forall j | 0 <= j < i :: rows[j].key != row.key
      {
        i := i + 1;
      }
      UpsertAt(rows, row, i);
      if i < |rows| {
        rows := rows[i := row];
      } else {
        rows := rows + [row];
      }
    }

    method RecalculateGlobal(d: Data)
      modifies this
      ensures rows == Upsert(old(rows), GlobalTarget(d))
    {
      var all := AssessedOutcomes(d.recs, None, None) + ExecutionOutcomes(d.executions, None);
      var score := ComputeScore(all, GLOBAL_PRIOR);
      UpsertTrustScore(TrustRow(TrustKey("GLOBAL", None, None), TrustValue(score, |all|, GLOBAL_PRIOR.alpha, GLOBAL_PRIOR.beta)));
    }

    method RecalculateSingleDecisionType(d: Data, dt: string)
      modifies this
      ensures rows == Upsert(old(rows), TypeTarget(d, dt))
    {
      var all := AssessedOutcomes(d.recs, Some(dt), None) + ExecutionOutcomes(d.executions, Some(dt));
      var prior := PriorOf(dt);
      var score := ComputeScore(all, prior);
      UpsertTrustScore(TrustRow(TrustKey("DECISION_TYPE", None, Some(dt)), TrustValue(score, |all|, prior.alpha, prior.beta)));
    }

    method RecalculateByDecisionType(d: Data)
      modifies this
      ensures rows == UpsertAll(old(rows), TypeTargets(d, DECISION_TYPES))
    {
      ghost var before := rows;
      for n := 0 to |DECISION_TYPES|
        invariant UpsertAll(rows, TypeTargets(d, DECISION_TYPES[n..])) == UpsertAll(before, TypeTargets(d, DECISION_TYPES))
      {
        assert DECISION_TYPES[n..][1..] == DECISION_TYPES[n + 1..];
        assert TypeTargets(d, DECISION_TYPES[n..])[1..] == TypeTargets(d, DECISION_TYPES[n + 1..]);
        RecalculateSingleDecisionType(d, DECISION_TYPES[n]);
      }
    }

    method RecalculateByDomain(d: Data)
      modifies this
      ensures rows == UpsertAll(old(rows), DomainTargets(d, Domains(d.recs)))
    {
      ghost var before := rows;
      var domains := Domains(d.recs);
      for n := 0 to |domains|
        invariant UpsertAll(rows, DomainTargets(d, domains[n..])) == UpsertAll(before, DomainTargets(d, domains))
      {
        var assessed := AssessedOutcomes(d.recs, None, Some(domains[n]));
        var score := ComputeScore(assessed, GLOBAL_PRIOR);
        assert domains[n..][1..] == domains[n + 1..];
        assert DomainTargets(d, domains[n..])[1..] == DomainTargets(d, domains[n + 1..]);
        UpsertTrustScore(TrustRow(TrustKey("DOMAIN", Some(domains[n]), None),
                                  TrustValue(score, |assessed|, GLOBAL_PRIOR.alpha, GLOBAL_PRIOR.beta)));
      }
    }

    method RecalculateAll(d: Data)
      modifies this
      ensures rows == Refreshed(old(rows), d)
    {
      ghost var before := rows;
      RecalculateGlobal(d);
      RecalculateByDecisionType(d);
      RecalculateByDomain(d);
      UpsertAllConcat(before, [GlobalTarget(d)], TypeTargets(d, DECISION_TYPES));
      UpsertAllConcat(before, [GlobalTarget(d)] + TypeTargets(d, DECISION_TYPES), DomainTargets(d, Domains(d.recs)));
      assert UpsertAll(before, [GlobalTarget(d)]) == Upsert(before, GlobalTarget(d));
    }

    /** An unknown execution is skipped, and so is an outcome that does not map. */
    method RecordExecutionOutcome(d: Data, executionId: string, finalOutcome: string, retryCount: nat)
      modifies this
      ensures match ExecutionById(d.executions, executionId)
              case None => rows == old(rows)
              case Some(e) => rows == Recorded(old(rows), d, e.routerRoute, finalOutcome, retryCount)
    {
      var execution := ExecutionById(d.executions, executionId);
      if execution.None? {
        return;
      }
      var mappedOutcome := MapOutcome(finalOutcome, retryCount);
      if mappedOutcome.None? {
        return;
      }
      RecalculateGlobal(d);
      if execution.value.routerRoute in DECISION_TYPES {
        RecalculateSingleDecisionType(d, execution.value.routerRoute);
      }
    }
  }
}
