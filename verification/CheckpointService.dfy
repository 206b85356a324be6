/** Recording checkpoint assessments and the automatic transition to ASSESSED. */
module CheckpointService {
  import opened Wrappers
  import opened Tables
  import opened DecisionMemoryService

  type Checkpoints = map<(string, Period), Checkpoint>

  function Row(checkpoints: Checkpoints, id: string, p: Period): seq<Checkpoint> {
    if (id, p) in checkpoints then [checkpoints[(id, p)]] else []
  }

  /** findMany where recommendationId = id */
  function RowsOf(checkpoints: Checkpoints, id: string): seq<Checkpoint> {
    Row(checkpoints, id, D30) + Row(checkpoints, id, D90) + Row(checkpoints, id, D180)
  }

  predicate Includes(rows: seq<Checkpoint>, v: Verdict) {
    exists row | row in rows :: row.verdict == Some(v)
  }

  function OutcomeOf(rows: seq<Checkpoint>): FinalOutcome {
    if Includes(rows, FAILED) then FAILURE
    else if Includes(rows, PROBLEM) || Includes(rows, CONCERN) then MIXED
    else SUCCESS
  }

  predicate AllEvaluated(rows: seq<Checkpoint>) {
    forall row | row in rows :: row.evaluatedAt.Some?
  }

  /** checkAndTransition on the tables: every existing row evaluated, however many there are. */
  function Transitioned(s: State, id: string, now: nat, write: bool): State {
    var rows := RowsOf(s.checkpoints, id);
    if !AllEvaluated(rows) || id !in s.recs then s
    else
      var rec := s.recs[id].(status := ASSESSED, finalOutcome := Some(OutcomeOf(rows)), assessedAt := Some(now));
      Assessed(s.(recs := s.recs[id := rec]), id, now, write)
  }

  /** The upserted row: an absent verdict in the request leaves a stored verdict alone. */
  function Evaluated(checkpoints: Checkpoints, id: string, p: Period, verdict: Option<Verdict>, now: nat): Checkpoints {
    if (id, p) in checkpoints then
      var row := checkpoints[(id, p)];
      checkpoints[(id, p) := row.(evaluatedAt := Some(now), verdict := if verdict.Some? then verdict else row.verdict)]
    else checkpoints[(id, p) := Checkpoint(now, Some(now), verdict)]
  }

  /** upsertCheckpoint on the tables. */
  function Upserted(s: State, id: string, p: Period, verdict: Option<Verdict>, now: nat, write: bool): State {
    if id !in s.recs then s
    else Transitioned(s.(checkpoints := Evaluated(s.checkpoints, id, p, verdict, now)), id, now, write)
  }

  method CheckAndTransition(db: Database, id: string, now: nat, write: bool) returns (r: Result<()>)
    modifies db`recs, db`agentMemories, db`decisions
    ensures db.Contents() == Transitioned(old(db.Contents()), id, now, write)
    ensures r.Failure? <==> AllEvaluated(RowsOf(db.checkpoints, id)) && id !in old(db.recs)
  {
    var checkpoints := RowsOf(db.checkpoints, id);
    if !AllEvaluated(checkpoints) {
      return Success(());
    }
    var finalOutcome := SUCCESS;
    if Includes(checkpoints, FAILED) {
      finalOutcome := FAILURE;
    } else if Includes(checkpoints, PROBLEM) {
      finalOutcome := MIXED;
    } else if Includes(checkpoints, CONCERN) {
      finalOutcome := MIXED;
    }
    if id !in db.recs {
      return Failure(NotFound);
    }
    db.recs := db.recs[id := db.recs[id].(status := ASSESSED, finalOutcome := Some(finalOutcome), assessedAt := Some(now))];
    var ignored := CreateFromAssessment(db, id, now, write);
    r := Success(());
  }

  method UpsertCheckpoint(db: Database, id: string, p: Period, verdict: Option<Verdict>, now: nat, write: bool)
    returns (r: Result<Checkpoint>)
    modifies db
    ensures db.Contents() == Upserted(old(db.Contents()), id, p, verdict, now, write)
    ensures r.Success? <==> id in old(db.recs)
    ensures r.Success? ==> (id, p) in db.checkpoints && r.value == db.checkpoints[(id, p)] && r.value.evaluatedAt == Some(now)
  {
    if id !in db.recs {
      return Failure(NotFound);
    }
    if (id, p) in db.checkpoints {
      var row := db.checkpoints[(id, p)];
      db.checkpoints := db.checkpoints[(id, p) := row.(evaluatedAt := Some(now),
                                                       verdict := if verdict.Some? then verdict else row.verdict)];
    } else {
      db.checkpoints := db.checkpoints[(id, p) := Checkpoint(now, Some(now), verdict)];
    }
    var checkpoint := db.checkpoints[(id, p)];
    var ignored := CheckAndTransition(db, id, now, write);
    r := Success(checkpoint);
  }
}
