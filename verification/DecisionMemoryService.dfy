/** Writing an assessed recommendation to both memory stores. */
module DecisionMemoryService {
  import opened Wrappers
  import opened Tables
  import opened MemoryService

  function MemoryOutcomeOf(outcome: FinalOutcome): MemoryOutcome {
    match outcome
    case SUCCESS => Succeeded
    case MIXED => Mixed
    case FAILURE => Failed
    case ABANDONED => Abandoned
    case Other(_) => Failed
  }

  function AssessmentDto(id: string, rec: Recommendation, outcome: FinalOutcome): MemoryDto {
    MemoryDto(PLAN, "RECOMMENDATION_ASSESSMENT", MemoryOutcomeOf(outcome), outcome == SUCCESS, Some(rec.option),
              Some(rec.domain), Some(rec.option), Some(rec.project.GetOr(GLOBAL_PROJECT)), Some(id))
  }

  /** A missing or empty outcome is no outcome. */
  predicate HasOutcome(rec: Recommendation) {
    rec.finalOutcome.Some? && rec.finalOutcome.value != Other("")
  }

  /** The recommendation is written to the stores: assessed, with an outcome that carries a learning signal. */
  predicate Remembers(recs: map<string, Recommendation>, id: string) {
    id in recs && recs[id].status == ASSESSED && HasOutcome(recs[id]) && recs[id].finalOutcome.value != ABANDONED
  }

  function UpsertDecision(decisions: map<MemoryKey, DecisionMemory>, key: MemoryKey, id: string,
                          outcome: FinalOutcome, now: nat): map<MemoryKey, DecisionMemory> {
    if key in decisions then
      decisions[key := decisions[key].(outcome := outcome, referenceCount := decisions[key].referenceCount + 1,
                                       lastReferencedAt := now)]
    else decisions[key := DecisionMemory(id, outcome, 1, now, 1.0, now)]
  }

  /** createFromAssessment on the tables; `write` is false when createMemory raises, which is swallowed. */
  function Assessed(s: State, id: string, now: nat, write: bool): State {
    if !Remembers(s.recs, id) then s
    else
      var rec := s.recs[id];
      var rows := Remember(s.agentMemories, AssessmentDto(id, rec, rec.finalOutcome.value), now);
      s.(agentMemories := if write && rows.Success? then rows.value else s.agentMemories,
         decisions := UpsertDecision(s.decisions, KeyOf(rec), id, rec.finalOutcome.value, now))
  }

  method CreateFromAssessment(db: Database, id: string, now: nat, write: bool) returns (r: Result<Option<DecisionMemory>>)
    modifies db`agentMemories, db`decisions
    ensures db.Contents() == Assessed(old(db.Contents()), id, now, write)
    ensures r.Failure? <==> id !in db.recs || db.recs[id].status != ASSESSED || !HasOutcome(db.recs[id])
    ensures r.Success? ==> (r.value.Some? <==> Remembers(db.recs, id))
    ensures r.Success? && r.value.Some? ==>
      KeyOf(db.recs[id]) in db.decisions && r.value.value == db.decisions[KeyOf(db.recs[id])]
  {
    if id !in db.recs {
      return Failure(NotFound);
    }
    var recommendation := db.recs[id];
    if recommendation.status != ASSESSED || !HasOutcome(recommendation) {
      return Failure(Invalid);
    }
    var outcome := recommendation.finalOutcome.value;
    if outcome == ABANDONED {
      return Success(None);
    }
    if write {
      var ignored := CreateMemory(db, AssessmentDto(id, recommendation, outcome), now);
    }
    var key := KeyOf(recommendation);
    if key in db.decisions {
      var row := db.decisions[key];
      db.decisions := db.decisions[key := row.(outcome := outcome, referenceCount := row.referenceCount + 1,
                                               lastReferencedAt := now)];
    } else {
      db.decisions := db.decisions[key := DecisionMemory(id, outcome, 1, now, 1.0, now)];
    }
    r := Success(Some(db.decisions[key]));
  }
}
