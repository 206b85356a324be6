/** The recommendation registry: creation, status changes and the checkpoints a status change schedules. */
module RecommendationService {
  import opened Wrappers
  import opened Tables

  const DAY := 24 * 60 * 60 * 1000

  function Delay(p: Period): nat {
    match p
    case D30 => 30 * DAY
    case D90 => 90 * DAY
    case D180 => 180 * DAY
  }

  function Schedule(checkpoints: map<(string, Period), Checkpoint>, id: string, p: Period, now: nat)
    : map<(string, Period), Checkpoint>
  {
    if (id, p) in checkpoints then checkpoints[(id, p) := checkpoints[(id, p)].(scheduleAt := now + Delay(p))]
    else checkpoints[(id, p) := Checkpoint(now + Delay(p), None, None)]
  }

  /** updateStatus on the tables: leaving PENDING for IN_PROGRESS schedules the three checkpoints. */
  function StatusUpdated(s: State, id: string, status: string, now: nat): State {
    if id !in s.recs then s
    else
      var scheduled := if status == IN_PROGRESS && s.recs[id].status == PENDING then
                         Schedule(Schedule(Schedule(s.checkpoints, id, D30, now), id, D90, now), id, D180, now)
                       else s.checkpoints;
      s.(recs := s.recs[id := s.recs[id].(status := status)], checkpoints := scheduled)
  }

  function OutcomeSet(s: State, id: string, outcome: string, now: nat): State {
    if id !in s.recs then s
    else s.(recs := s.recs[id := s.recs[id].(status := ASSESSED, finalOutcome := Some(OutcomeNamed(outcome)),
                                                 assessedAt := Some(now))])
  }

  datatype RecommendationDto = RecommendationDto(recId: string, decisionType: string, domain: string, option: string,
                                                 project: Option<string>)

  predicate HasRecId(recs: map<string, Recommendation>, recId: string) {
    exists id | id in recs :: recs[id].recId == recId
  }

  /** create on the table; `id` is generated by the database. */
  function Created(recs: map<string, Recommendation>, id: string, dto: RecommendationDto): map<string, Recommendation> {
    if HasRecId(recs, dto.recId) then recs
    else recs[id := Recommendation(dto.recId, dto.decisionType, dto.domain, dto.option, dto.project, PENDING, None, None)]
  }

  method Create(db: Database, id: string, dto: RecommendationDto) returns (r: Result<Recommendation>)
    requires id !in db.recs
    modifies db`recs
    ensures db.recs == Created(old(db.recs), id, dto)
    ensures if HasRecId(old(db.recs), dto.recId) then r == Failure(Conflict) && db.recs == old(db.recs)
            else r == Success(Recommendation(dto.recId, dto.decisionType, dto.domain, dto.option, dto.project, "PENDING",
                                             None, None))
                 && db.recs == old(db.recs)[id := r.value]
                 && KeyOf(r.value)
                 == MemoryKey(dto.domain, dto.option, if dto.project == None then "__global__" else dto.project.value)
  {
    if exists x | x in db.recs :: db.recs[x].recId == dto.recId {
      return Failure(Conflict);
    }
    db.recs := db.recs[id := Recommendation(dto.recId, dto.decisionType, dto.domain, dto.option, dto.project, PENDING, None, None)];
    r := Success(db.recs[id]);
  }

  method UpdateStatus(db: Database, id: string, status: string, now: nat) returns (r: Result<Recommendation>)
    modifies db`recs, db`checkpoints
    ensures db.Contents() == StatusUpdated(old(db.Contents()), id, status, now)
    ensures r == if id in old(db.recs) then Success(old(db.recs[id]).(status := status)) else Failure(NotFound)
  {
    if id !in db.recs {
      return Failure(NotFound);
    }
    var recommendation := db.recs[id];
    if status == IN_PROGRESS && recommendation.status == PENDING {
      var periods := [D30, D90, D180];
      ghost var before := db.checkpoints;
      for n := 0 to |periods|
        invariant db.recs == old(db.recs)
        invariant n == 0 ==> db.checkpoints == before
        invariant n == 1 ==> db.checkpoints == Schedule(before, id, D30, now)
        invariant n == 2 ==> db.checkpoints == Schedule(Schedule(before, id, D30, now), id, D90, now)
        invariant n == 3 ==>
          db.checkpoints == Schedule(Schedule(Schedule(before, id, D30, now), id, D90, now), id, D180, now)
      {
        var p := periods[n];
        if (id, p) in db.checkpoints {
          db.checkpoints := db.checkpoints[(id, p) := db.checkpoints[(id, p)].(scheduleAt := now + Delay(p))];
        } else {
          db.checkpoints := db.checkpoints[(id, p) := Checkpoint(now + Delay(p), None, None)];
        }
      }
    }
    db.recs := db.recs[id := recommendation.(status := status)];
    r := Success(db.recs[id]);
  }

  method SetFinalOutcome(db: Database, id: string, outcome: string, now: nat) returns (r: Result<Recommendation>)
    modifies db`recs
    ensures db.Contents() == OutcomeSet(old(db.Contents()), id, outcome, now)
    ensures r.Success? <==> id in old(db.recs)
  {
    if id !in db.recs {
      return Failure(NotFound);
    }
    db.recs := db.recs[id := db.recs[id].(status := ASSESSED, finalOutcome := Some(OutcomeNamed(outcome)),
                                               assessedAt := Some(now))];
    r := Success(db.recs[id]);
  }
}
