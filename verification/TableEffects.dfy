/** What each call of the recommendation services leaves in the tables, value by value. */
module TableEffects {
  import opened Wrappers
  import opened Tables
  import opened MemoryService
  import opened DecisionMemoryService
  import opened RecommendationService
  import opened CheckpointService

  /** Thirty, ninety and a hundred and eighty days in milliseconds. */
  function DueAfter(p: Period): nat {
    match p
    case D30 => 2_592_000_000
    case D90 => 7_776_000_000
    case D180 => 15_552_000_000
  }

  /** One checkpoint before and after a recommendation was scheduled: dated anew, and otherwise as it was. */
  ghost predicate Dated(before: Checkpoints, after: Checkpoints, id: string, now: nat, p: Period) {
    && (id, p) in after
    && after[(id, p)] == if (id, p) in before then before[(id, p)].(scheduleAt := now + DueAfter(p))
                         else Checkpoint(now + DueAfter(p), None, None)
  }

  /** Leaving PENDING for IN_PROGRESS dates the three checkpoints; no other change of status touches a checkpoint. */
  lemma StatusChangeRows(s: State, id: string, status: string, now: nat)
    requires id in s.recs
    ensures var t := StatusUpdated(s, id, status, now);
            && t == s.(recs := s.recs[id := s.recs[id].(status := status)], checkpoints := t.checkpoints)
            && if status == "IN_PROGRESS" && s.recs[id].status == "PENDING" then
                 && (forall p :: Dated(s.checkpoints, t.checkpoints, id, now, p))
                 && t.checkpoints - {(id, D30), (id, D90), (id, D180)} == s.checkpoints - {(id, D30), (id, D90), (id, D180)}
               else t.checkpoints == s.checkpoints
  {
    forall p: Period | status == "IN_PROGRESS" && s.recs[id].status == "PENDING"
      ensures Dated(s.checkpoints, StatusUpdated(s, id, status, now).checkpoints, id, now, p)
    {
      match p
      case D30 =>
      case D90 =>
      case D180 =>
    }
  }

  /** The four texts that name an outcome; every other text is kept. */
  ghost predicate Names(text: string, o: FinalOutcome) {
    match o
    case SUCCESS => text == "SUCCESS"
    case MIXED => text == "MIXED"
    case FAILURE => text == "FAILURE"
    case ABANDONED => text == "ABANDONED"
    case Other(other) => other == text && text !in ["SUCCESS", "MIXED", "FAILURE", "ABANDONED"]
  }

  /** The row a final outcome leaves: assessed now, everything else as it was. */
  lemma OutcomeRow(s: State, id: string, text: string, now: nat)
    requires id in s.recs
    ensures var t := OutcomeSet(s, id, text, now);
            && id in t.recs && t.recs[id].finalOutcome.Some? && Names(text, t.recs[id].finalOutcome.value)
            && t.recs[id] == s.recs[id].(status := "ASSESSED", finalOutcome := t.recs[id].finalOutcome, assessedAt := Some(now))
            && t == s.(recs := s.recs[id := t.recs[id]])
  {
    assert Names(text, OutcomeNamed(text)) by {
      assert "SUCCESS"[0] != "MIXED"[0] && "SUCCESS"[0] != "FAILURE"[0] && "SUCCESS"[0] != "ABANDONED"[0];
      assert "MIXED"[0] != "FAILURE"[0] && "MIXED"[0] != "ABANDONED"[0] && "FAILURE"[0] != "ABANDONED"[0];
    }
  }

  // ----- checkpoints -----

  /** The upserted checkpoint is evaluated now; a verdict is replaced only by one that was given. */
  ghost predicate EvaluatedNow(before: Checkpoints, after: Checkpoints, id: string, p: Period, verdict: Option<Verdict>, now: nat) {
    && (id, p) in after && after - {(id, p)} == before - {(id, p)}
    && after[(id, p)] == if (id, p) !in before then Checkpoint(now, Some(now), verdict)
                         else Checkpoint(before[(id, p)].scheduleAt, Some(now),
                                         if verdict == None then before[(id, p)].verdict else verdict)
  }

  lemma EvaluatedRow(checkpoints: Checkpoints, id: string, p: Period, verdict: Option<Verdict>, now: nat)
    ensures EvaluatedNow(checkpoints, Evaluated(checkpoints, id, p, verdict, now), id, p, verdict, now)
  {
  }

  lemma TransitionKeepsCheckpoints(s: State, id: string, now: nat, write: bool)
    ensures Transitioned(s, id, now, write).checkpoints == s.checkpoints
  {
  }

  lemma UpsertRow(s: State, id: string, p: Period, verdict: Option<Verdict>, now: nat, write: bool)
    requires id in s.recs
    ensures EvaluatedNow(s.checkpoints, Upserted(s, id, p, verdict, now, write).checkpoints, id, p, verdict, now)
  {
    EvaluatedRow(s.checkpoints, id, p, verdict, now);
    TransitionKeepsCheckpoints(s.(checkpoints := Evaluated(s.checkpoints, id, p, verdict, now)), id, now, write);
  }

  ghost predicate HasVerdict(checkpoints: Checkpoints, id: string, v: Verdict) {
    exists p :: (id, p) in checkpoints && checkpoints[(id, p)].verdict == Some(v)
  }

  ghost predicate Pending(checkpoints: Checkpoints, id: string) {
    exists p :: (id, p) in checkpoints && checkpoints[(id, p)].evaluatedAt == None
  }

  lemma RowAt(checkpoints: Checkpoints, id: string, p: Period)
    requires (id, p) in checkpoints
    ensures checkpoints[(id, p)] in RowsOf(checkpoints, id)
  {
    assert checkpoints[(id, p)] in Row(checkpoints, id, p);
    match p
    case D30 =>
    case D90 =>
    case D180 =>
  }

  lemma RowFrom(checkpoints: Checkpoints, id: string, row: Checkpoint)
    requires row in RowsOf(checkpoints, id)
    ensures exists p :: (id, p) in checkpoints && checkpoints[(id, p)] == row
  {
    assert row in Row(checkpoints, id, D30) || row in Row(checkpoints, id, D90) || row in Row(checkpoints, id, D180);
  }

  lemma RowsTell(checkpoints: Checkpoints, id: string)
    ensures AllEvaluated(RowsOf(checkpoints, id)) <==> !Pending(checkpoints, id)
    ensures forall v :: Includes(RowsOf(checkpoints, id), v) <==> HasVerdict(checkpoints, id, v)
  {
    forall p | (id, p) in checkpoints
      ensures checkpoints[(id, p)] in RowsOf(checkpoints, id)
    {
      RowAt(checkpoints, id, p);
    }
    forall row | row in RowsOf(checkpoints, id)
      ensures exists p :: (id, p) in checkpoints && checkpoints[(id, p)] == row
    {
      RowFrom(checkpoints, id, row);
    }
  }

  /** With no checkpoint left to evaluate the recommendation is assessed now, by the worst verdict; otherwise nothing changes. */
  lemma TransitionRow(s: State, id: string, now: nat, write: bool)
    requires id in s.recs
    ensures var t := Transitioned(s, id, now, write);
            if Pending(s.checkpoints, id) then t == s
            else
              && id in t.recs && t.checkpoints == s.checkpoints && t.recs == s.recs[id := t.recs[id]]
              && t.recs[id] == s.recs[id].(status := "ASSESSED", finalOutcome := t.recs[id].finalOutcome, assessedAt := Some(now))
              && (t.recs[id].finalOutcome == Some(FAILURE) <==> HasVerdict(s.checkpoints, id, FAILED))
              && (t.recs[id].finalOutcome == Some(MIXED) <==>
                    !HasVerdict(s.checkpoints, id, FAILED)
                    && (HasVerdict(s.checkpoints, id, PROBLEM) || HasVerdict(s.checkpoints, id, CONCERN)))
              && t.recs[id].finalOutcome in {Some(FAILURE), Some(MIXED), Some(SUCCESS)}
  {
    RowsTell(s.checkpoints, id);
  }

  // ----- the two memory stores -----

  /** Row `i` is the first one with the source and agent type. */
  ghost predicate FirstFor(rows: seq<AgentMemory>, source: Option<string>, agentType: AgentType, i: int) {
    && 0 <= i < |rows| && rows[i].source == source && rows[i].agentType == agentType
    && forall j | 0 <= j < i :: rows[j].source != source || rows[j].agentType != agentType
  }

  /** What createMemory leaves: the first row of the source brought up to date, or a new row, or a violated unique key. */
  ghost predicate MemoryStored(before: seq<AgentMemory>, dto: MemoryDto, now: nat, after: Result<seq<AgentMemory>>) {
    if dto.source != None && exists i :: FirstFor(before, dto.source, dto.agentType, i) then
      if dto.source == Some("") then after == Failure(Conflict)
      else
        exists i :: FirstFor(before, dto.source, dto.agentType, i)
          && after == Success(before[i := before[i].(outcome := dto.outcome, success := dto.success, decision := dto.decision,
                                                     referenceCount := before[i].referenceCount + 1,
                                                     lastReferencedAt := Some(now))])
    else
      after == Success(before + [AgentMemory(dto.agentType, dto.taskType, dto.outcome, dto.success, dto.decision, dto.domain,
                                             dto.technology, if dto.project == None then "__global__" else dto.project.value,
                                             dto.source, 0, None, 1.0, now)])
  }

  lemma {:induction false} IndexIsFirst(rows: seq<AgentMemory>, source: Option<string>, agentType: AgentType)
    ensures var r := IndexFor(rows, source, agentType);
            if r.Some? then FirstFor(rows, source, agentType, r.value) else forall i :: !FirstFor(rows, source, agentType, i)
  {
    if rows != [] && !IsFor(rows[0], source, agentType) {
      IndexIsFirst(rows[1..], source, agentType);
      forall i | FirstFor(rows, source, agentType, i)
        ensures FirstFor(rows[1..], source, agentType, i - 1)
      {
      }
    }
  }

  lemma RememberRows(rows: seq<AgentMemory>, dto: MemoryDto, now: nat)
    ensures MemoryStored(rows, dto, now, Remember(rows, dto, now))
  {
    IndexIsFirst(rows, dto.source, dto.agentType);
  }

  /** An assessed recommendation with an outcome to learn from. */
  ghost predicate Learnt(rec: Recommendation) {
    rec.status == "ASSESSED" && rec.finalOutcome !in {None, Some(Other("")), Some(ABANDONED)}
  }

  /** What the agent memory is told: the verdict, with the project that no project stands for. */
  ghost predicate Told(dto: MemoryDto, id: string, rec: Recommendation) {
    && dto.agentType == PLAN && dto.taskType == "RECOMMENDATION_ASSESSMENT" && dto.source == Some(id)
    && dto.decision == dto.technology == Some(rec.option) && dto.domain == Some(rec.domain)
    && dto.project == Some(if rec.project == None then "__global__" else rec.project.value)
    && (dto.success <==> rec.finalOutcome == Some(SUCCESS))
    && match rec.finalOutcome
       case Some(SUCCESS) => dto.outcome == Succeeded
       case Some(MIXED) => dto.outcome == Mixed
       case _ => dto.outcome == Failed
  }

  /** A decision memory counts one reference more, or starts at one with full weight. */
  ghost predicate DecisionStored(s: State, t: State, id: string, now: nat)
    requires id in s.recs && s.recs[id].finalOutcome.Some?
  {
    var rec := s.recs[id];
    var key := MemoryKey(rec.domain, rec.option, if rec.project == None then "__global__" else rec.project.value);
    && key in t.decisions && t.decisions - {key} == s.decisions - {key}
    && t.decisions[key] == if key !in s.decisions then DecisionMemory(id, rec.finalOutcome.value, 1, now, 1.0, now)
                           else s.decisions[key].(outcome := rec.finalOutcome.value, lastReferencedAt := now,
                                                  referenceCount := s.decisions[key].referenceCount + 1)
  }

  ghost predicate AgentTold(s: State, t: State, id: string, now: nat)
    requires id in s.recs
  {
    exists dto, r :: Told(dto, id, s.recs[id]) && MemoryStored(s.agentMemories, dto, now, r)
                     && t.agentMemories == if r.Success? then r.value else s.agentMemories
  }

  /** Both stores are written exactly when there is something to learn; a swallowed error leaves the agent memory alone. */
  lemma AssessmentRows(s: State, id: string, now: nat, write: bool)
    requires id in s.recs
    ensures var t := Assessed(s, id, now, write);
            && t.recs == s.recs && t.checkpoints == s.checkpoints
            && (!Learnt(s.recs[id]) ==> t == s)
            && (Learnt(s.recs[id]) ==> DecisionStored(s, t, id, now)
                                       && if write then AgentTold(s, t, id, now) else t.agentMemories == s.agentMemories)
  {
    if Learnt(s.recs[id]) {
      var dto := AssessmentDto(id, s.recs[id], s.recs[id].finalOutcome.value);
      RememberRows(s.agentMemories, dto, now);
      assert Told(dto, id, s.recs[id]);
    }
  }
}
