/** The canonical agent memory: find-then-update-or-create on (sourceExecutionId, agentType). */
module MemoryService {
  import opened Wrappers
  import opened Tables

  datatype MemoryDto = MemoryDto(agentType: AgentType, taskType: string, outcome: MemoryOutcome, success: bool,
                                 decision: Option<string>, domain: Option<string>, technology: Option<string>,
                                 project: Option<string>, source: Option<string>)

  predicate IsFor(m: AgentMemory, source: Option<string>, agentType: AgentType) {
    m.source == source && m.agentType == agentType
  }

  /** findFirst on (sourceExecutionId, agentType). */
  function IndexFor(rows: seq<AgentMemory>, source: Option<string>, agentType: AgentType): (r: Option<nat>)
    ensures r.Some? ==> r.value < |rows|
  {
    if rows == [] then None
    else if IsFor(rows[0], source, agentType) then Some(0)
    else match IndexFor(rows[1..], source, agentType)
         case None => None
         case Some(i) => Some(i + 1)
  }

  lemma {:induction false} IndexForCorrect(rows: seq<AgentMemory>, source: Option<string>, agentType: AgentType)
    ensures var r := IndexFor(rows, source, agentType);
            if r.Some? then r.value < |rows| && IsFor(rows[r.value], source, agentType)
            else forall i | 0 <= i < |rows| :: !IsFor(rows[i], source, agentType)
  {
    if rows != [] {
      IndexForCorrect(rows[1..], source, agentType);
      assert forall i | 1 <= i < |rows| :: rows[i] == rows[1..][i - 1];
    }
  }

  function Refreshed(m: AgentMemory, dto: MemoryDto, now: nat): AgentMemory {
    m.(outcome := dto.outcome, success := dto.success, decision := dto.decision,
       referenceCount := m.referenceCount + 1, lastReferencedAt := Some(now))
  }

  function NewMemory(dto: MemoryDto, now: nat): AgentMemory {
    AgentMemory(dto.agentType, dto.taskType, dto.outcome, dto.success, dto.decision, dto.domain, dto.technology,
                dto.project.GetOr(GLOBAL_PROJECT), dto.source, 0, None, 1.0, now)
  }

  /**
   * createMemory as a function of the table. A row with the same source is updated; the empty source id is not
   * looked up, so a second row for it violates the unique key. Rows without a source are always added.
   */
  function Remember(rows: seq<AgentMemory>, dto: MemoryDto, now: nat): Result<seq<AgentMemory>> {
    var existing := if dto.source.Some? then IndexFor(rows, dto.source, dto.agentType) else None;
    if existing.None? then Success(rows + [NewMemory(dto, now)])
    else if dto.source == Some("") then Failure(Conflict)
    else Success(rows[existing.value := Refreshed(rows[existing.value], dto, now)])
  }

  method CreateMemory(db: Database, dto: MemoryDto, now: nat) returns (r: Result<AgentMemory>)
    modifies db`agentMemories
    ensures match Remember(old(db.agentMemories), dto, now)
            case Failure(e) => r == Failure(e) && db.agentMemories == old(db.agentMemories)
            case Success(rows) => r.Success? && db.agentMemories == rows && r.value in rows
                                  && r.value.source == dto.source && r.value.agentType == dto.agentType
                                  && r.value.outcome == dto.outcome
  {
    IndexForCorrect(db.agentMemories, dto.source, dto.agentType);
    if dto.source.Some? && dto.source.value != "" {
      var existing := IndexFor(db.agentMemories, dto.source, dto.agentType);
      if existing.Some? {
        var updated := Refreshed(db.agentMemories[existing.value], dto, now);
        db.agentMemories := db.agentMemories[existing.value := updated];
        assert db.agentMemories[existing.value] == updated;
        return Success(updated);
      }
    }
    if dto.source == Some("") && IndexFor(db.agentMemories, dto.source, dto.agentType).Some? {
      return Failure(Conflict);
    }
    var created := NewMemory(dto, now);
    db.agentMemories := db.agentMemories + [created];
    r := Success(created);
  }

  /** @@unique([sourceExecutionId, agentType]), where a missing source equals nothing. */
  ghost predicate UniqueSources(rows: seq<AgentMemory>) {
    forall i, j | 0 <= i < j < |rows| && rows[i].source.Some? :: !IsFor(rows[j], rows[i].source, rows[i].agentType)
  }

  lemma RememberKeepsUnique(rows: seq<AgentMemory>, dto: MemoryDto, now: nat)
    requires UniqueSources(rows) && Remember(rows, dto, now).Success?
    ensures UniqueSources(Remember(rows, dto, now).value)
  {
    IndexForCorrect(rows, dto.source, dto.agentType);
  }

  /** What identifies a memory and how long it has aged stays; only the latest result and the references change. */
  ghost predicate SameMemory(before: AgentMemory, after: AgentMemory) {
    && after.agentType == before.agentType && after.taskType == before.taskType && after.source == before.source
    && after.domain == before.domain && after.technology == before.technology && after.project == before.project
    && after.decayWeight == before.decayWeight && after.createdAt == before.createdAt
  }

  /** Remembering changes one row of the same source at most and keeps its identity, or adds one fresh row at the end. */
  lemma RememberTouchesOne(rows: seq<AgentMemory>, dto: MemoryDto, now: nat, i: nat)
    requires Remember(rows, dto, now).Success? && i < |Remember(rows, dto, now).value|
    ensures var m := Remember(rows, dto, now).value[i];
            if i < |rows| then
              m == rows[i] || (SameMemory(rows[i], m) && IsFor(m, dto.source, dto.agentType) && dto.source.Some?
                               && m.referenceCount == rows[i].referenceCount + 1 && m.lastReferencedAt == Some(now)
                               && m.outcome == dto.outcome && m.success == dto.success && m.decision == dto.decision)
            else
              i == |rows| && m.referenceCount == 0 && m.decayWeight == 1.0 && m.createdAt == now
              && IsFor(m, dto.source, dto.agentType) && m.outcome == dto.outcome && m.success == dto.success
    ensures dto.source.None? ==> |Remember(rows, dto, now).value| == |rows| + 1
  {
    IndexForCorrect(rows, dto.source, dto.agentType);
  }
}
