/** What other writers do to a recommendation's PLAN memory, and when the two stores still tell the same outcome. */
module ForeignWrites {
  import opened Wrappers
  import opened Tables
  import opened MemoryService
  import opened ExecutionMemories
  import opened DecisionMemoryService
  import opened RecommendationService
  import opened CheckpointService
  import opened Lifecycle
  import opened Conservation
  import opened StoreAgreement

  // ----- the last writer decides what the memory says -----

  /** The fields every write of a memory replaces. */
  datatype Said = Said(outcome: MemoryOutcome, success: bool, decision: Option<string>)

  function SaidIn(m: AgentMemory): Said {
    Said(m.outcome, m.success, m.decision)
  }

  function SaidByDto(dto: MemoryDto): Said {
    Said(dto.outcome, dto.success, dto.decision)
  }

  function SaidByTrace(x: ExecutionTrace): Said {
    SaidIn(NewTrace(x, PLAN, 0))
  }

  /** What the assessments of a step write about `id`. */
  function SaidByEntries(recs: map<string, Recommendation>, entries: seq<Assessment>, id: string): Option<Said> {
    if |entries| > 0 && entries[0].stored && entries[0].id == id && id in recs then
      Some(SaidByDto(AssessmentDto(id, recs[id], entries[0].outcome)))
    else None
  }

  /** What a step writes about `id`, if it writes its PLAN memory. */
  function SaidBy(s: State, op: Op, id: string): Option<Said> {
    if op.RememberOp? then if id in PostedBy(s, op) then Some(SaidByDto(op.dto)) else None
    else if op.TraceOp? then if id in PostedBy(s, op) then Some(SaidByTrace(op.trace)) else None
    else SaidByEntries(s.recs, Written(s, op), id)
  }

  function LastSaid(ops: seq<Op>, id: string): Option<Said> {
    if ops == [] then None
    else
      var before, last := ops[..|ops| - 1], ops[|ops| - 1];
      var said := SaidBy(Run(before), last, id);
      if said.Some? then said else LastSaid(before, id)
  }

  /** The PLAN memory of `id` is missing, or the only one and says this. */
  ghost predicate Says(rows: seq<AgentMemory>, id: string, said: Option<Said>) {
    forall m | m in rows && IsFor(m, Some(id), PLAN) :: said == Some(SaidIn(m))
  }

  lemma RememberSays(rows: seq<AgentMemory>, dto: MemoryDto, now: nat, id: string, said: Option<Said>)
    requires UniqueSources(rows) && Says(rows, id, said) && Remember(rows, dto, now).Success?
    ensures Says(Remember(rows, dto, now).value, id,
                 if dto.agentType == PLAN && dto.source == Some(id) then Some(SaidByDto(dto)) else said)
  {
    IndexForCorrect(rows, dto.source, dto.agentType);
    var after := Remember(rows, dto, now).value;
    forall m | m in after && IsFor(m, Some(id), PLAN)
      ensures (if dto.agentType == PLAN && dto.source == Some(id) then Some(SaidByDto(dto)) else said) == Some(SaidIn(m))
    {
      var i :| 0 <= i < |after| && after[i] == m;
      if i < |rows| {
        assert rows[i] in rows;
      }
    }
  }

  lemma OnlyRow(rows: seq<AgentMemory>, i: nat, j: nat, id: string)
    requires UniqueSources(rows) && i < |rows| && j < |rows|
    requires IsFor(rows[i], Some(id), PLAN) && IsFor(rows[j], Some(id), PLAN)
    ensures i == j
  {
  }

  /** Where the unique key holds, a source that had a row gets no new one. */
  lemma OldRow(rows: seq<AgentMemory>, after: seq<AgentMemory>, i: nat, id: string)
    requires rows <= after && UniqueSources(after) && HasRow(rows, id, PLAN)
    requires i < |after| && IsFor(after[i], Some(id), PLAN)
    ensures i < |rows|
  {
    var j: nat :| j < |rows| && IsFor(rows[j], Some(id), PLAN);
    assert after[j] == rows[j];
    OnlyRow(after, i, j, id);
  }

  lemma TraceSays(rows: seq<AgentMemory>, x: ExecutionTrace, now: nat, id: string, said: Option<Said>)
    requires Says(rows, id, said)
    requires UniqueSources(Traced(rows, x, now))
    ensures Says(Traced(rows, x, now), id,
                 if id == x.executionId && !HasRow(rows, id, PLAN) && HasRow(Traced(rows, x, now), id, PLAN)
                 then Some(SaidByTrace(x)) else said)
  {
    var after := Traced(rows, x, now);
    TraceExtends(rows, x, Agents(x.phases), now);
    forall m | m in after && IsFor(m, Some(id), PLAN)
      ensures (if id == x.executionId && !HasRow(rows, id, PLAN) && HasRow(after, id, PLAN) then Some(SaidByTrace(x)) else said)
           == Some(SaidIn(m))
    {
      var i :| 0 <= i < |after| && after[i] == m;
      if HasRow(rows, id, PLAN) {
        OldRow(rows, after, i, id);
      }
      if i < |rows| {
        assert rows[i] in rows;
      }
    }
  }

  lemma LastSaidSnoc(ops: seq<Op>, op: Op, id: string)
    ensures LastSaid(ops + [op], id)
         == var said := SaidBy(Run(ops), op, id); if said.Some? then said else LastSaid(ops, id)
  {
    assert (ops + [op])[..|ops|] == ops;
  }

  /** The table after writing one assessment. */
  lemma AssessedSays(s: State, id: string, now: nat, write: bool, x: string, said: Option<Said>)
    requires UniqueSources(s.agentMemories) && "" !in s.recs && Says(s.agentMemories, x, said)
    ensures var written := SaidByEntries(s.recs, Entry(s.recs, id, write), x);
            Says(Assessed(s, id, now, write).agentMemories, x, if written.Some? then written else said)
  {
    if Remembers(s.recs, id) && write {
      var dto := AssessmentDto(id, s.recs[id], s.recs[id].finalOutcome.value);
      RememberSays(s.agentMemories, dto, now, x, said);
    }
  }

  lemma TransitionSays(s: State, id: string, now: nat, write: bool, x: string, said: Option<Said>)
    requires UniqueSources(s.agentMemories) && "" !in s.recs && Says(s.agentMemories, x, said)
    ensures var written := SaidByEntries(s.recs, TransitionEntry(s, id, write), x);
            Says(Transitioned(s, id, now, write).agentMemories, x, if written.Some? then written else said)
  {
    var rows := RowsOf(s.checkpoints, id);
    if AllEvaluated(rows) && id in s.recs {
      var rec := s.recs[id].(status := ASSESSED, finalOutcome := Some(OutcomeOf(rows)), assessedAt := Some(now));
      var t := s.(recs := s.recs[id := rec]);
      AssessedSays(t, id, now, write, x, said);
      assert Entry(t.recs, id, write) == TransitionEntry(s, id, write);
    }
  }

  lemma StepSays(s: State, op: Op, x: string, said: Option<Said>)
    requires UniqueSources(s.agentMemories) && "" !in s.recs && Says(s.agentMemories, x, said)
    ensures var written := SaidBy(s, op, x); Says(Step(s, op).agentMemories, x, if written.Some? then written else said)
  {
    match op
    case CreateOp(_, _) =>
    case StatusOp(_, _, _) =>
    case OutcomeOp(_, _, _) =>
    case UpsertOp(id, p, verdict, at, write) =>
      if id in s.recs {
        TransitionSays(s.(checkpoints := Evaluated(s.checkpoints, id, p, verdict, at)), id, at, write, x, said);
      }
    case TransitionOp(id, at, write) => TransitionSays(s, id, at, write, x, said);
    case AssessOp(id, at, write) => AssessedSays(s, id, at, write, x, said);
    case RememberOp(dto, at) =>
      if Remember(s.agentMemories, dto, at).Success? {
        RememberSays(s.agentMemories, dto, at, x, said);
      }
    case TraceOp(trace, at) =>
      TraceKeepsUnique(s.agentMemories, trace, Agents(trace.phases), at);
      TraceSays(s.agentMemories, trace, at, x, said);
  }

  /** Over every run, whoever writes, a PLAN memory says what its last writer said, and is missing if nobody wrote it. */
  lemma {:induction false} LastWriterDecides(ops: seq<Op>, id: string)
    requires Possible(ops)
    ensures Says(Run(ops).agentMemories, id, LastSaid(ops, id))
    ensures LastSaid(ops, id).Some? ==> HasRow(Run(ops).agentMemories, id, PLAN)
  {
    if ops != [] {
      var before, op := ops[..|ops| - 1], ops[|ops| - 1];
      LastWriterDecides(before, id);
      RunAccounts(before);
      assert ops == before + [op];
      LastSaidSnoc(before, op, id);
      StepSays(Run(before), op, id, LastSaid(before, id));
      if LastSaid(ops, id).Some? {
        StepHasRow(Run(before), op, id);
      }
    }
  }

  lemma AssessedHasRow(s: State, id: string, now: nat, write: bool, x: string)
    requires "" !in s.recs
    requires HasRow(s.agentMemories, x, PLAN) || SaidByEntries(s.recs, Entry(s.recs, id, write), x).Some?
    ensures HasRow(Assessed(s, id, now, write).agentMemories, x, PLAN)
  {
    if Remembers(s.recs, id) && write {
      var dto := AssessmentDto(id, s.recs[id], s.recs[id].finalOutcome.value);
      RememberKeepsRows(s.agentMemories, dto, now, x);
    }
  }

  lemma TransitionHasRow(s: State, id: string, now: nat, write: bool, x: string)
    requires "" !in s.recs
    requires HasRow(s.agentMemories, x, PLAN) || SaidByEntries(s.recs, TransitionEntry(s, id, write), x).Some?
    ensures HasRow(Transitioned(s, id, now, write).agentMemories, x, PLAN)
  {
    var rows := RowsOf(s.checkpoints, id);
    if AllEvaluated(rows) && id in s.recs {
      var rec := s.recs[id].(status := ASSESSED, finalOutcome := Some(OutcomeOf(rows)), assessedAt := Some(now));
      var t := s.(recs := s.recs[id := rec]);
      assert Entry(t.recs, id, write) == TransitionEntry(s, id, write);
      AssessedHasRow(t, id, now, write, x);
    }
  }

  lemma StepHasRow(s: State, op: Op, x: string)
    requires "" !in s.recs
    requires HasRow(s.agentMemories, x, PLAN) || SaidBy(s, op, x).Some?
    ensures HasRow(Step(s, op).agentMemories, x, PLAN)
  {
    match op
    case CreateOp(_, _) =>
    case StatusOp(_, _, _) =>
    case OutcomeOp(_, _, _) =>
    case UpsertOp(id, p, verdict, at, write) =>
      if id in s.recs {
        TransitionHasRow(s.(checkpoints := Evaluated(s.checkpoints, id, p, verdict, at)), id, at, write, x);
      }
    case TransitionOp(id, at, write) => TransitionHasRow(s, id, at, write, x);
    case AssessOp(id, at, write) => AssessedHasRow(s, id, at, write, x);
    case RememberOp(dto, at) =>
      if Remember(s.agentMemories, dto, at).Success? {
        RememberKeepsRows(s.agentMemories, dto, at, x);
      }
    case TraceOp(trace, at) =>
      TraceExtends(s.agentMemories, trace, Agents(trace.phases), at);
      if HasRow(s.agentMemories, x, PLAN) {
        RowsKept(s.agentMemories, Traced(s.agentMemories, trace, at), x);
      }
  }

  /** What a memory must say to match a decision memory with this key and outcome. */
  ghost predicate Matches(said: Said, k: MemoryKey, o: FinalOutcome) {
    SameVerdict(said.outcome, o) && (said.success <==> o == SUCCESS) && said.decision == Some(k.technology)
  }

  /** Some PLAN memory of the recommendation says what the decision memory of its key says. */
  ghost predicate TellsTheDecision(ops: seq<Op>, id: string, k: MemoryKey)
    requires k in Run(ops).decisions
  {
    exists m :: m in Run(ops).agentMemories && IsFor(m, Some(id), PLAN)
                && Matches(SaidIn(m), k, Run(ops).decisions[k].outcome)
  }

  /** Over every run a recommendation's memory tells the outcome of its key's decision memory exactly when its last writer did. */
  lemma OutcomesAgreeIff(ops: seq<Op>, id: string, k: MemoryKey)
    requires Possible(ops) && k in Run(ops).decisions
    ensures TellsTheDecision(ops, id, k)
       <==> LastSaid(ops, id).Some? && Matches(LastSaid(ops, id).value, k, Run(ops).decisions[k].outcome)
  {
    LastWriterDecides(ops, id);
    if LastSaid(ops, id).Some? {
      var m :| m in Run(ops).agentMemories && IsFor(m, Some(id), PLAN);
      assert LastSaid(ops, id) == Some(SaidIn(m));
    }
  }

  // ----- a run that breaks both -----

  /** Create, set the outcome, assess, then post a PLAN memory that names the recommendation. */
  function PostAfterAssessment(id: string, rec: RecommendationDto, posted: MemoryDto): seq<Op> {
    [CreateOp(id, rec), OutcomeOp(id, "SUCCESS", 0), AssessOp(id, 0, true), RememberOp(posted, 0)]
  }

  function FailureAbout(id: string): MemoryDto {
    MemoryDto(PLAN, "REVIEW", Failed, false, None, None, None, None, Some(id))
  }

  lemma RunTwo(a: Op, b: Op, s: State, t: State)
    requires s == Step(EMPTY, a) && t == Step(s, b)
    ensures Run([a, b]) == t && Posts([a, b]) == PostedBy(EMPTY, a) + PostedBy(s, b)
    ensures Log([a, b]) == Written(EMPTY, a) + Written(s, b)
    ensures Possible([a, b]) <==> Enabled(EMPTY, a) && Enabled(s, b)
  {
    NothingRun();
    RunTwoMore([], a, b, s, t);
    assert [] + [a, b] == [a, b];
    Leading(PostedBy(EMPTY, a), Written(EMPTY, a));
  }

  lemma NothingRun()
    ensures Run([]) == EMPTY && Posts([]) == [] && Log([]) == [] && Possible([])
  {
  }

  lemma Leading(posts: seq<string>, log: seq<Assessment>)
    ensures [] + posts == posts && [] + log == log
  {
  }

  lemma RunTwoMore(ops: seq<Op>, c: Op, d: Op, s: State, t: State)
    requires s == Step(Run(ops), c) && t == Step(s, d)
    ensures Run(ops + [c, d]) == t && Posts(ops + [c, d]) == Posts(ops) + PostedBy(Run(ops), c) + PostedBy(s, d)
    ensures Log(ops + [c, d]) == Log(ops) + Written(Run(ops), c) + Written(s, d)
    ensures Possible(ops + [c, d]) <==> Possible(ops) && Enabled(Run(ops), c) && Enabled(s, d)
  {
    RunSnoc(ops, c);
    RunSnoc(ops + [c], d);
    assert ops + [c] + [d] == ops + [c, d];
  }

  lemma RunSnoc(ops: seq<Op>, op: Op)
    ensures Run(ops + [op]) == Step(Run(ops), op) && Posts(ops + [op]) == Posts(ops) + PostedBy(Run(ops), op)
    ensures Log(ops + [op]) == Log(ops) + Written(Run(ops), op)
    ensures Possible(ops + [op]) <==> Possible(ops) && Enabled(Run(ops), op)
  {
    assert (ops + [op])[..|ops|] == ops;
  }

  /** The states of the run, step by step. */
  lemma PostStates(id: string, rec: RecommendationDto, posted: MemoryDto) returns (r: Recommendation, m: AgentMemory)
    requires id != "" && posted.agentType == PLAN && posted.source == Some(id)
    ensures var ops := PostAfterAssessment(id, rec, posted);
            && Step(Step(EMPTY, ops[0]), ops[1]) == State(map[id := r], map[], [], map[])
            && Step(State(map[id := r], map[], [], map[]), ops[2])
               == State(map[id := r], map[], [m], map[KeyOf(r) := DecisionMemory(id, SUCCESS, 1, 0, 1.0, 0)])
    ensures m == NewMemory(AssessmentDto(id, r, SUCCESS), 0)
    ensures r.status == ASSESSED && r.finalOutcome == Some(SUCCESS)
    ensures KeyOf(r) == MemoryKey(rec.domain, rec.option, rec.project.GetOr(GLOBAL_PROJECT))
  {
    r := Recommendation(rec.recId, rec.decisionType, rec.domain, rec.option, rec.project, ASSESSED, Some(SUCCESS), Some(0));
    m := NewMemory(AssessmentDto(id, r, SUCCESS), 0);
    var created := r.(status := PENDING, finalOutcome := None, assessedAt := None);
    assert Step(EMPTY, CreateOp(id, rec)) == State(map[id := created], map[], [], map[]);
    assert OutcomeNamed("SUCCESS") == SUCCESS;
    assert map[id := created][id := r] == map[id := r];
    var s := State(map[id := r], map[], [], map[]);
    assert Remembers(s.recs, id);
    assert IndexFor([], Some(id), PLAN) == None;
    assert [] + [m] == [m];
    assert Remember([], AssessmentDto(id, r, SUCCESS), 0) == Success([m]);
  }

  /**
   * For every recommendation there is a run without any swallowed error in which one posted memory makes the counts
   * differ and the PLAN memory tell a failure beside a decision memory that tells a success.
   */
  lemma PostBreaksBoth(id: string, rec: RecommendationDto)
    requires id != ""
    ensures var ops, k := PostAfterAssessment(id, rec, FailureAbout(id)),
                          MemoryKey(rec.domain, rec.option, rec.project.GetOr(GLOBAL_PROJECT));
            && Possible(ops) && LostFor(Log(ops), k) == 0 && ForeignFor(ops, k) == 1
            && k in Run(ops).decisions && Run(ops).decisions[k].outcome == SUCCESS
            && Run(ops).decisions[k].referenceCount != SourceRefs(Run(ops).agentMemories, IdsWith(Run(ops).recs, k))
            && forall m | m in Run(ops).agentMemories && IsFor(m, Some(id), PLAN) :: m.outcome == Failed && !m.success
  {
    var ops := PostAfterAssessment(id, rec, FailureAbout(id));
    var r, m := PostRun(id, rec);
    var k := KeyOf(r);
    OneOfEach(id, k, Assessment(id, k, SUCCESS, true), map[id := r]);
    CountsAgreeIff(ops, k);
  }

  lemma PostRun(id: string, rec: RecommendationDto) returns (r: Recommendation, m: AgentMemory)
    requires id != ""
    ensures var ops, k := PostAfterAssessment(id, rec, FailureAbout(id)), KeyOf(r);
            && Possible(ops) && Posts(ops) == [id] && Log(ops) == [Assessment(id, k, SUCCESS, true)]
            && Run(ops) == State(map[id := r], map[], [m], map[k := DecisionMemory(id, SUCCESS, 1, 0, 1.0, 0)])
    ensures m.outcome == Failed && !m.success
    ensures KeyOf(r) == MemoryKey(rec.domain, rec.option, rec.project.GetOr(GLOBAL_PROJECT))
  {
    var posted := FailureAbout(id);
    var ops := PostAfterAssessment(id, rec, posted);
    var assessed: AgentMemory;
    r, assessed := PostStates(id, rec, posted);
    var first, second := Step(EMPTY, ops[0]), State(map[id := r], map[], [], map[]);
    var third := State(map[id := r], map[], [assessed], map[KeyOf(r) := DecisionMemory(id, SUCCESS, 1, 0, 1.0, 0)]);
    m := Refreshed(assessed, posted, 0);
    NothingWritten(EMPTY, ops[0]);
    NothingWritten(first, ops[1]);
    AssessWrites(second, id, r);
    PostUpdates(third, assessed, posted, id);
    FourSteps(ops[0], ops[1], ops[2], ops[3], first, second, third, third.(agentMemories := [m]));
  }

  lemma FourSteps(a: Op, b: Op, c: Op, d: Op, s: State, t: State, u: State, v: State)
    requires s == Step(EMPTY, a) && t == Step(s, b) && u == Step(t, c) && v == Step(u, d)
    ensures Run([a, b, c, d]) == v
    ensures Posts([a, b, c, d]) == PostedBy(EMPTY, a) + PostedBy(s, b) + PostedBy(t, c) + PostedBy(u, d)
    ensures Log([a, b, c, d]) == Written(EMPTY, a) + Written(s, b) + Written(t, c) + Written(u, d)
    ensures Possible([a, b, c, d]) <==> Enabled(EMPTY, a) && Enabled(s, b) && Enabled(t, c) && Enabled(u, d)
  {
    RunTwo(a, b, s, t);
    RunTwoMore([a, b], c, d, u, v);
    assert [a, b] + [c, d] == [a, b, c, d];
  }

  lemma NothingWritten(s: State, op: Op)
    requires op.CreateOp? || op.OutcomeOp?
    ensures PostedBy(s, op) == [] && Written(s, op) == []
  {
  }

  lemma AssessWrites(s: State, id: string, r: Recommendation)
    requires s.recs == map[id := r] && r.status == ASSESSED && r.finalOutcome == Some(SUCCESS)
    ensures Written(s, AssessOp(id, 0, true)) == [Assessment(id, KeyOf(r), SUCCESS, true)]
    ensures PostedBy(s, AssessOp(id, 0, true)) == []
  {
    assert Remembers(s.recs, id);
  }

  lemma PostUpdates(s: State, before: AgentMemory, posted: MemoryDto, id: string)
    requires s.agentMemories == [before] && IsFor(before, Some(id), PLAN) && id != ""
    requires posted.agentType == PLAN && posted.source == Some(id)
    ensures Step(s, RememberOp(posted, 0)) == s.(agentMemories := [Refreshed(before, posted, 0)])
    ensures PostedBy(s, RememberOp(posted, 0)) == [id] && Written(s, RememberOp(posted, 0)) == []
  {
    IndexForCorrect([before], posted.source, PLAN);
    assert [before][0 := Refreshed(before, posted, 0)] == [Refreshed(before, posted, 0)];
  }

  lemma OneOfEach(id: string, k: MemoryKey, e: Assessment, recs: map<string, Recommendation>)
    requires id in recs && KeyOf(recs[id]) == k && e.stored
    ensures PostedTo([id], IdsWith(recs, k)) == 1 && LostFor([e], k) == 0
  {
    assert [id][..0] == [] && [e][..0] == [];
  }
}
