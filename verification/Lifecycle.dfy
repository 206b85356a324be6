/** Runs of the recommendation services over the four tables, with a log of the assessments written. */
module Lifecycle {
  import opened Wrappers
  import opened Tables
  import opened MemoryService
  import opened ExecutionMemories
  import opened DecisionMemoryService
  import opened RecommendationService
  import opened CheckpointService

  datatype Op =
    | CreateOp(id: string, recommendation: RecommendationDto)
    | StatusOp(id: string, status: string, at: nat)
    | OutcomeOp(id: string, text: string, at: nat)
    | UpsertOp(id: string, period: Period, verdict: Option<Verdict>, at: nat, write: bool)
    | TransitionOp(id: string, at: nat, write: bool)
    | AssessOp(id: string, at: nat, write: bool)
    | RememberOp(dto: MemoryDto, at: nat)
    | TraceOp(trace: ExecutionTrace, at: nat)

  /** One completed call of createFromAssessment; `stored` is false when its createMemory raised. */
  datatype Assessment = Assessment(id: string, key: MemoryKey, outcome: FinalOutcome, stored: bool)

  const EMPTY := State(map[], map[], [], map[])

  function Remembered(rows: seq<AgentMemory>, dto: MemoryDto, now: nat): seq<AgentMemory> {
    var r := Remember(rows, dto, now);
    if r.Success? then r.value else rows
  }

  function Step(s: State, op: Op): State {
    match op
    case CreateOp(id, recommendation) => s.(recs := Created(s.recs, id, recommendation))
    case StatusOp(id, status, at) => StatusUpdated(s, id, status, at)
    case OutcomeOp(id, text, at) => OutcomeSet(s, id, text, at)
    case UpsertOp(id, period, verdict, at, write) => Upserted(s, id, period, verdict, at, write)
    case TransitionOp(id, at, write) => Transitioned(s, id, at, write)
    case AssessOp(id, at, write) => Assessed(s, id, at, write)
    case RememberOp(dto, at) => s.(agentMemories := Remembered(s.agentMemories, dto, at))
    case TraceOp(trace, at) => s.(agentMemories := Traced(s.agentMemories, trace, at))
  }

  /** Generated identifiers are new to every table; nothing else is asked of an operation. */
  ghost predicate Enabled(s: State, op: Op) {
    op.CreateOp? ==>
      op.id != "" && op.id !in s.recs && forall m | m in s.agentMemories :: !IsFor(m, Some(op.id), PLAN)
  }

  // ----- the assessments a step writes -----

  function Entry(recs: map<string, Recommendation>, id: string, write: bool): seq<Assessment> {
    if Remembers(recs, id) then [Assessment(id, KeyOf(recs[id]), recs[id].finalOutcome.value, write)] else []
  }

  function TransitionEntry(s: State, id: string, write: bool): seq<Assessment> {
    var rows := RowsOf(s.checkpoints, id);
    if AllEvaluated(rows) && id in s.recs then [Assessment(id, KeyOf(s.recs[id]), OutcomeOf(rows), write)] else []
  }

  function Written(s: State, op: Op): seq<Assessment> {
    match op
    case UpsertOp(id, period, verdict, at, write) =>
      if id !in s.recs then []
      else TransitionEntry(s.(checkpoints := Evaluated(s.checkpoints, id, period, verdict, at)), id, write)
    case TransitionOp(id, at, write) => TransitionEntry(s, id, write)
    case AssessOp(id, at, write) => Entry(s.recs, id, write)
    case _ => []
  }

  // ----- the PLAN memories others write -----

  /** The sources a step names in PLAN memories, once per reference: one for a posted memory, two for a trace's. */
  function PostedBy(s: State, op: Op): seq<string> {
    match op
    case RememberOp(dto, at) =>
      if dto.agentType == PLAN && dto.source.Some? && Remember(s.agentMemories, dto, at).Success? then [dto.source.value] else []
    case TraceOp(trace, at) =>
      if !HasRow(s.agentMemories, trace.executionId, PLAN)
         && HasRow(Traced(s.agentMemories, trace, at), trace.executionId, PLAN)
      then [trace.executionId, trace.executionId]
      else []
    case _ => []
  }

  function Run(ops: seq<Op>): State {
    if ops == [] then EMPTY else Step(Run(ops[..|ops| - 1]), ops[|ops| - 1])
  }

  function Log(ops: seq<Op>): seq<Assessment> {
    if ops == [] then []
    else Log(ops[..|ops| - 1]) + Written(Run(ops[..|ops| - 1]), ops[|ops| - 1])
  }

  /** All writes of PLAN memories by others than createFromAssessment. */
  function Posts(ops: seq<Op>): seq<string> {
    if ops == [] then []
    else Posts(ops[..|ops| - 1]) + PostedBy(Run(ops[..|ops| - 1]), ops[|ops| - 1])
  }

  ghost predicate Possible(ops: seq<Op>) {
    ops != [] ==> Possible(ops[..|ops| - 1]) && Enabled(Run(ops[..|ops| - 1]), ops[|ops| - 1])
  }

  ghost predicate UniqueRecIds(recs: map<string, Recommendation>) {
    forall a, b | a in recs && b in recs && a != b :: recs[a].recId != recs[b].recId
  }

  ghost predicate SameRecIds(a: map<string, Recommendation>, b: map<string, Recommendation>) {
    a.Keys == b.Keys && forall id | id in a :: a[id].recId == b[id].recId
  }

  lemma TransitionKeepsRecIds(s: State, id: string, now: nat, write: bool)
    ensures SameRecIds(s.recs, Transitioned(s, id, now, write).recs)
  {
  }

  lemma StepKeepsRecIds(s: State, op: Op)
    requires !op.CreateOp?
    ensures SameRecIds(s.recs, Step(s, op).recs)
  {
    match op
    case UpsertOp(id, period, verdict, at, write) =>
      TransitionKeepsRecIds(s.(checkpoints := Evaluated(s.checkpoints, id, period, verdict, at)), id, at, write);
    case TransitionOp(id, at, write) => TransitionKeepsRecIds(s, id, at, write);
    case _ =>
  }

  lemma CreatedKeepsUnique(recs: map<string, Recommendation>, id: string, dto: RecommendationDto)
    requires UniqueRecIds(recs)
    ensures UniqueRecIds(Created(recs, id, dto))
  {
  }

  lemma SameRecIdsUnique(a: map<string, Recommendation>, b: map<string, Recommendation>)
    requires UniqueRecIds(a) && SameRecIds(a, b)
    ensures UniqueRecIds(b)
  {
  }

  /** No run ever stores two recommendations with one public identifier. */
  lemma {:induction false} RecIdsStayUnique(ops: seq<Op>)
    ensures UniqueRecIds(Run(ops).recs)
  {
    if ops != [] {
      var before, op := Run(ops[..|ops| - 1]), ops[|ops| - 1];
      RecIdsStayUnique(ops[..|ops| - 1]);
      if op.CreateOp? {
        CreatedKeepsUnique(before.recs, op.id, op.recommendation);
        assert Run(ops).recs == Created(before.recs, op.id, op.recommendation);
      } else {
        StepKeepsRecIds(before, op);
        SameRecIdsUnique(before.recs, Run(ops).recs);
      }
    }
  }
}
