/** The recommendation and memory tables, and the database object the services share. */
module Tables {
  import opened Wrappers

  datatype Period = D30 | D90 | D180
  datatype Verdict = ON_TRACK | CONCERN | PROBLEM | FAILED
  /** The text column final_outcome: the four known outcomes, or any other text. */
  datatype FinalOutcome = SUCCESS | MIXED | FAILURE | ABANDONED | Other(text: string)
  datatype AgentType = ROUTER | PLAN | ARCHITECT | CODE | PRE_VERIFY | POST_VERIFY
  datatype MemoryOutcome = Succeeded | Failed | Mixed | Blocked | Abandoned

  const PENDING := "PENDING"
  const IN_PROGRESS := "IN_PROGRESS"
  const ASSESSED := "ASSESSED"
  const GLOBAL_PROJECT := "__global__"

  datatype Recommendation = Recommendation(recId: string, decisionType: string, domain: string, option: string,
                                           project: Option<string>, status: string, finalOutcome: Option<FinalOutcome>,
                                           assessedAt: Option<nat>)

  datatype Checkpoint = Checkpoint(scheduleAt: nat, evaluatedAt: Option<nat>, verdict: Option<Verdict>)

  datatype AgentMemory = AgentMemory(agentType: AgentType, taskType: string, outcome: MemoryOutcome, success: bool,
                                     decision: Option<string>, domain: Option<string>, technology: Option<string>,
                                     project: string, source: Option<string>, referenceCount: nat,
                                     lastReferencedAt: Option<nat>, decayWeight: real, createdAt: nat)

  /** The unique key of decision_memories. */
  datatype MemoryKey = MemoryKey(domain: string, technology: string, project: string)

  datatype DecisionMemory = DecisionMemory(recommendationId: string, outcome: FinalOutcome, referenceCount: nat,
                                           lastReferencedAt: nat, decayWeight: real, createdAt: nat)

  datatype State = State(recs: map<string, Recommendation>,
                         checkpoints: map<(string, Period), Checkpoint>,
                         agentMemories: seq<AgentMemory>,
                         decisions: map<MemoryKey, DecisionMemory>)

  function OutcomeNamed(text: string): FinalOutcome {
    if text == "SUCCESS" then SUCCESS
    else if text == "MIXED" then MIXED
    else if text == "FAILURE" then FAILURE
    else if text == "ABANDONED" then ABANDONED
    else Other(text)
  }

  function KeyOf(rec: Recommendation): MemoryKey {
    MemoryKey(rec.domain, rec.option, rec.project.GetOr(GLOBAL_PROJECT))
  }

  class Database {
    var recs: map<string, Recommendation>
    var checkpoints: map<(string, Period), Checkpoint>
    var agentMemories: seq<AgentMemory>
    var decisions: map<MemoryKey, DecisionMemory>

    ghost function Contents(): State
      reads this
    {
      State(recs, checkpoints, agentMemories, decisions)
    }

    constructor ()
      ensures Contents() == State(map[], map[], [], map[])
    {
      recs, checkpoints, agentMemories, decisions := map[], map[], [], map[];
    }
  }
}
