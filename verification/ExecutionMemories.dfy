/** Memories written from an execution trace: one per agent type, without looking for existing ones. */
module ExecutionMemories {
  import opened Wrappers
  import opened Tables
  import opened MemoryService

  datatype Phase = Phase(agentType: AgentType, decision: Option<string>)

  datatype ExecutionTrace = ExecutionTrace(executionId: string, route: string, finalOutcome: string, retryCount: nat,
                                           preVerify: Option<string>, postVerify: Option<string>, phases: seq<Phase>)

  /** The agent types of the phases, in order of first appearance. */
  function Agents(phases: seq<Phase>): seq<AgentType> {
    if phases == [] then []
    else
      var before, last := Agents(phases[..|phases| - 1]), phases[|phases| - 1].agentType;
      if last in before then before else before + [last]
  }

  /** The decision of an agent's last phase. */
  function LastDecision(phases: seq<Phase>, agent: AgentType): Option<string> {
    if phases == [] then None
    else if phases[|phases| - 1].agentType == agent then phases[|phases| - 1].decision
    else LastDecision(phases[..|phases| - 1], agent)
  }

  predicate IsMixed(x: ExecutionTrace) {
    x.retryCount > 0 || x.preVerify == Some("FLAG") || x.postVerify == Some("FLAG")
  }

  predicate Blocked(x: ExecutionTrace, agent: AgentType, decision: Option<string>) {
    decision == Some("BLOCK") || (agent == PRE_VERIFY && x.preVerify == Some("BLOCK"))
  }

  function OutcomeFor(x: ExecutionTrace): MemoryOutcome {
    if x.finalOutcome == "COMMITTED" then if IsMixed(x) then Mixed else Succeeded
    else if x.finalOutcome == "BLOCKED" then MemoryOutcome.Blocked
    else Failed
  }

  predicate SucceededFor(x: ExecutionTrace, agent: AgentType, decision: Option<string>) {
    x.finalOutcome == "COMMITTED" || (x.finalOutcome == "BLOCKED" && !Blocked(x, agent, decision))
  }

  function NewTrace(x: ExecutionTrace, agent: AgentType, now: nat): AgentMemory {
    TraceOf(x, agent, LastDecision(x.phases, agent), now)
  }

  function TraceOf(x: ExecutionTrace, agent: AgentType, decision: Option<string>, now: nat): AgentMemory {
    AgentMemory(agent, x.route, OutcomeFor(x), SucceededFor(x, agent, decision), decision, None, None, GLOBAL_PROJECT,
                Some(x.executionId), 1, None, 1.0, now)
  }

  predicate HasRow(rows: seq<AgentMemory>, source: string, agent: AgentType) {
    exists m | m in rows :: IsFor(m, Some(source), agent)
  }

  /** One memory per agent, until one violates the unique key; those before it stay. */
  function TraceAgents(rows: seq<AgentMemory>, x: ExecutionTrace, agents: seq<AgentType>, now: nat): seq<AgentMemory>
    decreases agents
  {
    if agents == [] || HasRow(rows, x.executionId, agents[0]) then rows
    else TraceAgents(rows + [NewTrace(x, agents[0], now)], x, agents[1..], now)
  }

  /** createFromExecution as a function of the table. */
  function Traced(rows: seq<AgentMemory>, x: ExecutionTrace, now: nat): seq<AgentMemory> {
    TraceAgents(rows, x, Agents(x.phases), now)
  }

  predicate Clashes(rows: seq<AgentMemory>, x: ExecutionTrace) {
    exists agent | agent in Agents(x.phases) :: HasRow(rows, x.executionId, agent)
  }

  lemma {:induction false} AgentsDistinct(phases: seq<Phase>)
    ensures forall i, j | 0 <= i < j < |Agents(phases)| :: Agents(phases)[i] != Agents(phases)[j]
  {
    if phases != [] {
      AgentsDistinct(phases[..|phases| - 1]);
    }
  }

  /** The rows one execution adds: all for it, at the end, with full weight. */
  lemma {:induction false} TraceExtends(rows: seq<AgentMemory>, x: ExecutionTrace, agents: seq<AgentType>, now: nat)
    ensures rows <= TraceAgents(rows, x, agents, now)
    ensures forall i | |rows| <= i < |TraceAgents(rows, x, agents, now)| ::
              TraceAgents(rows, x, agents, now)[i] == NewTrace(x, TraceAgents(rows, x, agents, now)[i].agentType, now)
    decreases agents
  {
    if agents != [] && !HasRow(rows, x.executionId, agents[0]) {
      TraceExtends(rows + [NewTrace(x, agents[0], now)], x, agents[1..], now);
    }
  }

  lemma {:induction false} TraceKeepsUnique(rows: seq<AgentMemory>, x: ExecutionTrace, agents: seq<AgentType>, now: nat)
    requires UniqueSources(rows)
    ensures UniqueSources(TraceAgents(rows, x, agents, now))
    decreases agents
  {
    if agents != [] && !HasRow(rows, x.executionId, agents[0]) {
      var next := rows + [NewTrace(x, agents[0], now)];
      assert forall i | 0 <= i < |rows| :: rows[i] in rows;
      TraceKeepsUnique(next, x, agents[1..], now);
    }
  }

  /** A second call for the same execution adds nothing: its first memory already violates the unique key. */
  lemma SecondCallAddsNothing(rows: seq<AgentMemory>, x: ExecutionTrace, now: nat, later: nat)
    ensures Traced(Traced(rows, x, now), x, later) == Traced(rows, x, now)
    ensures x.phases != [] ==> Clashes(Traced(rows, x, now), x)
  {
    var agents := Agents(x.phases);
    if agents != [] {
      FirstHasRow(rows, x, agents, now);
    }
    if x.phases != [] {
      AgentsNonEmpty(x.phases);
    }
  }

  lemma AgentsNonEmpty(phases: seq<Phase>)
    requires phases != []
    ensures Agents(phases) != []
  {
  }

  lemma FirstHasRow(rows: seq<AgentMemory>, x: ExecutionTrace, agents: seq<AgentType>, now: nat)
    requires agents != []
    ensures HasRow(TraceAgents(rows, x, agents, now), x.executionId, agents[0])
  {
    if !HasRow(rows, x.executionId, agents[0]) {
      var m := NewTrace(x, agents[0], now);
      TraceExtends(rows + [m], x, agents[1..], now);
      assert (rows + [m])[|rows|] == m;
      assert m in TraceAgents(rows, x, agents, now);
    } else {
      assert TraceAgents(rows, x, agents, now) == rows;
    }
  }

  lemma {:induction false} OthersMissing(rows: seq<AgentMemory>, x: ExecutionTrace, first: AgentType, agents: seq<AgentType>, now: nat)
    requires first !in agents
    ensures forall a | a in agents ::
              HasRow(rows + [NewTrace(x, first, now)], x.executionId, a) <==> HasRow(rows, x.executionId, a)
  {
    var m := NewTrace(x, first, now);
    assert forall a | a in agents :: !IsFor(m, Some(x.executionId), a);
    assert forall r | r in rows :: r in rows + [m];
  }

  lemma {:induction false} TraceCompleteIff(rows: seq<AgentMemory>, x: ExecutionTrace, agents: seq<AgentType>, now: nat)
    requires forall i, j | 0 <= i < j < |agents| :: agents[i] != agents[j]
    ensures |TraceAgents(rows, x, agents, now)| <= |rows| + |agents|
    ensures |TraceAgents(rows, x, agents, now)| == |rows| + |agents|
       <==> forall a | a in agents :: !HasRow(rows, x.executionId, a)
    decreases agents
  {
    if agents != [] {
      assert forall a | a in agents[1..] :: a in agents;
      assert forall a | a in agents :: a == agents[0] || a in agents[1..];
      if !HasRow(rows, x.executionId, agents[0]) {
        OthersMissing(rows, x, agents[0], agents[1..], now);
        TraceCompleteIff(rows + [NewTrace(x, agents[0], now)], x, agents[1..], now);
      }
    }
  }

  /** The call adds one memory for every agent exactly when none of them has one for this execution. */
  lemma TracedCompleteIff(rows: seq<AgentMemory>, x: ExecutionTrace, now: nat)
    ensures |Traced(rows, x, now)| == |rows| + |Agents(x.phases)| <==> !Clashes(rows, x)
  {
    AgentsDistinct(x.phases);
    TraceCompleteIff(rows, x, Agents(x.phases), now);
  }

  /** `x` is absent when the execution does not exist. */
  method CreateFromExecution(db: Database, x: Option<ExecutionTrace>, now: nat) returns (r: Result<seq<AgentMemory>>)
    modifies db`agentMemories
    ensures x.None? ==> r == Failure(NotFound) && db.agentMemories == old(db.agentMemories)
    ensures x.Some? ==> db.agentMemories == Traced(old(db.agentMemories), x.value, now)
    ensures x.Some? ==> r.Failure? == Clashes(old(db.agentMemories), x.value)
    ensures r.Success? ==> db.agentMemories == old(db.agentMemories) + r.value && |r.value| == |Agents(x.value.phases)|
  {
    if x.None? {
      return Failure(NotFound);
    }
    var agents, decisions := GroupPhases(x.value.phases);
    AgentsDistinct(x.value.phases);
    TracedCompleteIff(db.agentMemories, x.value, now);
    r := StoreTraces(db, x.value, agents, decisions, now);
  }

  method StoreTraces(db: Database, x: ExecutionTrace, agents: seq<AgentType>, decisions: map<AgentType, Option<string>>, now: nat)
    returns (r: Result<seq<AgentMemory>>)
    requires forall a | a in agents :: a in decisions && decisions[a] == LastDecision(x.phases, a)
    requires forall i, j | 0 <= i < j < |agents| :: agents[i] != agents[j]
    modifies db`agentMemories
    ensures db.agentMemories == TraceAgents(old(db.agentMemories), x, agents, now)
    ensures r.Success? <==> |db.agentMemories| == old(|db.agentMemories|) + |agents|
    ensures r.Success? ==> db.agentMemories == old(db.agentMemories) + r.value && |r.value| == |agents|
  {
    ghost var before := db.agentMemories;
    var created: seq<AgentMemory> := [];
    for n := 0 to |agents|
      invariant db.agentMemories == before + created && |created| == n
      invariant TraceAgents(db.agentMemories, x, agents[n..], now) == TraceAgents(before, x, agents, now)
    {
      assert agents[n..][0] == agents[n] && agents[n..][1..] == agents[n + 1..];
      if HasRow(db.agentMemories, x.executionId, agents[n]) {
        return Failure(Conflict);
      }
      var m := TraceOf(x, agents[n], decisions[agents[n]], now);
      db.agentMemories := db.agentMemories + [m];
      created := created + [m];
    }
    r := Success(created);
  }

  /** The grouping loop: a Map from agent type to its phases, of which the last decides. */
  method GroupPhases(phases: seq<Phase>) returns (agents: seq<AgentType>, decisions: map<AgentType, Option<string>>)
    ensures agents == Agents(phases)
    ensures forall a | a in agents :: a in decisions && decisions[a] == LastDecision(phases, a)
  {
    agents, decisions := [], map[];
    for n := 0 to |phases|
      invariant agents == Agents(phases[..n])
      invariant forall a | a in agents :: a in decisions && decisions[a] == LastDecision(phases[..n], a)
    {
      assert phases[..n + 1][..n] == phases[..n];
      var agent := phases[n].agentType;
      if agent !in agents {
        agents := agents + [agent];
      }
      decisions := decisions[agent := phases[n].decision];
    }
    assert phases[..|phases|] == phases;
  }

  // ----- the rows of a trace, value by value -----

  /** The decision of the last phase of the agent. */
  ghost predicate DecidedLast(phases: seq<Phase>, agent: AgentType, decision: Option<string>) {
    exists i :: 0 <= i < |phases| && phases[i].agentType == agent && phases[i].decision == decision
             && forall j | i < j < |phases| :: phases[j].agentType != agent
  }

  lemma {:induction false} LastDecisionIs(phases: seq<Phase>, agent: AgentType)
    requires exists p :: p in phases && p.agentType == agent
    ensures DecidedLast(phases, agent, LastDecision(phases, agent))
  {
    var before, last := phases[..|phases| - 1], phases[|phases| - 1];
    if last.agentType != agent {
      var p :| p in phases && p.agentType == agent;
      assert p in before;
      LastDecisionIs(before, agent);
      var i :| 0 <= i < |before| && before[i].agentType == agent && before[i].decision == LastDecision(before, agent)
            && forall j | i < j < |before| :: before[j].agentType != agent;
      assert phases[i] == before[i];
    } else {
      assert phases[|phases| - 1].decision == LastDecision(phases, agent);
    }
  }

  ghost predicate FirstPhase(phases: seq<Phase>, agent: AgentType, n: int) {
    0 <= n < |phases| && phases[n].agentType == agent && forall j | 0 <= j < n :: phases[j].agentType != agent
  }

  /** The agents are those of the phases, each at the place of its first phase. */
  lemma {:induction false} AgentsAre(phases: seq<Phase>)
    ensures forall a :: a in Agents(phases) <==> exists p :: p in phases && p.agentType == a
    ensures forall i, j, m, n | 0 <= i < j < |Agents(phases)| && FirstPhase(phases, Agents(phases)[i], m)
                                && FirstPhase(phases, Agents(phases)[j], n) :: m < n
  {
    if phases != [] {
      var before, last := phases[..|phases| - 1], phases[|phases| - 1];
      AgentsAre(before);
      assert phases == before + [last];
      forall a, m | FirstPhase(phases, a, m)
        ensures m < |before| ==> FirstPhase(before, a, m)
        ensures m == |before| ==> a == last.agentType && forall p | p in before :: p.agentType != a
      {
      }
    }
  }

  /** The outcome the memories of an execution carry: flagged or retried commits are mixed, and only blocks are blocked. */
  ghost predicate TraceOutcome(x: ExecutionTrace, o: MemoryOutcome) {
    match o
    case Succeeded => x.finalOutcome == "COMMITTED" && x.retryCount == 0
                      && x.preVerify != Some("FLAG") && x.postVerify != Some("FLAG")
    case Mixed => x.finalOutcome == "COMMITTED"
                  && (x.retryCount > 0 || x.preVerify == Some("FLAG") || x.postVerify == Some("FLAG"))
    case Blocked => x.finalOutcome == "BLOCKED"
    case Failed => x.finalOutcome != "COMMITTED" && x.finalOutcome != "BLOCKED"
    case Abandoned => false
  }

  /** An agent succeeds with a commit, or in a block that is not its own. */
  ghost predicate TraceSuccess(x: ExecutionTrace, agent: AgentType, decision: Option<string>) {
    || x.finalOutcome == "COMMITTED"
    || (x.finalOutcome == "BLOCKED" && decision != Some("BLOCK") && !(agent == PRE_VERIFY && x.preVerify == Some("BLOCK")))
  }

  /** A memory of the execution for the agent of one of its phases. */
  ghost predicate TraceRow(x: ExecutionTrace, m: AgentMemory, now: nat) {
    && DecidedLast(x.phases, m.agentType, m.decision)
    && TraceOutcome(x, m.outcome) && (m.success <==> TraceSuccess(x, m.agentType, m.decision))
    && m.taskType == x.route && m.source == Some(x.executionId) && m.project == "__global__"
    && m.domain == m.technology == None && m.referenceCount == 1 && m.lastReferencedAt == None
    && m.decayWeight == 1.0 && m.createdAt == now
  }

  lemma NewTraceIs(x: ExecutionTrace, agent: AgentType, now: nat)
    requires agent in Agents(x.phases)
    ensures NewTrace(x, agent, now).agentType == agent && TraceRow(x, NewTrace(x, agent, now), now)
  {
    AgentsAre(x.phases);
    LastDecisionIs(x.phases, agent);
    assert "COMMITTED"[0] != "BLOCKED"[0];
  }

  ghost predicate DistinctAgents(agents: seq<AgentType>) {
    forall i, j | 0 <= i < j < |agents| :: agents[i] != agents[j]
  }

  /** The memories of the agents before the first that has one, in order. */
  ghost predicate AddedUpTo(rows: seq<AgentMemory>, x: ExecutionTrace, agents: seq<AgentType>, now: nat,
                            after: seq<AgentMemory>, n: nat)
  {
    && n <= |agents| && |after| == |rows| + n && after[..|rows|] == rows
    && (forall i | 0 <= i < n :: after[|rows| + i] == NewTrace(x, agents[i], now))
    && (forall i | 0 <= i < n :: !HasRow(rows, x.executionId, agents[i]))
    && (n < |agents| ==> HasRow(rows, x.executionId, agents[n]))
  }

  lemma {:induction false} TraceAgentsAt(rows: seq<AgentMemory>, x: ExecutionTrace, agents: seq<AgentType>, now: nat)
    returns (n: nat)
    requires DistinctAgents(agents)
    ensures AddedUpTo(rows, x, agents, now, TraceAgents(rows, x, agents, now), n)
    decreases agents
  {
    if agents == [] || HasRow(rows, x.executionId, agents[0]) {
      n := 0;
    } else {
      var m := NewTrace(x, agents[0], now);
      var rest := TraceAgentsAt(rows + [m], x, agents[1..], now);
      OthersMissing(rows, x, agents[0], agents[1..], now);
      n := rest + 1;
      OneMoreAdded(rows, x, agents, now, TraceAgents(rows, x, agents, now), rest);
    }
  }

  lemma OneMoreAdded(rows: seq<AgentMemory>, x: ExecutionTrace, agents: seq<AgentType>, now: nat,
                     after: seq<AgentMemory>, n: nat)
    requires agents != [] && !HasRow(rows, x.executionId, agents[0])
    requires AddedUpTo(rows + [NewTrace(x, agents[0], now)], x, agents[1..], now, after, n)
    requires forall a | a in agents[1..] ::
               HasRow(rows + [NewTrace(x, agents[0], now)], x.executionId, a) <==> HasRow(rows, x.executionId, a)
    ensures AddedUpTo(rows, x, agents, now, after, n + 1)
  {
    var next, rest := rows + [NewTrace(x, agents[0], now)], agents[1..];
    assert after[..|rows|] == after[..|next|][..|rows|] == rows;
    forall i | 0 <= i < n + 1
      ensures after[|rows| + i] == NewTrace(x, agents[i], now) && !HasRow(rows, x.executionId, agents[i])
    {
      if i == 0 {
        assert after[|rows|] == after[..|next|][|rows|];
      } else {
        assert after[|next| + (i - 1)] == NewTrace(x, rest[i - 1], now);
        assert rest[i - 1] in rest;
      }
    }
    if n + 1 < |agents| {
      assert rest[n] in rest;
    }
  }

  /**
   * An execution adds the memories of its agents in order, up to the first agent that has a memory for it already; each
   * added row is as it should be.
   */
  lemma TracedRows(rows: seq<AgentMemory>, x: ExecutionTrace, now: nat) returns (n: nat)
    ensures AddedUpTo(rows, x, Agents(x.phases), now, Traced(rows, x, now), n)
    ensures forall i | 0 <= i < n ::
              Traced(rows, x, now)[|rows| + i].agentType == Agents(x.phases)[i]
              && TraceRow(x, Traced(rows, x, now)[|rows| + i], now)
  {
    var agents := Agents(x.phases);
    AgentsDistinct(x.phases);
    n := TraceAgentsAt(rows, x, agents, now);
    forall i | 0 <= i < n
      ensures NewTrace(x, agents[i], now).agentType == agents[i] && TraceRow(x, NewTrace(x, agents[i], now), now)
    {
      assert agents[i] in agents;
      NewTraceIs(x, agents[i], now);
    }
  }
}
