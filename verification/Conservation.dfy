/** The two memory stores tell the same story: reference counts agree over every run. */
module Conservation {
  import opened Wrappers
  import opened Tables
  import opened MemoryService
  import opened ExecutionMemories
  import opened DecisionMemoryService
  import opened CheckpointService
  import opened Lifecycle

  // ----- counting -----

  function Refs(m: AgentMemory, ids: set<string>): nat {
    if m.agentType == PLAN && m.source.Some? && m.source.value in ids then m.referenceCount + 1 else 0
  }

  /** The sum, over the PLAN memories of these recommendations, of the reference count plus one. */
  function SourceRefs(rows: seq<AgentMemory>, ids: set<string>): nat {
    if rows == [] then 0 else SourceRefs(rows[..|rows| - 1], ids) + Refs(rows[|rows| - 1], ids)
  }

  function StoredFrom(log: seq<Assessment>, ids: set<string>): nat {
    if log == [] then 0
    else
      var e := log[|log| - 1];
      StoredFrom(log[..|log| - 1], ids) + if e.stored && e.id in ids then 1 else 0
  }

  function CallsFor(log: seq<Assessment>, k: MemoryKey): nat {
    if log == [] then 0 else CallsFor(log[..|log| - 1], k) + if log[|log| - 1].key == k then 1 else 0
  }

  /** Calls for the key whose createMemory raised. */
  function LostFor(log: seq<Assessment>, k: MemoryKey): nat {
    if log == [] then 0
    else
      var e := log[|log| - 1];
      LostFor(log[..|log| - 1], k) + if e.key == k && !e.stored then 1 else 0
  }

  function LatestFor(log: seq<Assessment>, k: MemoryKey): Option<FinalOutcome> {
    if log == [] then None
    else if log[|log| - 1].key == k then Some(log[|log| - 1].outcome)
    else LatestFor(log[..|log| - 1], k)
  }

  /** References to these recommendations written by others than createFromAssessment. */
  function PostedTo(posts: seq<string>, ids: set<string>): nat {
    if posts == [] then 0 else PostedTo(posts[..|posts| - 1], ids) + if posts[|posts| - 1] in ids then 1 else 0
  }

  function IdsWith(recs: map<string, Recommendation>, k: MemoryKey): set<string> {
    set id | id in recs && KeyOf(recs[id]) == k
  }

  lemma {:induction false} SourceRefsUpdate(rows: seq<AgentMemory>, i: nat, m: AgentMemory, ids: set<string>)
    requires i < |rows|
    ensures SourceRefs(rows[i := m], ids) + Refs(rows[i], ids) == SourceRefs(rows, ids) + Refs(m, ids)
  {
    var n := |rows| - 1;
    if i < n {
      SourceRefsUpdate(rows[..n], i, m, ids);
      assert rows[i := m][..n] == rows[..n][i := m];
    } else {
      assert rows[i := m][..n] == rows[..n];
    }
  }

  /** Remembering raises the count of its own source by one and no other. */
  lemma RememberRefs(rows: seq<AgentMemory>, dto: MemoryDto, now: nat, ids: set<string>)
    requires Remember(rows, dto, now).Success?
    ensures SourceRefs(Remember(rows, dto, now).value, ids) == SourceRefs(rows, ids)
         + if dto.agentType == PLAN && dto.source.Some? && dto.source.value in ids then 1 else 0
  {
    IndexForCorrect(rows, dto.source, dto.agentType);
    var after := Remember(rows, dto, now).value;
    if |after| == |rows| {
      var i := IndexFor(rows, dto.source, dto.agentType).value;
      SourceRefsUpdate(rows, i, Refreshed(rows[i], dto, now), ids);
    } else {
      assert after[..|rows|] == rows;
    }
  }

  lemma {:induction false} SourceRefsWithout(rows: seq<AgentMemory>, ids: set<string>, id: string)
    requires forall m | m in rows :: !IsFor(m, Some(id), PLAN)
    ensures SourceRefs(rows, ids) == SourceRefs(rows, ids - {id})
  {
    if rows != [] {
      SourceRefsWithout(rows[..|rows| - 1], ids, id);
      assert rows[|rows| - 1] in rows;
    }
  }

  lemma {:induction false} StoredFromWithout(log: seq<Assessment>, ids: set<string>, id: string)
    requires forall e | e in log :: e.id != id
    ensures StoredFrom(log, ids) == StoredFrom(log, ids - {id})
  {
    if log != [] {
      StoredFromWithout(log[..|log| - 1], ids, id);
      assert log[|log| - 1] in log;
    }
  }

  lemma {:induction false} PostedToWithout(posts: seq<string>, ids: set<string>, id: string)
    requires id !in posts
    ensures PostedTo(posts, ids) == PostedTo(posts, ids - {id})
  {
    if posts != [] {
      PostedToWithout(posts[..|posts| - 1], ids, id);
    }
  }

  /** A trace is worth two references to its execution when it stores the PLAN memory, and none otherwise. */
  lemma {:induction false} TraceRefs(rows: seq<AgentMemory>, x: ExecutionTrace, agents: seq<AgentType>, now: nat, ids: set<string>)
    ensures SourceRefs(TraceAgents(rows, x, agents, now), ids) == SourceRefs(rows, ids)
         + if !HasRow(rows, x.executionId, PLAN) && HasRow(TraceAgents(rows, x, agents, now), x.executionId, PLAN)
              && x.executionId in ids then 2 else 0
    decreases agents
  {
    if agents != [] && !HasRow(rows, x.executionId, agents[0]) {
      var m := NewTrace(x, agents[0], now);
      var next := rows + [m];
      TraceRefs(next, x, agents[1..], now, ids);
      TraceExtends(next, x, agents[1..], now);
      assert next[..|rows|] == rows;
      RowAdded(rows, m, x.executionId);
      if HasRow(next, x.executionId, PLAN) {
        RowsKept(next, TraceAgents(next, x, agents[1..], now), x.executionId);
      }
    }
  }

  lemma RowAdded(rows: seq<AgentMemory>, m: AgentMemory, id: string)
    ensures HasRow(rows + [m], id, PLAN) <==> HasRow(rows, id, PLAN) || IsFor(m, Some(id), PLAN)
  {
    assert m in rows + [m];
    assert forall r | r in rows :: r in rows + [m];
  }

  lemma RowsKept(rows: seq<AgentMemory>, after: seq<AgentMemory>, id: string)
    requires rows <= after && HasRow(rows, id, PLAN)
    ensures HasRow(after, id, PLAN)
  {
    var m :| m in rows && IsFor(m, Some(id), PLAN);
    assert m in after;
  }

  // ----- what every step keeps -----

  /** Logged calls belong to existing recommendations, under the key those have. */
  ghost predicate LogFits(recs: map<string, Recommendation>, log: seq<Assessment>) {
    forall e | e in log :: e.id in recs && e.key == KeyOf(recs[e.id])
  }

  ghost predicate DecisionsMatch(decisions: map<MemoryKey, DecisionMemory>, log: seq<Assessment>) {
    forall k ::
      && (k in decisions <==> LatestFor(log, k).Some?)
      && (k in decisions ==> decisions[k].referenceCount == CallsFor(log, k) && LatestFor(log, k) == Some(decisions[k].outcome))
  }

  ghost predicate MemoriesMatch(s: State, log: seq<Assessment>, posts: seq<string>) {
    forall ids | ids <= s.recs.Keys :: SourceRefs(s.agentMemories, ids) == StoredFrom(log, ids) + PostedTo(posts, ids)
  }

  /** What was posted is still there. */
  ghost predicate PostsHaveRows(rows: seq<AgentMemory>, posts: seq<string>) {
    forall x | x in posts :: HasRow(rows, x, PLAN)
  }

  ghost predicate Accounted(s: State, log: seq<Assessment>, posts: seq<string>) {
    && "" !in s.recs
    && UniqueSources(s.agentMemories)
    && LogFits(s.recs, log)
    && DecisionsMatch(s.decisions, log)
    && MemoriesMatch(s, log, posts)
    && PostsHaveRows(s.agentMemories, posts)
  }

  /** Same recommendations under the same keys; status, outcome and dates may differ. */
  ghost predicate SameKeys(a: map<string, Recommendation>, b: map<string, Recommendation>) {
    a.Keys == b.Keys && forall id | id in a :: KeyOf(a[id]) == KeyOf(b[id])
  }

  lemma KeysOnlyMatter(s: State, t: State, log: seq<Assessment>, posts: seq<string>)
    requires Accounted(s, log, posts) && SameKeys(s.recs, t.recs)
    requires t.agentMemories == s.agentMemories && t.decisions == s.decisions
    ensures Accounted(t, log, posts)
  {
  }

  lemma DecisionUpserted(decisions: map<MemoryKey, DecisionMemory>, log: seq<Assessment>, e: Assessment, now: nat)
    requires DecisionsMatch(decisions, log)
    ensures DecisionsMatch(UpsertDecision(decisions, e.key, e.id, e.outcome, now), log + [e])
  {
    var after := UpsertDecision(decisions, e.key, e.id, e.outcome, now);
    assert (log + [e])[..|log|] == log;
    NoCallsNoLatest(log, e.key);
    forall k
      ensures k in after <==> LatestFor(log + [e], k).Some?
      ensures k in after ==> after[k].referenceCount == CallsFor(log + [e], k) && LatestFor(log + [e], k) == Some(after[k].outcome)
    {
    }
  }

  lemma {:induction false} NoCallsNoLatest(log: seq<Assessment>, k: MemoryKey)
    ensures CallsFor(log, k) == 0 <==> LatestFor(log, k).None?
  {
    if log != [] {
      NoCallsNoLatest(log[..|log| - 1], k);
    }
  }

  /** Remembering keeps every source that has a row, and gives its own source one. */
  lemma RememberKeepsRows(rows: seq<AgentMemory>, dto: MemoryDto, now: nat, id: string)
    requires Remember(rows, dto, now).Success?
    requires HasRow(rows, id, PLAN) || (dto.source == Some(id) && dto.agentType == PLAN)
    ensures HasRow(Remember(rows, dto, now).value, id, PLAN)
  {
    IndexForCorrect(rows, dto.source, dto.agentType);
    var after := Remember(rows, dto, now).value;
    if HasRow(rows, id, PLAN) {
      var i :| 0 <= i < |rows| && IsFor(rows[i], Some(id), PLAN);
      assert IsFor(after[i], Some(id), PLAN) && after[i] in after;
    } else {
      assert after[|rows|] in after;
    }
  }

  /** A completed call of createFromAssessment is worth one reference in each store, or in one when the write was lost. */
  lemma AssessedAccounts(s: State, log: seq<Assessment>, posts: seq<string>, id: string, now: nat, write: bool)
    requires Accounted(s, log, posts)
    ensures Accounted(Assessed(s, id, now, write), log + Entry(s.recs, id, write), posts)
  {
    if Remembers(s.recs, id) {
      var rec := s.recs[id];
      var e := Assessment(id, KeyOf(rec), rec.finalOutcome.value, write);
      var dto := AssessmentDto(id, rec, e.outcome);
      var after := Assessed(s, id, now, write);
      DecisionUpserted(s.decisions, log, e, now);
      assert Remember(s.agentMemories, dto, now).Success?;
      RememberKeepsUnique(s.agentMemories, dto, now);
      StoredSnoc(log, e);
      forall ids | ids <= s.recs.Keys
        ensures SourceRefs(after.agentMemories, ids) == StoredFrom(log + [e], ids) + PostedTo(posts, ids)
      {
        RememberRefs(s.agentMemories, dto, now, ids);
      }
      forall x | x in posts
        ensures HasRow(after.agentMemories, x, PLAN)
      {
        RememberKeepsRows(s.agentMemories, dto, now, x);
      }
      assert Entry(s.recs, id, write) == [e];
    } else {
      assert log + [] == log;
    }
  }

  lemma StoredSnoc(log: seq<Assessment>, e: Assessment)
    ensures forall ids :: StoredFrom(log + [e], ids) == StoredFrom(log, ids) + if e.stored && e.id in ids then 1 else 0
  {
    assert (log + [e])[..|log|] == log;
  }

  lemma TransitionAccounts(s: State, log: seq<Assessment>, posts: seq<string>, id: string, now: nat, write: bool)
    requires Accounted(s, log, posts)
    ensures Accounted(Transitioned(s, id, now, write), log + TransitionEntry(s, id, write), posts)
  {
    var rows := RowsOf(s.checkpoints, id);
    if AllEvaluated(rows) && id in s.recs {
      var rec := s.recs[id].(status := ASSESSED, finalOutcome := Some(OutcomeOf(rows)), assessedAt := Some(now));
      var t := s.(recs := s.recs[id := rec]);
      KeysOnlyMatter(s, t, log, posts);
      AssessedAccounts(t, log, posts, id, now, write);
      assert Entry(t.recs, id, write) == TransitionEntry(s, id, write);
    } else {
      assert log + [] == log;
    }
  }

  lemma CreateAccounts(s: State, log: seq<Assessment>, posts: seq<string>, op: Op)
    requires Accounted(s, log, posts) && op.CreateOp? && Enabled(s, op)
    ensures Accounted(Step(s, op), log, posts)
  {
    assert op.id !in posts;
    forall ids | ids <= Step(s, op).recs.Keys
      ensures SourceRefs(s.agentMemories, ids) == StoredFrom(log, ids) + PostedTo(posts, ids)
    {
      SourceRefsWithout(s.agentMemories, ids, op.id);
      StoredFromWithout(log, ids, op.id);
      PostedToWithout(posts, ids, op.id);
      assert ids - {op.id} <= s.recs.Keys;
    }
  }

  lemma PostedSnoc(posts: seq<string>, x: string)
    ensures forall ids :: PostedTo(posts + [x], ids) == PostedTo(posts, ids) + if x in ids then 1 else 0
  {
    assert (posts + [x])[..|posts|] == posts;
  }

  /** A posted memory is worth one reference to the recommendation it names. */
  lemma RememberAccounts(s: State, log: seq<Assessment>, posts: seq<string>, op: Op)
    requires Accounted(s, log, posts) && op.RememberOp?
    ensures Accounted(Step(s, op), log, posts + PostedBy(s, op))
  {
    var rows, r := s.agentMemories, Remember(s.agentMemories, op.dto, op.at);
    var now := posts + PostedBy(s, op);
    if r.Success? {
      RememberKeepsUnique(rows, op.dto, op.at);
      if op.dto.source.Some? {
        PostedSnoc(posts, op.dto.source.value);
      }
      assert posts + [] == posts;
      forall ids | ids <= s.recs.Keys
        ensures SourceRefs(r.value, ids) == StoredFrom(log, ids) + PostedTo(now, ids)
      {
        RememberRefs(rows, op.dto, op.at, ids);
      }
      forall x | x in now
        ensures HasRow(r.value, x, PLAN)
      {
        RememberKeepsRows(rows, op.dto, op.at, x);
      }
    } else {
      assert posts + [] == posts;
    }
  }

  /** A trace that stores a PLAN memory is worth two. */
  lemma TraceAccounts(s: State, log: seq<Assessment>, posts: seq<string>, op: Op)
    requires Accounted(s, log, posts) && op.TraceOp?
    ensures Accounted(Step(s, op), log, posts + PostedBy(s, op))
  {
    var rows, x := s.agentMemories, op.trace;
    var after, now := Traced(rows, x, op.at), posts + PostedBy(s, op);
    TraceKeepsUnique(rows, x, Agents(x.phases), op.at);
    TraceExtends(rows, x, Agents(x.phases), op.at);
    PostedSnoc(posts, x.executionId);
    PostedSnoc(posts + [x.executionId], x.executionId);
    assert posts + [] == posts && posts + [x.executionId] + [x.executionId] == posts + [x.executionId, x.executionId];
    forall ids | ids <= s.recs.Keys
      ensures SourceRefs(after, ids) == StoredFrom(log, ids) + PostedTo(now, ids)
    {
      TraceRefs(rows, x, Agents(x.phases), op.at, ids);
    }
    forall y | y in posts
      ensures HasRow(after, y, PLAN)
    {
      RowsKept(rows, after, y);
    }
  }

  lemma StepAccounts(s: State, log: seq<Assessment>, posts: seq<string>, op: Op)
    requires Accounted(s, log, posts) && Enabled(s, op)
    ensures Accounted(Step(s, op), log + Written(s, op), posts + PostedBy(s, op))
  {
    assert log + [] == log && posts + [] == posts;
    match op
    case CreateOp(_, _) => CreateAccounts(s, log, posts, op);
    case StatusOp(_, _, _) => KeysOnlyMatter(s, Step(s, op), log, posts);
    case OutcomeOp(_, _, _) => KeysOnlyMatter(s, Step(s, op), log, posts);
    case UpsertOp(_, _, _, _, _) => UpsertAccounts(s, log, posts, op);
    case TransitionOp(id, at, write) => TransitionAccounts(s, log, posts, id, at, write);
    case AssessOp(id, at, write) => AssessedAccounts(s, log, posts, id, at, write);
    case RememberOp(_, _) => RememberAccounts(s, log, posts, op);
    case TraceOp(_, _) => TraceAccounts(s, log, posts, op);
  }

  lemma UpsertAccounts(s: State, log: seq<Assessment>, posts: seq<string>, op: Op)
    requires Accounted(s, log, posts) && op.UpsertOp?
    ensures Accounted(Step(s, op), log + Written(s, op), posts)
  {
    if op.id in s.recs {
      var t := s.(checkpoints := Evaluated(s.checkpoints, op.id, op.period, op.verdict, op.at));
      KeysOnlyMatter(s, t, log, posts);
      TransitionAccounts(t, log, posts, op.id, op.at, op.write);
    } else {
      assert log + [] == log;
    }
  }

  lemma {:induction false} RunAccounts(ops: seq<Op>)
    requires Possible(ops)
    ensures Accounted(Run(ops), Log(ops), Posts(ops))
  {
    if ops != [] {
      RunAccounts(ops[..|ops| - 1]);
      StepAccounts(Run(ops[..|ops| - 1]), Log(ops[..|ops| - 1]), Posts(ops[..|ops| - 1]), ops[|ops| - 1]);
    } else {
      assert MemoriesMatch(EMPTY, [], []);
    }
  }

  lemma {:induction false} CallsAreStoredOrLost(recs: map<string, Recommendation>, log: seq<Assessment>, k: MemoryKey)
    requires LogFits(recs, log)
    ensures CallsFor(log, k) == StoredFrom(log, IdsWith(recs, k)) + LostFor(log, k)
  {
    if log != [] {
      assert log[|log| - 1] in log;
      CallsAreStoredOrLost(recs, log[..|log| - 1], k);
    }
  }

  /** References others wrote to the PLAN memories of the recommendations with this key. */
  function ForeignFor(ops: seq<Op>, k: MemoryKey): nat {
    PostedTo(Posts(ops), IdsWith(Run(ops).recs, k))
  }

  /**
   * Cross-store conservation. Over every run a decision memory's reference count, with the references others wrote, is
   * the sum, over the recommendations with its key, of their PLAN memory's count plus one, and one more for each
   * swallowed createMemory error.
   */
  lemma ReferencesAreConserved(ops: seq<Op>, k: MemoryKey)
    requires Possible(ops) && k in Run(ops).decisions
    ensures Run(ops).decisions[k].referenceCount + ForeignFor(ops, k)
         == SourceRefs(Run(ops).agentMemories, IdsWith(Run(ops).recs, k)) + LostFor(Log(ops), k)
    ensures LatestFor(Log(ops), k) == Some(Run(ops).decisions[k].outcome)
  {
    RunAccounts(ops);
    var s := Run(ops);
    assert IdsWith(s.recs, k) <= s.recs.Keys;
    CallsAreStoredOrLost(s.recs, Log(ops), k);
  }

  /** So the two stores count the same exactly when foreign references balance the swallowed errors, as when there are neither. */
  lemma CountsAgreeIff(ops: seq<Op>, k: MemoryKey)
    requires Possible(ops) && k in Run(ops).decisions
    ensures Run(ops).decisions[k].referenceCount == SourceRefs(Run(ops).agentMemories, IdsWith(Run(ops).recs, k))
       <==> ForeignFor(ops, k) == LostFor(Log(ops), k)
  {
    ReferencesAreConserved(ops, k);
  }

  /** No run ever holds two rows for one source and agent; a recommendation's PLAN memory counts its stored assessments and posts. */
  lemma OneRowPerSource(ops: seq<Op>, id: string)
    requires Possible(ops) && id in Run(ops).recs
    ensures UniqueSources(Run(ops).agentMemories)
    ensures SourceRefs(Run(ops).agentMemories, {id}) == StoredFrom(Log(ops), {id}) + PostedTo(Posts(ops), {id})
  {
    RunAccounts(ops);
  }

  /** Without a decision memory for a key, its recommendations have no references but foreign ones. */
  lemma NoDecisionNoMemory(ops: seq<Op>, k: MemoryKey)
    requires Possible(ops) && k !in Run(ops).decisions
    ensures SourceRefs(Run(ops).agentMemories, IdsWith(Run(ops).recs, k)) == ForeignFor(ops, k)
  {
    RunAccounts(ops);
    var s := Run(ops);
    assert IdsWith(s.recs, k) <= s.recs.Keys;
    NoCallsNoLatest(Log(ops), k);
    CallsAreStoredOrLost(s.recs, Log(ops), k);
  }
}
