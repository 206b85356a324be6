/** The two memory stores agree on what the latest assessment said. */
module StoreAgreement {
  import opened Wrappers
  import opened Tables
  import opened MemoryService
  import opened ExecutionMemories
  import opened DecisionMemoryService
  import opened CheckpointService
  import opened Lifecycle
  import opened Conservation

  ghost predicate SameVerdict(m: MemoryOutcome, o: FinalOutcome) {
    && (m == Succeeded <==> o == SUCCESS)
    && (m == Mixed <==> o == MIXED)
    && (m == Failed <==> o == FAILURE || o.Other?)
    && (m == Abandoned <==> o == ABANDONED)
  }

  /** The agent memory says what a decision memory with this key and outcome says. */
  ghost predicate Mirrors(m: AgentMemory, k: MemoryKey, o: FinalOutcome) {
    && SameVerdict(m.outcome, o) && (m.success <==> o == SUCCESS)
    && m.decision == m.technology == Some(k.technology)
    && m.domain == Some(k.domain) && m.project == k.project
  }

  /** The outcome of the last stored assessment of a recommendation. */
  function LatestStored(log: seq<Assessment>, id: string): Option<FinalOutcome> {
    if log == [] then None
    else
      var e := log[|log| - 1];
      if e.stored && e.id == id then Some(e.outcome) else LatestStored(log[..|log| - 1], id)
  }

  ghost predicate Tells(rows: seq<AgentMemory>, id: string, k: MemoryKey, latest: Option<FinalOutcome>) {
    match latest
    case None => forall m | m in rows :: !IsFor(m, Some(id), PLAN)
    case Some(o) => exists m :: m in rows && IsFor(m, Some(id), PLAN) && Mirrors(m, k, o)
  }

  /** Every recommendation that nobody else wrote about has the memory its assessments left. */
  ghost predicate Agreement(s: State, log: seq<Assessment>, posts: seq<string>) {
    forall id | id in s.recs && id !in posts :: Tells(s.agentMemories, id, KeyOf(s.recs[id]), LatestStored(log, id))
  }

  // ----- what one write does to the rows of a recommendation -----

  lemma OtherSourceTells(rows: seq<AgentMemory>, dto: MemoryDto, now: nat, id: string, k: MemoryKey, latest: Option<FinalOutcome>)
    requires Remember(rows, dto, now).Success? && Tells(rows, id, k, latest)
    requires !(dto.source == Some(id) && dto.agentType == PLAN)
    ensures Tells(Remember(rows, dto, now).value, id, k, latest)
  {
    IndexForCorrect(rows, dto.source, dto.agentType);
    var after := Remember(rows, dto, now).value;
    if latest.Some? {
      var i :| 0 <= i < |rows| && IsFor(rows[i], Some(id), PLAN) && Mirrors(rows[i], k, latest.value);
      assert after[i] == rows[i];
    }
  }

  lemma OwnSourceTells(rows: seq<AgentMemory>, id: string, rec: Recommendation, o: FinalOutcome, now: nat, latest: Option<FinalOutcome>)
    requires id != "" && UniqueSources(rows) && Tells(rows, id, KeyOf(rec), latest)
    ensures Remember(rows, AssessmentDto(id, rec, o), now).Success?
    ensures Tells(Remember(rows, AssessmentDto(id, rec, o), now).value, id, KeyOf(rec), Some(o))
  {
    var dto := AssessmentDto(id, rec, o);
    IndexForCorrect(rows, dto.source, dto.agentType);
    var after := Remember(rows, dto, now).value;
    if |after| == |rows| {
      var i := IndexFor(rows, dto.source, dto.agentType).value;
      assert rows[i] in rows;
      var j :| 0 <= j < |rows| && IsFor(rows[j], Some(id), PLAN) && Mirrors(rows[j], KeyOf(rec), latest.value);
      assert i == j;
      assert Mirrors(after[i], KeyOf(rec), o);
    } else {
      assert Mirrors(after[|rows|], KeyOf(rec), o);
    }
  }

  // ----- what every step keeps -----

  lemma {:induction false} NeverLogged(log: seq<Assessment>, id: string)
    requires forall e | e in log :: e.id != id
    ensures LatestStored(log, id) == None
  {
    if log != [] {
      assert log[|log| - 1] in log;
      NeverLogged(log[..|log| - 1], id);
    }
  }

  lemma AssessedAgrees(s: State, log: seq<Assessment>, posts: seq<string>, id: string, now: nat, write: bool)
    requires Accounted(s, log, posts) && Agreement(s, log, posts)
    ensures Agreement(Assessed(s, id, now, write), log + Entry(s.recs, id, write), posts)
  {
    if Remembers(s.recs, id) {
      var rec := s.recs[id];
      var e := Assessment(id, KeyOf(rec), rec.finalOutcome.value, write);
      var after := Assessed(s, id, now, write);
      assert (log + [e])[..|log|] == log;
      forall x | x in s.recs && x !in posts
        ensures Tells(after.agentMemories, x, KeyOf(s.recs[x]), LatestStored(log + [e], x))
      {
        if x == id {
          OwnSourceTells(s.agentMemories, id, rec, e.outcome, now, LatestStored(log, id));
        } else {
          OtherSourceTells(s.agentMemories, AssessmentDto(id, rec, e.outcome), now, x, KeyOf(s.recs[x]), LatestStored(log, x));
        }
      }
      assert Entry(s.recs, id, write) == [e];
    } else {
      assert log + [] == log;
    }
  }

  lemma TransitionAgrees(s: State, log: seq<Assessment>, posts: seq<string>, id: string, now: nat, write: bool)
    requires Accounted(s, log, posts) && Agreement(s, log, posts)
    ensures Agreement(Transitioned(s, id, now, write), log + TransitionEntry(s, id, write), posts)
  {
    var rows := RowsOf(s.checkpoints, id);
    if AllEvaluated(rows) && id in s.recs {
      var rec := s.recs[id].(status := ASSESSED, finalOutcome := Some(OutcomeOf(rows)), assessedAt := Some(now));
      var t := s.(recs := s.recs[id := rec]);
      KeysOnlyMatter(s, t, log, posts);
      AssessedAgrees(t, log, posts, id, now, write);
      assert Entry(t.recs, id, write) == TransitionEntry(s, id, write);
    } else {
      assert log + [] == log;
    }
  }

  lemma UpsertAgrees(s: State, log: seq<Assessment>, posts: seq<string>, op: Op)
    requires Accounted(s, log, posts) && Agreement(s, log, posts) && op.UpsertOp?
    ensures Agreement(Step(s, op), log + Written(s, op), posts)
  {
    if op.id in s.recs {
      var t := s.(checkpoints := Evaluated(s.checkpoints, op.id, op.period, op.verdict, op.at));
      KeysOnlyMatter(s, t, log, posts);
      TransitionAgrees(t, log, posts, op.id, op.at, op.write);
    } else {
      assert log + [] == log;
    }
  }

  lemma CreateAgrees(s: State, log: seq<Assessment>, posts: seq<string>, op: Op)
    requires Accounted(s, log, posts) && Agreement(s, log, posts) && op.CreateOp? && Enabled(s, op)
    ensures Agreement(Step(s, op), log, posts)
  {
    NeverLogged(log, op.id);
  }

  lemma RememberAgrees(s: State, log: seq<Assessment>, posts: seq<string>, op: Op)
    requires Agreement(s, log, posts) && op.RememberOp?
    ensures Agreement(Step(s, op), log, posts + PostedBy(s, op))
  {
    if Remember(s.agentMemories, op.dto, op.at).Success? {
      forall id | id in s.recs && id !in posts + PostedBy(s, op)
        ensures Tells(Step(s, op).agentMemories, id, KeyOf(s.recs[id]), LatestStored(log, id))
      {
        OtherSourceTells(s.agentMemories, op.dto, op.at, id, KeyOf(s.recs[id]), LatestStored(log, id));
      }
    }
  }

  lemma TraceAgrees(s: State, log: seq<Assessment>, posts: seq<string>, op: Op)
    requires Agreement(s, log, posts) && op.TraceOp?
    ensures Agreement(Step(s, op), log, posts + PostedBy(s, op))
  {
    var rows, x := s.agentMemories, op.trace;
    var after := Traced(rows, x, op.at);
    TraceExtends(rows, x, Agents(x.phases), op.at);
    forall id | id in s.recs && id !in posts + PostedBy(s, op)
      ensures Tells(after, id, KeyOf(s.recs[id]), LatestStored(log, id))
    {
      if LatestStored(log, id).None? {
        TraceAddsNoPlan(rows, after, x, op.at, id);
      } else {
        assert forall m | m in rows :: m in after;
      }
    }
  }

  lemma TraceAddsNoPlan(rows: seq<AgentMemory>, after: seq<AgentMemory>, x: ExecutionTrace, now: nat, id: string)
    requires after == Traced(rows, x, now) && !HasRow(rows, id, PLAN)
    requires x.executionId == id ==> !HasRow(after, id, PLAN)
    ensures !HasRow(after, id, PLAN)
  {
    TraceExtends(rows, x, Agents(x.phases), now);
    forall m | m in after
      ensures !IsFor(m, Some(id), PLAN)
    {
      var i :| 0 <= i < |after| && after[i] == m;
      if i < |rows| {
        assert m in rows;
      }
    }
  }

  lemma StepAgrees(s: State, log: seq<Assessment>, posts: seq<string>, op: Op)
    requires Accounted(s, log, posts) && Agreement(s, log, posts) && Enabled(s, op)
    ensures Agreement(Step(s, op), log + Written(s, op), posts + PostedBy(s, op))
  {
    assert log + [] == log && posts + [] == posts;
    match op
    case CreateOp(_, _) => CreateAgrees(s, log, posts, op);
    case StatusOp(_, _, _) =>
    case OutcomeOp(_, _, _) =>
    case UpsertOp(_, _, _, _, _) => UpsertAgrees(s, log, posts, op);
    case TransitionOp(id, at, write) => TransitionAgrees(s, log, posts, id, at, write);
    case AssessOp(id, at, write) => AssessedAgrees(s, log, posts, id, at, write);
    case RememberOp(_, _) => RememberAgrees(s, log, posts, op);
    case TraceOp(_, _) => TraceAgrees(s, log, posts, op);
  }

  lemma {:induction false} RunAgrees(ops: seq<Op>)
    requires Possible(ops)
    ensures Agreement(Run(ops), Log(ops), Posts(ops))
  {
    if ops != [] {
      RunAccounts(ops[..|ops| - 1]);
      RunAgrees(ops[..|ops| - 1]);
      StepAgrees(Run(ops[..|ops| - 1]), Log(ops[..|ops| - 1]), Posts(ops[..|ops| - 1]), ops[|ops| - 1]);
    }
  }

  // ----- the stores agree -----

  /** The latest assessment of a key is the latest stored one of its recommendation, when no write was lost. */
  lemma {:induction false} LatestIsStored(recs: map<string, Recommendation>, log: seq<Assessment>, k: MemoryKey)
    returns (e: Assessment)
    requires LogFits(recs, log) && LatestFor(log, k).Some? && LostFor(log, k) == 0
    ensures e in log && e.key == k
    ensures LatestFor(log, k) == LatestStored(log, e.id) == Some(e.outcome)
  {
    var before, last := log[..|log| - 1], log[|log| - 1];
    assert last in log;
    if last.key == k {
      e := last;
    } else {
      e := LatestIsStored(recs, before, k);
      assert e in log && last.id != e.id;
    }
  }

  /**
   * Over every run without a swallowed createMemory error for the key and without foreign writes about its
   * recommendations, one of them has a PLAN memory that says exactly what the key's decision memory says.
   */
  lemma StoresAgree(ops: seq<Op>, k: MemoryKey) returns (id: string, m: AgentMemory)
    requires Possible(ops) && k in Run(ops).decisions && LostFor(Log(ops), k) == 0
    requires ForeignFor(ops, k) == 0
    ensures id in Run(ops).recs && KeyOf(Run(ops).recs[id]) == k
    ensures m in Run(ops).agentMemories && IsFor(m, Some(id), PLAN)
    ensures Mirrors(m, k, Run(ops).decisions[k].outcome)
  {
    RunAccounts(ops);
    RunAgrees(ops);
    var s := Run(ops);
    var e := LatestIsStored(s.recs, Log(ops), k);
    id := e.id;
    NotPosted(Posts(ops), IdsWith(s.recs, k), id);
    m :| m in s.agentMemories && IsFor(m, Some(id), PLAN) && Mirrors(m, k, e.outcome);
  }

  lemma {:induction false} NotPosted(posts: seq<string>, ids: set<string>, id: string)
    requires PostedTo(posts, ids) == 0 && id in ids
    ensures id !in posts
  {
    if posts != [] {
      NotPosted(posts[..|posts| - 1], ids, id);
    }
  }

  // ----- where a decision memory comes from -----

  function FirstFor(log: seq<Assessment>, k: MemoryKey): Option<string> {
    if log == [] then None
    else
      var earlier, last := FirstFor(log[..|log| - 1], k), log[|log| - 1];
      if earlier.Some? then earlier else if last.key == k then Some(last.id) else None
  }

  ghost predicate Originated(decisions: map<MemoryKey, DecisionMemory>, log: seq<Assessment>) {
    forall k :: FirstFor(log, k) == if k in decisions then Some(decisions[k].recommendationId) else None
  }

  lemma AssessedOriginated(s: State, log: seq<Assessment>, id: string, now: nat, write: bool)
    requires Originated(s.decisions, log)
    ensures Originated(Assessed(s, id, now, write).decisions, log + Entry(s.recs, id, write))
  {
    var entry := Entry(s.recs, id, write);
    if entry == [] {
      assert log + entry == log;
    } else {
      assert (log + entry)[..|log|] == log;
    }
  }

  lemma TransitionOriginated(s: State, log: seq<Assessment>, id: string, now: nat, write: bool)
    requires Originated(s.decisions, log)
    ensures Originated(Transitioned(s, id, now, write).decisions, log + TransitionEntry(s, id, write))
  {
    var rows := RowsOf(s.checkpoints, id);
    if AllEvaluated(rows) && id in s.recs {
      var rec := s.recs[id].(status := ASSESSED, finalOutcome := Some(OutcomeOf(rows)), assessedAt := Some(now));
      var t := s.(recs := s.recs[id := rec]);
      AssessedOriginated(t, log, id, now, write);
      assert Entry(t.recs, id, write) == TransitionEntry(s, id, write);
    } else {
      assert log + [] == log;
    }
  }

  /**
   * Over every run a decision memory names the recommendation assessed first for its key, whichever recommendation
   * its outcome comes from.
   */
  lemma {:induction false} OriginIsFirst(ops: seq<Op>)
    ensures Originated(Run(ops).decisions, Log(ops))
  {
    if ops != [] {
      var s, log, op := Run(ops[..|ops| - 1]), Log(ops[..|ops| - 1]), ops[|ops| - 1];
      OriginIsFirst(ops[..|ops| - 1]);
      StepOriginated(s, log, op);
    }
  }

  lemma StepOriginated(s: State, log: seq<Assessment>, op: Op)
    requires Originated(s.decisions, log)
    ensures Originated(Step(s, op).decisions, log + Written(s, op))
  {
    assert log + [] == log;
    match op
    case UpsertOp(id, period, verdict, at, write) =>
      if id in s.recs {
        TransitionOriginated(s.(checkpoints := Evaluated(s.checkpoints, id, period, verdict, at)), log, id, at, write);
      }
    case TransitionOp(id, at, write) => TransitionOriginated(s, log, id, at, write);
    case AssessOp(id, at, write) => AssessedOriginated(s, log, id, at, write);
    case _ =>
  }
}
