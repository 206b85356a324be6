/** When a scheduled recommendation becomes ASSESSED, and with which outcome. */
module CheckpointRuns {
  import opened Wrappers
  import opened Tables
  import opened RecommendationService
  import opened CheckpointService
  import opened Lifecycle

  /** After scheduling, only checkpoint upserts touch `id`; everything else may happen to other recommendations. */
  ghost predicate LeavesAlone(op: Op, id: string) {
    match op
    case CreateOp(i, _) => i != id
    case StatusOp(i, _, _) => i != id
    case OutcomeOp(i, _, _) => i != id
    case TransitionOp(i, _, _) => i != id
    case UpsertOp(_, _, _, _, _) => true
    case AssessOp(_, _, _) => true
    case RememberOp(_, _) => true
    case TraceOp(_, _) => true
  }

  function RunFrom(s: State, ops: seq<Op>): State {
    if ops == [] then s else Step(RunFrom(s, ops[..|ops| - 1]), ops[|ops| - 1])
  }

  /** The verdicts given for one period of one recommendation, in order. */
  function History(ops: seq<Op>, id: string, p: Period): seq<Option<Verdict>> {
    if ops == [] then []
    else
      var op := ops[|ops| - 1];
      History(ops[..|ops| - 1], id, p) + if op.UpsertOp? && op.id == id && op.period == p then [op.verdict] else []
  }

  /** The verdict that counts: the last one actually given. */
  function Current(history: seq<Option<Verdict>>): Option<Verdict> {
    if history == [] then None
    else if history[|history| - 1].Some? then history[|history| - 1]
    else Current(history[..|history| - 1])
  }

  function Verdicts(ops: seq<Op>, id: string): seq<Option<Verdict>> {
    [Current(History(ops, id, D30)), Current(History(ops, id, D90)), Current(History(ops, id, D180))]
  }

  /** All three periods have been assessed at least once. */
  ghost predicate Complete(ops: seq<Op>, id: string) {
    forall p :: History(ops, id, p) != []
  }

  /** FAILED is worst, PROBLEM and CONCERN are equally bad, ON_TRACK is as good as no verdict. */
  function Severity(v: Option<Verdict>): nat {
    match v
    case None => 0
    case Some(ON_TRACK) => 0
    case Some(CONCERN) => 1
    case Some(PROBLEM) => 1
    case Some(FAILED) => 2
  }

  /** The outcome is decided by the worst verdict alone. */
  ghost predicate DecidedByWorst(outcome: FinalOutcome, verdicts: seq<Option<Verdict>>) {
    && (outcome == FAILURE <==> exists v | v in verdicts :: Severity(v) == 2)
    && (outcome == SUCCESS <==> forall v | v in verdicts :: Severity(v) == 0)
    && outcome in {SUCCESS, MIXED, FAILURE}
  }

  ghost predicate Scheduled(s: State, id: string) {
    && id in s.recs && s.recs[id].status == "IN_PROGRESS" && s.recs[id].finalOutcome.None?
    && forall p :: (id, p) in s.checkpoints && s.checkpoints[(id, p)].evaluatedAt.None? && s.checkpoints[(id, p)].verdict.None?
  }

  /** Moving a fresh recommendation to IN_PROGRESS schedules all three periods. */
  lemma StatusChangeSchedules(s: State, id: string, now: nat)
    requires id in s.recs && s.recs[id].status == "PENDING" && s.recs[id].finalOutcome.None?
    requires forall p :: (id, p) !in s.checkpoints
    ensures Scheduled(StatusUpdated(s, id, "IN_PROGRESS", now), id)
    ensures forall p :: StatusUpdated(s, id, "IN_PROGRESS", now).checkpoints[(id, p)].scheduleAt
                     == now + match p case D30 => 2_592_000_000 case D90 => 7_776_000_000 case D180 => 15_552_000_000
  {
    var t := StatusUpdated(s, id, "IN_PROGRESS", now);
    forall p: Period
      ensures (id, p) in t.checkpoints && t.checkpoints[(id, p)] == Checkpoint(now + Delay(p), None, None)
    {
      match p
      case D30 =>
      case D90 =>
      case D180 =>
    }
  }

  /** Each checkpoint row holds whether and how its period was assessed. */
  ghost predicate RowsTrack(checkpoints: Checkpoints, ops: seq<Op>, id: string) {
    forall p :: (id, p) in checkpoints
                && (checkpoints[(id, p)].evaluatedAt.Some? <==> History(ops, id, p) != [])
                && checkpoints[(id, p)].verdict == Current(History(ops, id, p))
  }

  /** What the tables hold about `id` after the operations. */
  ghost predicate Tracks(s: State, ops: seq<Op>, id: string) {
    && id in s.recs
    && RowsTrack(s.checkpoints, ops, id)
    && (if Complete(ops, id) then
          s.recs[id].status == "ASSESSED" && s.recs[id].finalOutcome.Some?
          && DecidedByWorst(s.recs[id].finalOutcome.value, Verdicts(ops, id))
        else s.recs[id].status == "IN_PROGRESS" && s.recs[id].finalOutcome.None?)
  }

  lemma OutcomeIsWorst(rows: seq<Checkpoint>, verdicts: seq<Option<Verdict>>)
    requires |rows| == |verdicts| == 3 && forall i | 0 <= i < 3 :: rows[i].verdict == verdicts[i]
    ensures DecidedByWorst(OutcomeOf(rows), verdicts)
  {
    assert rows[0] in rows && rows[1] in rows && rows[2] in rows;
    assert verdicts[0] in verdicts && verdicts[1] in verdicts && verdicts[2] in verdicts;
  }

  lemma HistorySnoc(ops: seq<Op>, op: Op, id: string, p: Period)
    ensures History(ops + [op], id, p)
         == if op.UpsertOp? && op.id == id && op.period == p then History(ops, id, p) + [op.verdict] else History(ops, id, p)
  {
    assert (ops + [op])[..|ops|] == ops;
  }

  /** Nothing the tables hold about `id` differs. */
  ghost predicate SameFor(s: State, t: State, id: string) {
    && id in s.recs && id in t.recs && t.recs[id] == s.recs[id]
    && forall p :: (id, p) in s.checkpoints ==> (id, p) in t.checkpoints && t.checkpoints[(id, p)] == s.checkpoints[(id, p)]
  }

  lemma OtherTransition(s: State, other: string, now: nat, write: bool, id: string)
    requires id in s.recs && other != id
    ensures SameFor(s, Transitioned(s, other, now, write), id)
  {
  }

  lemma OtherUpsert(s: State, op: Op, id: string)
    requires op.UpsertOp? && id in s.recs && op.id != id
    ensures SameFor(s, Step(s, op), id)
  {
    var t := s.(checkpoints := Evaluated(s.checkpoints, op.id, op.period, op.verdict, op.at));
    assert SameFor(s, t, id);
    OtherTransition(t, op.id, op.at, op.write, id);
  }

  lemma OtherStatus(s: State, op: Op, id: string)
    requires op.StatusOp? && id in s.recs && op.id != id
    ensures SameFor(s, Step(s, op), id)
  {
  }

  /** Steps about other recommendations change nothing here. */
  lemma OtherStep(s: State, op: Op, id: string)
    requires id in s.recs && LeavesAlone(op, id) && !(op.UpsertOp? && op.id == id)
    ensures SameFor(s, Step(s, op), id)
  {
    match op
    case UpsertOp(_, _, _, _, _) => OtherUpsert(s, op, id);
    case TransitionOp(other, at, write) => OtherTransition(s, other, at, write, id);
    case StatusOp(_, _, _) => OtherStatus(s, op, id);
    case _ =>
  }

  lemma CurrentSnoc(history: seq<Option<Verdict>>, v: Option<Verdict>)
    ensures Current(history + [v]) == if v.Some? then v else Current(history)
  {
    assert (history + [v])[..|history|] == history;
  }

  lemma UpsertedRowsTrack(checkpoints: Checkpoints, ops: seq<Op>, op: Op)
    requires op.UpsertOp? && RowsTrack(checkpoints, ops, op.id)
    ensures RowsTrack(Evaluated(checkpoints, op.id, op.period, op.verdict, op.at), ops + [op], op.id)
  {
    var after := Evaluated(checkpoints, op.id, op.period, op.verdict, op.at);
    forall p: Period
      ensures (op.id, p) in after
      ensures after[(op.id, p)].evaluatedAt.Some? <==> History(ops + [op], op.id, p) != []
      ensures after[(op.id, p)].verdict == Current(History(ops + [op], op.id, p))
    {
      HistorySnoc(ops, op, op.id, p);
      CurrentSnoc(History(ops, op.id, p), op.verdict);
    }
  }

  /** The transition's guard is completeness, its outcome the worst current verdict. */
  lemma TransitionTracks(checkpoints: Checkpoints, ops: seq<Op>, id: string)
    requires RowsTrack(checkpoints, ops, id)
    ensures AllEvaluated(RowsOf(checkpoints, id)) <==> Complete(ops, id)
    ensures DecidedByWorst(OutcomeOf(RowsOf(checkpoints, id)), Verdicts(ops, id))
  {
    var rows := [checkpoints[(id, D30)], checkpoints[(id, D90)], checkpoints[(id, D180)]];
    assert RowsOf(checkpoints, id) == rows;
    assert rows[0] in rows && rows[1] in rows && rows[2] in rows;
    OutcomeIsWorst(rows, Verdicts(ops, id));
    if AllEvaluated(rows) {
      forall p: Period
        ensures History(ops, id, p) != []
      {
        match p
        case D30 =>
        case D90 =>
        case D180 =>
      }
    }
  }

  lemma StaysComplete(ops: seq<Op>, op: Op, id: string)
    requires Complete(ops, id)
    ensures Complete(ops + [op], id)
  {
    forall p: Period
      ensures History(ops + [op], id, p) != []
    {
      HistorySnoc(ops, op, id, p);
    }
  }

  lemma UpsertTracks(s: State, ops: seq<Op>, op: Op)
    requires op.UpsertOp? && Tracks(s, ops, op.id)
    ensures Tracks(Step(s, op), ops + [op], op.id)
  {
    UpsertedRowsTrack(s.checkpoints, ops, op);
    TransitionTracks(Evaluated(s.checkpoints, op.id, op.period, op.verdict, op.at), ops + [op], op.id);
    UpsertedRec(s, op, Step(s, op));
    RecTracks(s, ops, op, Step(s, op));
  }

  lemma UpsertedRec(s: State, op: Op, t: State)
    requires op.UpsertOp? && op.id in s.recs && t == Step(s, op)
    ensures t.checkpoints == Evaluated(s.checkpoints, op.id, op.period, op.verdict, op.at)
    ensures op.id in t.recs
    ensures if AllEvaluated(RowsOf(t.checkpoints, op.id)) then
              t.recs[op.id].status == ASSESSED && t.recs[op.id].finalOutcome == Some(OutcomeOf(RowsOf(t.checkpoints, op.id)))
            else t.recs[op.id] == s.recs[op.id]
  {
  }

  lemma RecTracks(s: State, ops: seq<Op>, op: Op, t: State)
    requires op.UpsertOp? && Tracks(s, ops, op.id) && op.id in t.recs && RowsTrack(t.checkpoints, ops + [op], op.id)
    requires if Complete(ops + [op], op.id) then
               t.recs[op.id].status == ASSESSED && t.recs[op.id].finalOutcome == Some(OutcomeOf(RowsOf(t.checkpoints, op.id)))
             else t.recs[op.id] == s.recs[op.id]
    requires DecidedByWorst(OutcomeOf(RowsOf(t.checkpoints, op.id)), Verdicts(ops + [op], op.id))
    ensures Tracks(t, ops + [op], op.id)
  {
    if Complete(ops, op.id) {
      StaysComplete(ops, op, op.id);
    }
  }

  lemma OtherTracks(s: State, ops: seq<Op>, op: Op, id: string)
    requires Tracks(s, ops, id) && LeavesAlone(op, id) && !(op.UpsertOp? && op.id == id)
    ensures Tracks(Step(s, op), ops + [op], id)
  {
    OtherStep(s, op, id);
    forall p: Period
      ensures History(ops + [op], id, p) == History(ops, id, p)
    {
      HistorySnoc(ops, op, id, p);
    }
  }

  /**
   * A scheduled recommendation is ASSESSED exactly when all three periods have been assessed, then and after every
   * later upsert with the outcome of the worst current verdict.
   */
  lemma {:induction false} AssessedWhenComplete(s: State, ops: seq<Op>, id: string)
    requires Scheduled(s, id) && forall op | op in ops :: LeavesAlone(op, id)
    ensures Tracks(RunFrom(s, ops), ops, id)
  {
    if ops == [] {
      assert History(ops, id, D30) == [];
    } else {
      var before, op := ops[..|ops| - 1], ops[|ops| - 1];
      assert ops == before + [op];
      AssessedWhenComplete(s, before, id);
      if op.UpsertOp? && op.id == id {
        UpsertTracks(RunFrom(s, before), before, op);
      } else {
        OtherTracks(RunFrom(s, before), before, op, id);
      }
    }
  }

  /** The order in which the periods are assessed does not matter, nor does what happens to other recommendations. */
  lemma OrderDoesNotMatter(s: State, a: seq<Op>, b: seq<Op>, id: string)
    requires Scheduled(s, id) && (forall op | op in a :: LeavesAlone(op, id)) && (forall op | op in b :: LeavesAlone(op, id))
    requires forall p :: History(a, id, p) == History(b, id, p)
    ensures id in RunFrom(s, a).recs && id in RunFrom(s, b).recs
    ensures RunFrom(s, a).recs[id].status == RunFrom(s, b).recs[id].status
    ensures RunFrom(s, a).recs[id].finalOutcome == RunFrom(s, b).recs[id].finalOutcome
  {
    AssessedWhenComplete(s, a, id);
    AssessedWhenComplete(s, b, id);
    assert Verdicts(a, id) == Verdicts(b, id);
    assert Complete(a, id) <==> Complete(b, id);
    if Complete(a, id) {
      WorstIsUnique(RunFrom(s, a).recs[id].finalOutcome.value, RunFrom(s, b).recs[id].finalOutcome.value, Verdicts(a, id));
    }
  }

  lemma WorstIsUnique(a: FinalOutcome, b: FinalOutcome, verdicts: seq<Option<Verdict>>)
    requires DecidedByWorst(a, verdicts) && DecidedByWorst(b, verdicts)
    ensures a == b
  {
  }

  // ----- without scheduling -----

  /** An upsert assesses the recommendation exactly when every other existing checkpoint row is evaluated. */
  lemma UpsertAssessesIff(s: State, id: string, p: Period, verdict: Option<Verdict>, now: nat, write: bool)
    requires id in s.recs && s.recs[id].status != "ASSESSED"
    ensures Upserted(s, id, p, verdict, now, write).recs[id].status == "ASSESSED"
       <==> forall q | q != p && (id, q) in s.checkpoints :: s.checkpoints[(id, q)].evaluatedAt.Some?
  {
    var checkpoints := Evaluated(s.checkpoints, id, p, verdict, now);
    var rows := RowsOf(checkpoints, id);
    forall q | (id, q) in checkpoints
      ensures checkpoints[(id, q)] in rows
    {
      match q
      case D30 => assert checkpoints[(id, q)] in Row(checkpoints, id, D30);
      case D90 => assert checkpoints[(id, q)] in Row(checkpoints, id, D90);
      case D180 => assert checkpoints[(id, q)] in Row(checkpoints, id, D180);
    }
    forall row | row in rows
      ensures exists q :: (id, q) in checkpoints && checkpoints[(id, q)] == row
    {
      assert row in Row(checkpoints, id, D30) || row in Row(checkpoints, id, D90) || row in Row(checkpoints, id, D180);
    }
  }

  /** So the first checkpoint of a recommendation that was never scheduled assesses it on its own. */
  lemma LoneCheckpointAssesses(s: State, id: string, p: Period, verdict: Option<Verdict>, now: nat, write: bool)
    requires id in s.recs && s.recs[id].status == "PENDING" && forall q :: (id, q) !in s.checkpoints
    ensures Upserted(s, id, p, verdict, now, write).recs[id].status == "ASSESSED"
  {
    UpsertAssessesIff(s, id, p, verdict, now, write);
  }

  // ----- the references the two stores gain -----

  /** How many of the operations upserted a checkpoint of `id` while, or thereby making, it complete. */
  ghost function UpsertsOnceComplete(ops: seq<Op>, id: string): nat {
    if ops == [] then 0
    else
      var op := ops[|ops| - 1];
      UpsertsOnceComplete(ops[..|ops| - 1], id) + if op.UpsertOp? && op.id == id && Complete(ops, id) then 1 else 0
  }

  ghost function LogFrom(s: State, ops: seq<Op>): seq<Assessment> {
    if ops == [] then []
    else LogFrom(s, ops[..|ops| - 1]) + Written(RunFrom(s, ops[..|ops| - 1]), ops[|ops| - 1])
  }

  function CallsBy(log: seq<Assessment>, id: string): nat {
    if log == [] then 0 else CallsBy(log[..|log| - 1], id) + if log[|log| - 1].id == id then 1 else 0
  }

  lemma CallsBySnoc(log: seq<Assessment>, e: seq<Assessment>, id: string)
    requires |e| <= 1
    ensures CallsBy(log + e, id) == CallsBy(log, id) + if |e| == 1 && e[0].id == id then 1 else 0
  {
    if e == [] {
      assert log + e == log;
    } else {
      assert (log + e)[..|log|] == log;
    }
  }

  /** The completing upsert and every later one write the assessment to memory again. */
  lemma {:induction false} EveryLaterUpsertIsRemembered(s: State, ops: seq<Op>, id: string)
    requires Scheduled(s, id) && forall op | op in ops :: LeavesAlone(op, id) && !(op.AssessOp? && op.id == id)
    ensures CallsBy(LogFrom(s, ops), id) == UpsertsOnceComplete(ops, id)
  {
    if ops != [] {
      var before, op := ops[..|ops| - 1], ops[|ops| - 1];
      assert ops == before + [op] && op in ops;
      EveryLaterUpsertIsRemembered(s, before, id);
      AssessedWhenComplete(s, before, id);
      CallsBySnoc(LogFrom(s, before), Written(RunFrom(s, before), op), id);
      WrittenBy(RunFrom(s, before), before, op, ops, id);
    }
  }

  lemma WrittenBy(t: State, before: seq<Op>, op: Op, ops: seq<Op>, id: string)
    requires Tracks(t, before, id) && ops == before + [op] && LeavesAlone(op, id) && !(op.AssessOp? && op.id == id)
    ensures |Written(t, op)| <= 1
    ensures |Written(t, op)| == 1 && Written(t, op)[0].id == id <==> op.UpsertOp? && op.id == id && Complete(ops, id)
  {
    if op.UpsertOp? && op.id == id {
      UpsertWrites(t, before, op, ops);
    }
  }

  lemma UpsertWrites(t: State, before: seq<Op>, op: Op, ops: seq<Op>)
    requires op.UpsertOp? && Tracks(t, before, op.id) && ops == before + [op]
    ensures |Written(t, op)| == if Complete(ops, op.id) then 1 else 0
    ensures Complete(ops, op.id) ==> Written(t, op)[0].id == op.id
  {
    UpsertedRowsTrack(t.checkpoints, before, op);
    TransitionTracks(Evaluated(t.checkpoints, op.id, op.period, op.verdict, op.at), ops, op.id);
  }
}
