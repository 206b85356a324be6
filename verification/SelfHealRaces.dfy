/** Overlapping retry callers: the read and the write of a retry are separate steps. */
module SelfHealRaces {
  import opened Executions
  import opened SelfHeal

  /** A caller holds an execution once it has read it as eligible and not yet written it. */
  datatype Caller = Idle | Holding(index: nat)

  datatype State = State(rows: seq<Execution>, callers: seq<Caller>)

  datatype Step =
    | Read(caller: nat, index: nat)
    | Write(caller: nat)
    | Environment(index: nat, outcome: string)

  predicate Possible(s: State, step: Step) {
    match step
    case Read(c, i) => c < |s.callers| && s.callers[c].Idle? && i < |s.rows|
    case Write(c) => c < |s.callers| && s.callers[c].Holding? && s.callers[c].index < |s.rows|
    case Environment(i, _) => i < |s.rows|
  }

  function Next(s: State, step: Step): State
    requires Possible(s, step)
  {
    match step
    case Read(c, i) => if Eligible(s.rows[i]) then s.(callers := s.callers[c := Holding(i)]) else s
    case Write(c) =>
      var i := s.callers[c].index;
      State(s.rows[i := Retried(s.rows[i])], s.callers[c := Idle])
    case Environment(i, outcome) => s.(rows := s.rows[i := s.rows[i].(finalOutcome := outcome)])
  }

  ghost predicate Runs(s: State, steps: seq<Step>, t: State)
    decreases steps
  {
    if steps == [] then s == t else Possible(s, steps[0]) && Runs(Next(s, steps[0]), steps[1..], t)
  }

  function Writes(steps: seq<Step>): nat {
    if steps == [] then 0 else (if steps[0].Write? then 1 else 0) + Writes(steps[1..])
  }

  function InFlight(callers: seq<Caller>, i: nat): nat {
    if callers == [] then 0 else (if callers[0] == Holding(i) then 1 else 0) + InFlight(callers[1..], i)
  }

  lemma {:induction false} InFlightUpdate(callers: seq<Caller>, c: nat, x: Caller, i: nat)
    requires c < |callers|
    ensures InFlight(callers[c := x], i) + (if callers[c] == Holding(i) then 1 else 0)
         == InFlight(callers, i) + if x == Holding(i) then 1 else 0
  {
    if c > 0 {
      InFlightUpdate(callers[1..], c - 1, x, i);
      assert callers[c := x][1..] == callers[1..][c - 1 := x];
    } else {
      assert callers[c := x][1..] == callers[1..];
    }
  }

  lemma {:induction false} InFlightAtMost(callers: seq<Caller>, i: nat)
    ensures InFlight(callers, i) <= |callers|
  {
    if callers != [] {
      InFlightAtMost(callers[1..], i);
    }
  }

  function Larger(a: nat, b: nat): nat {
    if a < b then b else a
  }

  /** Retries already made plus retries under way stay within `bound`. */
  ghost predicate Bounded(s: State, i: nat, bound: nat) {
    i < |s.rows| && s.rows[i].retryCount + InFlight(s.callers, i) <= bound
  }

  lemma NextBounded(s: State, step: Step, i: nat, bound: nat)
    requires Possible(s, step) && Bounded(s, i, bound) && bound >= |s.callers| + 1
    ensures Bounded(Next(s, step), i, bound) && |Next(s, step).callers| == |s.callers|
  {
    match step
    case Read(c, j) =>
      InFlightUpdate(s.callers, c, Holding(j), i);
      InFlightAtMost(Next(s, step).callers, i);
    case Write(c) => InFlightUpdate(s.callers, c, Idle, i);
    case Environment(_, _) =>
  }

  lemma {:induction false} RunBounded(s: State, steps: seq<Step>, t: State, i: nat, bound: nat)
    requires Runs(s, steps, t) && Bounded(s, i, bound) && bound >= |s.callers| + 1
    ensures Bounded(t, i, bound)
    decreases steps
  {
    if steps != [] {
      NextBounded(s, steps[0], i, bound);
      RunBounded(Next(s, steps[0]), steps[1..], t, i, bound);
    }
  }

  ghost predicate AllIdle(callers: seq<Caller>) {
    forall c | c in callers :: c == Idle
  }

  lemma {:induction false} IdleHoldNothing(callers: seq<Caller>, i: nat)
    requires AllIdle(callers)
    ensures InFlight(callers, i) == 0
  {
    if callers != [] {
      assert callers[0] in callers && forall c | c in callers[1..] :: c in callers;
      IdleHoldNothing(callers[1..], i);
    }
  }

  /** With P callers an execution's retries, made and under way, never pass P + 1, whatever the environment does. */
  lemma RetriesBounded(s: State, steps: seq<Step>, t: State, i: nat)
    requires Runs(s, steps, t) && AllIdle(s.callers) && i < |s.rows|
    ensures i < |t.rows|
    ensures t.rows[i].retryCount + InFlight(t.callers, i) <= Larger(s.rows[i].retryCount, |s.callers| + 1)
  {
    IdleHoldNothing(s.callers, i);
    RunBounded(s, steps, t, i, Larger(s.rows[i].retryCount, |s.callers| + 1));
  }

  /** A single caller never exceeds two retries. */
  lemma OneCallerKeepsTheLimit(s: State, steps: seq<Step>, t: State, i: nat)
    requires Runs(s, steps, t) && s.callers == [Idle] && i < |s.rows| && s.rows[i].retryCount <= 2
    ensures i < |t.rows| && t.rows[i].retryCount <= 2
  {
    RetriesBounded(s, steps, t, i);
  }

  // ----- how many retries succeed -----

  function TotalRetries(rows: seq<Execution>): nat {
    if rows == [] then 0 else rows[0].retryCount + TotalRetries(rows[1..])
  }

  /** What the callers can still do to these rows. */
  function Budget(rows: seq<Execution>, callers: nat): nat {
    if rows == [] then 0
    else (if rows[0].retryCount <= callers + 1 then callers + 1 - rows[0].retryCount else 0) + Budget(rows[1..], callers)
  }

  lemma {:induction false} TotalUpdate(rows: seq<Execution>, i: nat, e: Execution)
    requires i < |rows|
    ensures TotalRetries(rows[i := e]) + rows[i].retryCount == TotalRetries(rows) + e.retryCount
  {
    if i > 0 {
      TotalUpdate(rows[1..], i - 1, e);
      assert rows[i := e][1..] == rows[1..][i - 1 := e];
    } else {
      assert rows[i := e][1..] == rows[1..];
    }
  }

  /** Every write is one retry, and nothing else changes a retry count. */
  lemma {:induction false} WritesAreRetries(s: State, steps: seq<Step>, t: State)
    requires Runs(s, steps, t)
    ensures |t.rows| == |s.rows| && TotalRetries(t.rows) == TotalRetries(s.rows) + Writes(steps)
    decreases steps
  {
    if steps != [] {
      WritesAreRetries(Next(s, steps[0]), steps[1..], t);
      match steps[0]
      case Read(_, _) =>
      case Write(c) => TotalUpdate(s.rows, s.callers[c].index, Retried(s.rows[s.callers[c].index]));
      case Environment(i, outcome) => TotalUpdate(s.rows, i, s.rows[i].(finalOutcome := outcome));
    }
  }

  lemma {:induction false} TotalWithinBudget(before: seq<Execution>, after: seq<Execution>, callers: nat)
    requires |before| == |after|
    requires forall i | 0 <= i < |before| :: after[i].retryCount <= Larger(before[i].retryCount, callers + 1)
    ensures TotalRetries(after) <= TotalRetries(before) + Budget(before, callers)
  {
    if before != [] {
      TotalWithinBudget(before[1..], after[1..], callers);
    }
  }

  /** All successful retries of a run together: at most P + 1 minus the initial count, summed over the executions. */
  lemma SuccessfulRetriesBounded(s: State, steps: seq<Step>, t: State)
    requires Runs(s, steps, t) && AllIdle(s.callers)
    ensures Writes(steps) <= Budget(s.rows, |s.callers|)
  {
    WritesAreRetries(s, steps, t);
    forall i | 0 <= i < |s.rows|
      ensures t.rows[i].retryCount <= Larger(s.rows[i].retryCount, |s.callers| + 1)
    {
      RetriesBounded(s, steps, t, i);
    }
    TotalWithinBudget(s.rows, t.rows, |s.callers|);
  }

  // ----- the bound is reached -----

  function Crowd(n: nat, c: Caller): seq<Caller> {
    seq(n, i => c)
  }

  lemma {:induction false} RunsConcat(s: State, a: seq<Step>, t: State, b: seq<Step>, u: State)
    requires Runs(s, a, t) && Runs(t, b, u)
    ensures Runs(s, a + b, u)
    decreases a
  {
    if a == [] {
      assert a + b == b;
    } else {
      RunsConcat(Next(s, a[0]), a[1..], t, b, u);
      assert (a + b)[1..] == a[1..] + b;
    }
  }

  /** Nobody but the callers writes. */
  ghost predicate Alone(steps: seq<Step>) {
    forall step | step in steps :: !step.Environment?
  }

  /** All callers read the same eligible execution before any of them writes. */
  lemma {:induction false} AllRead(e: Execution, n: nat, k: nat) returns (steps: seq<Step>)
    requires Eligible(e) && k <= n
    ensures Alone(steps)
    ensures Runs(State([e], Crowd(n, Idle)), steps, State([e], Crowd(k, Holding(0)) + Crowd(n - k, Idle)))
    decreases k
  {
    var start := State([e], Crowd(n, Idle));
    if k == 0 {
      steps := [];
      assert Crowd(0, Holding(0)) + Crowd(n, Idle) == Crowd(n, Idle);
    } else {
      var before := AllRead(e, n, k - 1);
      var middle := State([e], Crowd(k - 1, Holding(0)) + Crowd(n - k + 1, Idle));
      var after := State([e], Crowd(k, Holding(0)) + Crowd(n - k, Idle));
      assert Next(middle, Read(k - 1, 0)).callers == after.callers;
      assert Runs(middle, [Read(k - 1, 0)], after);
      RunsConcat(start, before, middle, [Read(k - 1, 0)], after);
      steps := before + [Read(k - 1, 0)];
    }
  }

  lemma {:induction false} AllWrite(e: Execution, n: nat, k: nat) returns (steps: seq<Step>, last: Execution)
    requires k <= n
    ensures Runs(State([e], Crowd(n, Holding(0))), steps, State([last], Crowd(k, Idle) + Crowd(n - k, Holding(0))))
    ensures last.retryCount == e.retryCount + k && Alone(steps)
    decreases k
  {
    var start := State([e], Crowd(n, Holding(0)));
    if k == 0 {
      steps, last := [], e;
      assert Crowd(0, Idle) + Crowd(n, Holding(0)) == Crowd(n, Holding(0));
    } else {
      var before, e' := AllWrite(e, n, k - 1);
      var middle := State([e'], Crowd(k - 1, Idle) + Crowd(n - k + 1, Holding(0)));
      last := Retried(e');
      var after := State([last], Crowd(k, Idle) + Crowd(n - k, Holding(0)));
      assert Next(middle, Write(k - 1)).callers == after.callers;
      assert Next(middle, Write(k - 1)).rows == after.rows;
      assert Runs(middle, [Write(k - 1)], after);
      RunsConcat(start, before, middle, [Write(k - 1)], after);
      steps := before + [Write(k - 1)];
    }
  }

  /** P overlapping callers that all read before any writes retry an eligible execution P times. */
  lemma AllRetry(e: Execution, n: nat) returns (steps: seq<Step>, t: State)
    requires Eligible(e)
    ensures Runs(State([e], Crowd(n, Idle)), steps, t) && Alone(steps)
    ensures |t.rows| == 1 && t.rows[0].retryCount == e.retryCount + n
  {
    var reading := AllRead(e, n, n);
    var writing, last := AllWrite(e, n, n);
    assert Crowd(n, Holding(0)) + Crowd(0, Idle) == Crowd(n, Holding(0));
    t := State([last], Crowd(n, Idle) + Crowd(0, Holding(0)));
    RunsConcat(State([e], Crowd(n, Idle)), reading, State([e], Crowd(n, Holding(0))), writing, t);
    steps := reading + writing;
  }

  /** One retry that fails again uses up the first of two. */
  lemma FirstRetryTaken(e: Execution, n: nat) returns (steps: seq<Step>, e': Execution)
    requires Eligible(e) && e.retryCount == 0 && n >= 1
    ensures Eligible(e') && e'.retryCount == 1
    ensures Runs(State([e], Crowd(n, Idle)), steps, State([e'], Crowd(n, Idle)))
  {
    var start := State([e], Crowd(n, Idle));
    var middle := State([Retried(e)], Crowd(n, Idle));
    e' := Retried(e).(finalOutcome := "FAILED");
    var after := State([e'], Crowd(n, Idle));
    UninterruptedRetry(start, 0, 0);
    assert start.(rows := start.rows[0 := Retried(start.rows[0])]) == middle;
    assert Next(middle, Environment(0, "FAILED")) == after;
    assert Runs(middle, [Environment(0, "FAILED")], after);
    RunsConcat(start, [Read(0, 0), Write(0)], middle, [Environment(0, "FAILED")], after);
    steps := [Read(0, 0), Write(0)] + [Environment(0, "FAILED")];
  }

  /** With an environment that may fail a retry again, P callers can reach P + 1 retries from any eligible execution. */
  lemma BoundIsReached(e: Execution, n: nat) returns (steps: seq<Step>, t: State)
    requires Eligible(e) && (n >= 1 || e.retryCount == 1)
    ensures Runs(State([e], Crowd(n, Idle)), steps, t)
    ensures |t.rows| == 1 && t.rows[0].retryCount == n + 1
  {
    if e.retryCount == 1 {
      steps, t := AllRetry(e, n);
    } else {
      var first, e' := FirstRetryTaken(e, n);
      var rest: seq<Step>;
      rest, t := AllRetry(e', n);
      RunsConcat(State([e], Crowd(n, Idle)), first, State([e'], Crowd(n, Idle)), rest, t);
      steps := first + rest;
    }
  }

  ghost predicate Reachable(s: State, t: State) {
    exists steps :: Runs(s, steps, t)
  }

  ghost predicate KeepsLimit(t: State) {
    forall e | e in t.rows :: e.retryCount <= 2
  }

  /** With such an environment the limit of two is kept in every reachable state exactly when there is at most one caller. */
  lemma LimitKeptIff(e: Execution, n: nat)
    requires Eligible(e)
    ensures (forall t | Reachable(State([e], Crowd(n, Idle)), t) :: KeepsLimit(t)) <==> n <= 1
  {
    var start := State([e], Crowd(n, Idle));
    if n <= 1 {
      forall t | Reachable(start, t)
        ensures KeepsLimit(t)
      {
        var steps :| Runs(start, steps, t);
        WritesAreRetries(start, steps, t);
        RetriesBounded(start, steps, t, 0);
      }
    } else {
      var steps, t := BoundIsReached(e, n);
      assert Reachable(start, t);
      assert t.rows[0] in t.rows && t.rows[0].retryCount > 2;
      assert !KeepsLimit(t);
    }
  }

  // ----- without outcome writes by others -----

  /** An execution still FAILED has not been retried, as a retry is final until another writer changes its outcome. */
  ghost predicate RetriedOnce(s: State, i: nat, start: nat, callers: nat) {
    && |s.callers| == callers && i < |s.rows|
    && s.rows[i].retryCount + InFlight(s.callers, i) <= start + callers
    && (s.rows[i].finalOutcome == "FAILED" ==> s.rows[i].retryCount == start)
  }

  lemma NextRetriedOnce(s: State, step: Step, i: nat, start: nat, callers: nat)
    requires Possible(s, step) && !step.Environment? && RetriedOnce(s, i, start, callers)
    ensures RetriedOnce(Next(s, step), i, start, callers)
  {
    match step
    case Read(c, j) =>
      InFlightUpdate(s.callers, c, Holding(j), i);
      InFlightAtMost(Next(s, step).callers, i);
    case Write(c) =>
      InFlightUpdate(s.callers, c, Idle, i);
      assert "RETRYING"[0] != "FAILED"[0];
  }

  lemma {:induction false} RunRetriedOnce(s: State, steps: seq<Step>, t: State, i: nat, start: nat, callers: nat)
    requires Runs(s, steps, t) && Alone(steps) && RetriedOnce(s, i, start, callers)
    ensures RetriedOnce(t, i, start, callers)
    decreases steps
  {
    if steps != [] {
      assert steps[0] in steps && forall step | step in steps[1..] :: step in steps;
      NextRetriedOnce(s, steps[0], i, start, callers);
      RunRetriedOnce(Next(s, steps[0]), steps[1..], t, i, start, callers);
    }
  }

  /** Without outcome writes by others each caller retries an execution at most once. */
  lemma RetriesBoundedAlone(s: State, steps: seq<Step>, t: State, i: nat)
    requires Runs(s, steps, t) && Alone(steps) && AllIdle(s.callers) && i < |s.rows|
    ensures i < |t.rows| && t.rows[i].retryCount + InFlight(t.callers, i) <= s.rows[i].retryCount + |s.callers|
  {
    IdleHoldNothing(s.callers, i);
    RunRetriedOnce(s, steps, t, i, s.rows[i].retryCount, |s.callers|);
  }

  ghost predicate ReachableAlone(s: State, t: State) {
    exists steps :: Runs(s, steps, t) && Alone(steps)
  }

  /**
   * Without outcome writes by others, the limit of two is kept in every state reachable from an eligible execution exactly
   * when its count and the number of callers together stay within it.
   */
  lemma LimitKeptAloneIff(e: Execution, n: nat)
    requires Eligible(e)
    ensures (forall t | ReachableAlone(State([e], Crowd(n, Idle)), t) :: KeepsLimit(t)) <==> e.retryCount + n <= 2
  {
    var start := State([e], Crowd(n, Idle));
    if e.retryCount + n <= 2 {
      forall t | ReachableAlone(start, t)
        ensures KeepsLimit(t)
      {
        var steps :| Runs(start, steps, t) && Alone(steps);
        WritesAreRetries(start, steps, t);
        RetriesBoundedAlone(start, steps, t, 0);
      }
    } else {
      var steps, t := AllRetry(e, n);
      assert ReachableAlone(start, t);
      assert t.rows[0] in t.rows && t.rows[0].retryCount > 2;
      assert !KeepsLimit(t);
    }
  }

  /** A read and the write that follows it at once do what the sequential retry does. */
  lemma UninterruptedRetry(s: State, c: nat, i: nat)
    requires Possible(s, Read(c, i)) && Eligible(s.rows[i])
    ensures Runs(s, [Read(c, i), Write(c)], s.(rows := s.rows[i := Retried(s.rows[i])]))
  {
    var held := Next(s, Read(c, i));
    assert [Read(c, i), Write(c)][1..] == [Write(c)];
    assert Next(held, Write(c)).callers == s.callers;
    assert Runs(held, [Write(c)], Next(held, Write(c)));
  }
}
