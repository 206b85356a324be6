/** Retrying failed executions, one caller at a time. */
module SelfHeal {
  import opened Wrappers
  import opened Counting
  import opened Text
  import opened Executions
  import opened DriftDetector

  const MAX_RETRIES := 2

  predicate Eligible(e: Execution) {
    e.finalOutcome == "FAILED" && e.retryCount < MAX_RETRIES
  }

  function Retried(e: Execution): Execution {
    e.(retryCount := e.retryCount + 1, finalOutcome := "RETRYING", debugSuccess := None, committedAt := None)
  }

  datatype Reason = NotFailed(outcome: string) | MaxReached | Attempt(n: nat) | ErrorReason
  datatype RetryResult = RetryResult(executionId: string, retryCount: nat, retried: bool, reason: Reason)
  datatype RetrySummary = RetrySummary(total: nat, retried: nat, skipped: nat, errors: nat, results: seq<RetryResult>)

  function IndexOf(executions: seq<Execution>, executionId: string): (r: Option<nat>)
    ensures r.Some? ==> r.value < |executions| && executions[r.value].executionId == executionId
    ensures r.None? ==> forall e | e in executions :: e.executionId != executionId
  {
    if executions == [] then None
    else if executions[0].executionId == executionId then Some(0)
    else match IndexOf(executions[1..], executionId)
         case None => None
         case Some(i) => Some(i + 1)
  }

  lemma IndexOfRow(executions: seq<Execution>, n: nat)
    requires UniqueExecutions(executions) && n < |executions|
    ensures IndexOf(executions, executions[n].executionId) == Some(n)
  {
  }

  /** The part of a path after its last '/'; the whole path when there is none. */
  function LastSegment(path: string): string {
    if path == "" then "" else if path[|path| - 1] == '/' then "" else LastSegment(path[..|path| - 1]) + [path[|path| - 1]]
  }

  /** An empty or missing segment filters nothing. */
  predicate Related(e: Execution, sourcePath: Option<string>) {
    var fragment := if sourcePath.Some? then LastSegment(sourcePath.value) else "";
    fragment == "" || Contains(e.requestSummary, fragment)
  }

  /** A failed execution retried less than twice. */
  predicate MayRetry(e: Execution) {
    e.finalOutcome == "FAILED" && e.retryCount < 2
  }

  /** One row before and after a retry of the chosen executions: retried once if it may be, and otherwise untouched. */
  ghost predicate RetriedIf(before: Execution, after: Execution, chosen: bool) {
    after == if chosen && MayRetry(before) then
               Execution(before.executionId, before.requestSummary, before.routerRoute, before.retryCount + 1, "RETRYING",
                         None, None)
             else before
  }

  /** The first `n` rows are through the loop, the others untouched. */
  ghost predicate RetriedUpTo(selected: seq<Execution>, executions: seq<Execution>, n: nat, p: Execution -> bool) {
    && n <= |selected| == |executions|
    && (forall i | 0 <= i < n :: RetriedIf(selected[i], executions[i], p(selected[i])))
    && (forall i | n <= i < |selected| :: executions[i] == selected[i])
  }

  lemma OneMoreRetried(selected: seq<Execution>, before: seq<Execution>, after: seq<Execution>, n: nat, p: Execution -> bool)
    requires RetriedUpTo(selected, before, n, p) && n < |selected| == |after| && UniqueExecutions(before) && p(selected[n])
    requires forall i | 0 <= i < |before| ::
               RetriedIf(before[i], after[i], before[i].executionId == before[n].executionId)
    ensures RetriedUpTo(selected, after, n + 1, p)
  {
    assert forall i | 0 <= i < |before| && i != n :: before[i].executionId != before[n].executionId;
  }

  /** The report of one retry made. */
  ghost predicate ReportsRetry(x: RetryResult, executions: seq<Execution>) {
    exists e :: e in executions && MayRetry(e)
             && x == RetryResult(e.executionId, e.retryCount + 1, true, Attempt(e.retryCount + 1))
  }

  class SelfHealService {
    /** In creation order. */
    var executions: seq<Execution>

    ghost predicate Valid()
      reads this
    {
      UniqueExecutions(executions)
    }

    constructor (executions: seq<Execution>)
      requires UniqueExecutions(executions)
      ensures Valid() && this.executions == executions
    {
      this.executions := executions;
    }

    method RetryFailedExecution(executionId: string) returns (r: Result<RetryResult>)
      requires Valid()
      modifies this
      ensures Valid() && |executions| == old(|executions|)
      ensures forall i | 0 <= i < |executions| ::
                RetriedIf(old(executions[i]), executions[i], old(executions[i]).executionId == executionId)
      ensures r == match IndexOf(old(executions), executionId)
                   case None => Failure(NotFound)
                   case Some(i) =>
                     var e := old(executions)[i];
                     Success(if e.finalOutcome != "FAILED" then RetryResult(executionId, e.retryCount, false, NotFailed(e.finalOutcome))
                             else if e.retryCount >= 2 then RetryResult(executionId, e.retryCount, false, MaxReached)
                             else RetryResult(executionId, e.retryCount + 1, true, Attempt(e.retryCount + 1)))
    {
      var at := IndexOf(executions, executionId);
      if at.None? {
        return Failure(NotFound);
      }
      var execution := executions[at.value];
      if execution.finalOutcome != "FAILED" {
        return Success(RetryResult(executionId, execution.retryCount, false, NotFailed(execution.finalOutcome)));
      }
      if execution.retryCount >= MAX_RETRIES {
        return Success(RetryResult(executionId, execution.retryCount, false, MaxReached));
      }
      executions := executions[at.value := Retried(execution)];
      r := Success(RetryResult(executionId, execution.retryCount + 1, true, Attempt(execution.retryCount + 1)));
    }

    /** The loop over selected executions that retryAllFailed and healDrift share; nobody else writes meanwhile. */
    method RetryEach(p: Execution -> bool) returns (results: seq<RetryResult>)
      requires Valid()
      modifies this
      ensures Valid() && |executions| == old(|executions|)
      ensures forall i | 0 <= i < |executions| :: RetriedIf(old(executions[i]), executions[i], p(old(executions[i])))
      ensures |results| == Count(old(executions), e => MayRetry(e) && p(e))
      ensures forall x | x in results :: ReportsRetry(x, old(executions))
    {
      var selected := executions;
      results := [];
      for n := 0 to |selected|
        invariant Valid() && RetriedUpTo(selected, executions, n, p)
        invariant |results| == Count(selected[..n], e => MayRetry(e) && p(e))
        invariant forall x | x in results :: ReportsRetry(x, selected)
      {
        CountNext(selected, n, e => MayRetry(e) && p(e));
        if Eligible(selected[n]) && p(selected[n]) {
          ghost var before := executions;
          IndexOfRow(executions, n);
          var r := RetryFailedExecution(selected[n].executionId);
          assert r.Success? && ReportsRetry(r.value, selected) by {
            assert selected[n] in selected;
          }
          results := results + [r.value];
          OneMoreRetried(selected, before, executions, n, p);
        }
      }
      assert selected[..|selected|] == selected;
    }

    method RetryAllFailed() returns (s: RetrySummary)
      requires Valid()
      modifies this
      ensures Valid() && |executions| == old(|executions|)
      ensures forall i | 0 <= i < |executions| :: RetriedIf(old(executions[i]), executions[i], true)
      ensures |s.results| == Count(old(executions), MayRetry)
      ensures forall x | x in s.results :: ReportsRetry(x, old(executions))
      ensures s.total == s.retried == |s.results| && s.skipped == s.errors == 0
    {
      var all := (e: Execution) => true;
      var total := 0;
      var results := RetryEach(all);
      CountSame(old(executions), e => MayRetry(e) && all(e), MayRetry);
      var retried, errors := 0, 0;
      for n := 0 to |results|
        invariant retried == n && errors == 0
      {
        assert results[n] in results;
        if results[n].retried {
          retried := retried + 1;
        }
        if results[n].reason.ErrorReason? {
          errors := errors + 1;
        }
      }
      s := RetrySummary(|results|, retried, |results| - retried - errors, errors, results);
    }

    method HealDrift(events: seq<DriftEvent>, driftEventId: nat) returns (r: Result<nat>)
      requires Valid()
      modifies this
      ensures Valid() && |executions| == old(|executions|)
      ensures r.Failure? <==> driftEventId >= |events|
      ensures r.Failure? || events[driftEventId].isResolved ==> executions == old(executions)
      ensures r.Success? && events[driftEventId].isResolved ==> r.value == 0
      ensures r.Success? && !events[driftEventId].isResolved ==>
        var path := events[driftEventId].finding.sourcePath;
        && (forall i | 0 <= i < |executions| ::
              RetriedIf(old(executions[i]), executions[i], Related(old(executions[i]), path)))
        && r.value == Count(old(executions), e => MayRetry(e) && Related(e, path))
    {
      if driftEventId >= |events| {
        return Failure(NotFound);
      }
      var event := events[driftEventId];
      if event.isResolved {
        return Success(0);
      }
      var related := (e: Execution) => Related(e, event.finding.sourcePath);
      var results := RetryEach(related);
      CountSame(old(executions), e => MayRetry(e) && related(e), e => MayRetry(e) && Related(e, event.finding.sourcePath));
      r := Success(|results|);
    }
  }

  lemma {:induction false} LastSegmentEmptyIff(path: string)
    ensures LastSegment(path) == "" <==> path == "" || EndsWith(path, "/")
  {
    if path != "" {
      assert path[|path| - 1..] == [path[|path| - 1]];
    }
  }

  lemma {:induction false} LastSegmentPlain(segment: string)
    requires '/' !in segment
    ensures LastSegment(segment) == segment
  {
    if segment != "" {
      var rest := segment[..|segment| - 1];
      LastSegmentPlain(rest);
      assert segment[|segment| - 1] in segment;
      assert segment == rest + [segment[|segment| - 1]];
    }
  }

  lemma {:induction false} LastSegmentAfter(directory: string, segment: string)
    requires '/' !in segment
    ensures LastSegment(directory + "/" + segment) == segment
  {
    var path := directory + "/" + segment;
    if segment == "" {
      assert path[|path| - 1] == '/';
    } else {
      var rest, last := segment[..|segment| - 1], segment[|segment| - 1];
      LastSegmentAfter(directory, rest);
      assert last in segment;
      assert path[..|path| - 1] == directory + "/" + rest && path[|path| - 1] == last;
    }
  }

  /** The execution's summary mentions the segment. */
  ghost predicate Mentions(e: Execution, segment: string) {
    exists before, after :: e.requestSummary == before + segment + after
  }

  lemma ContainsIff(s: string, pat: string)
    ensures Contains(s, pat) <==> exists before, after :: s == before + pat + after
  {
    if Contains(s, pat) {
      var i := Find(s, pat).value;
      assert s == s[..i] + pat + s[i + |pat|..];
    }
    if before, after :| s == before + pat + after {
      assert s[|before|..|before| + |pat|] == pat;
      assert OccursAt(s, pat, |before|);
    }
  }

  /** A drift event is related to the executions that mention the file or directory its path ends in. */
  lemma RelatedByLastSegment(e: Execution, directory: string, segment: string)
    requires '/' !in segment
    ensures Related(e, Some(directory + "/" + segment)) <==> Mentions(e, segment)
    ensures Related(e, Some(segment)) <==> Mentions(e, segment)
    ensures Related(e, None)
  {
    LastSegmentAfter(directory, segment);
    LastSegmentPlain(segment);
    ContainsIff(e.requestSummary, segment);
    if segment == "" {
      assert e.requestSummary == "" + segment + e.requestSummary;
    }
  }

  lemma NothingInEmpty(fragment: string)
    requires fragment != ""
    ensures !Contains("", fragment)
  {
  }

  /**
   * A drift event is related to every execution exactly when it has no path, an empty one, or one that ends in '/',
   * as every undocumented module directory has.
   */
  lemma RelatedToAllIff(path: Option<string>)
    ensures (forall e :: Related(e, path)) <==> path.None? || path.value == "" || EndsWith(path.value, "/")
  {
    if path.Some? {
      LastSegmentEmptyIff(path.value);
      var fragment := LastSegment(path.value);
      if fragment != "" {
        NothingInEmpty(fragment);
        assert !Related(Execution("", "", "", 0, "FAILED", None, None), path);
      }
    }
  }
}
