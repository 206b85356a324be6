/** What a retry means for the trust table. */
module RetryTrust {
  import opened Wrappers
  import opened Tables
  import opened Executions
  import opened SelfHeal
  import opened TrustScore
  import opened TrustSync
  import opened TrustArithmetic

  /**
   * Retrying an eligible execution leaves the trust table out of step: the failure it still counts is gone from the
   * data, and recording the outcome RETRYING is skipped.
   */
  lemma RetryLeavesTrustStale(rows: seq<TrustRow>, recs: seq<Recommendation>, a: seq<Execution>, e: Execution, b: seq<Execution>)
    requires Eligible(e) && InSync(rows, Data(recs, a + [e] + b))
    ensures var after, r := Data(recs, a + [Retried(e)] + b), Retried(e);
            Recorded(rows, after, r.routerRoute, r.finalOutcome, r.retryCount) == rows && !InSync(rows, after)
  {
    UpdateKeepsSyncIff(rows, recs, a, e, Retried(e), b);
    assert "RETRYING"[0] != "COMMITTED"[0] && "RETRYING"[0] != "FAILED"[0];
    assert "RETRYING"[0] != "BLOCKED"[0] && "RETRYING"[0] != "ABANDONED"[0];
    assert MapOutcome("RETRYING", e.retryCount + 1).None?;
  }

  // ----- a higher retry count never helps -----

  function OutcomeOfExecution(e: Execution): Option<FinalOutcome> {
    MapOutcome(e.finalOutcome, e.retryCount)
  }

  /** More retries leave an outcome recognised or not, and can only lower its weight. */
  lemma RetriesLowerWeight(e: Execution, f: Execution)
    requires f.finalOutcome == e.finalOutcome && e.retryCount <= f.retryCount
    ensures OutcomeOfExecution(e).Some? <==> OutcomeOfExecution(f).Some?
    ensures OutcomeOfExecution(e).Some? ==> Weight(OutcomeOfExecution(f).value) <= Weight(OutcomeOfExecution(e).value)
    ensures OutcomeOfExecution(e) == Some(SUCCESS) ==> (OutcomeOfExecution(f) == Some(SUCCESS) <==> f.retryCount == 0)
  {
  }

  /** The same execution with more retries never scores better, alone or for its route. */
  lemma RetriesNeverHelp(a: seq<Execution>, e: Execution, f: Execution, b: seq<Execution>, route: Option<string>, p: Prior)
    requires Consistent(p) && f == e.(retryCount := f.retryCount) && e.retryCount <= f.retryCount
    ensures Score(ExecutionOutcomes(a + [f] + b, route), p) <= Score(ExecutionOutcomes(a + [e] + b, route), p)
  {
    OutcomesAround(a, e, b, route);
    OutcomesAround(a, f, b, route);
    RetriesLowerWeight(e, f);
    if Counts(e, route) {
      var before, after, better := ExecutionOutcomes(a, route), ExecutionOutcomes(b, route), OutcomeOfExecution(e).value;
      var low := before + [OutcomeOfExecution(f).value] + after;
      assert low[|before| := better] == before + [better] + after;
      ImprovingHelps(low, |before|, better, p);
    }
  }
}
