/** Agent executions as the trust scores and the self-heal service read them. */
module Executions {
  import opened Wrappers

  datatype Execution = Execution(executionId: string, requestSummary: string, routerRoute: string,
                                 retryCount: nat, finalOutcome: string, debugSuccess: Option<bool>,
                                 committedAt: Option<nat>)

  function ExecutionById(executions: seq<Execution>, executionId: string): (r: Option<Execution>)
    ensures r.Some? ==> r.value in executions && r.value.executionId == executionId
    ensures r.None? ==> forall e | e in executions :: e.executionId != executionId
  {
    if executions == [] then None
    else if executions[0].executionId == executionId then Some(executions[0])
    else ExecutionById(executions[1..], executionId)
  }

  ghost predicate UniqueExecutions(executions: seq<Execution>) {
    forall i, j | 0 <= i < j < |executions| :: executions[i].executionId != executions[j].executionId
  }
}
