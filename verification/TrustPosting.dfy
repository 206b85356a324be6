/** The trust table as the program keeps it: posted executions are recorded only when they are COMMITTED. */
module TrustPosting {
  import opened Wrappers
  import opened Tables
  import opened Executions
  import opened TrustScore
  import opened TrustSync

  predicate Committed(e: Execution) {
    e.finalOutcome == "COMMITTED"
  }

  /** A full refresh counts the execution, but posting it records nothing. */
  predicate Missed(e: Execution) {
    e.finalOutcome == "FAILED" || e.finalOutcome == "BLOCKED" || e.finalOutcome == "ABANDONED"
  }

  predicate OnRoute(e: Execution, route: Option<string>) {
    route.Some? ==> e.routerRoute == route.value
  }

  lemma MissedOrCommitted(e: Execution)
    ensures MapOutcome(e.finalOutcome, e.retryCount).Some? <==> Committed(e) || Missed(e)
    ensures !(Committed(e) && Missed(e))
  {
    assert "COMMITTED"[0] != "FAILED"[0] && "COMMITTED"[0] != "BLOCKED"[0] && "COMMITTED"[0] != "ABANDONED"[0];
  }

  function With(d: Data, es: seq<Execution>): Data {
    d.(executions := d.executions + es)
  }

  /** Posting an execution to the controller: stored, and recorded when it is COMMITTED. */
  function Post(rows: seq<TrustRow>, d: Data, e: Execution): seq<TrustRow> {
    if Committed(e) then Recorded(rows, With(d, [e]), e.routerRoute, e.finalOutcome, e.retryCount) else rows
  }

  function PostRun(rows: seq<TrustRow>, d: Data, es: seq<Execution>): seq<TrustRow> {
    if es == [] then rows
    else
      var before := es[..|es| - 1];
      Post(PostRun(rows, d, before), With(d, before), es[|es| - 1])
  }

  method PostExecution(service: TrustScoreService, d: Data, e: Execution) returns (r: Result<Data>)
    modifies service
    ensures if ExecutionById(d.executions, e.executionId).Some? then r == Failure(Conflict) && service.rows == old(service.rows)
            else r == Success(With(d, [e])) && service.rows == Post(old(service.rows), d, e)
  {
    if ExecutionById(d.executions, e.executionId).Some? {
      return Failure(Conflict);
    }
    var stored := d.(executions := d.executions + [e]);
    FoundLast(d.executions, e);
    if e.finalOutcome == "COMMITTED" {
      service.RecordExecutionOutcome(stored, e.executionId, e.finalOutcome, e.retryCount);
    }
    r := Success(stored);
  }

  lemma {:induction false} FoundLast(executions: seq<Execution>, e: Execution)
    requires ExecutionById(executions, e.executionId).None?
    ensures ExecutionById(executions + [e], e.executionId) == Some(e)
  {
    if executions == [] {
      assert executions + [e] == [e];
    } else {
      FoundLast(executions[1..], e);
      assert (executions + [e])[1..] == executions[1..] + [e];
    }
  }

  // ----- one row at a time -----

  /** The global row, or the row of a decision type. */
  function RowFor(d: Data, route: Option<string>): TrustRow {
    if route.None? then GlobalTarget(d) else TypeTarget(d, route.value)
  }

  /** The routes with a row of their own. */
  predicate Scored(route: Option<string>) {
    route.Some? ==> route.value in DECISION_TYPES
  }

  /** Every missed execution on the route is followed by a committed one. */
  ghost predicate Caught(es: seq<Execution>, route: Option<string>) {
    forall i | 0 <= i < |es| && Missed(es[i]) && OnRoute(es[i], route) ::
      exists j :: i < j < |es| && Committed(es[j]) && OnRoute(es[j], route)
  }

  /** The row holds, or is there with too small a sample. */
  ghost predicate Tracks(rows: seq<TrustRow>, target: TrustRow, caught: bool) {
    var value := Lookup(rows, target.key);
    value.Some? && if caught then value.value == target.value else value.value.sampleSize < target.value.sampleSize
  }

  lemma CaughtSnoc(es: seq<Execution>, e: Execution, route: Option<string>)
    ensures Caught(es + [e], route)
       <==> if !OnRoute(e, route) then Caught(es, route) else Committed(e) || (!Missed(e) && Caught(es, route))
  {
    var all := es + [e];
    MissedOrCommitted(e);
    if OnRoute(e, route) && Committed(e) {
      forall i | 0 <= i < |all| && Missed(all[i]) && OnRoute(all[i], route)
        ensures exists j :: i < j < |all| && Committed(all[j]) && OnRoute(all[j], route)
      {
        assert all[|es|] == e;
      }
    } else if OnRoute(e, route) && Missed(e) {
      assert all[|es|] == e;
    } else {
      SameCaught(es, e, route);
    }
  }

  /** An execution that is not on the route, or not recognised, changes nothing. */
  lemma SameCaught(es: seq<Execution>, e: Execution, route: Option<string>)
    requires !OnRoute(e, route) || (!Missed(e) && !Committed(e))
    ensures Caught(es + [e], route) <==> Caught(es, route)
  {
    var all := es + [e];
    assert all[|es|] == e;
    if Caught(es, route) {
      forall i | 0 <= i < |all| && Missed(all[i]) && OnRoute(all[i], route)
        ensures exists j :: i < j < |all| && Committed(all[j]) && OnRoute(all[j], route)
      {
        assert i < |es| && es[i] == all[i];
        var j :| i < j < |es| && Committed(es[j]) && OnRoute(es[j], route);
        assert all[j] == es[j];
      }
    }
    if Caught(all, route) {
      forall i | 0 <= i < |es| && Missed(es[i]) && OnRoute(es[i], route)
        ensures exists j :: i < j < |es| && Committed(es[j]) && OnRoute(es[j], route)
      {
        assert all[i] == es[i];
        var j :| i < j < |all| && Committed(all[j]) && OnRoute(all[j], route);
        assert all[j] == es[j];
      }
    }
  }

  /** The sample of a row grows by the recognised executions on its route. */
  lemma RowGrows(d: Data, e: Execution, route: Option<string>)
    ensures RowFor(With(d, [e]), route).key == RowFor(d, route).key
    ensures if Counts(e, route) then
              RowFor(With(d, [e]), route).value.sampleSize == RowFor(d, route).value.sampleSize + 1
            else RowFor(With(d, [e]), route) == RowFor(d, route)
  {
    assert (d.executions + [e])[..|d.executions|] == d.executions;
    var before := ExecutionOutcomes(d.executions, route);
    assert before + [] == before;
  }

  lemma RecordedLookup(rows: seq<TrustRow>, d: Data, e: Execution, key: TrustKey)
    requires Committed(e)
    ensures Lookup(Recorded(rows, d, e.routerRoute, e.finalOutcome, e.retryCount), key)
         == if e.routerRoute in DECISION_TYPES && key == TypeTarget(d, e.routerRoute).key
            then Some(TypeTarget(d, e.routerRoute).value)
            else if key == GlobalTarget(d).key then Some(GlobalTarget(d).value) else Lookup(rows, key)
  {
    MissedOrCommitted(e);
    LookupUpsert(rows, GlobalTarget(d), key);
    LookupUpsert(Upsert(rows, GlobalTarget(d)), TypeTarget(d, e.routerRoute), key);
  }

  lemma PostTracks(rows: seq<TrustRow>, d: Data, es: seq<Execution>, e: Execution, route: Option<string>)
    requires Scored(route) && Tracks(rows, RowFor(With(d, es), route), Caught(es, route))
    ensures Tracks(Post(rows, With(d, es), e), RowFor(With(d, es + [e]), route), Caught(es + [e], route))
  {
    var before, after := With(d, es), With(d, es + [e]);
    assert With(before, [e]) == after by {
      assert d.executions + es + [e] == d.executions + (es + [e]);
    }
    RowGrows(before, e, route);
    CaughtSnoc(es, e, route);
    MissedOrCommitted(e);
    if Committed(e) {
      LevelsDiffer();
      RecordedLookup(rows, after, e, RowFor(after, route).key);
    }
  }

  lemma {:induction false} RunTracks(rows: seq<TrustRow>, d: Data, es: seq<Execution>, route: Option<string>)
    requires InSync(rows, d) && Scored(route)
    ensures Tracks(PostRun(rows, d, es), RowFor(With(d, es), route), Caught(es, route))
  {
    if es == [] {
      assert With(d, es) == d by {
        assert d.executions + es == d.executions;
      }
      RowHolds(rows, d, route);
    } else {
      var before, e := es[..|es| - 1], es[|es| - 1];
      assert es == before + [e];
      RunTracks(rows, d, before, route);
      PostTracks(PostRun(rows, d, before), d, before, e, route);
    }
  }

  lemma RowHolds(rows: seq<TrustRow>, d: Data, route: Option<string>)
    requires InSync(rows, d) && Scored(route)
    ensures Holds(rows, RowFor(d, route))
  {
    InSyncIff(rows, d);
    if route.None? {
      assert Targets(d)[0] == GlobalTarget(d);
    } else {
      var k := RouteIndex(d, route.value);
      assert TypeTarget(d, route.value) in TypeTargets(d, DECISION_TYPES);
      TargetHolds(rows, d, TypeTarget(d, route.value));
    }
  }

  /** Posting never touches a domain row, nor changes what it should be. */
  lemma {:induction false} DomainsUntouched(rows: seq<TrustRow>, d: Data, es: seq<Execution>, domain: string)
    ensures Lookup(PostRun(rows, d, es), DomainTarget(d, domain).key) == Lookup(rows, DomainTarget(d, domain).key)
  {
    if es != [] {
      var before, e := es[..|es| - 1], es[|es| - 1];
      DomainsUntouched(rows, d, before, domain);
      if Committed(e) {
        LevelsDiffer();
        RecordedLookup(PostRun(rows, d, before), With(With(d, before), [e]), e, DomainTarget(d, domain).key);
      }
    }
  }

  // ----- the table after any run of posts -----

  lemma TargetKinds(d: Data, t: TrustRow)
    requires t in Targets(d)
    ensures (exists route :: Scored(route) && t == RowFor(d, route)) || exists domain :: domain in Domains(d.recs) && t == DomainTarget(d, domain)
  {
    TypeTargetsAre(d, DECISION_TYPES);
    DomainTargetsAre(d, Domains(d.recs));
    if t == GlobalTarget(d) {
      assert t == RowFor(d, None) && Scored(None);
    } else if t in TypeTargets(d, DECISION_TYPES) {
      var i :| 0 <= i < |DECISION_TYPES| && t == TypeTarget(d, DECISION_TYPES[i]);
      assert t == RowFor(d, Some(DECISION_TYPES[i])) && Scored(Some(DECISION_TYPES[i]));
    } else {
      var i :| 0 <= i < |Domains(d.recs)| && t == DomainTarget(d, Domains(d.recs)[i]);
      assert Domains(d.recs)[i] in Domains(d.recs);
    }
  }

  /**
   * Starting in sync, the table is in sync after any run of posts exactly when no failed, blocked or abandoned
   * execution comes after the last committed one, and for each decision type none on its route comes after the last
   * committed one on that route.
   */
  lemma PostRunInSyncIff(rows: seq<TrustRow>, d: Data, es: seq<Execution>)
    requires InSync(rows, d)
    ensures InSync(PostRun(rows, d, es), With(d, es)) <==> forall route | Scored(route) :: Caught(es, route)
  {
    var after, table := With(d, es), PostRun(rows, d, es);
    InSyncIff(table, after);
    if InSync(table, after) {
      forall route | Scored(route)
        ensures Caught(es, route)
      {
        RunTracks(rows, d, es, route);
        RowHolds(table, after, route);
      }
    } else if forall route | Scored(route) :: Caught(es, route) {
      forall t | t in Targets(after)
        ensures Holds(table, t)
      {
        CaughtHolds(rows, d, es, t);
      }
    }
  }

  lemma CaughtHolds(rows: seq<TrustRow>, d: Data, es: seq<Execution>, t: TrustRow)
    requires InSync(rows, d) && t in Targets(With(d, es)) && forall route | Scored(route) :: Caught(es, route)
    ensures Holds(PostRun(rows, d, es), t)
  {
    TargetKinds(With(d, es), t);
    if route :| Scored(route) && t == RowFor(With(d, es), route) {
      RunTracks(rows, d, es, route);
    } else {
      var domain :| domain in Domains(d.recs) && t == DomainTarget(With(d, es), domain);
      DomainsUntouched(rows, d, es, domain);
      DomainHolds(rows, d, domain);
    }
  }

  lemma DomainHolds(rows: seq<TrustRow>, d: Data, domain: string)
    requires InSync(rows, d) && domain in Domains(d.recs)
    ensures Holds(rows, DomainTarget(d, domain))
  {
    DomainTargetsAre(d, Domains(d.recs));
    var i :| 0 <= i < |Domains(d.recs)| && Domains(d.recs)[i] == domain;
    assert DomainTargets(d, Domains(d.recs))[i] == DomainTarget(d, domain);
    TargetHolds(rows, d, DomainTarget(d, domain));
  }

  /** One post keeps a table in sync exactly when its outcome is not a failed, blocked or abandoned one. */
  lemma PostInSyncIff(rows: seq<TrustRow>, d: Data, e: Execution)
    requires InSync(rows, d)
    ensures InSync(Post(rows, d, e), With(d, [e])) <==> !Missed(e)
  {
    var none: seq<Execution> := [];
    assert [e][..0] == none;
    assert With(d, none) == d by {
      assert d.executions + none == d.executions;
    }
    assert PostRun(rows, d, [e]) == Post(rows, d, e);
    PostRunInSyncIff(rows, d, [e]);
    forall route
      ensures Caught([e], route) <==> !(Missed(e) && OnRoute(e, route))
    {
      assert [e][0] == e;
    }
    assert Scored(None) && OnRoute(e, None);
  }

  /** Deleting an execution records nothing either: the table stays in sync exactly when its outcome was not counted. */
  lemma DeletionKeepsSyncIff(rows: seq<TrustRow>, recs: seq<Recommendation>, a: seq<Execution>, e: Execution, b: seq<Execution>)
    requires InSync(rows, Data(recs, a + [e] + b))
    ensures InSync(rows, Data(recs, a + b)) <==> !Missed(e) && !Committed(e)
  {
    var before, after := Data(recs, a + [e] + b), Data(recs, a + b);
    MissedOrCommitted(e);
    forall route
      ensures ExecutionOutcomes(before.executions, route) == ExecutionOutcomes(a, route)
                + (if Counts(e, route) then [MapOutcome(e.finalOutcome, e.retryCount).value] else [])
                + ExecutionOutcomes(b, route)
      ensures ExecutionOutcomes(after.executions, route) == ExecutionOutcomes(a, route) + ExecutionOutcomes(b, route)
    {
      OutcomesAround(a, e, b, route);
      OutcomesConcat(a, b, route);
    }
    if Missed(e) || Committed(e) {
      SampleSizeShrinks(rows, before, after);
    } else {
      SameTargets(before, after);
    }
  }
}
