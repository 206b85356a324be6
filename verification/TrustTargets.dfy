/** What a row of the trust table counts, told from the recommendations and executions alone. */
module TrustTargets {
  import opened Wrappers
  import opened Counting
  import opened Tables
  import opened Executions
  import opened TrustScore
  import opened TrustSync
  import TrustArithmetic

  datatype Tally = Tally(samples: nat, successes: nat, mixed: nat)

  /** The assessed recommendations chosen by `p` and the finished executions chosen by `q`. */
  ghost function TallyOf(d: Data, p: Recommendation -> bool, q: Execution -> bool): Tally {
    Tally(Count(d.recs, (r: Recommendation) => p(r) && r.status == "ASSESSED" && r.finalOutcome.Some?)
          + Count(d.executions, (e: Execution) => q(e) && e.finalOutcome in ["COMMITTED", "FAILED", "BLOCKED", "ABANDONED"]),
          Count(d.recs, (r: Recommendation) => p(r) && r.status == "ASSESSED" && r.finalOutcome == Some(SUCCESS))
          + Count(d.executions, (e: Execution) => q(e) && e.finalOutcome == "COMMITTED" && e.retryCount == 0),
          Count(d.recs, (r: Recommendation) => p(r) && r.status == "ASSESSED" && r.finalOutcome == Some(MIXED))
          + Count(d.executions, (e: Execution) => q(e) && e.finalOutcome == "COMMITTED" && e.retryCount > 0))
  }

  /** The posterior mean in percent, a mixed outcome counting one half. */
  ghost function Posterior(t: Tally, alpha: nat, beta: nat): real
    requires alpha > 0
  {
    (t.successes as real + t.mixed as real / 2.0 + alpha as real) / (t.samples + alpha + beta) as real * 100.0
  }

  /** The value stands for the tally: its sample size, and its posterior rounded half up to a whole number. */
  ghost predicate StandsFor(v: TrustValue, t: Tally, alpha: nat, beta: nat)
    requires alpha > 0
  {
    && v.sampleSize == t.samples && v.priorAlpha == alpha && v.priorBeta == beta
    && v.score == v.score.Floor as real
    && Posterior(t, alpha, beta) - 0.5 < v.score <= Posterior(t, alpha, beta) + 0.5
  }

  ghost predicate Shows(rows: seq<TrustRow>, key: TrustKey, t: Tally, alpha: nat, beta: nat)
    requires alpha > 0
  {
    var v := Lookup(rows, key);
    v.Some? && StandsFor(v.value, t, alpha, beta)
  }

  // ----- the outcomes that are scored -----

  /** The assessed outcomes of one type or domain, each as often as a recommendation carries it. */
  lemma {:induction false} AssessedOutcomesAre(recs: seq<Recommendation>, dt: Option<string>, domain: Option<string>,
                                               o: FinalOutcome)
    ensures multiset(AssessedOutcomes(recs, dt, domain))[o]
         == Count(recs, (r: Recommendation) => && r.status == "ASSESSED" && r.finalOutcome == Some(o)
                                               && (dt == None || dt == Some(r.decisionType))
                                               && (domain == None || domain == Some(r.domain)))
  {
    if recs != [] {
      AssessedOutcomesAre(recs[..|recs| - 1], dt, domain, o);
    }
  }

  /** What an execution on the route is scored as. */
  predicate ScoredAs(e: Execution, route: Option<string>, o: FinalOutcome) {
    && (route == None || route == Some(e.routerRoute))
    && match o
       case SUCCESS => e.finalOutcome == "COMMITTED" && e.retryCount == 0
       case MIXED => e.finalOutcome == "COMMITTED" && e.retryCount > 0
       case FAILURE => e.finalOutcome == "FAILED" || e.finalOutcome == "BLOCKED"
       case ABANDONED => e.finalOutcome == "ABANDONED"
       case Other(_) => false
  }

  /** The outcome of one execution, if it is scored. */
  function OutcomeOf(e: Execution, route: Option<string>): seq<FinalOutcome> {
    if Counts(e, route) then [MapOutcome(e.finalOutcome, e.retryCount).value] else []
  }

  lemma OutcomeOfIs(e: Execution, route: Option<string>, o: FinalOutcome)
    ensures multiset(OutcomeOf(e, route))[o] == if ScoredAs(e, route, o) then 1 else 0
  {
    match o {
      case SUCCESS =>
      case MIXED =>
      case FAILURE =>
      case ABANDONED =>
      case Other(_) =>
    }
  }

  lemma OccurrencesConcat(a: seq<FinalOutcome>, b: seq<FinalOutcome>, o: FinalOutcome)
    ensures multiset(a + b)[o] == multiset(a)[o] + multiset(b)[o]
  {
  }

  lemma ExecutionOutcomesLast(executions: seq<Execution>, route: Option<string>)
    requires executions != []
    ensures ExecutionOutcomes(executions, route)
         == ExecutionOutcomes(executions[..|executions| - 1], route) + OutcomeOf(executions[|executions| - 1], route)
  {
  }

  /** The outcomes of the executions of one route, each as often as an execution is scored as it. */
  lemma {:induction false} ExecutionOutcomesAre(executions: seq<Execution>, route: Option<string>, o: FinalOutcome)
    ensures multiset(ExecutionOutcomes(executions, route))[o]
         == Count(executions, (e: Execution) => ScoredAs(e, route, o))
  {
    if executions != [] {
      var before, e := executions[..|executions| - 1], executions[|executions| - 1];
      ExecutionOutcomesAre(before, route, o);
      ExecutionOutcomesLast(executions, route);
      OccurrencesConcat(ExecutionOutcomes(before, route), OutcomeOf(e, route), o);
      OutcomeOfIs(e, route, o);
      CountLast(executions, (e: Execution) => ScoredAs(e, route, o));
    }
  }

  // ----- from outcomes to tallies -----

  ghost predicate Selects(p: Recommendation -> bool, dt: Option<string>, domain: Option<string>) {
    forall r: Recommendation :: p(r) <==> (dt == None || dt == Some(r.decisionType)) && (domain == None || domain == Some(r.domain))
  }

  ghost predicate SelectsRoute(q: Execution -> bool, route: Option<string>) {
    forall e: Execution :: q(e) <==> route == None || route == Some(e.routerRoute)
  }

  lemma {:induction false} WeightedIsCounted(outcomes: seq<FinalOutcome>)
    ensures WeightedSuccesses(outcomes)
         == multiset(outcomes)[SUCCESS] as real + multiset(outcomes)[MIXED] as real / 2.0
  {
    if outcomes != [] {
      WeightedIsCounted(outcomes[..|outcomes| - 1]);
      assert outcomes == outcomes[..|outcomes| - 1] + [outcomes[|outcomes| - 1]];
    }
  }

  lemma {:induction false} AssessedSamples(recs: seq<Recommendation>, dt: Option<string>, domain: Option<string>,
                                           p: Recommendation -> bool)
    requires Selects(p, dt, domain)
    ensures |AssessedOutcomes(recs, dt, domain)|
         == Count(recs, (r: Recommendation) => p(r) && r.status == "ASSESSED" && r.finalOutcome.Some?)
  {
    if recs != [] {
      AssessedSamples(recs[..|recs| - 1], dt, domain, p);
    }
  }

  lemma AssessedWith(recs: seq<Recommendation>, dt: Option<string>, domain: Option<string>, p: Recommendation -> bool,
                     o: FinalOutcome)
    requires Selects(p, dt, domain)
    ensures multiset(AssessedOutcomes(recs, dt, domain))[o]
         == Count(recs, (r: Recommendation) => p(r) && r.status == "ASSESSED" && r.finalOutcome == Some(o))
  {
    AssessedOutcomesAre(recs, dt, domain, o);
    CountSame(recs, (r: Recommendation) => p(r) && r.status == "ASSESSED" && r.finalOutcome == Some(o),
              (r: Recommendation) => && r.status == "ASSESSED" && r.finalOutcome == Some(o)
                                     && (dt == None || dt == Some(r.decisionType))
                                     && (domain == None || domain == Some(r.domain)));
  }

  lemma {:induction false} ExecutionSamples(executions: seq<Execution>, route: Option<string>, q: Execution -> bool)
    requires SelectsRoute(q, route)
    ensures |ExecutionOutcomes(executions, route)|
         == Count(executions, (e: Execution) => q(e) && e.finalOutcome in ["COMMITTED", "FAILED", "BLOCKED", "ABANDONED"])
  {
    if executions != [] {
      ExecutionSamples(executions[..|executions| - 1], route, q);
    }
  }

  lemma ExecutionsWith(executions: seq<Execution>, route: Option<string>, q: Execution -> bool)
    requires SelectsRoute(q, route)
    ensures multiset(ExecutionOutcomes(executions, route))[SUCCESS]
         == Count(executions, (e: Execution) => q(e) && e.finalOutcome == "COMMITTED" && e.retryCount == 0)
    ensures multiset(ExecutionOutcomes(executions, route))[MIXED]
         == Count(executions, (e: Execution) => q(e) && e.finalOutcome == "COMMITTED" && e.retryCount > 0)
  {
    ExecutionOutcomesAre(executions, route, SUCCESS);
    ExecutionOutcomesAre(executions, route, MIXED);
    CountSame(executions, (e: Execution) => q(e) && e.finalOutcome == "COMMITTED" && e.retryCount == 0,
              (e: Execution) => ScoredAs(e, route, SUCCESS));
    CountSame(executions, (e: Execution) => q(e) && e.finalOutcome == "COMMITTED" && e.retryCount > 0,
              (e: Execution) => ScoredAs(e, route, MIXED));
  }

  /** Outcomes from both sources, tallied. */
  ghost predicate Tallied(outcomes: seq<FinalOutcome>, t: Tally) {
    && |outcomes| == t.samples
    && multiset(outcomes)[SUCCESS] == t.successes && multiset(outcomes)[MIXED] == t.mixed
  }

  lemma BothTallied(d: Data, dt: Option<string>, p: Recommendation -> bool, q: Execution -> bool)
    requires Selects(p, dt, None) && SelectsRoute(q, dt)
    ensures Tallied(AssessedOutcomes(d.recs, dt, None) + ExecutionOutcomes(d.executions, dt), TallyOf(d, p, q))
  {
    AssessedSamples(d.recs, dt, None, p);
    AssessedWith(d.recs, dt, None, p, SUCCESS);
    AssessedWith(d.recs, dt, None, p, MIXED);
    ExecutionSamples(d.executions, dt, q);
    ExecutionsWith(d.executions, dt, q);
  }

  lemma DomainTallied(d: Data, domain: string, p: Recommendation -> bool, q: Execution -> bool)
    requires Selects(p, None, Some(domain)) && forall e :: !q(e)
    ensures Tallied(AssessedOutcomes(d.recs, None, Some(domain)), TallyOf(d, p, q))
  {
    AssessedSamples(d.recs, None, Some(domain), p);
    AssessedWith(d.recs, None, Some(domain), p, SUCCESS);
    AssessedWith(d.recs, None, Some(domain), p, MIXED);
    CountNone(d.executions, (e: Execution) => q(e) && e.finalOutcome in ["COMMITTED", "FAILED", "BLOCKED", "ABANDONED"]);
    CountNone(d.executions, (e: Execution) => q(e) && e.finalOutcome == "COMMITTED" && e.retryCount == 0);
    CountNone(d.executions, (e: Execution) => q(e) && e.finalOutcome == "COMMITTED" && e.retryCount > 0);
  }

  /** The stored value of tallied outcomes stands for the tally. */
  lemma ValueStandsFor(outcomes: seq<FinalOutcome>, prior: Prior, t: Tally)
    requires TrustArithmetic.Consistent(prior) && Tallied(outcomes, t)
    ensures StandsFor(ValueOf(outcomes, prior), t, prior.alpha, prior.beta)
  {
    TrustArithmetic.ScoreIsRounded(outcomes, prior);
    WeightedIsCounted(outcomes);
    assert TrustArithmetic.Percentage(outcomes, prior) == Posterior(t, prior.alpha, prior.beta);
  }

  // ----- the rows of the table -----

  /** The prior of a decision type. */
  ghost predicate HasPrior(dt: string, alpha: nat, beta: nat) {
    match dt
    case "TC" => alpha == 8 && beta == 2
    case "TS" => alpha == 8 && beta == 2
    case "IA" => alpha == 7 && beta == 3
    case "BB" => alpha == 6 && beta == 4
    case "PC" => alpha == 5 && beta == 5
    case "AP" => alpha == 5 && beta == 5
    case _ => false
  }

  /** After a refresh the global row counts every assessed recommendation and every finished execution. */
  lemma GlobalRowShows(rows: seq<TrustRow>, d: Data)
    ensures Shows(Refreshed(rows, d), TrustKey("GLOBAL", None, None),
                  TallyOf(d, (r: Recommendation) => true, (e: Execution) => true), 6, 4)
  {
    BothTallied(d, None, (r: Recommendation) => true, (e: Execution) => true);
    TrustArithmetic.ConfiguredPriorsConsistent("");
    ValueStandsFor(AssessedOutcomes(d.recs, None, None) + ExecutionOutcomes(d.executions, None), GLOBAL_PRIOR,
                   TallyOf(d, (r: Recommendation) => true, (e: Execution) => true));
    RefreshSynchronises(rows, d);
    InSyncIff(Refreshed(rows, d), d);
    assert GlobalTarget(d) in Targets(d);
  }

  /** The row of each of the six decision types counts the recommendations of that type and the executions routed to it. */
  lemma TypeRowShows(rows: seq<TrustRow>, d: Data, dt: string, alpha: nat, beta: nat)
    requires HasPrior(dt, alpha, beta)
    ensures Shows(Refreshed(rows, d), TrustKey("DECISION_TYPE", None, Some(dt)),
                  TallyOf(d, (r: Recommendation) => r.decisionType == dt, (e: Execution) => e.routerRoute == dt), alpha, beta)
  {
    BothTallied(d, Some(dt), (r: Recommendation) => r.decisionType == dt, (e: Execution) => e.routerRoute == dt);
    TrustArithmetic.ConfiguredPriorsConsistent(dt);
    ValueStandsFor(AssessedOutcomes(d.recs, Some(dt), None) + ExecutionOutcomes(d.executions, Some(dt)), PriorOf(dt),
                   TallyOf(d, (r: Recommendation) => r.decisionType == dt, (e: Execution) => e.routerRoute == dt));
    RefreshSynchronises(rows, d);
    InSyncIff(Refreshed(rows, d), d);
    TypeIsTarget(d, dt);
  }

  lemma TypeIsTarget(d: Data, dt: string)
    requires dt in ["TC", "AP", "IA", "TS", "PC", "BB"]
    ensures TypeTarget(d, dt) in Targets(d)
  {
    TypeTargetsAre(d, DECISION_TYPES);
    var i :| 0 <= i < |DECISION_TYPES| && DECISION_TYPES[i] == dt;
    assert TypeTargets(d, DECISION_TYPES)[i] == TypeTarget(d, dt);
  }

  /** A domain with an assessed recommendation. */
  ghost predicate HasAssessed(recs: seq<Recommendation>, domain: string) {
    exists r :: r in recs && r.status == "ASSESSED" && r.finalOutcome.Some? && r.domain == domain
  }

  lemma {:induction false} DomainsAre(recs: seq<Recommendation>, domain: string)
    ensures domain in Domains(recs) <==> HasAssessed(recs, domain)
  {
    if recs != [] {
      var before, rec := recs[..|recs| - 1], recs[|recs| - 1];
      DomainsAre(before, domain);
      assert recs == before + [rec];
    }
  }

  lemma DomainIsTarget(d: Data, domain: string)
    requires HasAssessed(d.recs, domain)
    ensures DomainTarget(d, domain) in Targets(d)
  {
    DomainsAre(d.recs, domain);
    DomainTargetsAre(d, Domains(d.recs));
    var i :| 0 <= i < |Domains(d.recs)| && Domains(d.recs)[i] == domain;
    assert DomainTargets(d, Domains(d.recs))[i] == DomainTarget(d, domain);
  }

  /** The row of a domain counts its assessed recommendations and no execution. */
  lemma DomainRowShows(rows: seq<TrustRow>, d: Data, domain: string)
    requires HasAssessed(d.recs, domain)
    ensures Shows(Refreshed(rows, d), TrustKey("DOMAIN", Some(domain), None),
                  TallyOf(d, (r: Recommendation) => r.domain == domain, (e: Execution) => false), 6, 4)
  {
    DomainTallied(d, domain, (r: Recommendation) => r.domain == domain, (e: Execution) => false);
    TrustArithmetic.ConfiguredPriorsConsistent("");
    ValueStandsFor(AssessedOutcomes(d.recs, None, Some(domain)), GLOBAL_PRIOR,
                   TallyOf(d, (r: Recommendation) => r.domain == domain, (e: Execution) => false));
    RefreshSynchronises(rows, d);
    InSyncIff(Refreshed(rows, d), d);
    DomainIsTarget(d, domain);
  }

  /** The rows a refresh writes. */
  ghost predicate Written(recs: seq<Recommendation>, key: TrustKey) {
    || key == TrustKey("GLOBAL", None, None)
    || (exists dt :: dt in ["TC", "AP", "IA", "TS", "PC", "BB"] && key == TrustKey("DECISION_TYPE", None, Some(dt)))
    || (exists domain :: HasAssessed(recs, domain) && key == TrustKey("DOMAIN", Some(domain), None))
  }

  lemma TargetIsWritten(d: Data, t: TrustRow)
    requires t in Targets(d)
    ensures Written(d.recs, t.key)
  {
    TypeTargetsAre(d, DECISION_TYPES);
    DomainTargetsAre(d, Domains(d.recs));
    if t in TypeTargets(d, DECISION_TYPES) {
      var i :| 0 <= i < |DECISION_TYPES| && TypeTargets(d, DECISION_TYPES)[i] == t;
      assert t.key == TrustKey("DECISION_TYPE", None, Some(DECISION_TYPES[i]));
    } else if t in DomainTargets(d, Domains(d.recs)) {
      var i :| 0 <= i < |Domains(d.recs)| && DomainTargets(d, Domains(d.recs))[i] == t;
      DomainsAre(d.recs, Domains(d.recs)[i]);
      assert t.key == TrustKey("DOMAIN", Some(Domains(d.recs)[i]), None);
    }
  }

  /** Every other row stays, also that of a domain whose recommendations are gone. */
  lemma OtherRowsStay(rows: seq<TrustRow>, d: Data, key: TrustKey)
    requires !Written(d.recs, key)
    ensures Lookup(Refreshed(rows, d), key) == Lookup(rows, key)
  {
    forall t | t in Targets(d)
      ensures t.key != key
    {
      TargetIsWritten(d, t);
    }
    LookupUpsertAll(rows, Targets(d), key);
  }

  // ----- recording one outcome -----

  /** An outcome that is none of the four writes nothing. */
  lemma UnknownOutcomeIsSkipped(rows: seq<TrustRow>, d: Data, route: string, finalOutcome: string, retryCount: nat)
    requires finalOutcome !in ["COMMITTED", "FAILED", "BLOCKED", "ABANDONED"]
    ensures Recorded(rows, d, route, finalOutcome, retryCount) == rows
  {
  }

  /** Recording brings the global row and the row of the route up to date and leaves all others. */
  lemma RecordedRows(rows: seq<TrustRow>, d: Data, route: string, finalOutcome: string, retryCount: nat, key: TrustKey)
    requires finalOutcome in ["COMMITTED", "FAILED", "BLOCKED", "ABANDONED"]
    ensures Lookup(Recorded(rows, d, route, finalOutcome, retryCount), key)
         == if key == TrustKey("GLOBAL", None, None)
               || (route in ["TC", "AP", "IA", "TS", "PC", "BB"] && key == TrustKey("DECISION_TYPE", None, Some(route)))
            then Lookup(Refreshed(rows, d), key)
            else Lookup(rows, key)
  {
    LevelsDiffer();
    LookupUpsert(rows, GlobalTarget(d), key);
    LookupUpsert(Upsert(rows, GlobalTarget(d)), TypeTarget(d, route), key);
    RefreshSynchronises(rows, d);
    InSyncIff(Refreshed(rows, d), d);
    assert GlobalTarget(d) in Targets(d);
    if route in ["TC", "AP", "IA", "TS", "PC", "BB"] {
      TypeIsTarget(d, route);
    }
  }

  // ----- one more recommendation or execution -----

  lemma WholeIsUnique(v: real, w: real, x: real)
    requires v == v.Floor as real && w == w.Floor as real
    requires x - 0.5 < v <= x + 0.5 && x - 0.5 < w <= x + 0.5
    ensures v == w
  {
    assert v.Floor - w.Floor < 1 && w.Floor - v.Floor < 1;
  }

  /** A tally has one value. */
  lemma TallyDetermines(v: TrustValue, w: TrustValue, t: Tally, alpha: nat, beta: nat)
    requires alpha > 0 && StandsFor(v, t, alpha, beta) && StandsFor(w, t, alpha, beta)
    ensures v == w
  {
    WholeIsUnique(v.score, w.score, Posterior(t, alpha, beta));
  }

  /** What one more recommendation or execution adds to a tally. */
  lemma TallySnoc(d: Data, rec: Recommendation, e: Execution, p: Recommendation -> bool, q: Execution -> bool)
    ensures var t, more := TallyOf(d, p, q), TallyOf(Data(d.recs + [rec], d.executions), p, q);
            if !p(rec) || rec.status != "ASSESSED" || rec.finalOutcome == None then more == t
            else more == Tally(t.samples + 1, t.successes + (if rec.finalOutcome == Some(SUCCESS) then 1 else 0),
                               t.mixed + if rec.finalOutcome == Some(MIXED) then 1 else 0)
    ensures var t, more := TallyOf(d, p, q), TallyOf(Data(d.recs, d.executions + [e]), p, q);
            if !q(e) || e.finalOutcome !in ["COMMITTED", "FAILED", "BLOCKED", "ABANDONED"] then more == t
            else more == Tally(t.samples + 1, t.successes + (if e.finalOutcome == "COMMITTED" && e.retryCount == 0 then 1 else 0),
                               t.mixed + if e.finalOutcome == "COMMITTED" && e.retryCount > 0 then 1 else 0)
  {
    CountSnoc(d.recs, rec, (r: Recommendation) => p(r) && r.status == "ASSESSED" && r.finalOutcome.Some?);
    CountSnoc(d.recs, rec, (r: Recommendation) => p(r) && r.status == "ASSESSED" && r.finalOutcome == Some(SUCCESS));
    CountSnoc(d.recs, rec, (r: Recommendation) => p(r) && r.status == "ASSESSED" && r.finalOutcome == Some(MIXED));
    CountSnoc(d.executions, e, (e: Execution) => q(e) && e.finalOutcome in ["COMMITTED", "FAILED", "BLOCKED", "ABANDONED"]);
    CountSnoc(d.executions, e, (e: Execution) => q(e) && e.finalOutcome == "COMMITTED" && e.retryCount == 0);
    CountSnoc(d.executions, e, (e: Execution) => q(e) && e.finalOutcome == "COMMITTED" && e.retryCount > 0);
  }

  /** A recommendation of another type, not assessed or without an outcome leaves a type's row; any other is one more sample. */
  lemma OneMoreRecommendation(rows: seq<TrustRow>, d: Data, rec: Recommendation, dt: string)
    requires dt in ["TC", "AP", "IA", "TS", "PC", "BB"]
    ensures var key := TrustKey("DECISION_TYPE", None, Some(dt));
            var before := Lookup(Refreshed(rows, d), key);
            var after := Lookup(Refreshed(rows, Data(d.recs + [rec], d.executions)), key);
            && before.Some? && after.Some?
            && if rec.decisionType != dt || rec.status != "ASSESSED" || rec.finalOutcome == None then after == before
               else after.value.sampleSize == before.value.sampleSize + 1
  {
    var p, q := (r: Recommendation) => r.decisionType == dt, (e: Execution) => e.routerRoute == dt;
    var prior, more := PriorOf(dt), Data(d.recs + [rec], d.executions);
    TypeRowShows(rows, d, dt, prior.alpha, prior.beta);
    TypeRowShows(rows, more, dt, prior.alpha, prior.beta);
    TallySnoc(d, rec, Execution("", "", "", 0, "", None, None), p, q);
    if TallyOf(more, p, q) == TallyOf(d, p, q) {
      TallyDetermines(Lookup(Refreshed(rows, d), TrustKey("DECISION_TYPE", None, Some(dt))).value,
                      Lookup(Refreshed(rows, more), TrustKey("DECISION_TYPE", None, Some(dt))).value,
                      TallyOf(d, p, q), prior.alpha, prior.beta);
    }
  }
}
