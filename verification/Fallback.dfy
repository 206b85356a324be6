/** Resolving a model's fallback chain. */
module Fallback {
  import opened Wrappers
  import opened Sorting

  datatype Model = Model(displayName: string, providerId: string, tier: string, isActive: bool)

  datatype Chain = Chain(chainId: string, primaryModelId: string, fallbackModelId: string, priority: int,
                         triggerOnHttpCode: Option<int>, triggerOnTimeoutMs: Option<int>, maxRetries: int, isActive: bool)

  datatype ChainDto = ChainDto(chainId: string, primaryModelId: string, fallbackModelId: string, priority: Option<int>,
                               triggerOnHttpCode: Option<int>, triggerOnTimeoutMs: Option<int>,
                               maxRetries: Option<int>, isActive: Option<bool>)

  datatype FallbackStep = FallbackStep(chainId: string, modelId: string, displayName: string, providerId: string,
                                       tier: string, priority: int, triggerOnHttpCode: Option<int>, triggerOnTimeoutMs: Option<int>,
                                       maxRetries: int)

  type Models = map<string, Model>

  const MAX_HOPS := 3

  /** A chain with its fallback model, as the query includes it. */
  datatype Candidate = Candidate(chain: Chain, model: Model)

  /** Both model columns reference the registry. */
  ghost predicate Linked(chains: seq<Chain>, models: Models) {
    forall c | c in chains :: c.fallbackModelId in models && c.primaryModelId in models
  }

  function Candidates(chains: seq<Chain>, models: Models, modelId: string): seq<Candidate> {
    if chains == [] then []
    else
      var c := chains[0];
      (if c.primaryModelId == modelId && c.isActive && c.fallbackModelId in models
       then [Candidate(c, models[c.fallbackModelId])] else [])
      + Candidates(chains[1..], models, modelId)
  }

  function Priority(c: Candidate): int {
    c.chain.priority
  }

  /** findMany: the active chains of a primary model, by ascending priority. */
  function ActiveChains(chains: seq<Chain>, models: Models, modelId: string): seq<Candidate> {
    SortBy(Candidates(chains, models, modelId), Priority)
  }

  function ToStep(c: Candidate): FallbackStep {
    FallbackStep(c.chain.chainId, c.chain.fallbackModelId, c.model.displayName, c.model.providerId, c.model.tier,
                 c.chain.priority, c.chain.triggerOnHttpCode, c.chain.triggerOnTimeoutMs, c.chain.maxRetries)
  }

  function Steps(cs: seq<Candidate>): seq<FallbackStep> {
    if cs == [] then [] else Steps(cs[..|cs| - 1]) + [ToStep(cs[|cs| - 1])]
  }

  /** Candidate `i` may become a step: an active model, not the primary one, not offered by an earlier candidate. */
  predicate Eligible(cs: seq<Candidate>, i: int, primary: string)
    requires 0 <= i < |cs|
  {
    cs[i].model.isActive && cs[i].chain.fallbackModelId != primary
    && forall j | 0 <= j < i :: cs[j].chain.fallbackModelId != cs[i].chain.fallbackModelId
  }

  /** The eligible among the first `n` candidates, in order. */
  function Selected(cs: seq<Candidate>, n: nat, primary: string): seq<Candidate>
    requires n <= |cs|
  {
    if n == 0 then [] else Selected(cs, n - 1, primary) + if Eligible(cs, n - 1, primary) then [cs[n - 1]] else []
  }

  function FirstHops(cs: seq<Candidate>): seq<Candidate> {
    if |cs| <= MAX_HOPS then cs else cs[..MAX_HOPS]
  }

  /** The first three eligible candidates. */
  function Resolved(cs: seq<Candidate>, primary: string): seq<FallbackStep> {
    Steps(FirstHops(Selected(cs, |cs|, primary)))
  }

  /** resolveFallbackChain as a function of the stored rows. */
  function Answer(chains: seq<Chain>, models: Models, modelId: string): Result<seq<FallbackStep>> {
    var active := ActiveChains(chains, models, modelId);
    if modelId !in models then Failure(NotFound)
    else if active == [] then Failure(NoActiveChain)
    else if Resolved(active, modelId) == [] then Failure(NoValidSteps)
    else Success(Resolved(active, modelId))
  }

  /** Every row of one model includes the same registry row. */
  ghost predicate OneModelPerId(cs: seq<Candidate>) {
    forall i, j | 0 <= i < j < |cs| && cs[i].chain.fallbackModelId == cs[j].chain.fallbackModelId :: cs[i].model == cs[j].model
  }

  class FallbackService {
    var models: Models
    var chains: seq<Chain>

    ghost predicate Valid()
      reads this
    {
      && Linked(chains, models)
      && forall i, j | 0 <= i < j < |chains| :: chains[i].chainId != chains[j].chainId
    }

    constructor (models: Models)
      ensures Valid() && this.models == models && chains == []
    {
      this.models, chains := models, [];
    }

    method ResolveFallbackChain(modelId: string) returns (r: Result<seq<FallbackStep>>)
      requires Valid()
      ensures r == Answer(chains, models, modelId)
    {
      if modelId !in models {
        return Failure(NotFound);
      }
      var active := ActiveChains(chains, models, modelId);
      if |active| == 0 {
        return Failure(NoActiveChain);
      }
      ActiveChainsShareModels(chains, models, modelId);
      var steps := BuildSteps(active, modelId);
      r := if |steps| == 0 then Failure(NoValidSteps) else Success(steps);
    }

    method CreateFallbackChain(dto: ChainDto) returns (r: Result<Chain>)
      requires Valid()
      modifies this`chains
      ensures Valid()
      ensures if dto.primaryModelId !in models || dto.fallbackModelId !in models then r == Failure(NotFound)
              else if dto.primaryModelId == dto.fallbackModelId then r == Failure(Invalid)
              else if exists c :: c in old(chains) && c.chainId == dto.chainId then r == Failure(Conflict)
              else r == Success(Chain(dto.chainId, dto.primaryModelId, dto.fallbackModelId, dto.priority.GetOr(1),
                                      dto.triggerOnHttpCode, dto.triggerOnTimeoutMs, dto.maxRetries.GetOr(1),
                                      dto.isActive != Some(false)))
      ensures chains == old(chains) + if r.Success? then [r.value] else []
    {
      if dto.primaryModelId !in models || dto.fallbackModelId !in models {
        return Failure(NotFound);
      }
      if dto.primaryModelId == dto.fallbackModelId {
        return Failure(Invalid);
      }
      if exists c | c in chains :: c.chainId == dto.chainId {
        return Failure(Conflict);
      }
      var chain := Chain(dto.chainId, dto.primaryModelId, dto.fallbackModelId, dto.priority.GetOr(1), dto.triggerOnHttpCode,
                         dto.triggerOnTimeoutMs, dto.maxRetries.GetOr(1), dto.isActive.GetOr(true));
      assert forall c | c in chains :: c.chainId != dto.chainId;
      chains := chains + [chain];
      r := Success(chain);
    }
  }

  /** The loop of resolveFallbackChain, with its visited set. */
  method BuildSteps(cs: seq<Candidate>, primary: string) returns (steps: seq<FallbackStep>)
    requires OneModelPerId(cs)
    ensures steps == Resolved(cs, primary)
  {
    var visited := {primary};
    var n := 0;
    steps := [];
    while n < |cs|
      invariant 0 <= n <= |cs|
      invariant steps == Steps(Selected(cs, n, primary)) && |Selected(cs, n, primary)| <= MAX_HOPS
      invariant Visited(cs, n, primary, visited)
      decreases |cs| - n
    {
      StepsLength(Selected(cs, n, primary));
      if |steps| >= MAX_HOPS {
        break;
      }
      var candidate := cs[n];
      var id := candidate.chain.fallbackModelId;
      EligibleIffUnvisited(cs, n, primary, visited);
      ghost var before := Selected(cs, n, primary);
      assert (before + [candidate])[..|before|] == before && before + [] == before;
      n := n + 1;
      if id in visited {
        continue;
      }
      if !candidate.model.isActive {
        continue;
      }
      visited := visited + {id};
      steps := steps + [ToStep(candidate)];
    }
    StepsLength(Selected(cs, n, primary));
    FirstHopsKnown(cs, n, primary);
  }

  /** The visited set: the primary model and every active model offered so far. */
  ghost predicate Visited(cs: seq<Candidate>, n: nat, primary: string, visited: set<string>)
    requires n <= |cs|
  {
    forall id :: id in visited <==>
      id == primary || exists j :: 0 <= j < n && cs[j].chain.fallbackModelId == id && cs[j].model.isActive
  }

  lemma EligibleIffUnvisited(cs: seq<Candidate>, n: nat, primary: string, visited: set<string>)
    requires n < |cs| && OneModelPerId(cs) && Visited(cs, n, primary, visited)
    ensures Eligible(cs, n, primary) <==> cs[n].chain.fallbackModelId !in visited && cs[n].model.isActive
    ensures Visited(cs, n + 1, primary, if cs[n].model.isActive then visited + {cs[n].chain.fallbackModelId} else visited)
  {
  }

  lemma {:induction false} StepsLength(cs: seq<Candidate>)
    ensures |Steps(cs)| == |cs|
    ensures forall i | 0 <= i < |cs| :: Steps(cs)[i] == ToStep(cs[i])
  {
    if cs != [] {
      StepsLength(cs[..|cs| - 1]);
    }
  }

  /** Later candidates cannot change the first three. */
  lemma {:induction false} FirstHopsKnown(cs: seq<Candidate>, n: nat, primary: string)
    requires n <= |cs| && (n == |cs| || |Selected(cs, n, primary)| >= MAX_HOPS)
    ensures FirstHops(Selected(cs, |cs|, primary)) == FirstHops(Selected(cs, n, primary))
    decreases |cs| - n
  {
    if n < |cs| {
      FirstHopsKnown(cs, n + 1, primary);
    }
  }

  lemma {:induction false} SelectedNonEmpty(cs: seq<Candidate>, n: nat, primary: string)
    requires n <= |cs|
    ensures Selected(cs, n, primary) == [] <==> forall i | 0 <= i < n :: !Eligible(cs, i, primary)
  {
    if n > 0 {
      SelectedNonEmpty(cs, n - 1, primary);
    }
  }

  lemma {:induction false} CandidatesFrom(chains: seq<Chain>, models: Models, modelId: string, c: Candidate)
    requires c in Candidates(chains, models, modelId)
    ensures c.chain in chains && c.chain.primaryModelId == modelId && c.chain.isActive
    ensures c.chain.fallbackModelId in models && c.model == models[c.chain.fallbackModelId]
  {
    var head := chains[0];
    if !(head.primaryModelId == modelId && head.isActive && head.fallbackModelId in models
         && c == Candidate(head, models[head.fallbackModelId])) {
      CandidatesFrom(chains[1..], models, modelId, c);
    }
  }

  lemma ActiveChainsShareModels(chains: seq<Chain>, models: Models, modelId: string)
    ensures OneModelPerId(ActiveChains(chains, models, modelId))
  {
    var cs := ActiveChains(chains, models, modelId);
    SortByCorrect(Candidates(chains, models, modelId), Priority);
    forall i | 0 <= i < |cs|
      ensures cs[i].chain.fallbackModelId in models && cs[i].model == models[cs[i].chain.fallbackModelId]
    {
      assert cs[i] in cs;
      CandidatesFrom(chains, models, modelId, cs[i]);
    }
  }

  // ----- what a resolved chain looks like -----

  ghost predicate ByPriority(cs: seq<Candidate>) {
    forall i, j | 0 <= i < j < |cs| :: Priority(cs[i]) <= Priority(cs[j])
  }

  lemma ActiveChainsByPriority(chains: seq<Chain>, models: Models, modelId: string)
    ensures ByPriority(ActiveChains(chains, models, modelId))
  {
    SortByCorrect(Candidates(chains, models, modelId), Priority);
  }

  /** A selected candidate comes from an eligible position; positions increase along the selection. */
  lemma {:induction false} SelectedShape(cs: seq<Candidate>, n: nat, primary: string)
    requires n <= |cs| && ByPriority(cs)
    ensures forall c | c in Selected(cs, n, primary) :: exists i :: 0 <= i < n && Eligible(cs, i, primary) && cs[i] == c
    ensures forall a, b | 0 <= a < b < |Selected(cs, n, primary)| ::
              var s := Selected(cs, n, primary);
              s[a].chain.fallbackModelId != s[b].chain.fallbackModelId && Priority(s[a]) <= Priority(s[b])
  {
    if n > 0 {
      SelectedShape(cs, n - 1, primary);
      var before := Selected(cs, n - 1, primary);
      forall a | 0 <= a < |before| && Eligible(cs, n - 1, primary)
        ensures before[a].chain.fallbackModelId != cs[n - 1].chain.fallbackModelId && Priority(before[a]) <= Priority(cs[n - 1])
      {
        assert before[a] in before;
      }
      forall c | c in Selected(cs, n, primary)
        ensures exists i :: 0 <= i < n && Eligible(cs, i, primary) && cs[i] == c
      {
        if c in before {
          var i :| 0 <= i < n - 1 && Eligible(cs, i, primary) && cs[i] == c;
        } else {
          assert Eligible(cs, n - 1, primary) && cs[n - 1] == c;
        }
      }
    }
  }

  /** At most three steps, to different active models, none the primary, by non-decreasing priority. */
  lemma ResolvedChainShape(cs: seq<Candidate>, primary: string)
    requires ByPriority(cs)
    ensures |Resolved(cs, primary)| <= 3
    ensures forall k | 0 <= k < |Resolved(cs, primary)| :: Resolved(cs, primary)[k].modelId != primary
              && exists i :: 0 <= i < |cs| && cs[i].model.isActive && Resolved(cs, primary)[k] == ToStep(cs[i])
    ensures forall a, b | 0 <= a < b < |Resolved(cs, primary)| ::
              Resolved(cs, primary)[a].modelId != Resolved(cs, primary)[b].modelId
              && Resolved(cs, primary)[a].priority <= Resolved(cs, primary)[b].priority
  {
    var chosen := FirstHops(Selected(cs, |cs|, primary));
    ChosenShape(cs, primary, chosen);
    StepsLength(chosen);
    assert Resolved(cs, primary) == Steps(chosen);
    forall k | 0 <= k < |chosen|
      ensures Steps(chosen)[k].modelId != primary
      ensures exists i :: 0 <= i < |cs| && cs[i].model.isActive && Steps(chosen)[k] == ToStep(cs[i])
    {
      var i :| 0 <= i < |cs| && Eligible(cs, i, primary) && cs[i] == chosen[k];
    }
    forall a, b | 0 <= a < b < |chosen|
      ensures Steps(chosen)[a].modelId != Steps(chosen)[b].modelId
      ensures Steps(chosen)[a].priority <= Steps(chosen)[b].priority
    {
      assert Steps(chosen)[a] == ToStep(chosen[a]) && Steps(chosen)[b] == ToStep(chosen[b]);
    }
  }

  ghost predicate FromEligible(cs: seq<Candidate>, primary: string, c: Candidate) {
    exists i :: 0 <= i < |cs| && Eligible(cs, i, primary) && cs[i] == c
  }

  /** What SelectedShape says holds of the first three as well. */
  lemma ChosenShape(cs: seq<Candidate>, primary: string, chosen: seq<Candidate>)
    requires ByPriority(cs) && chosen == FirstHops(Selected(cs, |cs|, primary))
    ensures |chosen| <= MAX_HOPS
    ensures forall k | 0 <= k < |chosen| :: FromEligible(cs, primary, chosen[k])
    ensures forall a, b | 0 <= a < b < |chosen| ::
              chosen[a].chain.fallbackModelId != chosen[b].chain.fallbackModelId && Priority(chosen[a]) <= Priority(chosen[b])
  {
    var all := Selected(cs, |cs|, primary);
    SelectedShape(cs, |cs|, primary);
    forall k | 0 <= k < |chosen|
      ensures FromEligible(cs, primary, chosen[k])
    {
      assert chosen[k] == all[k] && all[k] in all;
      var i :| 0 <= i < |cs| && Eligible(cs, i, primary) && cs[i] == all[k];
    }
    forall a, b | 0 <= a < b < |chosen|
      ensures chosen[a].chain.fallbackModelId != chosen[b].chain.fallbackModelId
      ensures Priority(chosen[a]) <= Priority(chosen[b])
    {
      assert chosen[a] == all[a] && chosen[b] == all[b];
    }
  }

  /** Nothing eligible is passed over: an eligible candidate is a step unless three others precede it. */
  lemma EligibleIsResolved(cs: seq<Candidate>, primary: string, i: nat)
    requires i < |cs| && Eligible(cs, i, primary) && |Selected(cs, i, primary)| < MAX_HOPS
    ensures |Selected(cs, i, primary)| < |Resolved(cs, primary)|
    ensures Resolved(cs, primary)[|Selected(cs, i, primary)|] == ToStep(cs[i])
  {
    SelectedPrefix(cs, i + 1, |cs|, primary);
    StepsLength(FirstHops(Selected(cs, |cs|, primary)));
  }

  lemma {:induction false} SelectedPrefix(cs: seq<Candidate>, m: nat, n: nat, primary: string)
    requires m <= n <= |cs|
    ensures Selected(cs, m, primary) <= Selected(cs, n, primary)
    decreases n
  {
    if m < n {
      SelectedPrefix(cs, m, n - 1, primary);
    }
  }
}
