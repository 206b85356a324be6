/** What resolveFallbackChain answers, told from the stored chains and models. */
module FallbackAnswers {
  import opened Wrappers
  import opened Sorting
  import opened Fallback

  // ----- the candidates are the active chains -----

  /** Every stored chain of the model that is active is a candidate, as often as it is stored, and no other chain is. */
  lemma {:induction false} CandidatesAre(chains: seq<Chain>, models: Models, modelId: string, c: Chain)
    requires c.fallbackModelId in models
    ensures multiset(Candidates(chains, models, modelId))[Candidate(c, models[c.fallbackModelId])]
         == if c.primaryModelId == modelId && c.isActive then multiset(chains)[c] else 0
  {
    if chains != [] {
      CandidatesAre(chains[1..], models, modelId, c);
      assert chains == [chains[0]] + chains[1..];
    }
  }

  lemma CandidateOf(chains: seq<Chain>, models: Models, modelId: string, c: Chain) returns (i: nat)
    requires c in chains && c.primaryModelId == modelId && c.isActive && c.fallbackModelId in models
    ensures i < |ActiveChains(chains, models, modelId)|
    ensures ActiveChains(chains, models, modelId)[i] == Candidate(c, models[c.fallbackModelId])
  {
    var cs := ActiveChains(chains, models, modelId);
    CandidatesAre(chains, models, modelId, c);
    SortByCorrect(Candidates(chains, models, modelId), Priority);
    assert Candidate(c, models[c.fallbackModelId]) in multiset(cs);
    i :| 0 <= i < |cs| && cs[i] == Candidate(c, models[c.fallbackModelId]);
  }

  lemma ChainOf(chains: seq<Chain>, models: Models, modelId: string, i: nat)
    requires i < |ActiveChains(chains, models, modelId)|
    ensures var c := ActiveChains(chains, models, modelId)[i].chain;
            && c in chains && c.primaryModelId == modelId && c.isActive && c.fallbackModelId in models
            && ActiveChains(chains, models, modelId)[i].model == models[c.fallbackModelId]
  {
    var cs := ActiveChains(chains, models, modelId);
    SortByCorrect(Candidates(chains, models, modelId), Priority);
    assert cs[i] in cs;
    CandidatesFrom(chains, models, modelId, cs[i]);
  }

  // ----- when there is an answer -----

  ghost predicate ActiveFor(chains: seq<Chain>, modelId: string, c: Chain) {
    c in chains && c.primaryModelId == modelId && c.isActive
  }

  /** An active chain to an active model other than the primary one. */
  ghost predicate Usable(chains: seq<Chain>, models: Models, modelId: string, c: Chain) {
    && ActiveFor(chains, modelId, c)
    && c.fallbackModelId in models && models[c.fallbackModelId].isActive && c.fallbackModelId != modelId
  }

  /** The first candidate that offers the model of candidate `i`. */
  lemma FirstOffer(cs: seq<Candidate>, i: nat) returns (j: nat)
    requires i < |cs|
    ensures j <= i && cs[j].chain.fallbackModelId == cs[i].chain.fallbackModelId
    ensures forall k | 0 <= k < j :: cs[k].chain.fallbackModelId != cs[j].chain.fallbackModelId
  {
    j := 0;
    while cs[j].chain.fallbackModelId != cs[i].chain.fallbackModelId
      invariant j <= i && forall k | 0 <= k < j :: cs[k].chain.fallbackModelId != cs[i].chain.fallbackModelId
      decreases i - j
    {
      j := j + 1;
    }
  }

  lemma UsableIsEligible(chains: seq<Chain>, models: Models, modelId: string, c: Chain) returns (j: nat)
    requires Usable(chains, models, modelId, c)
    ensures var cs := ActiveChains(chains, models, modelId);
            && j < |cs| && Eligible(cs, j, modelId) && cs[j].chain.fallbackModelId == c.fallbackModelId
            && Priority(cs[j]) <= c.priority
  {
    var cs := ActiveChains(chains, models, modelId);
    var i := CandidateOf(chains, models, modelId, c);
    j := FirstOffer(cs, i);
    ChainOf(chains, models, modelId, j);
    ActiveChainsByPriority(chains, models, modelId);
  }

  lemma EligibleIsUsable(chains: seq<Chain>, models: Models, modelId: string, i: nat)
    requires i < |ActiveChains(chains, models, modelId)| && Eligible(ActiveChains(chains, models, modelId), i, modelId)
    ensures Usable(chains, models, modelId, ActiveChains(chains, models, modelId)[i].chain)
  {
    ChainOf(chains, models, modelId, i);
  }

  lemma ResolvedNonEmpty(cs: seq<Candidate>, modelId: string)
    ensures Resolved(cs, modelId) != [] <==> exists i :: 0 <= i < |cs| && Eligible(cs, i, modelId)
  {
    SelectedNonEmpty(cs, |cs|, modelId);
    StepsLength(FirstHops(Selected(cs, |cs|, modelId)));
  }

  /** The three errors and the success, each exactly in its case. */
  lemma AnswersWhen(chains: seq<Chain>, models: Models, modelId: string)
    requires Linked(chains, models)
    ensures Answer(chains, models, modelId) == Failure(NotFound) <==> modelId !in models
    ensures Answer(chains, models, modelId) == Failure(NoActiveChain)
       <==> modelId in models && forall c :: !ActiveFor(chains, modelId, c)
    ensures Answer(chains, models, modelId) == Failure(NoValidSteps)
       <==> modelId in models && (exists c :: ActiveFor(chains, modelId, c)) && forall c :: !Usable(chains, models, modelId, c)
    ensures Answer(chains, models, modelId).Success?
       <==> modelId in models && exists c :: Usable(chains, models, modelId, c)
  {
    var cs := ActiveChains(chains, models, modelId);
    ResolvedNonEmpty(cs, modelId);
    if cs != [] {
      ChainOf(chains, models, modelId, 0);
      assert ActiveFor(chains, modelId, cs[0].chain);
    }
    if c :| ActiveFor(chains, modelId, c) {
      var i := CandidateOf(chains, models, modelId, c);
    }
    if i :| 0 <= i < |cs| && Eligible(cs, i, modelId) {
      EligibleIsUsable(chains, models, modelId, i);
    }
    if c :| Usable(chains, models, modelId, c) {
      var j := UsableIsEligible(chains, models, modelId, c);
    }
  }

  // ----- the steps -----

  /** The step a chain leads to, field by field. */
  ghost predicate StepOf(step: FallbackStep, c: Chain, m: Model) {
    && step.chainId == c.chainId && step.modelId == c.fallbackModelId
    && step.displayName == m.displayName && step.providerId == m.providerId && step.tier == m.tier
    && step.priority == c.priority && step.maxRetries == c.maxRetries
    && step.triggerOnHttpCode == c.triggerOnHttpCode && step.triggerOnTimeoutMs == c.triggerOnTimeoutMs
  }

  ghost predicate FromUsable(chains: seq<Chain>, models: Models, modelId: string, step: FallbackStep) {
    exists c :: Usable(chains, models, modelId, c) && StepOf(step, c, models[c.fallbackModelId])
  }

  /** One to three steps, from usable chains, to different models, by non-decreasing priority. */
  lemma StepsAreUsable(chains: seq<Chain>, models: Models, modelId: string, steps: seq<FallbackStep>)
    requires Answer(chains, models, modelId) == Success(steps)
    ensures 1 <= |steps| <= 3
    ensures forall k | 0 <= k < |steps| :: FromUsable(chains, models, modelId, steps[k])
    ensures forall a, b | 0 <= a < b < |steps| :: steps[a].modelId != steps[b].modelId && steps[a].priority <= steps[b].priority
  {
    var cs := ActiveChains(chains, models, modelId);
    var chosen := FirstHops(Selected(cs, |cs|, modelId));
    ActiveChainsByPriority(chains, models, modelId);
    ResolvedChainShape(cs, modelId);
    ChosenShape(cs, modelId, chosen);
    StepsLength(chosen);
    forall k | 0 <= k < |steps|
      ensures FromUsable(chains, models, modelId, steps[k])
    {
      var i :| 0 <= i < |cs| && Eligible(cs, i, modelId) && cs[i] == chosen[k];
      ChainOf(chains, models, modelId, i);
      assert StepOf(steps[k], cs[i].chain, models[cs[i].chain.fallbackModelId]);
    }
  }

  /** The step offers the chain's model at no higher priority value. */
  ghost predicate Offers(steps: seq<FallbackStep>, c: Chain) {
    exists k :: 0 <= k < |steps| && steps[k].modelId == c.fallbackModelId && steps[k].priority <= c.priority
  }

  ghost predicate FullBefore(steps: seq<FallbackStep>, c: Chain) {
    |steps| == 3 && forall k | 0 <= k < 3 :: steps[k].priority <= c.priority
  }

  lemma FirstThreeBefore(cs: seq<Candidate>, modelId: string, j: nat)
    requires ByPriority(cs) && j < |cs| && |Selected(cs, j, modelId)| >= 3
    ensures |Resolved(cs, modelId)| == 3
    ensures forall k | 0 <= k < 3 :: Resolved(cs, modelId)[k].priority <= Priority(cs[j])
  {
    var all, before := Selected(cs, |cs|, modelId), Selected(cs, j, modelId);
    SelectedPrefix(cs, j, |cs|, modelId);
    SelectedShape(cs, j, modelId);
    StepsLength(FirstHops(all));
    forall k | 0 <= k < 3
      ensures Resolved(cs, modelId)[k].priority <= Priority(cs[j])
    {
      assert all[k] == before[k] && before[k] in before;
      var i :| 0 <= i < j && Eligible(cs, i, modelId) && cs[i] == before[k];
    }
  }

  /** Every usable chain has its model offered at its priority or before, unless three steps of such priority exist. */
  lemma UsableIsOffered(chains: seq<Chain>, models: Models, modelId: string, c: Chain, steps: seq<FallbackStep>)
    requires Answer(chains, models, modelId) == Success(steps) && Usable(chains, models, modelId, c)
    ensures Offers(steps, c) || FullBefore(steps, c)
  {
    var cs := ActiveChains(chains, models, modelId);
    var j := UsableIsEligible(chains, models, modelId, c);
    var n := |Selected(cs, j, modelId)|;
    ActiveChainsByPriority(chains, models, modelId);
    if n < 3 {
      EligibleIsResolved(cs, modelId, j);
      assert steps[n] == ToStep(cs[j]);
    } else {
      FirstThreeBefore(cs, modelId, j);
    }
  }
}
