/** Packing context fragments under a tier's token budget. */
module ContextManager {
  import opened Wrappers

  datatype Tier = TIER_1 | TIER_2 | TIER_3
  datatype Source = AGENT_MEMORY | KNOWLEDGE_GRAPH | RULES | ARCHITECTURE
  datatype Fragment = Fragment(source: Source, title: string, content: string, tokenEstimate: nat)

  /** What the four loaders return at one moment. */
  datatype Sources = Sources(memories: seq<Fragment>, graph: seq<Fragment>, rules: seq<Fragment>, architecture: seq<Fragment>)

  datatype Request = Request(agentType: string, taskType: string, tier: Option<Tier>, sessionId: string)

  datatype AssembledContext = AssembledContext(sessionId: string, agentType: string, taskType: string, tier: Tier,
                                               fragments: seq<Fragment>, combined: string, totalTokens: nat, budget: nat,
                                               truncated: bool, assembledAt: nat)

  const CHARS_PER_TOKEN := 4

  function Budget(tier: Tier): nat {
    match tier
    case TIER_1 => 8_000
    case TIER_2 => 16_000
    case TIER_3 => 32_000
  }

  /** Math.ceil(length / 4) */
  function EstimateTokens(content: string): nat {
    (|content| + CHARS_PER_TOKEN - 1) / CHARS_PER_TOKEN
  }

  /** The fragments a tier draws on, in the order of the loops. */
  function TierSources(s: Sources, tier: Tier): seq<Fragment> {
    match tier
    case TIER_1 => s.memories
    case TIER_2 => s.memories + s.graph
    case TIER_3 => s.memories + s.graph + s.rules + s.architecture
  }

  function Tokens(fragments: seq<Fragment>): nat {
    if fragments == [] then 0 else Tokens(fragments[..|fragments| - 1]) + fragments[|fragments| - 1].tokenEstimate
  }

  function Part(f: Fragment): string {
    "## Source: " + f.title + "\n" + f.content + "\n"
  }

  /** parts.join('\n') */
  function Combined(fragments: seq<Fragment>): string {
    if fragments == [] then ""
    else if |fragments| == 1 then Part(fragments[0])
    else Combined(fragments[..|fragments| - 1]) + "\n" + Part(fragments[|fragments| - 1])
  }

  /** The longest prefix whose tokens fit the budget. */
  ghost predicate LongestFitting(all: seq<Fragment>, budget: nat, chosen: seq<Fragment>) {
    && chosen <= all
    && Tokens(chosen) <= budget
    && forall k | |chosen| < k <= |all| :: Tokens(all[..k]) > budget
  }

  lemma {:induction false} TokensGrow(all: seq<Fragment>, i: nat, j: nat)
    requires i <= j <= |all|
    ensures Tokens(all[..i]) <= Tokens(all[..j])
    decreases j
  {
    if i < j {
      TokensGrow(all, i, j - 1);
      assert all[..j][..j - 1] == all[..j - 1];
    }
  }

  /** A prefix that fits and cannot be extended by one fragment is the longest that fits. */
  lemma StoppedIsLongest(all: seq<Fragment>, budget: nat, n: nat)
    requires n <= |all| && Tokens(all[..n]) <= budget
    requires n < |all| ==> Tokens(all[..n]) + all[n].tokenEstimate > budget
    ensures LongestFitting(all, budget, all[..n])
  {
    forall k | n < k <= |all|
      ensures Tokens(all[..k]) > budget
    {
      assert all[..n + 1][..n] == all[..n];
      TokensGrow(all, n + 1, k);
    }
  }

  lemma LongestIsUnique(all: seq<Fragment>, budget: nat, a: seq<Fragment>, b: seq<Fragment>)
    requires LongestFitting(all, budget, a) && LongestFitting(all, budget, b)
    ensures a == b
  {
    assert a == all[..|a|] && b == all[..|b|];
  }

  /** For the same sources a higher tier only adds fragments at the end. */
  lemma HigherTierExtends(s: Sources, low: Tier, high: Tier, a: seq<Fragment>, b: seq<Fragment>)
    requires low == TIER_1 || (low == TIER_2 && high != TIER_1) || high == TIER_3
    requires LongestFitting(TierSources(s, low), Budget(low), a) && LongestFitting(TierSources(s, high), Budget(high), b)
    ensures a <= b
  {
    var x, y := TierSources(s, low), TierSources(s, high);
    assert x <= y;
    assert a == x[..|a|] == y[..|a|] && b == y[..|b|];
  }

  // ----- the combined text -----

  function Texts(fragments: seq<Fragment>): nat {
    if fragments == [] then 0
    else
      var last := fragments[|fragments| - 1];
      Texts(fragments[..|fragments| - 1]) + |last.title| + |last.content|
  }

  function Titles(fragments: seq<Fragment>): nat {
    if fragments == [] then 0 else Titles(fragments[..|fragments| - 1]) + |fragments[|fragments| - 1].title|
  }

  /** Headings, newlines and separators take 14 characters a fragment, less the separator the first one lacks. */
  lemma {:induction false} CombinedLength(fragments: seq<Fragment>)
    ensures |Combined(fragments)| == if fragments == [] then 0 else Texts(fragments) + 14 * |fragments| - 1
  {
    if |fragments| == 1 {
      assert fragments[..0] == [];
      assert |Part(fragments[0])| == 13 + |fragments[0].title| + |fragments[0].content|;
    } else if |fragments| > 1 {
      var last := fragments[|fragments| - 1];
      CombinedLength(fragments[..|fragments| - 1]);
      assert |Part(last)| == 13 + |last.title| + |last.content|;
    }
  }

  /** Each fragment under its heading, one blank line between fragments. */
  lemma CombinedJoins(first: seq<Fragment>, f: Fragment)
    ensures Combined([f]) == "## Source: " + f.title + "\n" + f.content + "\n"
    ensures first != [] ==> Combined(first + [f]) == Combined(first) + "\n" + Combined([f])
  {
    assert (first + [f])[..|first|] == first;
  }

  ghost predicate Estimated(fragments: seq<Fragment>) {
    forall f | f in fragments :: f.tokenEstimate == EstimateTokens(f.content)
  }

  lemma {:induction false} TextsWithinTokens(fragments: seq<Fragment>)
    requires Estimated(fragments)
    ensures Texts(fragments) <= Titles(fragments) + 4 * Tokens(fragments)
    ensures Titles(fragments) + 4 * Tokens(fragments) <= Texts(fragments) + 3 * |fragments|
  {
    if fragments != [] {
      assert fragments[|fragments| - 1] in fragments;
      TextsWithinTokens(fragments[..|fragments| - 1]);
    }
  }

  /** The combined text is at most four characters a token, the titles, and 14 characters a fragment; and not much less. */
  lemma {:induction false} CombinedWithinBudget(fragments: seq<Fragment>)
    requires Estimated(fragments)
    ensures |Combined(fragments)| <= 4 * Tokens(fragments) + Titles(fragments) + 14 * |fragments|
    ensures 4 * Tokens(fragments) + Titles(fragments) + 11 * |fragments| <= |Combined(fragments)| + 1
  {
    CombinedLength(fragments);
    TextsWithinTokens(fragments);
  }

  // ----- assembly and cache -----

  /** The cache key joins three fields with ':' and leaves out the tier. */
  function CacheKey(r: Request): string {
    "context:" + r.agentType + ":" + r.taskType + ":" + r.sessionId
  }

  function TierOf(r: Request): Tier {
    r.tier.GetOr(TIER_1)
  }

  /** `c` is a fresh answer to the request from these sources. */
  ghost predicate IsFresh(c: AssembledContext, r: Request, s: Sources, now: nat) {
    && c.sessionId == r.sessionId && c.agentType == r.agentType && c.taskType == r.taskType && c.assembledAt == now
    && c.tier == TierOf(r)
    && c.budget == Budget(c.tier)
    && LongestFitting(TierSources(s, c.tier), c.budget, c.fragments)
    && c.totalTokens == Tokens(c.fragments)
    && (c.truncated <==> |c.fragments| < |TierSources(s, c.tier)|)
    && c.combined == Combined(c.fragments)
  }

  /** As much of `all` as the budget allows: everything, or the prefix before the first fragment that does not fit. */
  ghost predicate Packs(c: AssembledContext, all: seq<Fragment>, budget: nat) {
    && c.budget == budget
    && c.fragments <= all
    && c.totalTokens == Tokens(c.fragments) <= budget
    && (c.truncated <==> Tokens(all) > budget)
    && (if c.truncated then |c.fragments| < |all| && Tokens(all[..|c.fragments| + 1]) > budget else c.fragments == all)
  }

  /** Each tier with its budget and its sources in their order; the first is the default. */
  ghost predicate PacksTier(c: AssembledContext, r: Request, s: Sources) {
    match r.tier
    case Some(TIER_3) => c.tier == TIER_3 && Packs(c, s.memories + s.graph + s.rules + s.architecture, 32_000)
    case Some(TIER_2) => c.tier == TIER_2 && Packs(c, s.memories + s.graph, 16_000)
    case _ => c.tier == TIER_1 && Packs(c, s.memories, 8_000)
  }

  lemma LongestPacks(c: AssembledContext, all: seq<Fragment>, budget: nat)
    requires c.budget == budget && c.totalTokens == Tokens(c.fragments)
    requires LongestFitting(all, budget, c.fragments) && (c.truncated <==> |c.fragments| < |all|)
    ensures Packs(c, all, budget)
  {
    assert all[..|all|] == all;
    if !c.truncated {
      assert c.fragments == all[..|c.fragments|];
    }
  }

  /** A fresh answer packs the sources of the asked tier, or of the first when none is asked. */
  lemma FreshPacksTier(c: AssembledContext, r: Request, s: Sources, now: nat)
    requires IsFresh(c, r, s, now)
    ensures PacksTier(c, r, s)
  {
    match r.tier
    case Some(TIER_3) => LongestPacks(c, s.memories + s.graph + s.rules + s.architecture, 32_000);
    case Some(TIER_2) => LongestPacks(c, s.memories + s.graph, 16_000);
    case _ => LongestPacks(c, s.memories, 8_000);
  }

  /** A context consistent with its own recorded tier. */
  ghost predicate Consistent(c: AssembledContext) {
    c.budget == Budget(c.tier) && c.totalTokens == Tokens(c.fragments) <= c.budget && c.combined == Combined(c.fragments)
  }

  method CombineFragments(fragments: seq<Fragment>) returns (combined: string)
    ensures combined == Combined(fragments)
  {
    combined := "";
    for n := 0 to |fragments|
      invariant combined == Combined(fragments[..n])
    {
      assert fragments[..n + 1][..n] == fragments[..n];
      combined := if n == 0 then Part(fragments[n]) else combined + "\n" + Part(fragments[n]);
    }
    assert fragments[..|fragments|] == fragments;
  }

  /** How far packing has come: the fragments offered so far were taken from the front until one did not fit. */
  ghost predicate Packed(offered: seq<Fragment>, budget: nat, taken: seq<Fragment>, used: nat, truncated: bool) {
    && taken <= offered
    && used == Tokens(taken) <= budget
    && (truncated <==> |taken| < |offered|)
    && (truncated ==> used + offered[|taken|].tokenEstimate > budget)
  }

  /** One of the four loops: add fragments while they fit, stop at the first that does not. */
  method AddWhileFitting(fragments: seq<Fragment>, usedTokens: nat, stage: seq<Fragment>, budget: nat)
    returns (more: seq<Fragment>, used: nat, truncated: bool)
    requires Packed(fragments, budget, fragments, usedTokens, false)
    ensures Packed(fragments + stage, budget, more, used, truncated)
    ensures !truncated ==> more == fragments + stage
  {
    more, used, truncated := fragments, usedTokens, false;
    assert fragments + stage[..0] == fragments;
    for n := 0 to |stage|
      invariant !truncated && more == fragments + stage[..n]
      invariant used == Tokens(more) <= budget
    {
      var f := stage[n];
      if used + f.tokenEstimate <= budget {
        assert fragments + stage[..n + 1] == more + [f];
        assert (more + [f])[..|more|] == more;
        more := more + [f];
        used := used + f.tokenEstimate;
      } else {
        truncated := true;
        return;
      }
    }
  }

  /** Once a fragment did not fit, offering more changes nothing. */
  lemma StaysPacked(offered: seq<Fragment>, all: seq<Fragment>, budget: nat, taken: seq<Fragment>, used: nat)
    requires Packed(offered, budget, taken, used, true) && offered <= all
    ensures Packed(all, budget, taken, used, true)
  {
  }

  lemma PackedIsLongest(all: seq<Fragment>, budget: nat, taken: seq<Fragment>, used: nat, truncated: bool)
    requires Packed(all, budget, taken, used, truncated)
    ensures LongestFitting(all, budget, taken)
  {
    assert taken == all[..|taken|];
    StoppedIsLongest(all, budget, |taken|);
  }

  /** The staged loops of assemble: together they pack the concatenated sources of the tier. */
  method SelectFragments(s: Sources, tier: Tier, budget: nat)
    returns (fragments: seq<Fragment>, usedTokens: nat, truncated: bool)
    ensures Packed(TierSources(s, tier), budget, fragments, usedTokens, truncated)
  {
    fragments, usedTokens, truncated := AddWhileFitting([], 0, s.memories, budget);
    ghost var offered := s.memories;
    assert [] + s.memories == offered;
    if !truncated && (tier == TIER_2 || tier == TIER_3) {
      fragments, usedTokens, truncated := AddWhileFitting(fragments, usedTokens, s.graph, budget);
      offered := s.memories + s.graph;
    }
    if !truncated && tier == TIER_3 {
      fragments, usedTokens, truncated := AddRulesAndDocs(fragments, usedTokens, s, budget);
      offered := TierSources(s, TIER_3);
    }
    if truncated {
      StaysPacked(offered, TierSources(s, tier), budget, fragments, usedTokens);
    }
  }

  /** The two loops only TIER_3 runs. */
  method AddRulesAndDocs(fragments: seq<Fragment>, usedTokens: nat, s: Sources, budget: nat)
    returns (more: seq<Fragment>, used: nat, truncated: bool)
    requires Packed(fragments, budget, fragments, usedTokens, false)
    ensures Packed(fragments + s.rules + s.architecture, budget, more, used, truncated)
    ensures !truncated ==> more == fragments + s.rules + s.architecture
  {
    more, used, truncated := AddWhileFitting(fragments, usedTokens, s.rules, budget);
    if truncated {
      StaysPacked(fragments + s.rules, fragments + s.rules + s.architecture, budget, more, used);
    } else {
      more, used, truncated := AddWhileFitting(more, used, s.architecture, budget);
    }
  }

  class ContextManagerService {
    var cache: map<string, AssembledContext>

    ghost predicate Valid()
      reads this
    {
      forall k | k in cache :: Consistent(cache[k])
    }

    constructor ()
      ensures Valid() && cache == map[]
    {
      cache := map[];
    }

    method Assemble(r: Request, s: Sources, now: nat) returns (c: AssembledContext)
      requires Valid()
      modifies this
      ensures Valid() && Consistent(c)
      ensures if CacheKey(r) in old(cache) then c == old(cache)[CacheKey(r)] && cache == old(cache)
              else IsFresh(c, r, s, now) && PacksTier(c, r, s) && cache == old(cache)[CacheKey(r) := c]
    {
      var tier := TierOf(r);
      var budget := Budget(tier);
      var cacheKey := CacheKey(r);
      if cacheKey in cache {
        return cache[cacheKey];
      }
      var fragments, usedTokens, truncated := SelectFragments(s, tier, budget);
      PackedIsLongest(TierSources(s, tier), budget, fragments, usedTokens, truncated);
      var combined := CombineFragments(fragments);
      c := AssembledContext(r.sessionId, r.agentType, r.taskType, tier, fragments, combined, usedTokens, budget, truncated, now);
      FreshPacksTier(c, r, s, now);
      cache := cache[cacheKey := c];
    }

    /** The cache drops an entry, when its time is up or for any other reason. */
    method Expire(key: string)
      requires Valid()
      modifies this
      ensures Valid() && cache == old(cache) - {key}
    {
      cache := cache - {key};
    }
  }

  /** Different requests share a cache entry when their joined fields read the same: the separator may be in the task type. */
  lemma TaskTypesWithColonsCollide(agentType: string, t: string, u: string, sessionId: string, tier: Option<Tier>)
    ensures CacheKey(Request(agentType, t + ":" + u, tier, sessionId)) == CacheKey(Request(agentType, t, tier, u + ":" + sessionId))
  {
    assert "context:" + agentType + ":" + (t + ":" + u) + ":" + sessionId
        == "context:" + agentType + ":" + t + ":" + (u + ":" + sessionId);
  }

  method ServeTwice(service: ContextManagerService, first: Request, second: Request, s: Sources, now: nat)
    returns (a: AssembledContext, b: AssembledContext)
    requires service.Valid() && CacheKey(first) == CacheKey(second) && CacheKey(first) !in service.cache
    modifies service
    ensures IsFresh(a, first, s, now) && b == a
    ensures b.tier == TierOf(second) <==> TierOf(first) == TierOf(second)
  {
    a := service.Assemble(first, s, now);
    b := service.Assemble(second, s, now);
  }
}
