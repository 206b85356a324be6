/** Which request an answer of the context manager belongs to: cache keys, entries and expiry over any run. */
module ContextCache {
  import opened Wrappers
  import opened Text
  import opened ContextManager

  // ----- when two requests share a key -----

  /** Followed by ':', no agent type is the beginning of another. */
  ghost predicate SeparableAgents(agents: set<string>) {
    forall a, b | a in agents && b in agents && a != b :: !(a + ":" <= b + ":")
  }

  /** After a ':', no session identifier is the end of another. */
  ghost predicate SeparableSessions(sessions: set<string>) {
    forall s, t | s in sessions && t in sessions && s != t :: !EndsWith(":" + t, ":" + s)
  }

  ghost predicate Uses(r: Request, agents: set<string>, sessions: set<string>) {
    r.agentType in agents && r.sessionId in sessions
  }

  ghost predicate SameFields(a: Request, b: Request) {
    a.agentType == b.agentType && a.taskType == b.taskType && a.sessionId == b.sessionId
  }

  function Rest(r: Request): string {
    r.taskType + ":" + r.sessionId
  }

  lemma KeySplits(r: Request)
    ensures CacheKey(r) == "context:" + (r.agentType + ":" + Rest(r))
  {
  }

  lemma KeyTails(a: Request, b: Request)
    requires CacheKey(a) == CacheKey(b)
    ensures a.agentType + ":" + Rest(a) == b.agentType + ":" + Rest(b)
  {
    KeySplits(a);
    KeySplits(b);
    assert a.agentType + ":" + Rest(a) == CacheKey(a)[8..];
    assert b.agentType + ":" + Rest(b) == CacheKey(b)[8..];
  }

  lemma HeadsAgree(x: string, u: string, y: string, v: string)
    requires x + u == y + v && |x| <= |y|
    ensures x <= y && (|x| == |y| ==> u == v)
  {
    assert x == (x + u)[..|x|] && y == (y + v)[..|y|];
    assert u == (x + u)[|x|..] && v == (y + v)[|y|..];
  }

  lemma TailsAgree(x: string, u: string, y: string, v: string)
    requires x + u == y + v && |u| <= |v|
    ensures EndsWith(v, u) && (|u| == |v| ==> x == y)
  {
    var w := x + u;
    assert u == w[|w| - |u|..] && v == w[|w| - |v|..];
    assert v[|v| - |u|..] == w[|w| - |u|..];
    assert x == w[..|x|] && y == w[..|y|];
  }

  lemma AgentsAgree(agents: set<string>, a: Request, b: Request)
    requires SeparableAgents(agents) && a.agentType in agents && b.agentType in agents
    requires CacheKey(a) == CacheKey(b) && |a.agentType| <= |b.agentType|
    ensures a.agentType == b.agentType && Rest(a) == Rest(b)
  {
    KeyTails(a, b);
    HeadsAgree(a.agentType + ":", Rest(a), b.agentType + ":", Rest(b));
  }

  lemma SessionsAgree(sessions: set<string>, a: Request, b: Request)
    requires SeparableSessions(sessions) && a.sessionId in sessions && b.sessionId in sessions
    requires Rest(a) == Rest(b) && |a.sessionId| <= |b.sessionId|
    ensures a.sessionId == b.sessionId && a.taskType == b.taskType
  {
    assert Rest(a) == a.taskType + (":" + a.sessionId) && Rest(b) == b.taskType + (":" + b.sessionId);
    TailsAgree(a.taskType, ":" + a.sessionId, b.taskType, ":" + b.sessionId);
  }

  lemma SameKeySameFields(agents: set<string>, sessions: set<string>, a: Request, b: Request)
    requires SeparableAgents(agents) && SeparableSessions(sessions)
    requires Uses(a, agents, sessions) && Uses(b, agents, sessions) && CacheKey(a) == CacheKey(b)
    ensures SameFields(a, b)
  {
    if |a.agentType| <= |b.agentType| {
      AgentsAgree(agents, a, b);
    } else {
      AgentsAgree(agents, b, a);
    }
    if |a.sessionId| <= |b.sessionId| {
      SessionsAgree(sessions, a, b);
    } else {
      SessionsAgree(sessions, b, a);
    }
  }

  /** An agent type that begins another shares keys with it, through a task type that supplies the difference. */
  lemma AgentsCollide(a: string, b: string, session: string) returns (p: Request, q: Request)
    requires a != b && a + ":" <= b + ":"
    ensures p.agentType == a && q.agentType == b && p.sessionId == q.sessionId == session
    ensures CacheKey(p) == CacheKey(q)
  {
    LongerByColon(a, b);
    assert a == (a + ":")[..|a|] == (b + ":")[..|a|] == b[..|a|];
    var x := b[|a| + 1..];
    assert b == a + ":" + x;
    p, q := Request(a, x + ":" + "t", None, session), Request(b, "t", None, session);
    KeySplits(p);
    KeySplits(q);
    assert p.agentType + ":" + Rest(p) == q.agentType + ":" + Rest(q);
  }

  lemma SessionsCollide(agent: string, s: string, t: string) returns (p: Request, q: Request)
    requires s != t && EndsWith(":" + t, ":" + s)
    ensures p.agentType == q.agentType == agent && p.sessionId == s && q.sessionId == t
    ensures CacheKey(p) == CacheKey(q)
  {
    LongerByColonAtEnd(s, t);
    var d := |t| - |s| - 1;
    var x := t[..d];
    assert t == t[..d] + [t[d]] + t[d + 1..];
    p, q := Request(agent, "t" + ":" + x, None, s), Request(agent, "t", None, t);
    TaskTypesWithColonsCollide(agent, "t", x, s, None);
    assert x + ":" + s == t;
  }

  /**
   * Over these agent types and sessions, and any task types, two requests share a cache key only if they agree in all
   * three fields, exactly when agent types and sessions are separable.
   */
  lemma KeysFaithfulIff(agents: set<string>, sessions: set<string>)
    requires agents != {} && sessions != {}
    ensures (forall p, q | Uses(p, agents, sessions) && Uses(q, agents, sessions) && CacheKey(p) == CacheKey(q) :: SameFields(p, q))
       <==> SeparableAgents(agents) && SeparableSessions(sessions)
  {
    if !SeparableAgents(agents) {
      var a, b :| a in agents && b in agents && a != b && a + ":" <= b + ":";
      var session :| session in sessions;
      var p, q := AgentsCollide(a, b, session);
      assert Uses(p, agents, sessions) && Uses(q, agents, sessions) && !SameFields(p, q);
    } else if !SeparableSessions(sessions) {
      var s, t :| s in sessions && t in sessions && s != t && EndsWith(":" + t, ":" + s);
      var agent :| agent in agents;
      var p, q := SessionsCollide(agent, s, t);
      assert Uses(p, agents, sessions) && Uses(q, agents, sessions) && !SameFields(p, q);
    } else {
      forall p, q | Uses(p, agents, sessions) && Uses(q, agents, sessions) && CacheKey(p) == CacheKey(q)
        ensures SameFields(p, q)
      {
        SameKeySameFields(agents, sessions, p, q);
      }
    }
  }

  lemma LongerByColon(a: string, b: string)
    requires a != b && a + ":" <= b + ":"
    ensures |a| < |b| && b[|a|] == ':'
  {
    assert a == (a + ":")[..|a|] && b == (b + ":")[..|b|];
  }

  lemma LongerByColonAtEnd(s: string, t: string)
    requires s != t && EndsWith(":" + t, ":" + s)
    ensures |s| < |t| && t[|t| - |s| - 1] == ':' && t[|t| - |s|..] == s
  {
    var u, v := ":" + t, ":" + s;
    var d := |t| - |s|;
    assert u[d..] == v;
    assert t == u[1..] && s == v[1..];
    assert u[d] == v[0] == ':';
    assert t[d..] == u[d + 1..] == u[d..][1..] == s;
    assert t[0..] == t;
  }

  /** Agent types and sessions without ':' are separable. */
  lemma PlainNamesSeparable(names: set<string>)
    requires forall n | n in names :: ':' !in n
    ensures SeparableAgents(names) && SeparableSessions(names)
  {
    forall a, b | a in names && b in names && a != b
      ensures !(a + ":" <= b + ":")
    {
      if a + ":" <= b + ":" {
        LongerByColon(a, b);
      }
    }
    forall s, t | s in names && t in names && s != t
      ensures !EndsWith(":" + t, ":" + s)
    {
      if EndsWith(":" + t, ":" + s) {
        LongerByColonAtEnd(s, t);
      }
    }
  }

  // ----- the fresh answer as a function -----

  /** How many of the fragments fit, starting from a prefix of `n` that does. */
  function Fitting(all: seq<Fragment>, budget: nat, n: nat): (k: nat)
    requires n <= |all|
    ensures k <= |all|
    decreases |all| - n
  {
    if n < |all| && Tokens(all[..n + 1]) <= budget then Fitting(all, budget, n + 1) else n
  }

  function Fresh(r: Request, s: Sources, now: nat): AssembledContext {
    var all, budget := TierSources(s, TierOf(r)), Budget(TierOf(r));
    var chosen := all[..Fitting(all, budget, 0)];
    AssembledContext(r.sessionId, r.agentType, r.taskType, TierOf(r), chosen, Combined(chosen), Tokens(chosen), budget,
                     |chosen| < |all|, now)
  }

  lemma {:induction false} FittingIsLongest(all: seq<Fragment>, budget: nat, n: nat)
    requires n <= |all| && Tokens(all[..n]) <= budget
    ensures LongestFitting(all, budget, all[..Fitting(all, budget, n)])
    decreases |all| - n
  {
    if n < |all| && Tokens(all[..n + 1]) <= budget {
      FittingIsLongest(all, budget, n + 1);
    } else if n < |all| {
      assert all[..n + 1][..n] == all[..n];
      StoppedIsLongest(all, budget, n);
    }
  }

  /** The conditions on a fresh answer determine it. */
  lemma FreshIsUnique(c: AssembledContext, r: Request, s: Sources, now: nat)
    ensures IsFresh(c, r, s, now) <==> c == Fresh(r, s, now)
  {
    var all, budget := TierSources(s, TierOf(r)), Budget(TierOf(r));
    FittingIsLongest(all, budget, 0);
    if IsFresh(c, r, s, now) {
      LongestIsUnique(all, budget, c.fragments, Fresh(r, s, now).fragments);
    }
  }

  // ----- runs -----

  datatype Event = Serve(request: Request, sources: Sources, at: nat) | Drop(key: string)

  type Cache = map<string, AssembledContext>

  function FreshOf(e: Event): AssembledContext
    requires e.Serve?
  {
    Fresh(e.request, e.sources, e.at)
  }

  function Answer(cache: Cache, e: Event): AssembledContext
    requires e.Serve?
  {
    if CacheKey(e.request) in cache then cache[CacheKey(e.request)] else FreshOf(e)
  }

  function Next(cache: Cache, e: Event): Cache {
    match e
    case Serve(r, _, _) => cache[CacheKey(r) := Answer(cache, e)]
    case Drop(key) => cache - {key}
  }

  /** The cache after any sequence of requests and expiries that starts empty. */
  function After(events: seq<Event>): Cache {
    if events == [] then map[] else Next(After(events[..|events| - 1]), events[|events| - 1])
  }

  predicate Asks(e: Event, key: string) {
    e.Serve? && CacheKey(e.request) == key
  }

  /** Event `i` asks for the key, nothing since drops it, and every earlier request for it was dropped before `i`. */
  ghost predicate Filled(events: seq<Event>, key: string, i: int) {
    && 0 <= i < |events| && Asks(events[i], key)
    && (forall j | i < j < |events| :: events[j] != Drop(key))
    && (forall j | 0 <= j < i && Asks(events[j], key) :: exists x :: j < x < i && events[x] == Drop(key))
  }

  /** No request for the key is left undropped. */
  ghost predicate Unfilled(events: seq<Event>, key: string) {
    forall j | 0 <= j < |events| && Asks(events[j], key) :: exists x :: j < x < |events| && events[x] == Drop(key)
  }

  lemma UnfilledSnoc(events: seq<Event>, e: Event, key: string)
    requires Unfilled(events, key)
    ensures if Asks(e, key) then Filled(events + [e], key, |events|) else Unfilled(events + [e], key)
  {
    var all := events + [e];
    forall j | 0 <= j < |events| && Asks(events[j], key)
      ensures exists x :: j < x < |events| && all[x] == Drop(key)
    {
      var x :| j < x < |events| && events[x] == Drop(key);
      assert all[x] == Drop(key);
    }
  }

  lemma FilledSnoc(events: seq<Event>, e: Event, key: string, i: int)
    requires Filled(events, key, i)
    ensures if e == Drop(key) then Unfilled(events + [e], key) else Filled(events + [e], key, i)
  {
    var all := events + [e];
    if e == Drop(key) {
      assert all[|events|] == Drop(key);
    } else {
      forall j | 0 <= j < i && Asks(all[j], key)
        ensures exists x :: j < x < i && all[x] == Drop(key)
      {
        assert Asks(events[j], key);
        var x :| j < x < i && events[x] == Drop(key);
        assert all[x] == Drop(key);
      }
    }
  }

  /** A cached entry is the fresh answer to the first request for its key since the key was last dropped. */
  lemma {:induction false} EntryIsFirst(events: seq<Event>, key: string) returns (i: int)
    ensures if key in After(events) then Filled(events, key, i) && After(events)[key] == FreshOf(events[i])
            else Unfilled(events, key)
  {
    i := 0;
    if events != [] {
      var before, e := events[..|events| - 1], events[|events| - 1];
      assert events == before + [e];
      i := EntryIsFirst(before, key);
      if key in After(before) {
        FilledSnoc(before, e, key, i);
      } else {
        UnfilledSnoc(before, e, key);
        i := |before|;
      }
    }
  }

  /**
   * Over every run of requests and expiries, an answer is the fresh answer to the first request for its key since the
   * last expiry of that key, tier, sources and time included.
   */
  lemma AnswerIsFirst(before: seq<Event>, e: Event) returns (i: int)
    requires e.Serve?
    ensures Filled(before + [e], CacheKey(e.request), i)
    ensures Answer(After(before), e) == FreshOf((before + [e])[i])
    ensures Answer(After(before), e).tier == TierOf((before + [e])[i].request)
  {
    assert (before + [e])[..|before|] == before;
    i := EntryIsFirst(before + [e], CacheKey(e.request));
  }

  ghost predicate AllUse(events: seq<Event>, agents: set<string>, sessions: set<string>) {
    forall e | e in events && e.Serve? :: Uses(e.request, agents, sessions)
  }

  /** The answer names the agent type, task type and session that were asked for. */
  ghost predicate IsOwn(c: AssembledContext, r: Request) {
    c.agentType == r.agentType && c.taskType == r.taskType && c.sessionId == r.sessionId
  }

  /** Every answer of every run belongs to its own request exactly when agent types and sessions are separable. */
  lemma AnswersAreOwnIff(agents: set<string>, sessions: set<string>)
    requires agents != {} && sessions != {}
    ensures (forall events, e: Event | AllUse(events + [e], agents, sessions) && e.Serve? ::
               IsOwn(Answer(After(events), e), e.request))
       <==> SeparableAgents(agents) && SeparableSessions(sessions)
  {
    KeysFaithfulIff(agents, sessions);
    if SeparableAgents(agents) && SeparableSessions(sessions) {
      forall events, e: Event | AllUse(events + [e], agents, sessions) && e.Serve?
        ensures IsOwn(Answer(After(events), e), e.request)
      {
        var i := AnswerIsFirst(events, e);
        var first := (events + [e])[i];
        assert first in events + [e] && e in events + [e];
        assert SameFields(first.request, e.request);
      }
    } else {
      var p, q :| Uses(p, agents, sessions) && Uses(q, agents, sessions) && CacheKey(p) == CacheKey(q) && !SameFields(p, q);
      var events := SharedEntry(p, q);
      assert AllUse(events + [Serve(q, Sources([], [], [], []), 0)], agents, sessions);
    }
  }

  lemma SharedEntry(p: Request, q: Request) returns (events: seq<Event>)
    requires CacheKey(p) == CacheKey(q) && !SameFields(p, q)
    ensures var nothing := Sources([], [], [], []);
            events == [Serve(p, nothing, 0)] && !IsOwn(Answer(After(events), Serve(q, nothing, 0)), q)
  {
    var nothing := Sources([], [], [], []);
    events := [Serve(p, nothing, 0)];
    FirstAnswers(p, q, nothing);
  }

  ghost predicate AllFrom(events: seq<Event>, requests: set<Request>) {
    forall e | e in events && e.Serve? :: e.request in requests
  }

  /** Every answer of every run over these requests has the tier asked for exactly when one key never asks for two tiers. */
  lemma TiersAreOwnIff(requests: set<Request>)
    ensures (forall events, e: Event | AllFrom(events + [e], requests) && e.Serve? ::
               Answer(After(events), e).tier == TierOf(e.request))
       <==> forall p, q | p in requests && q in requests && CacheKey(p) == CacheKey(q) :: TierOf(p) == TierOf(q)
  {
    if p, q :| p in requests && q in requests && CacheKey(p) == CacheKey(q) && TierOf(p) != TierOf(q) {
      var nothing := Sources([], [], [], []);
      var events, e := [Serve(p, nothing, 0)], Serve(q, nothing, 0);
      FirstAnswers(p, q, nothing);
      assert AllFrom(events + [e], requests);
    } else {
      forall events, e: Event | AllFrom(events + [e], requests) && e.Serve?
        ensures Answer(After(events), e).tier == TierOf(e.request)
      {
        var i := AnswerIsFirst(events, e);
        assert (events + [e])[i] in events + [e] && e in events + [e];
      }
    }
  }

  lemma FirstAnswers(p: Request, q: Request, s: Sources)
    requires CacheKey(p) == CacheKey(q)
    ensures Answer(After([Serve(p, s, 0)]), Serve(q, s, 0)) == Fresh(p, s, 0)
  {
    assert [Serve(p, s, 0)][..0] == [] && After([]) == map[];
  }

  function Reply(cache: Cache, e: Event): Option<AssembledContext> {
    if e.Serve? then Some(Answer(cache, e)) else None
  }

  method Handle(service: ContextManagerService, e: Event) returns (answer: Option<AssembledContext>)
    requires service.Valid()
    modifies service
    ensures service.Valid() && service.cache == Next(old(service.cache), e)
    ensures answer == Reply(old(service.cache), e)
  {
    match e
    case Serve(r, s, at) =>
      var c := service.Assemble(r, s, at);
      FreshIsUnique(c, r, s, at);
      answer := Some(c);
    case Drop(key) =>
      service.Expire(key);
      answer := None;
  }

  /** The replies of a run, each from the cache its predecessors left. */
  function Replies(events: seq<Event>): seq<Option<AssembledContext>> {
    if events == [] then []
    else
      var before := events[..|events| - 1];
      Replies(before) + [Reply(After(before), events[|events| - 1])]
  }

  /** The service itself, run over the events from an empty cache. */
  method Replay(events: seq<Event>) returns (service: ContextManagerService, answers: seq<Option<AssembledContext>>)
    ensures fresh(service) && service.Valid() && service.cache == After(events)
    ensures answers == Replies(events)
  {
    service := new ContextManagerService();
    answers := [];
    for n := 0 to |events|
      invariant fresh(service) && service.Valid()
      invariant service.cache == After(events[..n]) && answers == Replies(events[..n])
    {
      assert events[..n + 1][..n] == events[..n];
      var answer := Handle(service, events[n]);
      answers := answers + [answer];
    }
    assert events[..|events|] == events;
  }
}
