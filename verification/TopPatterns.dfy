/** Ranking (taskType, domain) groups of memories by success rate. */
module TopPatterns {
  import opened Wrappers
  import opened Counting
  import opened Sorting
  import opened Text
  import opened Tables

  /** An entry of the JavaScript Map, in insertion order. */
  datatype Group = Group(key: string, total: nat, successCount: nat)

  datatype Pattern = Pattern(taskType: string, domain: Option<string>, totalCount: nat, successCount: nat, successRate: real)

  const NULL_DOMAIN := "__null__"

  function GroupKey(taskType: string, domain: Option<string>): string {
    taskType + "::" + domain.GetOr(NULL_DOMAIN)
  }

  function KeyOfMemory(m: AgentMemory): string {
    GroupKey(m.taskType, m.domain)
  }

  /** The first two parts of key.split('::'). */
  function SplitKey(key: string): (string, Option<string>) {
    var i := Find(key, "::");
    if i.None? then (key, None)
    else
      var rest := key[i.value + 2..];
      var j := Find(rest, "::");
      var domainRaw := if j.None? then rest else rest[..j.value];
      (key[..i.value], if domainRaw == NULL_DOMAIN then None else Some(domainRaw))
  }

  /** The rate in hundredths of a percent, rounded half up. */
  function Points(successCount: nat, total: nat): int {
    if total == 0 then 0 else (successCount as real / total as real * 10000.0 + 0.5).Floor
  }

  function ToPattern(g: Group): Pattern {
    var names := SplitKey(g.key);
    Pattern(names.0, names.1, g.total, g.successCount, Points(g.successCount, g.total) as real / 100.0)
  }

  function Tally(g: Group, m: AgentMemory): Group {
    g.(total := g.total + 1, successCount := g.successCount + if m.success then 1 else 0)
  }

  function AddTo(groups: seq<Group>, m: AgentMemory): seq<Group> {
    if groups == [] then [Tally(Group(KeyOfMemory(m), 0, 0), m)]
    else if groups[0].key == KeyOfMemory(m) then [Tally(groups[0], m)] + groups[1..]
    else [groups[0]] + AddTo(groups[1..], m)
  }

  function Groups(memories: seq<AgentMemory>): seq<Group> {
    if memories == [] then [] else AddTo(Groups(memories[..|memories| - 1]), memories[|memories| - 1])
  }

  function Patterns(groups: seq<Group>): seq<Pattern> {
    if groups == [] then [] else [ToPattern(groups[0])] + Patterns(groups[1..])
  }

  function Rank(patterns: seq<Pattern>, success: Option<bool>): seq<Pattern> {
    match success
    case None => patterns
    case Some(true) => SortBy(patterns, (p: Pattern) => -Points(p.successCount, p.totalCount))
    case Some(false) => SortBy(patterns, (p: Pattern) => Points(p.successCount, p.totalCount))
  }

  predicate Selected(m: AgentMemory, agentType: Option<AgentType>, taskType: Option<string>) {
    && (agentType.Some? ==> m.agentType == agentType.value)
    && (taskType.Some? && taskType.value != "" ==> m.taskType == taskType.value)
  }

  function Select(rows: seq<AgentMemory>, agentType: Option<AgentType>, taskType: Option<string>): seq<AgentMemory> {
    if rows == [] then []
    else
      var last := rows[|rows| - 1];
      Select(rows[..|rows| - 1], agentType, taskType) + if Selected(last, agentType, taskType) then [last] else []
  }

  function Ranked(rows: seq<AgentMemory>, agentType: Option<AgentType>, success: Option<bool>, taskType: Option<string>)
    : seq<Pattern>
  {
    Rank(Patterns(Groups(Select(rows, agentType, taskType))), success)
  }

  /** Where slice(0, limit) ends: a negative limit counts from the end. */
  function SliceEnd(length: nat, limit: int): (end: nat)
    ensures end <= length
  {
    var end := if limit < 0 then length + limit else limit;
    if end < 0 then 0 else if end < length then end else length
  }

  method GetTopPatterns(db: Database, agentType: Option<AgentType>, success: Option<bool>, limit: int := 10,
                        taskTypeFilter: Option<string>) returns (r: seq<Pattern>)
    ensures var all := Ranked(db.agentMemories, agentType, success, taskTypeFilter);
            r == all[..SliceEnd(|all|, limit)]
    ensures IsTop(r, db.agentMemories, agentType, success, limit, taskTypeFilter)
  {
    var groups: seq<Group> := [];
    var rows := db.agentMemories;
    for n := 0 to |rows|
      invariant groups == Groups(Select(rows[..n], agentType, taskTypeFilter))
    {
      assert rows[..n + 1][..n] == rows[..n];
      ghost var chosen := Select(rows[..n], agentType, taskTypeFilter);
      assert Select(rows[..n + 1], agentType, taskTypeFilter)
          == if Selected(rows[n], agentType, taskTypeFilter) then chosen + [rows[n]] else chosen + [];
      assert chosen + [] == chosen && (chosen + [rows[n]])[..|chosen|] == chosen;
      if Selected(rows[n], agentType, taskTypeFilter) {
        groups := AddTo(groups, rows[n]);
      }
    }
    assert rows[..|rows|] == rows;
    var patterns := Rank(Patterns(groups), success);
    r := patterns[..SliceEnd(|patterns|, limit)];
    SliceShowsKeys(rows, agentType, success, taskTypeFilter, limit);
  }

  // ----- the groups partition the memories -----

  function CountKey(memories: seq<AgentMemory>, key: string): nat {
    if memories == [] then 0
    else
      CountKey(memories[..|memories| - 1], key) + if KeyOfMemory(memories[|memories| - 1]) == key then 1 else 0
  }

  function CountSuccess(memories: seq<AgentMemory>, key: string): nat {
    if memories == [] then 0
    else
      var m := memories[|memories| - 1];
      CountSuccess(memories[..|memories| - 1], key) + if KeyOfMemory(m) == key && m.success then 1 else 0
  }

  function TotalOf(groups: seq<Group>): nat {
    if groups == [] then 0 else groups[0].total + TotalOf(groups[1..])
  }

  function SuccessesOf(groups: seq<Group>): nat {
    if groups == [] then 0 else groups[0].successCount + SuccessesOf(groups[1..])
  }

  function Successes(memories: seq<AgentMemory>): nat {
    if memories == [] then 0
    else Successes(memories[..|memories| - 1]) + if memories[|memories| - 1].success then 1 else 0
  }

  /** The total a list of groups gives a key, zero when it has no group for it. */
  function TotalFor(groups: seq<Group>, key: string): nat {
    if groups == [] then 0 else if groups[0].key == key then groups[0].total else TotalFor(groups[1..], key)
  }

  function SuccessFor(groups: seq<Group>, key: string): nat {
    if groups == [] then 0 else if groups[0].key == key then groups[0].successCount else SuccessFor(groups[1..], key)
  }

  ghost predicate DistinctGroups(groups: seq<Group>) {
    forall i, j | 0 <= i < j < |groups| :: groups[i].key != groups[j].key
  }

  lemma {:induction false} AddToKeys(groups: seq<Group>, m: AgentMemory, key: string)
    ensures (exists g :: g in AddTo(groups, m) && g.key == key) <==> key == KeyOfMemory(m) || exists g :: g in groups && g.key == key
  {
    if groups == [] {
      assert Tally(Group(KeyOfMemory(m), 0, 0), m) in AddTo(groups, m);
    } else if groups[0].key == KeyOfMemory(m) {
      assert groups[0] in groups && Tally(groups[0], m) in AddTo(groups, m);
      assert forall g | g in groups[1..] :: g in groups && g in AddTo(groups, m);
    } else {
      AddToKeys(groups[1..], m, key);
      assert groups[0] in groups && groups[0] in AddTo(groups, m);
      assert forall g | g in groups[1..] :: g in groups;
      assert forall g | g in AddTo(groups[1..], m) :: g in AddTo(groups, m);
    }
  }

  lemma {:induction false} AddToDistinct(groups: seq<Group>, m: AgentMemory)
    requires DistinctGroups(groups)
    ensures DistinctGroups(AddTo(groups, m))
  {
    if groups != [] && groups[0].key != KeyOfMemory(m) {
      AddToDistinct(groups[1..], m);
      AddToKeys(groups[1..], m, groups[0].key);
      var after := AddTo(groups[1..], m);
      forall j | 0 <= j < |after|
        ensures after[j].key != groups[0].key
      {
        assert after[j] in after;
      }
    }
  }

  lemma {:induction false} AddToCounts(groups: seq<Group>, m: AgentMemory, key: string)
    ensures TotalOf(AddTo(groups, m)) == TotalOf(groups) + 1
    ensures SuccessesOf(AddTo(groups, m)) == SuccessesOf(groups) + if m.success then 1 else 0
    ensures TotalFor(AddTo(groups, m), key) == TotalFor(groups, key) + if KeyOfMemory(m) == key then 1 else 0
    ensures SuccessFor(AddTo(groups, m), key)
         == SuccessFor(groups, key) + if KeyOfMemory(m) == key && m.success then 1 else 0
  {
    if groups != [] && groups[0].key != KeyOfMemory(m) {
      AddToCounts(groups[1..], m, key);
    }
  }

  lemma {:induction false} GroupAt(groups: seq<Group>, g: Group)
    requires DistinctGroups(groups) && g in groups
    ensures TotalFor(groups, g.key) == g.total && SuccessFor(groups, g.key) == g.successCount
  {
    if groups[0] != g {
      GroupAt(groups[1..], g);
      var i :| 0 <= i < |groups| && groups[i] == g;
    }
  }

  /** Every memory is counted in exactly one group, the one with its key. */
  lemma {:induction false} GroupsPartition(memories: seq<AgentMemory>, key: string)
    ensures DistinctGroups(Groups(memories))
    ensures TotalOf(Groups(memories)) == |memories| && SuccessesOf(Groups(memories)) == Successes(memories)
    ensures TotalFor(Groups(memories), key) == CountKey(memories, key)
    ensures SuccessFor(Groups(memories), key) == CountSuccess(memories, key)
  {
    if memories != [] {
      var before, m := memories[..|memories| - 1], memories[|memories| - 1];
      GroupsPartition(before, key);
      AddToDistinct(Groups(before), m);
      AddToCounts(Groups(before), m, key);
    }
  }

  lemma {:induction false} CountSuccessBounded(memories: seq<AgentMemory>, key: string)
    ensures CountSuccess(memories, key) <= CountKey(memories, key)
  {
    if memories != [] {
      CountSuccessBounded(memories[..|memories| - 1], key);
    }
  }

  // ----- keys split back -----

  lemma FirstSeparator(taskType: string, rest: string)
    ensures Find(taskType + "::" + rest, "::") == Some(|taskType|) <==> !Contains(taskType + ":", "::")
  {
    var key := taskType + "::" + rest;
    assert key == (taskType + ":") + (":" + rest);
    assert key[|taskType|..|taskType| + 2] == "::";
    forall i: nat | i < |taskType|
      ensures OccursAt(key, "::", i) <==> OccursAt(taskType + ":", "::", i)
    {
      OccursInPrefix(taskType + ":", ":" + rest, "::", i);
    }
    if Contains(taskType + ":", "::") {
      var i := Find(taskType + ":", "::").value;
      assert OccursAt(key, "::", i);
    } else {
      assert forall i: nat | i < |taskType| :: !OccursAt(taskType + ":", "::", i);
      assert FirstAt(key, "::", 0, |taskType|);
    }
  }

  lemma SecondPart(rest: string)
    ensures (match Find(rest, "::") case None => rest case Some(j) => rest[..j]) == rest <==> !Contains(rest, "::")
  {
  }

  /** A key splits back to its names exactly when the separator occurs only between them and no domain is the sentinel. */
  lemma SplitsBackIff(taskType: string, domain: Option<string>)
    ensures SplitKey(GroupKey(taskType, domain)) == (taskType, domain)
       <==> !Contains(taskType + ":", "::") && domain != Some("__null__") && (domain.Some? ==> !Contains(domain.value, "::"))
  {
    var rest := domain.GetOr(NULL_DOMAIN);
    var key := GroupKey(taskType, domain);
    FirstSeparator(taskType, rest);
    SecondPart(rest);
    assert !Contains(NULL_DOMAIN, "::") by {
      forall i: nat
        ensures !OccursAt(NULL_DOMAIN, "::", i)
      {
        OccursAtEnd(NULL_DOMAIN, "::", i);
        assert ':' !in NULL_DOMAIN;
      }
    }
    var i := Find(key, "::");
    assert OccursAt(key, "::", |taskType|);
    assert i.Some? && i.value <= |taskType|;
    if i.value == |taskType| {
      assert key[..i.value] == taskType && key[i.value + 2..] == rest;
    } else {
      assert |key[..i.value]| < |taskType|;
    }
  }

  /** Of a key with more separators only the first two parts are read; a domain "__null__" is read as none. */
  lemma SplitTakesTwo(a: string, b: string, c: string)
    requires !Contains(a + ":", "::") && !Contains(b + ":", "::")
    ensures SplitKey(a + "::" + (b + "::" + c)) == (a, if b == "__null__" then None else Some(b))
    ensures SplitKey(a + "::" + b) == (a, if b == "__null__" then None else Some(b))
  {
    var rest := b + "::" + c;
    FirstSeparator(a, rest);
    FirstSeparator(a, b);
    FirstSeparator(b, c);
    OccursInStart(b);
    var key, plain := a + "::" + rest, a + "::" + b;
    assert key[..|a|] == a && key[|a| + 2..] == rest && rest[..|b|] == b;
    assert plain[..|a|] == a && plain[|a| + 2..] == b;
  }

  lemma OccursInStart(b: string)
    ensures Contains(b, "::") ==> Contains(b + ":", "::")
  {
    if Contains(b, "::") {
      var i := Find(b, "::").value;
      OccursInPrefix(b, ":", "::", i);
    }
  }

  /** Names that split back are never merged with other such names. */
  lemma SplittingKeysDiffer(t: string, d: Option<string>, t': string, d': Option<string>)
    requires SplitKey(GroupKey(t, d)) == (t, d) && SplitKey(GroupKey(t', d')) == (t', d')
    ensures GroupKey(t, d) == GroupKey(t', d') <==> t == t' && d == d'
  {
  }

  // ----- ranking -----

  lemma PointsInRange(successCount: nat, total: nat)
    requires successCount <= total
    ensures 0 <= Points(successCount, total) <= 10000
  {
    if total > 0 {
      var q := successCount as real / total as real;
      assert q * total as real == successCount as real;
      assert 0.0 <= q <= 1.0;
    }
  }

  ghost predicate BestFirst(patterns: seq<Pattern>) {
    forall i, j | 0 <= i < j < |patterns| :: patterns[i].successRate >= patterns[j].successRate
  }

  ghost predicate WorstFirst(patterns: seq<Pattern>) {
    forall i, j | 0 <= i < j < |patterns| :: patterns[i].successRate <= patterns[j].successRate
  }

  ghost predicate Rated(p: Pattern) {
    p.successRate == Points(p.successCount, p.totalCount) as real / 100.0
  }

  lemma {:induction false} PatternsRated(groups: seq<Group>)
    ensures |Patterns(groups)| == |groups|
    ensures forall p | p in Patterns(groups) :: Rated(p)
    ensures forall i | 0 <= i < |groups| :: Patterns(groups)[i] == ToPattern(groups[i])
  {
    if groups != [] {
      PatternsRated(groups[1..]);
    }
  }

  lemma RankSorts(patterns: seq<Pattern>, success: Option<bool>)
    requires forall p | p in patterns :: Rated(p)
    ensures multiset(Rank(patterns, success)) == multiset(patterns)
    ensures success == Some(true) ==> BestFirst(Rank(patterns, success))
    ensures success == Some(false) ==> WorstFirst(Rank(patterns, success))
  {
    if success.Some? {
      var up := (p: Pattern) => Points(p.successCount, p.totalCount);
      var down := (p: Pattern) => -Points(p.successCount, p.totalCount);
      SortByCorrect(patterns, up);
      SortByCorrect(patterns, down);
      RatesFollowPoints(SortBy(patterns, up), up, down);
      RatesFollowPoints(SortBy(patterns, down), up, down);
    }
  }

  lemma RatesFollowPoints(s: seq<Pattern>, up: Pattern -> int, down: Pattern -> int)
    requires forall p | p in s :: Rated(p)
    requires forall p: Pattern :: up(p) == Points(p.successCount, p.totalCount) && down(p) == -up(p)
    ensures SortedBy(s, up) ==> WorstFirst(s)
    ensures SortedBy(s, down) ==> BestFirst(s)
  {
    forall i, j | 0 <= i < j < |s|
      ensures up(s[i]) <= up(s[j]) ==> s[i].successRate <= s[j].successRate
      ensures down(s[i]) <= down(s[j]) ==> s[i].successRate >= s[j].successRate
    {
      assert s[i] in s && s[j] in s;
      assert Rated(s[i]) && Rated(s[j]);
    }
  }

  /** No dropped pattern beats a kept one, in the direction asked for; kept and dropped together are all the groups. */
  lemma KeptBeatDropped(rows: seq<AgentMemory>, agentType: Option<AgentType>, success: Option<bool>,
                        taskType: Option<string>, limit: int)
    ensures var all := Ranked(rows, agentType, success, taskType);
            multiset(all) == multiset(Patterns(Groups(Select(rows, agentType, taskType))))
    ensures var all := Ranked(rows, agentType, success, taskType);
            forall i, j | 0 <= i < SliceEnd(|all|, limit) <= j < |all| ::
              && (success == Some(true) ==> all[i].successRate >= all[j].successRate)
              && (success == Some(false) ==> all[i].successRate <= all[j].successRate)
  {
    var groups := Groups(Select(rows, agentType, taskType));
    PatternsRated(groups);
    RankSorts(Patterns(groups), success);
  }

  /** Each reported pattern counts the memories of its key, at a rate between 0 and 100. */
  lemma PatternsCount(memories: seq<AgentMemory>, i: nat)
    requires i < |Groups(memories)|
    ensures |Patterns(Groups(memories))| == |Groups(memories)|
    ensures var g, p := Groups(memories)[i], Patterns(Groups(memories))[i];
            && p.totalCount == CountKey(memories, g.key)
            && p.successCount == CountSuccess(memories, g.key)
            && 0.0 <= p.successRate <= 100.0
  {
    var g := Groups(memories)[i];
    GroupsPartition(memories, g.key);
    GroupAt(Groups(memories), g);
    CountSuccessBounded(memories, g.key);
    PatternsRated(Groups(memories));
    PointsInRange(g.successCount, g.total);
  }

  // ----- counts by name -----

  /** The separator occurs in these names only where the key puts it, and the domain is not the sentinel. */
  ghost predicate SplitsBack(m: AgentMemory) {
    SplitKey(KeyOfMemory(m)) == (m.taskType, m.domain)
  }

  function CountNames(memories: seq<AgentMemory>, taskType: string, domain: Option<string>): nat {
    if memories == [] then 0
    else
      var m := memories[|memories| - 1];
      CountNames(memories[..|memories| - 1], taskType, domain) + if m.taskType == taskType && m.domain == domain then 1 else 0
  }

  function CountNamedSuccesses(memories: seq<AgentMemory>, taskType: string, domain: Option<string>): nat {
    if memories == [] then 0
    else
      var m := memories[|memories| - 1];
      CountNamedSuccesses(memories[..|memories| - 1], taskType, domain)
      + if m.taskType == taskType && m.domain == domain && m.success then 1 else 0
  }

  lemma {:induction false} KeyCountsNames(memories: seq<AgentMemory>, taskType: string, domain: Option<string>)
    requires (forall m | m in memories :: SplitsBack(m)) && SplitKey(GroupKey(taskType, domain)) == (taskType, domain)
    ensures CountKey(memories, GroupKey(taskType, domain)) == CountNames(memories, taskType, domain)
    ensures CountSuccess(memories, GroupKey(taskType, domain)) == CountNamedSuccesses(memories, taskType, domain)
  {
    if memories != [] {
      var m := memories[|memories| - 1];
      assert m in memories;
      KeyCountsNames(memories[..|memories| - 1], taskType, domain);
      SplittingKeysDiffer(m.taskType, m.domain, taskType, domain);
    }
  }

  lemma {:induction false} GroupHasMember(memories: seq<AgentMemory>, g: Group) returns (m: AgentMemory)
    requires g in Groups(memories)
    ensures m in memories && KeyOfMemory(m) == g.key
  {
    var before, last := memories[..|memories| - 1], memories[|memories| - 1];
    AddToKeys(Groups(before), last, g.key);
    if KeyOfMemory(last) == g.key {
      m := last;
    } else {
      var h :| h in Groups(before) && h.key == g.key;
      m := GroupHasMember(before, h);
    }
  }

  /** When all names split back, each pattern counts exactly the memories with its own task type and domain. */
  lemma PatternsCountNames(memories: seq<AgentMemory>, i: nat)
    requires (forall m | m in memories :: SplitsBack(m)) && i < |Groups(memories)|
    ensures |Patterns(Groups(memories))| == |Groups(memories)|
    ensures var p := Patterns(Groups(memories))[i];
            && p.totalCount == CountNames(memories, p.taskType, p.domain)
            && p.successCount == CountNamedSuccesses(memories, p.taskType, p.domain)
  {
    var g := Groups(memories)[i];
    PatternsCount(memories, i);
    PatternsRated(Groups(memories));
    var m := GroupHasMember(memories, g);
    assert SplitsBack(m) && g.key == GroupKey(m.taskType, m.domain);
    KeyCountsNames(memories, m.taskType, m.domain);
  }

  // ----- the patterns from the memories themselves -----

  /** A memory of the asked agent type and task type; the empty task type asks for any. */
  predicate Asked(m: AgentMemory, agentType: Option<AgentType>, taskType: Option<string>) {
    && (agentType == None || agentType == Some(m.agentType))
    && (taskType == None || taskType == Some("") || taskType == Some(m.taskType))
  }

  function KeyText(m: AgentMemory): string {
    m.taskType + "::" + if m.domain == None then "__null__" else m.domain.value
  }

  /** The share of successes in percent, to the nearest hundredth. */
  ghost predicate RateOf(p: Pattern) {
    && 0 <= p.successCount <= p.totalCount && p.totalCount > 0
    && (p.successRate * 100.0).Floor as real == p.successRate * 100.0
    && var share := p.successCount as real / p.totalCount as real * 100.0;
       share - 0.005 < p.successRate <= share + 0.005
  }

  /** The pattern counts the asked memories with the key, and its rate is the share of the successful ones. */
  ghost predicate ShowsKey(p: Pattern, rows: seq<AgentMemory>, agentType: Option<AgentType>, taskType: Option<string>,
                           key: string)
  {
    && p.totalCount == Count(rows, (m: AgentMemory) => Asked(m, agentType, taskType) && KeyText(m) == key)
    && p.successCount == Count(rows, (m: AgentMemory) => Asked(m, agentType, taskType) && KeyText(m) == key && m.success)
    && (p.taskType, p.domain) == SplitKey(key)
    && RateOf(p)
  }

  /** The keys of the asked memories, in order of first appearance. */
  function FirstKeys(rows: seq<AgentMemory>, agentType: Option<AgentType>, taskType: Option<string>): seq<string> {
    if rows == [] then []
    else
      var m, before := rows[|rows| - 1], FirstKeys(rows[..|rows| - 1], agentType, taskType);
      if Asked(m, agentType, taskType) && KeyText(m) !in before then before + [KeyText(m)] else before
  }

  /** Every asked memory has its key among the first keys, and each key is there once. */
  lemma {:induction false} FirstKeysAre(rows: seq<AgentMemory>, agentType: Option<AgentType>, taskType: Option<string>)
    ensures forall m | m in rows && Asked(m, agentType, taskType) :: KeyText(m) in FirstKeys(rows, agentType, taskType)
    ensures forall i, j | 0 <= i < j < |FirstKeys(rows, agentType, taskType)| ::
              FirstKeys(rows, agentType, taskType)[i] != FirstKeys(rows, agentType, taskType)[j]
  {
    if rows != [] {
      FirstKeysAre(rows[..|rows| - 1], agentType, taskType);
    }
  }

  function KeysOf(groups: seq<Group>): seq<string> {
    seq(|groups|, i requires 0 <= i < |groups| => groups[i].key)
  }

  lemma {:induction false} AddToKeysOf(groups: seq<Group>, m: AgentMemory)
    ensures KeysOf(AddTo(groups, m))
         == KeysOf(groups) + if KeyText(m) in KeysOf(groups) then [] else [KeyText(m)]
  {
    if groups != [] {
      assert KeysOf(groups) == [groups[0].key] + KeysOf(groups[1..]);
      if groups[0].key != KeyOfMemory(m) {
        AddToKeysOf(groups[1..], m);
        assert KeysOf(AddTo(groups, m)) == [groups[0].key] + KeysOf(AddTo(groups[1..], m));
      }
    }
  }

  lemma {:induction false} GroupKeysAre(rows: seq<AgentMemory>, agentType: Option<AgentType>, taskType: Option<string>)
    ensures KeysOf(Groups(Select(rows, agentType, taskType))) == FirstKeys(rows, agentType, taskType)
  {
    if rows != [] {
      var before, m := rows[..|rows| - 1], rows[|rows| - 1];
      var chosen := Select(before, agentType, taskType);
      GroupKeysAre(before, agentType, taskType);
      if Asked(m, agentType, taskType) {
        assert (chosen + [m])[..|chosen|] == chosen;
        AddToKeysOf(Groups(chosen), m);
      } else {
        assert chosen + [] == chosen;
      }
    }
  }

  lemma SelectLast(rows: seq<AgentMemory>, agentType: Option<AgentType>, taskType: Option<string>)
    requires rows != []
    ensures Select(rows, agentType, taskType)
         == Select(rows[..|rows| - 1], agentType, taskType)
          + if Asked(rows[|rows| - 1], agentType, taskType) then [rows[|rows| - 1]] else []
  {
  }

  lemma CountKeySnoc(memories: seq<AgentMemory>, m: AgentMemory, key: string)
    ensures CountKey(memories + [m], key) == CountKey(memories, key) + if KeyText(m) == key then 1 else 0
    ensures CountSuccess(memories + [m], key) == CountSuccess(memories, key) + if KeyText(m) == key && m.success then 1 else 0
  {
    assert (memories + [m])[..|memories|] == memories;
  }

  lemma {:induction false} SelectedCounts(rows: seq<AgentMemory>, agentType: Option<AgentType>, taskType: Option<string>,
                                          key: string, p: AgentMemory -> bool, q: AgentMemory -> bool)
    requires forall m: AgentMemory :: p(m) <==> Asked(m, agentType, taskType) && KeyText(m) == key
    requires forall m: AgentMemory :: q(m) <==> p(m) && m.success
    ensures CountKey(Select(rows, agentType, taskType), key) == Count(rows, p)
    ensures CountSuccess(Select(rows, agentType, taskType), key) == Count(rows, q)
  {
    if rows != [] {
      var before, m := rows[..|rows| - 1], rows[|rows| - 1];
      var chosen := Select(before, agentType, taskType);
      SelectedCounts(before, agentType, taskType, key, p, q);
      SelectLast(rows, agentType, taskType);
      CountLast(rows, p);
      CountLast(rows, q);
      CountKeySnoc(chosen, m, key);
      assert chosen + [] == chosen;
    }
  }

  lemma PointsNearShare(successCount: nat, total: nat)
    requires total > 0
    ensures var share := successCount as real / total as real * 100.0;
            var rate := Points(successCount, total) as real / 100.0;
            share - 0.005 < rate <= share + 0.005 && (rate * 100.0).Floor as real == rate * 100.0
  {
    var points := Points(successCount, total);
    assert points as real / 100.0 * 100.0 == points as real;
  }

  /** In the order of the database each pattern shows the key that appears at its place, rated by its share. */
  lemma UnrankedShowsKeys(rows: seq<AgentMemory>, agentType: Option<AgentType>, taskType: Option<string>, i: nat)
    ensures |Ranked(rows, agentType, None, taskType)| == |FirstKeys(rows, agentType, taskType)|
    ensures i < |FirstKeys(rows, agentType, taskType)| ==>
              ShowsKey(Ranked(rows, agentType, None, taskType)[i], rows, agentType, taskType,
                       FirstKeys(rows, agentType, taskType)[i])
  {
    var chosen := Select(rows, agentType, taskType);
    var groups := Groups(chosen);
    GroupKeysAre(rows, agentType, taskType);
    PatternsRated(groups);
    if i < |groups| {
      PatternShowsKey(rows, agentType, taskType, i);
    }
  }

  lemma PatternShowsKey(rows: seq<AgentMemory>, agentType: Option<AgentType>, taskType: Option<string>, i: nat)
    requires i < |Groups(Select(rows, agentType, taskType))|
    ensures var g := Groups(Select(rows, agentType, taskType))[i];
            ShowsKey(ToPattern(g), rows, agentType, taskType, g.key)
  {
    var chosen := Select(rows, agentType, taskType);
    var g := Groups(chosen)[i];
    SelectedCounts(rows, agentType, taskType, g.key,
                   (m: AgentMemory) => Asked(m, agentType, taskType) && KeyText(m) == g.key,
                   (m: AgentMemory) => Asked(m, agentType, taskType) && KeyText(m) == g.key && m.success);
    GroupsPartition(chosen, g.key);
    GroupAt(Groups(chosen), g);
    CountSuccessBounded(chosen, g.key);
    var m := GroupHasMember(chosen, g);
    MemberCounted(chosen, m);
    PointsNearShare(g.successCount, g.total);
  }

  lemma {:induction false} MemberCounted(memories: seq<AgentMemory>, m: AgentMemory)
    requires m in memories
    ensures CountKey(memories, KeyOfMemory(m)) > 0
  {
    if memories[|memories| - 1] != m {
      MemberCounted(memories[..|memories| - 1], m);
    }
  }

  ghost predicate ShowsSomeKey(p: Pattern, rows: seq<AgentMemory>, agentType: Option<AgentType>, taskType: Option<string>) {
    exists key :: key in FirstKeys(rows, agentType, taskType) && ShowsKey(p, rows, agentType, taskType, key)
  }

  lemma OneRateOnePoints(patterns: seq<Pattern>, rate: real, f: Pattern -> bool, key: Pattern -> int, sign: int)
    requires forall p | p in patterns :: Rated(p)
    requires forall p: Pattern :: f(p) <==> p.successRate == rate
    requires forall p: Pattern :: key(p) == sign * Points(p.successCount, p.totalCount)
    ensures OneKey(patterns, key, f)
  {
    forall p, q | p in patterns && q in patterns && f(p) && f(q)
      ensures key(p) == key(q)
    {
      assert Rated(p) && Rated(q);
      SameRateSamePoints(Points(p.successCount, p.totalCount), Points(q.successCount, q.totalCount));
    }
  }

  lemma SameRateSamePoints(a: int, b: int)
    requires a as real / 100.0 == b as real / 100.0
    ensures a == b
  {
  }

  lemma RankStable(patterns: seq<Pattern>, success: Option<bool>, rate: real, f: Pattern -> bool)
    requires forall p | p in patterns :: Rated(p)
    requires forall p: Pattern :: f(p) <==> p.successRate == rate
    ensures Filter(Rank(patterns, success), f) == Filter(patterns, f)
  {
    match success
    case None =>
    case Some(true) =>
      var down := (p: Pattern) => -Points(p.successCount, p.totalCount);
      OneRateOnePoints(patterns, rate, f, down, -1);
      SortByStable(patterns, down, f);
    case Some(false) =>
      var up := (p: Pattern) => Points(p.successCount, p.totalCount);
      OneRateOnePoints(patterns, rate, f, up, 1);
      SortByStable(patterns, up, f);
  }

  /** Ranking rearranges the patterns, so that those of one rate keep their order. */
  lemma RankRearranges(rows: seq<AgentMemory>, agentType: Option<AgentType>, success: Option<bool>,
                       taskType: Option<string>, rate: real)
    ensures multiset(Ranked(rows, agentType, success, taskType)) == multiset(Ranked(rows, agentType, None, taskType))
    ensures Filter(Ranked(rows, agentType, success, taskType), (p: Pattern) => p.successRate == rate)
         == Filter(Ranked(rows, agentType, None, taskType), (p: Pattern) => p.successRate == rate)
  {
    var patterns := Patterns(Groups(Select(rows, agentType, taskType)));
    PatternsRated(Groups(Select(rows, agentType, taskType)));
    RankSorts(patterns, success);
    RankStable(patterns, success, rate, (p: Pattern) => p.successRate == rate);
  }

  lemma RankedShowsKeys(rows: seq<AgentMemory>, agentType: Option<AgentType>, success: Option<bool>, taskType: Option<string>)
    ensures var all := Ranked(rows, agentType, success, taskType);
            && |all| == |FirstKeys(rows, agentType, taskType)|
            && (forall p | p in all :: ShowsSomeKey(p, rows, agentType, taskType))
            && (success == Some(true) ==> BestFirst(all)) && (success == Some(false) ==> WorstFirst(all))
  {
    var all, plain := Ranked(rows, agentType, success, taskType), Ranked(rows, agentType, None, taskType);
    var groups := Groups(Select(rows, agentType, taskType));
    PatternsRated(groups);
    RankSorts(Patterns(groups), success);
    RankRearranges(rows, agentType, success, taskType, 0.0);
    UnrankedShowsKeys(rows, agentType, taskType, 0);
    forall p | p in all
      ensures ShowsSomeKey(p, rows, agentType, taskType)
    {
      assert p in multiset(all);
      var i :| 0 <= i < |plain| && plain[i] == p;
      UnrankedShowsKeys(rows, agentType, taskType, i);
      assert FirstKeys(rows, agentType, taskType)[i] in FirstKeys(rows, agentType, taskType);
    }
  }

  /** Patterns of different keys, each counted and rated as it should, in the asked direction, as many as asked for. */
  ghost predicate IsTop(r: seq<Pattern>, rows: seq<AgentMemory>, agentType: Option<AgentType>, success: Option<bool>,
                        limit: int, taskType: Option<string>)
  {
    var keys := |FirstKeys(rows, agentType, taskType)|;
    && |r| == (if 0 <= limit < keys then limit else if limit >= 0 then keys else if keys + limit > 0 then keys + limit else 0)
    && (forall p | p in r :: ShowsSomeKey(p, rows, agentType, taskType))
    && (success == Some(true) ==> BestFirst(r))
    && (success == Some(false) ==> WorstFirst(r))
  }

  lemma SliceShowsKeys(rows: seq<AgentMemory>, agentType: Option<AgentType>, success: Option<bool>,
                       taskType: Option<string>, limit: int)
    ensures var all := Ranked(rows, agentType, success, taskType);
            IsTop(all[..SliceEnd(|all|, limit)], rows, agentType, success, limit, taskType)
  {
    RankedShowsKeys(rows, agentType, success, taskType);
    var all := Ranked(rows, agentType, success, taskType);
    var r := all[..SliceEnd(|all|, limit)];
    assert forall p | p in r :: p in all;
  }
}
