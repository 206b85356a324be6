/** Decaying memory weights and deleting stale memories. */
module MemoryDecay {
  import opened Wrappers
  import opened Tables
  import opened MemoryService
  import opened DecisionMemoryService
  import opened ExecutionMemories

  const STALE_WEIGHT := 0.1

  function Decayed(m: AgentMemory, factor: real): AgentMemory {
    m.(decayWeight := m.decayWeight * factor)
  }

  predicate IsStale(weight: real, createdAt: nat, threshold: nat) {
    weight < STALE_WEIGHT && createdAt <= threshold
  }

  function DecayRows(rows: seq<AgentMemory>, factor: real): seq<AgentMemory> {
    if rows == [] then [] else [Decayed(rows[0], factor)] + DecayRows(rows[1..], factor)
  }

  function KeepFresh(rows: seq<AgentMemory>, threshold: nat): seq<AgentMemory> {
    if rows == [] then []
    else (if IsStale(rows[0].decayWeight, rows[0].createdAt, threshold) then [] else [rows[0]])
         + KeepFresh(rows[1..], threshold)
  }

  lemma {:induction false} DecayRowsAt(rows: seq<AgentMemory>, factor: real)
    ensures |DecayRows(rows, factor)| == |rows|
    ensures forall i | 0 <= i < |rows| :: DecayRows(rows, factor)[i] == Decayed(rows[i], factor)
  {
    if rows != [] {
      DecayRowsAt(rows[1..], factor);
    }
  }

  /** updateMany: every weight is multiplied. */
  method DecayAll(db: Database, factor: real)
    modifies db`agentMemories
    ensures |db.agentMemories| == old(|db.agentMemories|)
    ensures forall i | 0 <= i < |db.agentMemories| ::
              db.agentMemories[i] == old(db.agentMemories[i]).(decayWeight := old(db.agentMemories[i]).decayWeight * factor)
  {
    DecayRowsAt(db.agentMemories, factor);
    db.agentMemories := DecayRows(db.agentMemories, factor);
  }

  lemma Regroup(a: seq<AgentMemory>, b: seq<AgentMemory>, c: seq<AgentMemory>)
    ensures a + (b + c) == a + b + c && a + [] == a
  {
  }

  lemma KeepFreshFrom(rows: seq<AgentMemory>, n: nat, threshold: nat)
    requires n < |rows|
    ensures KeepFresh(rows[n..], threshold)
         == (if IsStale(rows[n].decayWeight, rows[n].createdAt, threshold) then [] else [rows[n]])
            + KeepFresh(rows[n + 1..], threshold)
  {
    assert rows[n..][1..] == rows[n + 1..];
  }

  /** Exactly the light and old rows are gone, every other row is there as often as before. */
  lemma {:induction false} KeepFreshExactly(rows: seq<AgentMemory>, threshold: nat, m: AgentMemory)
    ensures multiset(KeepFresh(rows, threshold))[m]
         == if m.decayWeight < 0.1 && m.createdAt <= threshold then 0 else multiset(rows)[m]
  {
    if rows != [] {
      KeepFreshExactly(rows[1..], threshold, m);
      assert rows == [rows[0]] + rows[1..];
    }
  }

  /** deleteMany; `threshold` is the date two years ago. */
  method CleanupStale(db: Database, threshold: nat) returns (count: nat)
    modifies db`agentMemories
    ensures db.agentMemories == KeepFresh(old(db.agentMemories), threshold)
    ensures forall m :: multiset(db.agentMemories)[m]
                     == if m.decayWeight < 0.1 && m.createdAt <= threshold then 0 else multiset(old(db.agentMemories))[m]
    ensures count + |db.agentMemories| == old(|db.agentMemories|)
  {
    var kept := [];
    count := 0;
    for n := 0 to |db.agentMemories|
      invariant db.agentMemories == old(db.agentMemories)
      invariant kept + KeepFresh(db.agentMemories[n..], threshold) == KeepFresh(db.agentMemories, threshold)
      invariant count + |kept| == n
    {
      var m := db.agentMemories[n];
      KeepFreshFrom(db.agentMemories, n, threshold);
      ghost var rest := KeepFresh(db.agentMemories[n + 1..], threshold);
      Regroup(kept, [m], rest);
      Regroup(kept, [], rest);
      if IsStale(m.decayWeight, m.createdAt, threshold) {
        count := count + 1;
      } else {
        kept := kept + [m];
      }
    }
    forall m
      ensures multiset(KeepFresh(db.agentMemories, threshold))[m]
           == if m.decayWeight < 0.1 && m.createdAt <= threshold then 0 else multiset(db.agentMemories)[m]
    {
      KeepFreshExactly(db.agentMemories, threshold, m);
    }
    db.agentMemories := kept;
  }

  /** The deprecated store decays and prunes in one call. */
  function DecayDecisions(decisions: map<MemoryKey, DecisionMemory>, factor: real, threshold: nat)
    : map<MemoryKey, DecisionMemory>
  {
    map k | k in decisions && !IsStale(decisions[k].decayWeight * factor, decisions[k].createdAt, threshold)
      :: decisions[k].(decayWeight := decisions[k].decayWeight * factor)
  }

  method DecayAllDecisions(db: Database, factor: real, threshold: nat)
    modifies db`decisions
    ensures db.decisions == DecayDecisions(old(db.decisions), factor, threshold)
    ensures forall k ::
              k in db.decisions <==>
              k in old(db.decisions)
              && !(old(db.decisions)[k].decayWeight * factor < 0.1 && old(db.decisions)[k].createdAt <= threshold)
    ensures forall k | k in db.decisions ::
              db.decisions[k] == old(db.decisions)[k].(decayWeight := old(db.decisions)[k].decayWeight * factor)
  {
    var before := db.decisions;
    var decayed := map k | k in before :: before[k].(decayWeight := before[k].decayWeight * factor);
    var kept := map k | k in decayed && !IsStale(decayed[k].decayWeight, decayed[k].createdAt, threshold) :: decayed[k];
    forall k
      ensures k in kept <==> k in DecayDecisions(before, factor, threshold)
    {
      assert k in decayed <==> k in before;
    }
    db.decisions := kept;
  }

  // ----- the decay factor -----

  function Pow(r: real, n: nat): real {
    if n == 0 then 1.0 else r * Pow(r, n - 1)
  }

  /** Twelve decays halve a weight, up to half a per mille: e^(-ln 2 / 12), exact or as a floating-point number. */
  ghost predicate HalvesInTwelve(r: real) {
    r > 0.0 && 0.4995 <= Pow(r, 12) <= 0.5005
  }

  lemma {:induction false} PowAdd(r: real, a: nat, b: nat)
    ensures Pow(r, a + b) == Pow(r, a) * Pow(r, b)
  {
    if a > 0 {
      PowAdd(r, a - 1, b);
      assert Pow(r, a + b) == r * Pow(r, (a - 1) + b);
    }
  }

  lemma {:induction false} PowPositive(r: real, n: nat)
    requires r > 0.0
    ensures Pow(r, n) > 0.0
  {
    if n > 0 {
      PowPositive(r, n - 1);
    }
  }

  lemma {:induction false} PowAtLeastOne(r: real, n: nat)
    requires r >= 1.0
    ensures Pow(r, n) >= 1.0
  {
    if n > 0 {
      PowAtLeastOne(r, n - 1);
      Product(r, Pow(r, n - 1), 1.0, 1.0);
    }
  }

  lemma Product(a: real, b: real, c: real, d: real)
    requires 0.0 <= c <= a && 0.0 <= d <= b
    ensures c * d <= a * b
  {
    assert c * d <= a * d;
    assert a * d <= a * b;
  }

  lemma StrictProduct(a: real, b: real, c: real)
    requires 0.0 < a && b < c
    ensures a * b < a * c
  {
  }

  /** More decays, less weight. */
  lemma {:induction false} PowDecreases(r: real, m: nat, n: nat)
    requires HalvesInTwelve(r) && m < n
    ensures Pow(r, n) < Pow(r, m)
  {
    if r >= 1.0 {
      PowAtLeastOne(r, 12);
    }
    PowPositive(r, n - 1);
    StrictProduct(Pow(r, n - 1), r, 1.0);
    assert Pow(r, n) < Pow(r, n - 1);
    if m < n - 1 {
      PowDecreases(r, m, n - 1);
    }
  }

  /** r^36 is an eighth, within 1.5 parts in a thousand. */
  lemma ThreeHalvings(r: real)
    requires HalvesInTwelve(r)
    ensures 0.1246 <= Pow(r, 36) <= 0.1254
  {
    var h := Pow(r, 12);
    PowAdd(r, 12, 12);
    PowAdd(r, 24, 12);
    Product(h, h, 0.4995, 0.4995);
    Product(h * h, h, 0.2495, 0.4995);
    Product(0.5005, 0.5005, h, h);
    Product(0.25051, 0.5005, h * h, h);
  }

  lemma ThirtyNineIsHeavy(r: real)
    requires HalvesInTwelve(r)
    ensures Pow(r, 39) > STALE_WEIGHT
  {
    var q := Pow(r, 3);
    ThreeHalvings(r);
    PowAdd(r, 36, 3);
    PowPositive(r, 3);
    PowAdd(r, 3, 3);
    PowAdd(r, 6, 6);
    if q < 0.83 {
      Product(0.83, 0.83, q, q);
      Product(0.6889, 0.6889, q * q, q * q);
    }
    Product(Pow(r, 36), q, 0.1246, 0.83);
  }

  lemma FortyIsLight(r: real)
    requires HalvesInTwelve(r)
    ensures Pow(r, 40) < STALE_WEIGHT
  {
    var p := Pow(r, 4);
    ThreeHalvings(r);
    PowAdd(r, 36, 4);
    PowPositive(r, 4);
    PowPositive(r, 36);
    PowAdd(r, 4, 4);
    PowAdd(r, 8, 4);
    if p > 0.7945 {
      Product(p, p, 0.7945, 0.7945);
      Product(p * p, p, 0.6312, 0.7945);
    }
    Product(0.1254, 0.7945, Pow(r, 36), p);
  }

  /** A weight that starts at 1 drops below the threshold at the fortieth decay and not before. */
  lemma StaleAfterForty(r: real, n: nat)
    requires HalvesInTwelve(r)
    ensures Pow(r, n) < 0.1 <==> n >= 40
  {
    if n >= 40 {
      FortyIsLight(r);
      if n > 40 {
        PowDecreases(r, 40, n);
      }
    } else {
      ThirtyNineIsHeavy(r);
      if n < 39 {
        PowDecreases(r, n, 39);
      }
    }
  }

  lemma DecayKeepsOrder(a: AgentMemory, b: AgentMemory, r: real)
    requires r > 0.0
    ensures Decayed(a, r).decayWeight < Decayed(b, r).decayWeight <==> a.decayWeight < b.decayWeight
  {
    if a.decayWeight < b.decayWeight {
      StrictProduct(r, a.decayWeight, b.decayWeight);
    } else {
      Product(a.decayWeight - b.decayWeight, r, 0.0, 0.0);
    }
  }

  // ----- runs -----

  datatype Op =
    | RememberOp(dto: MemoryDto, at: nat)
    | TraceOp(trace: ExecutionTrace, at: nat)
    | DecayOp
    | CleanupOp(threshold: nat)

  /** A row and how many decays it has been through. */
  datatype Aged = Aged(row: AgentMemory, decays: nat)

  function RowsOf(aged: seq<Aged>): seq<AgentMemory> {
    if aged == [] then [] else [aged[0].row] + RowsOf(aged[1..])
  }

  function Older(aged: seq<Aged>, r: real): seq<Aged> {
    if aged == [] then [] else [Aged(Decayed(aged[0].row, r), aged[0].decays + 1)] + Older(aged[1..], r)
  }

  function Unstale(aged: seq<Aged>, threshold: nat): seq<Aged> {
    if aged == [] then []
    else (if IsStale(aged[0].row.decayWeight, aged[0].row.createdAt, threshold) then [] else [aged[0]])
         + Unstale(aged[1..], threshold)
  }

  /** A refreshed row keeps its age, a new row has none. */
  function AgedRemember(aged: seq<Aged>, dto: MemoryDto, at: nat): seq<Aged> {
    var rows := RowsOf(aged);
    var index := if dto.source.Some? then IndexFor(rows, dto.source, dto.agentType) else None;
    if index.None? then aged + [Aged(NewMemory(dto, at), 0)]
    else if dto.source == Some("") || index.value >= |aged| then aged
    else aged[index.value := aged[index.value].(row := Refreshed(aged[index.value].row, dto, at))]
  }

  /** The rows of an execution are new. */
  function AgedTrace(aged: seq<Aged>, x: ExecutionTrace, at: nat): seq<Aged> {
    var rows := RowsOf(aged);
    var after := Traced(rows, x, at);
    if |after| < |aged| then aged else aged + NewAges(after[|aged|..])
  }

  function NewAges(rows: seq<AgentMemory>): seq<Aged> {
    if rows == [] then [] else [Aged(rows[0], 0)] + NewAges(rows[1..])
  }

  function AgedStep(aged: seq<Aged>, op: Op, r: real): seq<Aged> {
    match op
    case RememberOp(dto, at) => AgedRemember(aged, dto, at)
    case TraceOp(x, at) => AgedTrace(aged, x, at)
    case DecayOp => Older(aged, r)
    case CleanupOp(threshold) => Unstale(aged, threshold)
  }

  function RowStep(rows: seq<AgentMemory>, op: Op, r: real): seq<AgentMemory> {
    match op
    case RememberOp(dto, at) =>
      var after := Remember(rows, dto, at);
      if after.Success? then after.value else rows
    case TraceOp(x, at) => Traced(rows, x, at)
    case DecayOp => DecayRows(rows, r)
    case CleanupOp(threshold) => KeepFresh(rows, threshold)
  }

  function AgedRun(ops: seq<Op>, r: real): seq<Aged> {
    if ops == [] then [] else AgedStep(AgedRun(ops[..|ops| - 1], r), ops[|ops| - 1], r)
  }

  function RowRun(ops: seq<Op>, r: real): seq<AgentMemory> {
    if ops == [] then [] else RowStep(RowRun(ops[..|ops| - 1], r), ops[|ops| - 1], r)
  }

  lemma {:induction false} RowsOfAt(aged: seq<Aged>)
    ensures |RowsOf(aged)| == |aged|
    ensures forall i | 0 <= i < |aged| :: RowsOf(aged)[i] == aged[i].row
  {
    if aged != [] {
      RowsOfAt(aged[1..]);
    }
  }

  lemma {:induction false} OlderRows(aged: seq<Aged>, r: real, threshold: nat)
    ensures RowsOf(Older(aged, r)) == DecayRows(RowsOf(aged), r)
    ensures RowsOf(Unstale(aged, threshold)) == KeepFresh(RowsOf(aged), threshold)
  {
    if aged != [] {
      OlderRows(aged[1..], r, threshold);
      var rest := Unstale(aged[1..], threshold);
      if IsStale(aged[0].row.decayWeight, aged[0].row.createdAt, threshold) {
        assert Unstale(aged, threshold) == rest;
      } else {
        assert Unstale(aged, threshold) == [aged[0]] + rest;
        assert ([aged[0]] + rest)[1..] == rest;
      }
    }
  }

  lemma RememberRows(aged: seq<Aged>, dto: MemoryDto, at: nat, r: real)
    ensures RowsOf(AgedRemember(aged, dto, at)) == RowStep(RowsOf(aged), RememberOp(dto, at), r)
  {
    RowsOfAt(aged);
    RowsOfAt(AgedRemember(aged, dto, at));
  }

  lemma {:induction false} NewAgesAt(rows: seq<AgentMemory>)
    ensures |NewAges(rows)| == |rows|
    ensures forall i | 0 <= i < |rows| :: NewAges(rows)[i] == Aged(rows[i], 0)
  {
    if rows != [] {
      NewAgesAt(rows[1..]);
    }
  }

  lemma TraceRows(aged: seq<Aged>, x: ExecutionTrace, at: nat)
    ensures RowsOf(AgedTrace(aged, x, at)) == Traced(RowsOf(aged), x, at)
  {
    var after := Traced(RowsOf(aged), x, at);
    RowsOfAt(aged);
    TraceExtends(RowsOf(aged), x, Agents(x.phases), at);
    NewAgesAt(after[|aged|..]);
    RowsOfAt(AgedTrace(aged, x, at));
  }

  lemma TraceWeighs(aged: seq<Aged>, x: ExecutionTrace, at: nat, r: real)
    requires forall a | a in aged :: WeighsItsAge(a, r)
    ensures forall a | a in AgedTrace(aged, x, at) :: WeighsItsAge(a, r)
  {
    var after, all := Traced(RowsOf(aged), x, at), AgedTrace(aged, x, at);
    RowsOfAt(aged);
    TraceExtends(RowsOf(aged), x, Agents(x.phases), at);
    NewAgesAt(after[|aged|..]);
    forall i | 0 <= i < |all|
      ensures WeighsItsAge(all[i], r)
    {
      if i < |aged| {
        assert aged[i] in aged;
      } else {
        assert all[i] == Aged(after[i], 0);
      }
    }
  }

  /** Counting decays does not change the table. */
  lemma {:induction false} AgedRunRows(ops: seq<Op>, r: real)
    ensures RowsOf(AgedRun(ops, r)) == RowRun(ops, r)
  {
    if ops != [] {
      var before, op := ops[..|ops| - 1], ops[|ops| - 1];
      AgedRunRows(before, r);
      match op
      case RememberOp(dto, at) => RememberRows(AgedRun(before, r), dto, at, r);
      case TraceOp(x, at) => TraceRows(AgedRun(before, r), x, at);
      case DecayOp => OlderRows(AgedRun(before, r), r, 0);
      case CleanupOp(threshold) => OlderRows(AgedRun(before, r), r, threshold);
    }
  }

  ghost predicate WeighsItsAge(a: Aged, r: real) {
    a.row.decayWeight == Pow(r, a.decays)
  }

  lemma {:induction false} OlderWeighs(aged: seq<Aged>, r: real, threshold: nat)
    requires forall a | a in aged :: WeighsItsAge(a, r)
    ensures forall a | a in Older(aged, r) :: WeighsItsAge(a, r)
    ensures forall a | a in Unstale(aged, threshold) :: a in aged
  {
    if aged != [] {
      assert aged[0] in aged;
      OlderWeighs(aged[1..], r, threshold);
    }
  }

  lemma RememberWeighs(aged: seq<Aged>, dto: MemoryDto, at: nat, r: real)
    requires forall a | a in aged :: WeighsItsAge(a, r)
    ensures forall a | a in AgedRemember(aged, dto, at) :: WeighsItsAge(a, r)
  {
    var after := AgedRemember(aged, dto, at);
    forall i | 0 <= i < |after|
      ensures WeighsItsAge(after[i], r)
    {
      if i < |aged| {
        assert aged[i] in aged;
      }
    }
  }

  /** Over every run a memory's weight is the factor raised to the number of decays since it was created. */
  lemma {:induction false} WeightIsAge(ops: seq<Op>, r: real)
    ensures forall a | a in AgedRun(ops, r) :: WeighsItsAge(a, r)
  {
    if ops != [] {
      var before, op := ops[..|ops| - 1], ops[|ops| - 1];
      WeightIsAge(before, r);
      match op
      case RememberOp(dto, at) => RememberWeighs(AgedRun(before, r), dto, at, r);
      case TraceOp(x, at) => TraceWeighs(AgedRun(before, r), x, at, r);
      case DecayOp => OlderWeighs(AgedRun(before, r), r, 0);
      case CleanupOp(threshold) => OlderWeighs(AgedRun(before, r), r, threshold);
    }
  }

  lemma {:induction false} UnstaleMembers(aged: seq<Aged>, threshold: nat, a: Aged)
    ensures a in Unstale(aged, threshold) <==> a in aged && !IsStale(a.row.decayWeight, a.row.createdAt, threshold)
  {
    if aged != [] {
      UnstaleMembers(aged[1..], threshold, a);
    }
  }

  /** At any point of any run, cleanup deletes exactly the memories decayed at least forty times and old enough. */
  lemma CleanupDeletesExactly(ops: seq<Op>, threshold: nat, r: real, a: Aged)
    requires HalvesInTwelve(r) && a in AgedRun(ops, r)
    ensures a !in AgedRun(ops + [CleanupOp(threshold)], r) <==> a.decays >= 40 && a.row.createdAt <= threshold
  {
    WeightIsAge(ops, r);
    StaleAfterForty(r, a.decays);
    UnstaleMembers(AgedRun(ops, r), threshold, a);
    assert (ops + [CleanupOp(threshold)])[..|ops|] == ops;
  }

  // ----- runs of the deprecated store -----

  datatype DecisionOp = AssessOp(key: MemoryKey, id: string, outcome: FinalOutcome, at: nat) | PruneOp(limit: nat)

  /** The deprecated store beside the number of decays each memory has been through. */
  datatype AgedStore = AgedStore(decisions: map<MemoryKey, DecisionMemory>, ages: map<MemoryKey, nat>)

  function StoreStep(decisions: map<MemoryKey, DecisionMemory>, op: DecisionOp, r: real): map<MemoryKey, DecisionMemory> {
    match op
    case AssessOp(key, id, outcome, at) => UpsertDecision(decisions, key, id, outcome, at)
    case PruneOp(limit) => DecayDecisions(decisions, r, limit)
  }

  /** A new memory has no age, an updated one keeps its age, and every decay it survives adds one. */
  function AgesStep(s: AgedStore, op: DecisionOp, r: real): map<MemoryKey, nat> {
    match op
    case AssessOp(key, _, _, _) => if key in s.ages then s.ages else s.ages[key := 0]
    case PruneOp(limit) => map k | k in s.ages && k in DecayDecisions(s.decisions, r, limit) :: s.ages[k] + 1
  }

  function StoreRun(ops: seq<DecisionOp>, r: real): AgedStore {
    if ops == [] then AgedStore(map[], map[])
    else
      var s, op := StoreRun(ops[..|ops| - 1], r), ops[|ops| - 1];
      AgedStore(StoreStep(s.decisions, op, r), AgesStep(s, op, r))
  }

  ghost predicate StoreWeighs(s: AgedStore, r: real) {
    && s.ages.Keys == s.decisions.Keys
    && forall k | k in s.decisions :: s.decisions[k].decayWeight == Pow(r, s.ages[k])
  }

  /** Over every run a decision memory's weight is the factor raised to the number of its decays. */
  lemma {:induction false} DecisionWeightIsAge(ops: seq<DecisionOp>, r: real)
    ensures StoreWeighs(StoreRun(ops, r), r)
  {
    if ops != [] {
      var s, op := StoreRun(ops[..|ops| - 1], r), ops[|ops| - 1];
      DecisionWeightIsAge(ops[..|ops| - 1], r);
      StoreStepWeighs(s, op, r);
    }
  }

  lemma StoreStepWeighs(s: AgedStore, op: DecisionOp, r: real)
    requires StoreWeighs(s, r)
    ensures StoreWeighs(AgedStore(StoreStep(s.decisions, op, r), AgesStep(s, op, r)), r)
  {
    var decisions, ages := StoreStep(s.decisions, op, r), AgesStep(s, op, r);
    match op
    case AssessOp(key, _, _, _) =>
      assert decisions.Keys == s.decisions.Keys + {key} == ages.Keys;
    case PruneOp(_) =>
      assert forall k | k in decisions :: k in s.decisions && k in ages;
      assert decisions.Keys == ages.Keys;
      forall k | k in decisions
        ensures decisions[k].decayWeight == Pow(r, ages[k])
      {
        assert ages[k] == s.ages[k] + 1 && decisions[k].decayWeight == Pow(r, s.ages[k]) * r;
      }
  }

  /** One call prunes a memory when it is its fortieth decay, or later, and the memory is old enough. */
  lemma PrunedByCall(decisions: map<MemoryKey, DecisionMemory>, k: MemoryKey, r: real, limit: nat, decays: nat)
    requires HalvesInTwelve(r) && k in decisions && decisions[k].decayWeight == Pow(r, decays)
    ensures k !in DecayDecisions(decisions, r, limit) <==> decays + 1 >= 40 && decisions[k].createdAt <= limit
    ensures k in DecayDecisions(decisions, r, limit) ==>
              DecayDecisions(decisions, r, limit)[k].decayWeight == Pow(r, decays + 1)
  {
    StaleAfterForty(r, decays + 1);
  }

  /** At any point of any run, a call prunes exactly the memories that it decays for at least the fortieth time and that
      are old enough. */
  lemma DecisionPrunedExactly(ops: seq<DecisionOp>, limit: nat, r: real, k: MemoryKey)
    requires HalvesInTwelve(r) && k in StoreRun(ops, r).decisions
    ensures StoreRun(ops, r).ages.Keys == StoreRun(ops, r).decisions.Keys
    ensures k !in StoreRun(ops + [PruneOp(limit)], r).decisions
       <==> StoreRun(ops, r).ages[k] + 1 >= 40 && StoreRun(ops, r).decisions[k].createdAt <= limit
  {
    var s, all := StoreRun(ops, r), ops + [PruneOp(limit)];
    DecisionWeightIsAge(ops, r);
    PrunedByCall(s.decisions, k, r, limit, s.ages[k]);
    assert all[..|ops|] == ops && all[|all| - 1] == PruneOp(limit);
  }
}
