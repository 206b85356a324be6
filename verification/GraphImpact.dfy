/** queryImpact against the walks of the graph. */
module GraphImpact {
  import opened Wrappers
  import opened Sorting
  import opened KnowledgeGraph
  import opened GraphWalks

  /** The CTE rows of a list of walks. */
  function Project(s: string, ws: seq<Walk>): seq<ImpactRow> {
    if ws == [] then [] else [ImpactRow(End(s, ws[0]), |ws[0]|)] + Project(s, ws[1..])
  }

  lemma {:induction false} ProjectConcat(s: string, a: seq<Walk>, b: seq<Walk>)
    ensures Project(s, a + b) == Project(s, a) + Project(s, b)
  {
    if a == [] {
      assert a + b == b;
    } else {
      ProjectConcat(s, a[1..], b);
      assert (a + b)[1..] == a[1..] + b;
    }
  }

  lemma {:induction false} ProjectExtend(s: string, w: Walk, out: seq<Edge>)
    ensures Project(s, Extend(w, out)) == ImpactJoin(out, |w| + 1)
  {
    if out != [] {
      ProjectExtend(s, w, out[1..]);
      assert Extend(w, out)[1..] == Extend(w, out[1..]);
    }
  }

  lemma StepCons(edges: seq<Edge>, head: ImpactRow, rest: seq<ImpactRow>, maxDepth: nat)
    ensures ImpactStep(edges, [head] + rest, maxDepth)
         == (if head.depth < maxDepth then ImpactJoin(OutEdges(edges, head.node), head.depth + 1) else [])
            + ImpactStep(edges, rest, maxDepth)
  {
    assert ([head] + rest)[1..] == rest;
  }

  /** One step of the CTE extends every walk behind its working table by one edge. */
  lemma {:induction false} StepExtends(edges: seq<Edge>, s: string, ws: seq<Walk>, d: nat, maxDepth: nat)
    requires forall w | w in ws :: |w| == d
    ensures ImpactStep(edges, Project(s, ws), maxDepth)
         == if d < maxDepth then Project(s, ExtendAll(edges, s, ws)) else []
  {
    if ws != [] {
      var head := ImpactRow(End(s, ws[0]), d);
      var out := OutEdges(edges, head.node);
      assert |ws[0]| == d;
      assert Project(s, ws) == [head] + Project(s, ws[1..]);
      StepCons(edges, head, Project(s, ws[1..]), maxDepth);
      StepExtends(edges, s, ws[1..], d, maxDepth);
      ProjectExtend(s, ws[0], out);
      ProjectConcat(s, Extend(ws[0], out), ExtendAll(edges, s, ws[1..]));
    }
  }

  // ----- how often a row occurs -----

  ghost function Copies(rows: seq<ImpactRow>, row: ImpactRow): nat {
    multiset(rows)[row]
  }

  lemma CopiesConcat(a: seq<ImpactRow>, b: seq<ImpactRow>, row: ImpactRow)
    ensures Copies(a + b, row) == Copies(a, row) + Copies(b, row)
  {
  }

  lemma NoCopies(rows: seq<ImpactRow>, row: ImpactRow)
    requires row !in rows
    ensures Copies(rows, row) == 0
  {
    assert row !in multiset(rows);
  }

  lemma {:induction false} OtherDepth(s: string, ws: seq<Walk>, row: ImpactRow)
    requires forall w | w in ws :: |w| != row.depth
    ensures Copies(Project(s, ws), row) == 0
  {
    if ws == [] {
      NoCopies([], row);
    } else {
      OtherDepth(s, ws[1..], row);
      assert |ws[0]| != row.depth;
      CopiesConcat([ImpactRow(End(s, ws[0]), |ws[0]|)], Project(s, ws[1..]), row);
    }
  }

  lemma HeadSplitsOff(s: string, ws: seq<Walk>, t: string)
    requires ws != [] && Distinct(ws)
    ensures |set w | w in ws && End(s, w) == t|
         == |set w | w in ws[1..] && End(s, w) == t| + if End(s, ws[0]) == t then 1 else 0
  {
    var rest := set w | w in ws[1..] && End(s, w) == t;
    assert ws[0] !in ws[1..];
    assert (set w | w in ws && End(s, w) == t) == if End(s, ws[0]) == t then {ws[0]} + rest else rest;
  }

  lemma {:induction false} CopiesAreWalks(s: string, ws: seq<Walk>, row: ImpactRow)
    requires Distinct(ws) && forall w | w in ws :: |w| == row.depth
    ensures Copies(Project(s, ws), row) == |set w | w in ws && End(s, w) == row.node|
  {
    if ws == [] {
      assert (set w | w in ws && End(s, w) == row.node) == {};
      NoCopies([], row);
    } else {
      CopiesAreWalks(s, ws[1..], row);
      assert |ws[0]| == row.depth;
      CopiesConcat([ImpactRow(End(s, ws[0]), |ws[0]|)], Project(s, ws[1..]), row);
      HeadSplitsOff(s, ws, row.node);
    }
  }

  // ----- the CTE level by level -----

  /** `rows` holds, from depth `d` to `maxDepth`, one copy of (v, k) per walk of length k from `s` to v. */
  ghost predicate CountsFrom(edges: seq<Edge>, s: string, d: nat, maxDepth: nat, rows: seq<ImpactRow>) {
    forall row :: Copies(rows, row)
      == if d <= row.depth <= maxDepth then Copies(Project(s, WalksOf(edges, s, row.depth)), row) else 0
  }

  lemma {:induction false} NoLongerWalks(edges: seq<Edge>, s: string, d: nat, k: nat)
    requires WalksOf(edges, s, d) == [] && d <= k
    ensures WalksOf(edges, s, k) == []
  {
    if d < k {
      NoLongerWalks(edges, s, d, k - 1);
    }
  }

  lemma CountsNothing(edges: seq<Edge>, s: string, d: nat, maxDepth: nat)
    requires d > maxDepth || WalksOf(edges, s, d) == []
    ensures CountsFrom(edges, s, d, maxDepth, [])
  {
    forall row: ImpactRow
      ensures Copies([], row)
        == if d <= row.depth <= maxDepth then Copies(Project(s, WalksOf(edges, s, row.depth)), row) else 0
    {
      if d <= row.depth <= maxDepth {
        NoLongerWalks(edges, s, d, row.depth);
      }
    }
  }

  lemma CountsLevel(edges: seq<Edge>, s: string, d: nat, maxDepth: nat, ws: seq<Walk>, rest: seq<ImpactRow>)
    requires d <= maxDepth && ws == WalksOf(edges, s, d)
    requires CountsFrom(edges, s, d + 1, maxDepth, rest)
    ensures CountsFrom(edges, s, d, maxDepth, Project(s, ws) + rest)
  {
    WalksOfMembers(edges, s, d);
    forall row: ImpactRow
      ensures Copies(Project(s, ws) + rest, row)
        == if d <= row.depth <= maxDepth then Copies(Project(s, WalksOf(edges, s, row.depth)), row) else 0
    {
      CopiesConcat(Project(s, ws), rest, row);
      if row.depth != d {
        OtherDepth(s, ws, row);
      }
    }
  }

  lemma {:induction false} LoopCounts(edges: seq<Edge>, s: string, d: nat, maxDepth: nat, ws: seq<Walk>)
    requires d <= maxDepth && ws == WalksOf(edges, s, d)
    ensures CountsFrom(edges, s, d, maxDepth, ImpactLoop(edges, Project(s, ws), d, maxDepth))
    decreases maxDepth - d
  {
    if ws == [] {
      CountsNothing(edges, s, d, maxDepth);
    } else {
      var work := Project(s, ws);
      var next := ImpactStep(edges, work, maxDepth);
      WalksOfMembers(edges, s, d);
      StepExtends(edges, s, ws, d, maxDepth);
      if d < maxDepth {
        LoopCounts(edges, s, d + 1, maxDepth, ExtendAll(edges, s, ws));
      } else {
        CountsNothing(edges, s, d + 1, maxDepth);
      }
      CountsLevel(edges, s, d, maxDepth, ws, ImpactLoop(edges, next, d + 1, maxDepth));
    }
  }

  lemma ImpactRowsCount(edges: seq<Edge>, s: string, maxDepth: nat)
    requires maxDepth >= 1
    ensures CountsFrom(edges, s, 1, maxDepth, ImpactRows(edges, s, maxDepth))
  {
    var none: Walk := [];
    var out := OutEdges(edges, s);
    assert End(s, none) == s;
    assert WalksOf(edges, s, 0) == [none];
    assert ExtendAll(edges, s, [none]) == Extend(none, out) + ExtendAll(edges, s, [none][1..]) == Extend(none, out);
    ProjectExtend(s, none, out);
    LoopCounts(edges, s, 1, maxDepth, Extend(none, out));
  }

  // ----- the joined answer -----

  ghost function Occurrences(rows: seq<ImpactNode>, row: ImpactNode): nat {
    multiset(rows)[row]
  }

  lemma OccurrencesConcat(a: seq<ImpactNode>, b: seq<ImpactNode>, row: ImpactNode)
    ensures Occurrences(a + b, row) == Occurrences(a, row) + Occurrences(b, row)
  {
  }

  function JoinOneRow(nodes: seq<Node>, row: ImpactRow): seq<ImpactNode> {
    var n := NodeById(nodes, row.node);
    if n.Some? && n.value.isActive then [ToImpactNode(n.value, row.depth)] else []
  }

  lemma JoinOne(nodes: seq<Node>, row: ImpactRow, n: Node, d: nat)
    requires UniqueIds(nodes) && n in nodes && n.isActive
    ensures Occurrences(JoinOneRow(nodes, row), ToImpactNode(n, d)) == Copies([row], ImpactRow(n.id, d))
  {
    NodeByIdIs(nodes, n);
  }

  lemma {:induction false} JoinCopies(nodes: seq<Node>, rows: seq<ImpactRow>, n: Node, d: nat)
    requires UniqueIds(nodes) && n in nodes && n.isActive
    ensures Occurrences(JoinActive(nodes, rows), ToImpactNode(n, d)) == Copies(rows, ImpactRow(n.id, d))
  {
    if rows != [] {
      JoinCopies(nodes, rows[1..], n, d);
      JoinOne(nodes, rows[0], n, d);
      assert rows == [rows[0]] + rows[1..];
      CopiesConcat([rows[0]], rows[1..], ImpactRow(n.id, d));
      OccurrencesConcat(JoinOneRow(nodes, rows[0]), JoinActive(nodes, rows[1..]), ToImpactNode(n, d));
    }
  }

  /** A reported row is an active node of the table at the depth of a CTE row. */
  ghost predicate Reports(nodes: seq<Node>, rows: seq<ImpactRow>, r: ImpactNode) {
    exists n :: n in nodes && n.isActive && r == ToImpactNode(n, r.depth) && ImpactRow(n.id, r.depth) in rows
  }

  lemma {:induction false} JoinMembers(nodes: seq<Node>, rows: seq<ImpactRow>, r: ImpactNode)
    requires r in JoinActive(nodes, rows)
    ensures Reports(nodes, rows, r)
  {
    var n := NodeById(nodes, rows[0].node);
    if n.Some? && n.value.isActive && r == ToImpactNode(n.value, rows[0].depth) {
      assert rows[0] == ImpactRow(n.value.id, r.depth);
    } else {
      JoinMembers(nodes, rows[1..], r);
      var m :| m in nodes && m.isActive && r == ToImpactNode(m, r.depth) && ImpactRow(m.id, r.depth) in rows[1..];
      assert ImpactRow(m.id, r.depth) in rows;
    }
  }

  /** The rows of a successful answer, none when the start node does not exist. */
  ghost function ImpactOf(nodes: seq<Node>, edges: seq<Edge>, nodeId: string, depth: int): seq<ImpactNode> {
    var r := QueryImpact(nodes, edges, nodeId, depth);
    if r.Success? then r.value else []
  }

  /** The walks of length `d` from node `s` to node `t`, each once. */
  lemma WalksBetween(edges: seq<Edge>, s: string, t: string, d: nat) returns (walks: set<Walk>)
    requires UniqueEdges(edges)
    ensures forall w :: w in walks <==> Joins(edges, s, w, t) && |w| == d
    ensures |walks| == Copies(Project(s, WalksOf(edges, s, d)), ImpactRow(t, d))
  {
    var ws := WalksOf(edges, s, d);
    WalksOfMembers(edges, s, d);
    WalksOfDistinct(edges, s, d);
    CopiesAreWalks(s, ws, ImpactRow(t, d));
    walks := set w | w in ws && End(s, w) == t;
  }

  /**
   * An active node occurs at depth `d` once for every edge-walk of length `d`. A walk of one edge is always counted,
   * a longer one up to the asked depth, and none beyond ten.
   */
  lemma ImpactCountsWalks(nodes: seq<Node>, edges: seq<Edge>, start: Node, depth: int, n: Node, d: nat)
    returns (walks: set<Walk>)
    requires WellFormed(nodes, edges) && start in nodes && n in nodes && n.isActive
    ensures QueryImpact(nodes, edges, start.nodeId, depth).Success?
    ensures forall w :: w in walks <==> Joins(edges, start.id, w, n.id) && |w| == d
    ensures Occurrences(ImpactOf(nodes, edges, start.nodeId, depth),
                        ImpactNode(n.id, n.nodeId, n.nodeType, n.caption, n.description, n.owner, d))
         == if d == 1 || (1 <= d <= 10 && d <= depth) then |walks| else 0
  {
    var rows := ImpactRows(edges, start.id, Clamp(depth));
    NodeByIdIs(nodes, start);
    OrderedByDepth(JoinActive(nodes, rows));
    JoinCopies(nodes, rows, n, d);
    ImpactRowsCount(edges, start.id, Clamp(depth));
    assert Copies(rows, ImpactRow(n.id, d))
        == if 1 <= d <= Clamp(depth) then Copies(Project(start.id, WalksOf(edges, start.id, d)), ImpactRow(n.id, d))
           else 0;
    walks := WalksBetween(edges, start.id, n.id, d);
  }

  ghost predicate ByDepth(rows: seq<ImpactNode>) {
    forall i, j | 0 <= i < j < |rows| :: rows[i].depth <= rows[j].depth
  }

  /** ORDER BY i.depth */
  lemma OrderedByDepth(joined: seq<ImpactNode>)
    ensures var rows := SortBy(joined, (r: ImpactNode) => r.depth);
            ByDepth(rows) && multiset(rows) == multiset(joined) && forall r :: r in rows <==> r in joined
  {
    var key := (r: ImpactNode) => r.depth;
    SortByCorrect(joined, key);
    var rows := SortBy(joined, key);
    forall i, j | 0 <= i < j < |rows|
      ensures rows[i].depth <= rows[j].depth
    {
      assert key(rows[i]) <= key(rows[j]);
    }
  }

  /** A row shows the columns of an active node. */
  ghost predicate ShowsActive(nodes: seq<Node>, r: ImpactNode) {
    exists n :: n in nodes && n.isActive && r.id == n.id && r.nodeId == n.nodeId && r.nodeType == n.nodeType
             && r.caption == n.caption && r.description == n.description && r.owner == n.owner
  }

  /** Rows come by increasing depth and report active nodes, at depth 1 and from there to the asked depth or to ten. */
  lemma ImpactRowsShape(nodes: seq<Node>, edges: seq<Edge>, nodeId: string, depth: int)
    ensures QueryImpact(nodes, edges, nodeId, depth) == Failure(NotFound)
       <==> forall n | n in nodes :: n.nodeId != nodeId
    ensures QueryImpact(nodes, edges, nodeId) == QueryImpact(nodes, edges, nodeId, 3)
    ensures ByDepth(ImpactOf(nodes, edges, nodeId, depth))
    ensures forall r | r in ImpactOf(nodes, edges, nodeId, depth) ::
              (r.depth == 1 || (1 <= r.depth <= 10 && r.depth <= depth)) && ShowsActive(nodes, r)
  {
    var start := NodeByNodeId(nodes, nodeId);
    if start.Some? {
      var rows := ImpactRows(edges, start.value.id, Clamp(depth));
      OrderedByDepth(JoinActive(nodes, rows));
      ImpactRowsCount(edges, start.value.id, Clamp(depth));
      forall r | r in JoinActive(nodes, rows)
        ensures 1 <= r.depth <= Clamp(depth) && ShowsActive(nodes, r)
      {
        JoinMembers(nodes, rows, r);
        var n :| n in nodes && n.isActive && r == ToImpactNode(n, r.depth) && ImpactRow(n.id, r.depth) in rows;
        assert ImpactRow(n.id, r.depth) in multiset(rows);
        assert Copies(rows, ImpactRow(n.id, r.depth)) > 0;
      }
    }
  }
}
