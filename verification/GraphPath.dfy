/** queryPath against shortest walks, and its agreement with queryImpact. */
module GraphPath {
  import opened Wrappers
  import opened Sorting
  import opened KnowledgeGraph
  import opened GraphWalks
  import opened GraphImpact

  function Vertices(s: string, w: Walk): seq<string> {
    if w == [] then [s] else Vertices(s, w[..|w| - 1]) + [w[|w| - 1].target]
  }

  lemma {:induction false} VerticesAre(s: string, w: Walk)
    ensures |Vertices(s, w)| == |w| + 1
    ensures forall i | 0 <= i <= |w| :: Vertices(s, w)[i] == Vertex(s, w, i)
  {
    if w != [] {
      VerticesAre(s, w[..|w| - 1]);
    }
  }

  /** The CTE row a non-empty walk stands behind. */
  function PathOf(s: string, w: Walk): PathRow
    requires w != []
  {
    PathRow(w[|w| - 1].source, End(s, w), |w|, Vertices(s, w))
  }

  /** No node is visited twice. */
  ghost predicate Simple(s: string, w: Walk) {
    forall i, j | 0 <= i < j <= |w| :: Vertex(s, w, i) != Vertex(s, w, j)
  }

  ghost predicate Behind(edges: seq<Edge>, s: string, row: PathRow, w: Walk) {
    w != [] && IsWalk(edges, s, w) && |w| <= MAX_DEPTH && row == PathOf(s, w)
  }

  /** Every row stands for a walk. */
  ghost predicate Sound(edges: seq<Edge>, s: string, rows: seq<PathRow>) {
    forall row | row in rows :: exists w: Walk :: Behind(edges, s, row, w)
  }

  // ----- one step of the CTE -----

  lemma {:induction false} PathBaseMembers(out: seq<Edge>, row: PathRow)
    ensures row in PathBase(out) <==>
      exists e :: e in out && row == PathRow(e.source, e.target, 1, [e.source, e.target])
  {
    if out != [] {
      PathBaseMembers(out[1..], row);
    }
  }

  ghost predicate Continues(p: PathRow, e: Edge, row: PathRow) {
    e.target !in p.nodes && p.depth < MAX_DEPTH && row == Extended(p, e)
  }

  lemma {:induction false} PathJoinMembers(p: PathRow, out: seq<Edge>, row: PathRow)
    ensures row in PathJoin(p, out) <==> exists e :: e in out && Continues(p, e, row)
  {
    if out != [] {
      PathJoinMembers(p, out[1..], row);
      assert out == [out[0]] + out[1..];
      assert Continues(p, out[0], row) <==> row in PathJoin(p, out[..1]);
    }
  }

  ghost predicate ContinuesSome(edges: seq<Edge>, p: PathRow, row: PathRow) {
    exists e :: e in edges && e.source == p.target && Continues(p, e, row)
  }

  lemma {:induction false} PathStepMembers(edges: seq<Edge>, work: seq<PathRow>, row: PathRow)
    ensures row in PathStep(edges, work) <==> exists p :: p in work && ContinuesSome(edges, p, row)
  {
    if work != [] {
      PathStepMembers(edges, work[1..], row);
      var out := OutEdges(edges, work[0].target);
      forall e
        ensures e in out <==> e in edges && e.source == work[0].target
      {
        OutEdgesMembers(edges, work[0].target, e);
      }
      PathJoinMembers(work[0], out, row);
      assert row in PathJoin(work[0], out) <==> ContinuesSome(edges, work[0], row);
    }
  }

  lemma StepSound(edges: seq<Edge>, s: string, work: seq<PathRow>)
    requires Sound(edges, s, work)
    ensures Sound(edges, s, PathStep(edges, work))
  {
    forall row | row in PathStep(edges, work)
      ensures exists w: Walk :: Behind(edges, s, row, w)
    {
      PathStepMembers(edges, work, row);
      var p :| p in work && ContinuesSome(edges, p, row);
      var e :| e in edges && e.source == p.target && Continues(p, e, row);
      var w: Walk :| Behind(edges, s, p, w);
      BehindSnoc(edges, s, p, w, e);
    }
  }

  lemma BehindSnoc(edges: seq<Edge>, s: string, p: PathRow, w: Walk, e: Edge)
    requires Behind(edges, s, p, w) && e in edges && e.source == p.target && p.depth < MAX_DEPTH
    ensures Behind(edges, s, Extended(p, e), w + [e])
  {
    var x := w + [e];
    WalkSnoc(edges, s, w, e);
    assert x[..|x| - 1] == w && x[|x| - 1] == e;
    assert Vertices(s, x) == Vertices(s, w) + [e.target];
  }

  lemma {:induction false} LoopSound(edges: seq<Edge>, s: string, work: seq<PathRow>, d: nat)
    requires Sound(edges, s, work) && d <= MAX_DEPTH + 1
    ensures Sound(edges, s, PathLoop(edges, work, d))
    decreases MAX_DEPTH + 1 - d
  {
    if work != [] && d <= MAX_DEPTH {
      StepSound(edges, s, work);
      LoopSound(edges, s, PathStep(edges, work), d + 1);
    }
  }

  lemma WalkPrefix(edges: seq<Edge>, s: string, w: Walk, k: nat)
    requires IsWalk(edges, s, w) && k <= |w|
    ensures IsWalk(edges, s, w[..k]) && End(s, w[..k]) == Vertex(s, w, k)
  {
    assert forall i | 0 <= i <= k :: Vertex(s, w[..k], i) == Vertex(s, w, i);
    assert forall i | 0 <= i < k :: w[..k][i] == w[i];
  }

  /** The row of a longer prefix extends the row of the shorter one. */
  lemma PrefixRow(s: string, w: Walk, k: nat)
    requires 1 <= k < |w|
    ensures PathOf(s, w[..k + 1]) == Extended(PathOf(s, w[..k]), w[k])
  {
    var x := w[..k + 1];
    assert x[..|x| - 1] == w[..k] && x[|x| - 1] == w[k];
    assert Vertices(s, x) == Vertices(s, w[..k]) + [w[k].target];
  }

  lemma NextIsFresh(s: string, w: Walk, k: nat)
    requires Simple(s, w) && 1 <= k < |w|
    ensures w[k].target !in Vertices(s, w[..k])
  {
    var vs := Vertices(s, w[..k]);
    VerticesAre(s, w[..k]);
    forall i | 0 <= i < |vs|
      ensures vs[i] != w[k].target
    {
      assert vs[i] == Vertex(s, w, i) && w[k].target == Vertex(s, w, k + 1);
    }
  }

  /** A walk that revisits nothing is never pruned: its next row follows from its row of length `k`. */
  lemma StepKeeps(edges: seq<Edge>, s: string, work: seq<PathRow>, w: Walk, k: nat)
    requires IsWalk(edges, s, w) && Simple(s, w) && 1 <= k < |w| <= MAX_DEPTH
    requires PathOf(s, w[..k]) in work
    ensures PathOf(s, w[..k + 1]) in PathStep(edges, work)
  {
    var p, e := PathOf(s, w[..k]), w[k];
    WalkPrefix(edges, s, w, k);
    PrefixRow(s, w, k);
    NextIsFresh(s, w, k);
    assert Continues(p, e, Extended(p, e));
    PathStepMembers(edges, work, Extended(p, e));
  }

  lemma {:induction false} LoopKeeps(edges: seq<Edge>, s: string, work: seq<PathRow>, w: Walk, k: nat)
    requires IsWalk(edges, s, w) && Simple(s, w) && 1 <= k <= |w| <= MAX_DEPTH
    requires PathOf(s, w[..k]) in work
    ensures PathOf(s, w) in PathLoop(edges, work, k)
    decreases |w| - k
  {
    if k == |w| {
      assert w[..k] == w;
    } else {
      StepKeeps(edges, s, work, w, k);
      LoopKeeps(edges, s, PathStep(edges, work), w, k + 1);
    }
  }

  lemma PathRowsSound(edges: seq<Edge>, s: string)
    ensures Sound(edges, s, PathRows(edges, s))
  {
    var out := OutEdges(edges, s);
    forall row | row in PathBase(out)
      ensures exists w: Walk :: Behind(edges, s, row, w)
    {
      PathBaseMembers(out, row);
      var e :| e in out && row == PathRow(e.source, e.target, 1, [e.source, e.target]);
      OutEdgesMembers(edges, s, e);
      assert Vertices(s, [e]) == Vertices(s, []) + [e.target];
      assert Behind(edges, s, row, [e]);
    }
    LoopSound(edges, s, PathBase(out), 1);
  }

  lemma PathRowsComplete(edges: seq<Edge>, s: string, w: Walk)
    requires IsWalk(edges, s, w) && Simple(s, w) && 1 <= |w| <= MAX_DEPTH
    ensures PathOf(s, w) in PathRows(edges, s)
  {
    var out := OutEdges(edges, s);
    assert w[0].source == Vertex(s, w, 0);
    OutEdgesMembers(edges, s, w[0]);
    assert Vertices(s, w[..1]) == Vertices(s, w[..1][..0]) + [w[0].target];
    PathBaseMembers(out, PathOf(s, w[..1]));
    LoopKeeps(edges, s, PathBase(out), w, 1);
  }

  // ----- pruning loses no shortest walk -----

  lemma {:induction false} WalkConcat(edges: seq<Edge>, s: string, u: Walk, v: Walk)
    ensures IsWalk(edges, s, u + v) <==> IsWalk(edges, s, u) && IsWalk(edges, End(s, u), v)
    ensures End(s, u + v) == End(End(s, u), v)
  {
    if v == [] {
      assert u + v == u;
    } else {
      var x, e := v[..|v| - 1], v[|v| - 1];
      assert v == x + [e] && u + v == (u + x) + [e];
      WalkConcat(edges, s, u, x);
      WalkSnoc(edges, s, u + x, e);
      WalkSnoc(edges, End(s, u), x, e);
    }
  }

  lemma WalkSuffix(edges: seq<Edge>, s: string, w: Walk, k: nat)
    requires IsWalk(edges, s, w) && k <= |w|
    ensures IsWalk(edges, Vertex(s, w, k), w[k..]) && End(Vertex(s, w, k), w[k..]) == End(s, w)
  {
    var x, v := Vertex(s, w, k), w[k..];
    forall i | 0 <= i < |v|
      ensures v[i] in edges && v[i].source == Vertex(x, v, i)
    {
      assert v[i] == w[k + i];
    }
    if v != [] {
      assert v[|v| - 1] == w[|w| - 1];
    }
  }

  /** Leaving out a round trip gives a shorter walk to the same node. */
  lemma Cut(edges: seq<Edge>, s: string, w: Walk, i: nat, j: nat)
    requires IsWalk(edges, s, w) && i < j <= |w| && Vertex(s, w, i) == Vertex(s, w, j)
    ensures IsWalk(edges, s, w[..i] + w[j..]) && End(s, w[..i] + w[j..]) == End(s, w)
  {
    WalkPrefix(edges, s, w, i);
    WalkSuffix(edges, s, w, j);
    WalkConcat(edges, s, w[..i], w[j..]);
  }

  lemma Shorten(edges: seq<Edge>, s: string, w: Walk) returns (x: Walk)
    requires IsWalk(edges, s, w)
    ensures IsWalk(edges, s, x) && Simple(s, x) && End(s, x) == End(s, w) && |x| <= |w|
    decreases |w|
  {
    if Simple(s, w) {
      x := w;
    } else {
      var i, j :| 0 <= i < j <= |w| && Vertex(s, w, i) == Vertex(s, w, j);
      Cut(edges, s, w, i, j);
      x := Shorten(edges, s, w[..i] + w[j..]);
    }
  }

  // ----- the answer -----

  lemma {:induction false} ReachingMembers(rows: seq<PathRow>, t: string)
    ensures forall row :: row in Reaching(rows, t) <==> row in rows && row.target == t
  {
    if rows != [] {
      ReachingMembers(rows[1..], t);
      assert rows == [rows[0]] + rows[1..];
    }
  }

  ghost predicate Reachable(edges: seq<Edge>, s: string, t: string) {
    exists w: Walk :: Joins(edges, s, w, t) && 1 <= |w| <= 10
  }

  /** `d` is the length of a shortest walk. */
  ghost predicate Distance(edges: seq<Edge>, s: string, t: string, d: nat) {
    && (exists w: Walk :: Joins(edges, s, w, t) && |w| == d)
    && (forall w: Walk | Joins(edges, s, w, t) :: d <= |w|)
  }

  lemma CandidateForWalk(edges: seq<Edge>, s: string, t: string, w: Walk) returns (row: PathRow)
    requires s != t && Joins(edges, s, w, t) && |w| <= MAX_DEPTH
    ensures row in Reaching(PathRows(edges, s), t) && row.depth <= |w|
  {
    var x := Shorten(edges, s, w);
    PathRowsComplete(edges, s, x);
    ReachingMembers(PathRows(edges, s), t);
    row := PathOf(s, x);
  }

  lemma WalkForCandidate(edges: seq<Edge>, s: string, t: string, row: PathRow) returns (w: Walk)
    requires row in Reaching(PathRows(edges, s), t)
    ensures Joins(edges, s, w, t) && |w| == row.depth && 1 <= |w| <= MAX_DEPTH
  {
    PathRowsSound(edges, s);
    ReachingMembers(PathRows(edges, s), t);
    w :| Behind(edges, s, row, w);
  }

  ghost function TraceOf(nodes: seq<Node>, edges: seq<Edge>, a: Node, b: Node): PathTrace {
    var r := QueryPath(nodes, edges, a.nodeId, b.nodeId);
    if r.Success? then r.value else PathTrace(false, [], 0)
  }

  /** ORDER BY p.depth LIMIT 1 keeps a candidate of least depth. */
  lemma LeastDepthFirst(rows: seq<PathRow>)
    ensures var sorted := SortBy(rows, (r: PathRow) => r.depth);
            && (sorted == [] <==> rows == [])
            && (sorted != [] ==> sorted[0] in rows && forall r | r in rows :: sorted[0].depth <= r.depth)
  {
    var key := (r: PathRow) => r.depth;
    var sorted := SortBy(rows, key);
    SortByCorrect(rows, key);
    forall r | r in rows
      ensures sorted != [] && sorted[0].depth <= r.depth
    {
      assert r in sorted;
      var k :| 0 <= k < |sorted| && sorted[k] == r;
      assert key(sorted[0]) <= key(sorted[k]);
    }
    if sorted != [] {
      assert sorted[0] in sorted;
    }
  }

  lemma FirstCandidate(edges: seq<Edge>, s: string, t: string, rows: seq<PathRow>)
    requires s != t && rows == SortBy(Reaching(PathRows(edges, s), t), (r: PathRow) => r.depth)
    ensures rows != [] <==> Reachable(edges, s, t)
    ensures rows != [] ==> 1 <= rows[0].depth <= MAX_DEPTH && Distance(edges, s, t, rows[0].depth)
  {
    LeastDepthFirst(Reaching(PathRows(edges, s), t));
    if rows != [] {
      var v := WalkForCandidate(edges, s, t, rows[0]);
      forall w: Walk | Joins(edges, s, w, t)
        ensures rows[0].depth <= |w|
      {
        if |w| <= MAX_DEPTH {
          var row := CandidateForWalk(edges, s, t, w);
        }
      }
    }
    if Reachable(edges, s, t) {
      var w: Walk :| Joins(edges, s, w, t) && 1 <= |w| <= MAX_DEPTH;
      var row := CandidateForWalk(edges, s, t, w);
    }
  }

  /** Found exactly when a walk of length 1 to 10 exists, the last entry then carrying the distance. */
  ghost predicate ReportsDistance(edges: seq<Edge>, a: Node, b: Node, trace: PathTrace) {
    if Reachable(edges, a.id, b.id) then
      && trace.found && |trace.path| == 2 && trace.totalDepth == 1
      && trace.path[0] == PathEntry(a.id, a.nodeId, a.nodeType, a.caption, 0)
      && trace.path[1] == PathEntry(b.id, b.nodeId, b.nodeType, b.caption, trace.path[1].depth)
      && 1 <= trace.path[1].depth <= 10
      && Distance(edges, a.id, b.id, trace.path[1].depth)
    else
      trace == PathTrace(false, [], 0)
  }

  lemma PathIsShortest(nodes: seq<Node>, edges: seq<Edge>, a: Node, b: Node)
    requires WellFormed(nodes, edges) && a in nodes && b in nodes && a != b
    ensures QueryPath(nodes, edges, a.nodeId, b.nodeId).Success?
    ensures ReportsDistance(edges, a, b, TraceOf(nodes, edges, a, b))
  {
    NodeByIdIs(nodes, a);
    NodeByIdIs(nodes, b);
    var rows := SortBy(Reaching(PathRows(edges, a.id), b.id), (r: PathRow) => r.depth);
    FirstCandidate(edges, a.id, b.id, rows);
  }

  lemma PathEdgeCases(nodes: seq<Node>, edges: seq<Edge>, fromId: string, toId: string)
    requires WellFormed(nodes, edges)
    ensures QueryPath(nodes, edges, fromId, toId) == Failure(NotFound)
       <==> (forall n | n in nodes :: n.nodeId != fromId) || (forall n | n in nodes :: n.nodeId != toId)
    ensures forall n | n in nodes && n.nodeId == fromId == toId ::
              QueryPath(nodes, edges, fromId, toId) ==
              Success(PathTrace(true, [PathEntry(n.id, n.nodeId, n.nodeType, n.caption, 0)], 0))
  {
  }

  // ----- the two queries agree -----

  lemma ReportedAt(nodes: seq<Node>, edges: seq<Edge>, start: Node, depth: int, n: Node, d: nat)
    requires WellFormed(nodes, edges) && start in nodes && n in nodes && n.isActive
    ensures ToImpactNode(n, d) in ImpactOf(nodes, edges, start.nodeId, depth)
       <==> (d == 1 || (1 <= d <= 10 && d <= depth)) && exists w: Walk :: Joins(edges, start.id, w, n.id) && |w| == d
  {
    var walks := ImpactCountsWalks(nodes, edges, start, depth, n, d);
    var rows := ImpactOf(nodes, edges, start.nodeId, depth);
    assert ToImpactNode(n, d) in rows <==> ToImpactNode(n, d) in multiset(rows);
    assert |walks| > 0 <==> walks != {};
    assert walks != {} <==> exists w: Walk :: w in walks;
    assert (exists w: Walk :: w in walks) <==> exists w: Walk :: Joins(edges, start.id, w, n.id) && |w| == d;
  }

  lemma RowOfNode(nodes: seq<Node>, edges: seq<Edge>, start: Node, n: Node, r: ImpactNode)
    requires WellFormed(nodes, edges) && start in nodes && n in nodes && n.isActive
    requires r in ImpactOf(nodes, edges, start.nodeId, 10) && r.id == n.id
    ensures r == ToImpactNode(n, r.depth) && exists w: Walk :: Joins(edges, start.id, w, n.id) && |w| == r.depth
    ensures 1 <= r.depth <= 10
  {
    ImpactRowsShape(nodes, edges, start.nodeId, 10);
    var m :| m in nodes && m.isActive && r.id == m.id && r.nodeId == m.nodeId && r.nodeType == m.nodeType
          && r.caption == m.caption && r.description == m.description && r.owner == m.owner;
    NodeByIdIs(nodes, m);
    NodeByIdIs(nodes, n);
    ReportedAt(nodes, edges, start, 10, n, r.depth);
  }

  ghost predicate FirstRowOf(rows: seq<ImpactNode>, id: string, k: int) {
    0 <= k < |rows| && rows[k].id == id && forall j | 0 <= j < k :: rows[j].id != id
  }

  lemma AgreeForward(nodes: seq<Node>, edges: seq<Edge>, start: Node, n: Node, r: ImpactNode)
    requires WellFormed(nodes, edges) && start in nodes && n in nodes && n.isActive && n != start
    requires r in ImpactOf(nodes, edges, start.nodeId, 10) && r.id == n.id
    ensures var trace := TraceOf(nodes, edges, start, n);
            trace.found && |trace.path| == 2 && trace.path[1].depth <= r.depth
  {
    RowOfNode(nodes, edges, start, n, r);
    PathIsShortest(nodes, edges, start, n);
  }

  lemma AgreeBackward(nodes: seq<Node>, edges: seq<Edge>, start: Node, n: Node)
    requires WellFormed(nodes, edges) && start in nodes && n in nodes && n.isActive && n != start
    requires TraceOf(nodes, edges, start, n).found
    ensures var trace := TraceOf(nodes, edges, start, n);
            |trace.path| == 2 && ToImpactNode(n, trace.path[1].depth) in ImpactOf(nodes, edges, start.nodeId, 10)
  {
    PathIsShortest(nodes, edges, start, n);
    ReportedAt(nodes, edges, start, 10, n, TraceOf(nodes, edges, start, n).path[1].depth);
  }

  /** `id` has a row exactly when the trace was found, and its first row has the depth of the trace. */
  ghost predicate Agree(rows: seq<ImpactNode>, trace: PathTrace, id: string) {
    && (trace.found <==> exists k :: FirstRowOf(rows, id, k))
    && (forall k | FirstRowOf(rows, id, k) :: |trace.path| == 2 && rows[k].depth == trace.path[1].depth)
  }

  lemma FirstRowAgrees(nodes: seq<Node>, edges: seq<Edge>, start: Node, n: Node, rows: seq<ImpactNode>, k: int)
    requires WellFormed(nodes, edges) && start in nodes && n in nodes && n.isActive && n != start
    requires rows == ImpactOf(nodes, edges, start.nodeId, 10) && FirstRowOf(rows, n.id, k)
    ensures var trace := TraceOf(nodes, edges, start, n);
            trace.found && |trace.path| == 2 && rows[k].depth == trace.path[1].depth
  {
    var trace := TraceOf(nodes, edges, start, n);
    AgreeForward(nodes, edges, start, n, rows[k]);
    AgreeBackward(nodes, edges, start, n);
    ImpactRowsShape(nodes, edges, start.nodeId, 10);
    FirstIsLeast(rows, k, ToImpactNode(n, trace.path[1].depth));
  }

  lemma FirstIsLeast(rows: seq<ImpactNode>, k: int, r: ImpactNode)
    requires ByDepth(rows) && FirstRowOf(rows, r.id, k) && r in rows
    ensures rows[k].depth <= r.depth
  {
    var i :| 0 <= i < |rows| && rows[i] == r;
  }

  /** At the greatest depth the first row of a node and the found path carry the same depth. */
  lemma QueriesAgree(nodes: seq<Node>, edges: seq<Edge>, start: Node, n: Node)
    requires WellFormed(nodes, edges) && start in nodes && n in nodes && n.isActive && n != start
    ensures Agree(ImpactOf(nodes, edges, start.nodeId, 10), TraceOf(nodes, edges, start, n), n.id)
  {
    var rows, trace := ImpactOf(nodes, edges, start.nodeId, 10), TraceOf(nodes, edges, start, n);
    forall k | FirstRowOf(rows, n.id, k)
      ensures trace.found && |trace.path| == 2 && rows[k].depth == trace.path[1].depth
    {
      FirstRowAgrees(nodes, edges, start, n, rows, k);
    }
    if trace.found {
      AgreeBackward(nodes, edges, start, n);
      var k := FirstRow(rows, ToImpactNode(n, trace.path[1].depth));
    }
  }

  lemma FirstRow(rows: seq<ImpactNode>, r: ImpactNode) returns (k: nat)
    requires r in rows
    ensures FirstRowOf(rows, r.id, k)
  {
    k := 0;
    while rows[k].id != r.id
      invariant k < |rows| && forall j | 0 <= j < k :: rows[j].id != r.id
      decreases |rows| - k
    {
      assert r in rows[k..] by {
        var i :| 0 <= i < |rows| && rows[i] == r;
        assert i >= k && rows[k..][i - k] == r;
      }
      k := k + 1;
    }
  }
}
