/** The recursive queries end by themselves: their answers are all working tables, however far the recursion is carried. */
module GraphTables {
  import opened KnowledgeGraph

  // ----- queryImpact -----

  /** The working table after `k` steps. */
  function ImpactTable(edges: seq<Edge>, start: string, maxDepth: nat, k: nat): seq<ImpactRow> {
    if k == 0 then ImpactJoin(OutEdges(edges, start), 1)
    else ImpactStep(edges, ImpactTable(edges, start, maxDepth, k - 1), maxDepth)
  }

  /** UNION ALL of the working tables from `k` up to `n`. */
  function ImpactTables(edges: seq<Edge>, start: string, maxDepth: nat, k: nat, n: nat): seq<ImpactRow>
    decreases n - k
  {
    if k >= n then [] else ImpactTable(edges, start, maxDepth, k) + ImpactTables(edges, start, maxDepth, k + 1, n)
  }

  ghost predicate ImpactAt(rows: seq<ImpactRow>, d: nat) {
    forall r | r in rows :: r.depth == d
  }

  lemma {:induction false} ImpactJoinAt(out: seq<Edge>, d: nat)
    ensures ImpactAt(ImpactJoin(out, d), d)
  {
    if out != [] {
      ImpactJoinAt(out[1..], d);
    }
  }

  lemma {:induction false} ImpactStepAt(edges: seq<Edge>, work: seq<ImpactRow>, maxDepth: nat, d: nat)
    requires ImpactAt(work, d)
    ensures ImpactAt(ImpactStep(edges, work, maxDepth), d + 1)
    ensures d >= maxDepth ==> ImpactStep(edges, work, maxDepth) == []
  {
    if work != [] {
      assert work[0] in work;
      ImpactJoinAt(OutEdges(edges, work[0].node), d + 1);
      ImpactStepAt(edges, work[1..], maxDepth, d);
    }
  }

  lemma {:induction false} ImpactTableAt(edges: seq<Edge>, start: string, maxDepth: nat, k: nat)
    ensures ImpactAt(ImpactTable(edges, start, maxDepth, k), k + 1)
  {
    if k == 0 {
      ImpactJoinAt(OutEdges(edges, start), 1);
    } else {
      ImpactTableAt(edges, start, maxDepth, k - 1);
      ImpactStepAt(edges, ImpactTable(edges, start, maxDepth, k - 1), maxDepth, k);
    }
  }

  /** After the clamped depth the working table is empty: that is what ends the recursion. */
  lemma ImpactTableEnds(edges: seq<Edge>, start: string, maxDepth: nat, k: nat)
    requires 1 <= maxDepth <= k
    ensures ImpactTable(edges, start, maxDepth, k) == []
  {
    ImpactTableAt(edges, start, maxDepth, k - 1);
    ImpactStepAt(edges, ImpactTable(edges, start, maxDepth, k - 1), maxDepth, k);
  }

  lemma {:induction false} ImpactEmptyStays(edges: seq<Edge>, start: string, maxDepth: nat, k: nat, n: nat)
    requires ImpactTable(edges, start, maxDepth, k) == []
    ensures ImpactTables(edges, start, maxDepth, k, n) == []
    decreases n - k
  {
    if k < n {
      ImpactEmptyStays(edges, start, maxDepth, k + 1, n);
    }
  }

  /** The loop and the union of tables unroll in step. */
  lemma ImpactUnrolls(edges: seq<Edge>, start: string, maxDepth: nat, k: nat, n: nat)
    requires k < maxDepth <= n && ImpactTable(edges, start, maxDepth, k) != []
    ensures ImpactLoop(edges, ImpactTable(edges, start, maxDepth, k), k + 1, maxDepth)
         == ImpactTable(edges, start, maxDepth, k)
            + ImpactLoop(edges, ImpactTable(edges, start, maxDepth, k + 1), k + 2, maxDepth)
    ensures ImpactTables(edges, start, maxDepth, k, n)
         == ImpactTable(edges, start, maxDepth, k) + ImpactTables(edges, start, maxDepth, k + 1, n)
  {
  }

  lemma {:induction false} ImpactLoopIsTables(edges: seq<Edge>, start: string, maxDepth: nat, k: nat, n: nat)
    requires 1 <= maxDepth && k <= maxDepth <= n
    ensures ImpactLoop(edges, ImpactTable(edges, start, maxDepth, k), k + 1, maxDepth)
         == ImpactTables(edges, start, maxDepth, k, n)
    decreases maxDepth - k
  {
    var table := ImpactTable(edges, start, maxDepth, k);
    if k == maxDepth {
      ImpactTableEnds(edges, start, maxDepth, k);
      ImpactEmptyStays(edges, start, maxDepth, k, n);
    } else if table == [] {
      ImpactEmptyStays(edges, start, maxDepth, k, n);
    } else {
      ImpactLoopIsTables(edges, start, maxDepth, k + 1, n);
      ImpactUnrolls(edges, start, maxDepth, k, n);
    }
  }

  /** The impact query returns the union of all its working tables, from any number of steps that reaches the depth on. */
  lemma ImpactRowsAreAllTables(edges: seq<Edge>, start: string, maxDepth: nat, n: nat)
    requires 1 <= maxDepth <= n
    ensures ImpactRows(edges, start, maxDepth) == ImpactTables(edges, start, maxDepth, 0, n)
    ensures ImpactTable(edges, start, maxDepth, n) == []
  {
    ImpactLoopIsTables(edges, start, maxDepth, 0, n);
    ImpactTableEnds(edges, start, maxDepth, n);
  }

  // ----- queryPath -----

  function PathTable(edges: seq<Edge>, start: string, k: nat): seq<PathRow> {
    if k == 0 then PathBase(OutEdges(edges, start)) else PathStep(edges, PathTable(edges, start, k - 1))
  }

  function PathTables(edges: seq<Edge>, start: string, k: nat, n: nat): seq<PathRow>
    decreases n - k
  {
    if k >= n then [] else PathTable(edges, start, k) + PathTables(edges, start, k + 1, n)
  }

  ghost predicate PathAt(rows: seq<PathRow>, d: nat) {
    forall r | r in rows :: r.depth == d
  }

  lemma {:induction false} PathBaseAt(out: seq<Edge>)
    ensures PathAt(PathBase(out), 1)
  {
    if out != [] {
      PathBaseAt(out[1..]);
    }
  }

  lemma {:induction false} PathJoinAt(p: PathRow, out: seq<Edge>)
    ensures PathAt(PathJoin(p, out), p.depth + 1)
    ensures p.depth >= MAX_DEPTH ==> PathJoin(p, out) == []
  {
    if out != [] {
      PathJoinAt(p, out[1..]);
    }
  }

  lemma {:induction false} PathStepAt(edges: seq<Edge>, work: seq<PathRow>, d: nat)
    requires PathAt(work, d)
    ensures PathAt(PathStep(edges, work), d + 1)
    ensures d >= MAX_DEPTH ==> PathStep(edges, work) == []
  {
    if work != [] {
      assert work[0] in work;
      PathJoinAt(work[0], OutEdges(edges, work[0].target));
      PathStepAt(edges, work[1..], d);
    }
  }

  lemma {:induction false} PathTableAt(edges: seq<Edge>, start: string, k: nat)
    ensures PathAt(PathTable(edges, start, k), k + 1)
  {
    if k == 0 {
      PathBaseAt(OutEdges(edges, start));
    } else {
      PathTableAt(edges, start, k - 1);
      PathStepAt(edges, PathTable(edges, start, k - 1), k);
    }
  }

  /** After depth ten the working table is empty, whatever the graph. */
  lemma PathTableEnds(edges: seq<Edge>, start: string, k: nat)
    requires MAX_DEPTH <= k
    ensures PathTable(edges, start, k) == []
  {
    PathTableAt(edges, start, k - 1);
    PathStepAt(edges, PathTable(edges, start, k - 1), k);
  }

  lemma {:induction false} PathEmptyStays(edges: seq<Edge>, start: string, k: nat, n: nat)
    requires PathTable(edges, start, k) == []
    ensures PathTables(edges, start, k, n) == []
    decreases n - k
  {
    if k < n {
      PathEmptyStays(edges, start, k + 1, n);
    }
  }

  lemma PathUnrolls(edges: seq<Edge>, start: string, k: nat, n: nat)
    requires k < MAX_DEPTH <= n && PathTable(edges, start, k) != []
    ensures PathLoop(edges, PathTable(edges, start, k), k + 1)
         == PathTable(edges, start, k) + PathLoop(edges, PathTable(edges, start, k + 1), k + 2)
    ensures PathTables(edges, start, k, n) == PathTable(edges, start, k) + PathTables(edges, start, k + 1, n)
  {
  }

  lemma {:induction false} PathLoopIsTables(edges: seq<Edge>, start: string, k: nat, n: nat)
    requires k <= MAX_DEPTH <= n
    ensures PathLoop(edges, PathTable(edges, start, k), k + 1) == PathTables(edges, start, k, n)
    decreases MAX_DEPTH - k
  {
    var table := PathTable(edges, start, k);
    if k == MAX_DEPTH {
      PathTableEnds(edges, start, k);
      PathEmptyStays(edges, start, k, n);
    } else if table == [] {
      PathEmptyStays(edges, start, k, n);
    } else {
      PathLoopIsTables(edges, start, k + 1, n);
      PathUnrolls(edges, start, k, n);
    }
  }

  lemma PathRowsStart(edges: seq<Edge>, start: string, k: nat)
    requires k == 0
    ensures PathRows(edges, start) == PathLoop(edges, PathTable(edges, start, k), k + 1)
  {
  }

  /** And so does the path query, from ten steps on. */
  lemma PathRowsAreAllTables(edges: seq<Edge>, start: string, n: nat)
    requires 10 <= n
    ensures PathRows(edges, start) == PathTables(edges, start, 0, n)
    ensures PathTable(edges, start, n) == []
  {
    assert PathRows(edges, start) == PathTables(edges, start, 0, n) by {
      PathRowsStart(edges, start, 0);
      PathLoopIsTables(edges, start, 0, n);
    }
    PathTableEnds(edges, start, n);
  }
}
