/** The stored graph as the service changes it, and what each change means for the queries. */
module KnowledgeStore {
  import opened Wrappers
  import opened KnowledgeGraph
  import opened GraphWalks
  import opened GraphImpact
  import opened GraphPath

  datatype NodeDto = NodeDto(nodeId: string, nodeType: NodeType, caption: string, description: Option<string>,
                             properties: Option<string>, sourceFile: Option<string>, owner: Option<string>,
                             isActive: Option<bool>)
  datatype EdgeDto = EdgeDto(edgeId: string, sourceNodeId: string, targetNodeId: string, edgeType: EdgeType,
                             weight: Option<real>, properties: Option<string>, description: Option<string>)

  ghost predicate HasNode(nodes: seq<Node>, nodeId: string) {
    exists n :: n in nodes && n.nodeId == nodeId
  }

  ghost predicate HasEdge(edges: seq<Edge>, edgeId: string) {
    exists e :: e in edges && e.edgeId == edgeId
  }

  function EdgeIndex(edges: seq<Edge>, edgeId: string): (r: Option<nat>)
    ensures r.Some? ==> r.value < |edges| && edges[r.value].edgeId == edgeId
    ensures r.None? <==> !HasEdge(edges, edgeId)
  {
    if edges == [] then None
    else if edges[0].edgeId == edgeId then Some(0)
    else
      var rest := EdgeIndex(edges[1..], edgeId);
      assert forall e | e in edges :: e == edges[0] || e in edges[1..];
      if rest.None? then None else Some(rest.value + 1)
  }

  lemma {:induction false} LookupAfterAppend(nodes: seq<Node>, n: Node, id: string)
    ensures NodeById(nodes, id).Some? ==> NodeById(nodes + [n], id).Some?
  {
    if nodes != [] && nodes[0].id != id {
      LookupAfterAppend(nodes[1..], n, id);
      assert (nodes + [n])[1..] == nodes[1..] + [n];
    }
  }

  lemma {:induction false} LookupSameIds(a: seq<Node>, b: seq<Node>, id: string)
    requires |a| == |b| && forall i | 0 <= i < |a| :: a[i].id == b[i].id
    ensures NodeById(a, id).Some? <==> NodeById(b, id).Some?
  {
    if a != [] {
      LookupSameIds(a[1..], b[1..], id);
    }
  }

  /** Removing one position of a table with unique keys removes exactly the row with that key. */
  lemma RemovedAt(edges: seq<Edge>, at: nat)
    requires UniqueEdges(edges) && at < |edges|
    ensures var after := edges[..at] + edges[at + 1..];
            UniqueEdges(after) && forall e :: e in after <==> e in edges && e.edgeId != edges[at].edgeId
  {
    var after := edges[..at] + edges[at + 1..];
    forall e
      ensures e in after <==> e in edges && e.edgeId != edges[at].edgeId
    {
      if e in edges {
        var i :| 0 <= i < |edges| && edges[i] == e;
        assert i != at ==> e in after by {
          if i < at {
            assert after[i] == e;
          } else if i > at {
            assert after[i - 1] == e;
          }
        }
      }
    }
  }

  class KnowledgeGraphService {
    var nodes: seq<Node>
    var edges: seq<Edge>

    ghost predicate Valid()
      reads this
    {
      WellFormed(nodes, edges)
    }

    constructor ()
      ensures Valid() && nodes == [] && edges == []
    {
      nodes, edges := [], [];
    }

    /** `id` is the identifier the database generates. */
    method CreateNode(id: string, dto: NodeDto) returns (r: Result<Node>)
      requires Valid() && NodeById(nodes, id).None?
      modifies this`nodes
      ensures Valid()
      ensures if HasNode(old(nodes), dto.nodeId) then r == Failure(Conflict) && nodes == old(nodes)
              else r.Success? && nodes == old(nodes) + [r.value]
                   && r.value == Node(id, dto.nodeId, dto.nodeType, dto.caption, dto.description, dto.properties,
                                      dto.sourceFile, dto.owner, dto.isActive != Some(false))
    {
      var existing := NodeByNodeId(nodes, dto.nodeId);
      if existing.Some? {
        return Failure(Conflict);
      }
      var node := Node(id, dto.nodeId, dto.nodeType, dto.caption, dto.description, dto.properties, dto.sourceFile,
                       dto.owner, dto.isActive.GetOr(true));
      forall x
        ensures NodeById(nodes, x).Some? ==> NodeById(nodes + [node], x).Some?
      {
        LookupAfterAppend(nodes, node, x);
      }
      nodes := nodes + [node];
      r := Success(node);
    }

    method DeactivateNode(nodeId: string) returns (r: Result<Node>)
      requires Valid()
      modifies this`nodes
      ensures Valid()
      ensures if HasNode(old(nodes), nodeId) then
                r.Success? && r.value in nodes && r.value.nodeId == nodeId && !r.value.isActive
              else r == Failure(NotFound)
      ensures IsDeactivated(old(nodes), nodes, nodeId)
    {
      var before := nodes;
      var i := 0;
      while i < |nodes|
        invariant 0 <= i <= |nodes| && nodes == before
        invariant forall j | 0 <= j < i :: nodes[j].nodeId != nodeId
      {
        if nodes[i].nodeId == nodeId {
          nodes := nodes[i := nodes[i].(isActive := false)];
          forall x
            ensures NodeById(before, x).Some? <==> NodeById(nodes, x).Some?
          {
            LookupSameIds(before, nodes, x);
          }
          assert before[i] in before;
          return Success(nodes[i]);
        }
        i := i + 1;
      }
      r := Failure(NotFound);
    }

    method CreateEdge(id: string, dto: EdgeDto) returns (r: Result<Edge>)
      requires Valid()
      modifies this`edges
      ensures Valid()
      ensures if !HasNode(nodes, dto.sourceNodeId) || !HasNode(nodes, dto.targetNodeId) then
                r == Failure(NotFound) && edges == old(edges)
              else if HasEdge(old(edges), dto.edgeId) then r == Failure(Conflict) && edges == old(edges)
              else r.Success? && edges == old(edges) + [r.value] && r.value.edgeId == dto.edgeId
                   && r.value.edgeType == dto.edgeType && r.value.weight == dto.weight.GetOr(1.0)
                   && r.value.id == id && r.value.description == dto.description && r.value.properties == dto.properties
                   && exists a, b :: a in nodes && b in nodes && a.nodeId == dto.sourceNodeId
                        && b.nodeId == dto.targetNodeId && r.value.source == a.id && r.value.target == b.id
    {
      var source, target := NodeByNodeId(nodes, dto.sourceNodeId), NodeByNodeId(nodes, dto.targetNodeId);
      if source.None? || target.None? {
        return Failure(NotFound);
      }
      var existing := EdgeIndex(edges, dto.edgeId);
      if existing.Some? {
        return Failure(Conflict);
      }
      var edge := Edge(id, dto.edgeId, source.value.id, target.value.id, dto.edgeType,
                       dto.weight.GetOr(1.0), dto.properties, dto.description);
      NodeByIdIs(nodes, source.value);
      NodeByIdIs(nodes, target.value);
      assert forall e | e in edges :: e.edgeId != dto.edgeId;
      edges := edges + [edge];
      r := Success(edge);
    }

    method DeleteEdge(edgeId: string) returns (r: Result<Edge>)
      requires Valid()
      modifies this`edges
      ensures Valid()
      ensures if HasEdge(old(edges), edgeId) then r.Success? && r.value in old(edges) && r.value.edgeId == edgeId
              else r == Failure(NotFound)
      ensures forall e :: e in edges <==> e in old(edges) && e.edgeId != edgeId
    {
      var at := EdgeIndex(edges, edgeId);
      if at.None? {
        return Failure(NotFound);
      }
      r := Success(edges[at.value]);
      RemovedAt(edges, at.value);
      edges := edges[..at.value] + edges[at.value + 1..];
    }
  }

  // ----- what the changes mean for the queries -----

  ghost predicate IsDeactivated(before: seq<Node>, after: seq<Node>, nodeId: string) {
    && |after| == |before|
    && forall i | 0 <= i < |before| ::
         after[i] == if before[i].nodeId == nodeId then before[i].(isActive := false) else before[i]
  }

  lemma InactiveNotReported(nodes: seq<Node>, edges: seq<Edge>, start: string, depth: int, n: Node)
    requires WellFormed(nodes, edges) && n in nodes && !n.isActive
    ensures forall r | r in ImpactOf(nodes, edges, start, depth) :: r.id != n.id
  {
    ImpactRowsShape(nodes, edges, start, depth);
    NodeByIdIs(nodes, n);
    forall m | m in nodes && m.isActive
      ensures m.id != n.id
    {
      NodeByIdIs(nodes, m);
    }
  }

  lemma SameWalksSameCount(a: seq<Node>, b: seq<Node>, edges: seq<Edge>, s: Node, s': Node, depth: int, n: Node, d: nat)
    requires WellFormed(a, edges) && WellFormed(b, edges) && s in a && s' in b && s.id == s'.id
    requires n in a && n in b && n.isActive
    ensures Occurrences(ImpactOf(a, edges, s.nodeId, depth), ToImpactNode(n, d))
         == Occurrences(ImpactOf(b, edges, s'.nodeId, depth), ToImpactNode(n, d))
  {
    var walks := ImpactCountsWalks(a, edges, s, depth, n, d);
    var walks' := ImpactCountsWalks(b, edges, s', depth, n, d);
    assert walks == walks';
  }

  /** A deactivated node is no longer reported, yet still walked through: every other row keeps its multiplicity. */
  lemma DeactivationHidesOneNode(before: seq<Node>, after: seq<Node>, edges: seq<Edge>, start: string, depth: int,
                                 hidden: string, n: Node, d: nat)
    requires WellFormed(before, edges) && WellFormed(after, edges) && IsDeactivated(before, after, hidden)
    requires HasNode(before, start) && n in before && n.isActive
    ensures Occurrences(ImpactOf(after, edges, start, depth), ToImpactNode(n, d))
         == if n.nodeId == hidden then 0 else Occurrences(ImpactOf(before, edges, start, depth), ToImpactNode(n, d))
  {
    var j :| 0 <= j < |before| && before[j] == n;
    if n.nodeId == hidden {
      InactiveNotReported(after, edges, start, depth, after[j]);
      assert ToImpactNode(n, d) !in multiset(ImpactOf(after, edges, start, depth));
    } else {
      var i :| 0 <= i < |before| && before[i].nodeId == start;
      assert after[j] == n;
      SameWalksSameCount(before, after, edges, before[i], after[i], depth, n, d);
    }
  }

  /** Adding edges never loses a path and never lengthens one. */
  lemma MoreEdgesOnlyShorten(nodes: seq<Node>, fewer: seq<Edge>, more: seq<Edge>, a: Node, b: Node)
    requires WellFormed(nodes, fewer) && WellFormed(nodes, more) && forall e | e in fewer :: e in more
    requires a in nodes && b in nodes && a != b && TraceOf(nodes, fewer, a, b).found
    ensures TraceOf(nodes, more, a, b).found
    ensures |TraceOf(nodes, fewer, a, b).path| == |TraceOf(nodes, more, a, b).path| == 2
    ensures TraceOf(nodes, more, a, b).path[1].depth <= TraceOf(nodes, fewer, a, b).path[1].depth
  {
    PathIsShortest(nodes, fewer, a, b);
    PathIsShortest(nodes, more, a, b);
    var d := TraceOf(nodes, fewer, a, b).path[1].depth;
    var w: Walk :| Joins(fewer, a.id, w, b.id) && |w| == d;
    assert Joins(more, a.id, w, b.id);
  }
}
