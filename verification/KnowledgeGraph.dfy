/** Stored nodes and edges, their CRUD operations and the two recursive queries. */
module KnowledgeGraph {
  import opened Wrappers
  import opened Sorting

  datatype NodeType = REQUIREMENT | ARCHITECTURE | CODE | TEST | DECISION
  datatype EdgeType = DEPENDS_ON | IMPLEMENTS | TESTS | DECIDES | REFERENCES | SUPERSEDES

  /** `properties` is the JSON column, never interpreted. */
  datatype Node = Node(id: string, nodeId: string, nodeType: NodeType, caption: string, description: Option<string>,
                       properties: Option<string>, sourceFile: Option<string>, owner: Option<string>, isActive: bool)
  datatype Edge = Edge(id: string, edgeId: string, source: string, target: string, edgeType: EdgeType, weight: real,
                       properties: Option<string>, description: Option<string>)

  const MAX_DEPTH := 10

  // ----- rows by key -----

  function NodeById(nodes: seq<Node>, id: string): (r: Option<Node>)
    ensures r.Some? ==> r.value in nodes && r.value.id == id
    ensures r.None? ==> forall n | n in nodes :: n.id != id
  {
    if nodes == [] then None else if nodes[0].id == id then Some(nodes[0]) else NodeById(nodes[1..], id)
  }

  function NodeByNodeId(nodes: seq<Node>, nodeId: string): (r: Option<Node>)
    ensures r.Some? ==> r.value in nodes && r.value.nodeId == nodeId
    ensures r.None? ==> forall n | n in nodes :: n.nodeId != nodeId
  {
    if nodes == [] then None
    else if nodes[0].nodeId == nodeId then Some(nodes[0])
    else NodeByNodeId(nodes[1..], nodeId)
  }

  ghost predicate UniqueIds(nodes: seq<Node>) {
    forall i, j | 0 <= i < j < |nodes| :: nodes[i].id != nodes[j].id && nodes[i].nodeId != nodes[j].nodeId
  }

  ghost predicate UniqueEdges(edges: seq<Edge>) {
    forall i, j | 0 <= i < j < |edges| :: edges[i].edgeId != edges[j].edgeId
  }

  ghost predicate Linked(nodes: seq<Node>, edges: seq<Edge>) {
    forall e | e in edges :: NodeById(nodes, e.source).Some? && NodeById(nodes, e.target).Some?
  }

  /** What the schema guarantees of the two tables: primary, unique and foreign keys. */
  ghost predicate WellFormed(nodes: seq<Node>, edges: seq<Edge>) {
    UniqueIds(nodes) && UniqueEdges(edges) && Linked(nodes, edges)
  }

  /** With unique keys a lookup finds the row itself. */
  lemma NodeByIdIs(nodes: seq<Node>, n: Node)
    requires UniqueIds(nodes) && n in nodes
    ensures NodeById(nodes, n.id) == Some(n) && NodeByNodeId(nodes, n.nodeId) == Some(n)
  {
  }

  // ----- queryImpact -----

  /** The rows of knowledge_edges leaving `v`, in table order. */
  function OutEdges(edges: seq<Edge>, v: string): seq<Edge> {
    if edges == [] then []
    else (if edges[0].source == v then [edges[0]] else []) + OutEdges(edges[1..], v)
  }

  datatype ImpactRow = ImpactRow(node: string, depth: nat)

  /** One working-table row joined with the edges that leave its node. */
  function ImpactJoin(out: seq<Edge>, depth: nat): seq<ImpactRow> {
    if out == [] then [] else [ImpactRow(out[0].target, depth)] + ImpactJoin(out[1..], depth)
  }

  /** The recursive member of the impact CTE over the whole working table. */
  function ImpactStep(edges: seq<Edge>, work: seq<ImpactRow>, maxDepth: nat): seq<ImpactRow> {
    if work == [] then []
    else (if work[0].depth < maxDepth then ImpactJoin(OutEdges(edges, work[0].node), work[0].depth + 1) else [])
         + ImpactStep(edges, work[1..], maxDepth)
  }

  /** UNION ALL evaluation: keep the working table, replace it by its step, stop when it is empty. */
  function ImpactLoop(edges: seq<Edge>, work: seq<ImpactRow>, depth: nat, maxDepth: nat): seq<ImpactRow>
    requires depth <= maxDepth + 1
    decreases maxDepth + 1 - depth
  {
    if work == [] || depth > maxDepth then []
    else work + ImpactLoop(edges, ImpactStep(edges, work, maxDepth), depth + 1, maxDepth)
  }

  datatype ImpactNode = ImpactNode(id: string, nodeId: string, nodeType: NodeType, caption: string,
                                   description: Option<string>, owner: Option<string>, depth: nat)

  function ToImpactNode(n: Node, depth: nat): ImpactNode {
    ImpactNode(n.id, n.nodeId, n.nodeType, n.caption, n.description, n.owner, depth)
  }

  /** INNER JOIN knowledge_nodes ... WHERE n.is_active = true */
  function JoinActive(nodes: seq<Node>, rows: seq<ImpactRow>): seq<ImpactNode> {
    if rows == [] then []
    else
      var n := NodeById(nodes, rows[0].node);
      (if n.Some? && n.value.isActive then [ToImpactNode(n.value, rows[0].depth)] else [])
      + JoinActive(nodes, rows[1..])
  }

  function Clamp(depth: int): nat {
    var atLeastOne := if depth < 1 then 1 else depth;
    if atLeastOne > MAX_DEPTH then MAX_DEPTH else atLeastOne
  }

  function ImpactRows(edges: seq<Edge>, start: string, maxDepth: nat): seq<ImpactRow> {
    ImpactLoop(edges, ImpactJoin(OutEdges(edges, start), 1), 1, maxDepth)
  }

  function QueryImpact(nodes: seq<Node>, edges: seq<Edge>, nodeId: string, depth: int := 3): Result<seq<ImpactNode>> {
    var node := NodeByNodeId(nodes, nodeId);
    if node.None? then Failure(NotFound)
    else
      var joined := JoinActive(nodes, ImpactRows(edges, node.value.id, Clamp(depth)));
      Success(SortBy(joined, (r: ImpactNode) => r.depth))
  }

  // ----- queryPath -----

  datatype PathRow = PathRow(source: string, target: string, depth: nat, nodes: seq<string>)

  function PathBase(out: seq<Edge>): seq<PathRow> {
    if out == [] then []
    else [PathRow(out[0].source, out[0].target, 1, [out[0].source, out[0].target])] + PathBase(out[1..])
  }

  /** One working-table row joined with the edges leaving its target, revisits pruned. */
  function PathJoin(p: PathRow, out: seq<Edge>): seq<PathRow> {
    if out == [] then []
    else (if out[0].target !in p.nodes && p.depth < MAX_DEPTH then [Extended(p, out[0])] else [])
         + PathJoin(p, out[1..])
  }

  function Extended(p: PathRow, e: Edge): PathRow {
    PathRow(e.source, e.target, p.depth + 1, p.nodes + [e.target])
  }

  /** The recursive member of the path CTE over the whole working table. */
  function PathStep(edges: seq<Edge>, work: seq<PathRow>): seq<PathRow> {
    if work == [] then [] else PathJoin(work[0], OutEdges(edges, work[0].target)) + PathStep(edges, work[1..])
  }

  function PathLoop(edges: seq<Edge>, work: seq<PathRow>, depth: nat): seq<PathRow>
    requires depth <= MAX_DEPTH + 1
    decreases MAX_DEPTH + 1 - depth, edges
  {
    if work == [] || depth > MAX_DEPTH then []
    else work + PathLoop(edges, PathStep(edges, work), depth + 1)
  }

  function PathRows(edges: seq<Edge>, start: string): seq<PathRow> {
    PathLoop(edges, PathBase(OutEdges(edges, start)), 1)
  }

  /** WHERE p.target_node_id = $2 */
  function Reaching(rows: seq<PathRow>, target: string): seq<PathRow> {
    if rows == [] then []
    else (if rows[0].target == target then [rows[0]] else []) + Reaching(rows[1..], target)
  }

  datatype PathEntry = PathEntry(id: string, nodeId: string, nodeType: NodeType, caption: string, depth: nat)
  datatype PathTrace = PathTrace(found: bool, path: seq<PathEntry>, totalDepth: nat)

  function ToPathEntry(n: Node, depth: nat): PathEntry {
    PathEntry(n.id, n.nodeId, n.nodeType, n.caption, depth)
  }

  function QueryPath(nodes: seq<Node>, edges: seq<Edge>, fromNodeId: string, toNodeId: string): Result<PathTrace> {
    var source, target := NodeByNodeId(nodes, fromNodeId), NodeByNodeId(nodes, toNodeId);
    if source.None? || target.None? then Failure(NotFound)
    else if source.value.id == target.value.id then
      Success(PathTrace(true, [ToPathEntry(source.value, 0)], 0))
    else
      var rows := SortBy(Reaching(PathRows(edges, source.value.id), target.value.id), (r: PathRow) => r.depth);
      if rows == [] then Success(PathTrace(false, [], 0))
      else
        var path := [ToPathEntry(source.value, 0), ToPathEntry(target.value, rows[0].depth)];
        Success(PathTrace(true, path, |path| - 1))
  }
}
