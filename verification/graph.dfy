/** The flow graph the store holds: nodes with a type, a data record and a
    position, edges between node ids, and the list of agents. */
module Graph {
  import opened Results

  datatype Position = Position(x: int, y: int)

  /** The three node types the flow registers. */
  datatype NodeKind = MasterNode | UserNode | AIGeneratedNode

  function KindName(k: NodeKind): string
  {
    match k
    case MasterNode => "MasterNode"
    case UserNode => "UserNode"
    case AIGeneratedNode => "AIGeneratedNode"
  }

  /** The union of the three node data records (`nodeLabel` is the `label`
      field); a field a record does not set
      is `None` (`undefined`). */
  datatype NodeData = NodeData(
    nodeLabel: Option<string>,
    content: Option<string>,
    helperText: Option<string>,
    problem: Option<string>,
    goal: Option<string>,
    context: Option<string>)

  const NoData: NodeData := NodeData(None, None, None, None, None, None)

  /** `parentNode` is `None` when the source sets it to `null` or leaves it out. */
  datatype GraphNode = GraphNode(id: string, kind: NodeKind, data: NodeData, position: Position, parentNode: Option<string>)

  datatype GraphEdge = GraphEdge(id: string, source: string, target: string)

  datatype Agent = Agent(role: string, description: string, selected: bool)

  predicate IsNodeId(nodes: seq<GraphNode>, id: string)
  {
    exists k :: 0 <= k < |nodes| && nodes[k].id == id
  }

  /** Every edge joins two nodes of the graph. */
  predicate Integral(nodes: seq<GraphNode>, edges: seq<GraphEdge>)
  {
    forall e :: 0 <= e < |edges| ==> IsNodeId(nodes, edges[e].source) && IsNodeId(nodes, edges[e].target)
  }

  /** A fresh-id oracle standing for `nanoid`: the `k`-th node id and the
      `k`-th edge id handed out. Nothing is assumed about their distinctness. */
  datatype IdSupply = IdSupply(node: nat -> string, edge: nat -> string)

  /** Whether a node hangs under a parent: a missing, `null` or empty parent
      id counts as none, as JavaScript's truthiness test has it. */
  predicate Linked(parent: Option<string>)
  {
    parent.Some? && parent.value != ""
  }

}
