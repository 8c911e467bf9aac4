/** The store's graph state and the transitions that change it: the
    append-only merges after a brainstorming, opinion or question response,
    `addChildNode`, `updateNodeData`, `updateAgents`/`updateAgent` and
    `addAgent`. The `fetch` round trips and the `isLoading` flag are not part
    of the model; each merge takes the already validated response. */
module Store {
  import opened Results
  import opened Graph
  import opened Schemas
  import opened Materializer

  datatype State = State(nodes: seq<GraphNode>, edges: seq<GraphEdge>, agents: seq<Agent>)

  /** The store's initial state: the master node `root` with an empty
      problem and goal at the origin, no edges, and the two preset agents,
      neither selected. */
  function Initial(): (r: State)
    ensures |r.nodes| == 1 && r.nodes[0].id == "root" && r.nodes[0].kind == MasterNode
    ensures r.nodes[0].data.problem == Some("") && r.nodes[0].data.goal == Some("")
    ensures r.edges == [] && Integral(r.nodes, r.edges)
    ensures |r.agents| == 2 && forall a :: 0 <= a < |r.agents| ==> !r.agents[a].selected
  {
    State(
      [GraphNode("root", MasterNode, NoData.(problem := Some(""), goal := Some("")), Position(0, 0), None)],
      [],
      [ Agent("🏢 CEO", "The CEO of a large company", false),
        Agent("📈 Marketing Manager", "The marketing manager of a large company", false)])
  }

  // ---------------------------------------------------------------------------
  // Merging a response

  /** Appending a batch to the store: the existing nodes and edges stay as
      they are, in front; the batch
      follows in its own order; the agents are untouched. */
  function Merge(s: State, b: Batch): (r: State)
    ensures |r.nodes| == |s.nodes| + |b.nodes| && |r.edges| == |s.edges| + |b.edges|
    ensures r.nodes[..|s.nodes|] == s.nodes && r.nodes[|s.nodes|..] == b.nodes
    ensures r.edges[..|s.edges|] == s.edges && r.edges[|s.edges|..] == b.edges
    ensures r.agents == s.agents
  {
    State(s.nodes + b.nodes, s.edges + b.edges, s.agents)
  }

  /** `startBrainstorming` once the response's `root` forest is in hand: the
      forest is laid out from the origin under the master node `parentId`.
      The existing graph and the agents stay; one `AIGeneratedNode` per
      section follows, in pre-order, copying the section's fields. */
  function StartBrainstorming(s: State, parentId: string, root: seq<IdeaNode>, ids: IdSupply, first: nat): (r: State)
    ensures s.nodes <= r.nodes && s.edges <= r.edges && r.agents == s.agents
    ensures |r.nodes| == |s.nodes| + |Flatten(root)|
    ensures forall k :: 0 <= k < |Flatten(root)| ==>
      var n := r.nodes[|s.nodes| + k];
      n.id == ids.node(first + k) && n.kind == AIGeneratedNode && n.data == SectionData(Flatten(root)[k])
  {
    var b := Generate(root, Some(parentId), Position(0, 0), ids, first);
    GenerateNodes(root, Some(parentId), Position(0, 0), ids, first);
    Merge(s, b)
  }

  /** `domainExpertOpinion` once the response's opinions are in hand.
      The existing graph and the agents stay; one node at the origin under
      `parentId` and one edge from `parentId` to it follow per record, in
      order. */
  function DomainExpertOpinions(s: State, parentId: string, opinions: seq<PeerItem>, ids: IdSupply, first: nat): (r: State)
    ensures s.nodes <= r.nodes && s.edges <= r.edges && r.agents == s.agents
    ensures |r.nodes| == |s.nodes| + |opinions| && |r.edges| == |s.edges| + |opinions|
    ensures forall k :: 0 <= k < |opinions| ==>
      && r.nodes[|s.nodes| + k]
         == GraphNode(ids.node(first + k), AIGeneratedNode, PeerData(DomainExpertOpinion, opinions[k]), Position(0, 0), Some(parentId))
      && r.edges[|s.edges| + k] == GraphEdge(ids.edge(first + k), parentId, ids.node(first + k))
  {
    Merge(s, PeerBatch(opinions, DomainExpertOpinion, parentId, Position(0, 0), ids, first))
  }

  /** `stimulatingQuestion` once the response's questions are in hand.
      The existing graph and the agents stay; one node at the origin under
      `parentId` and one edge from `parentId` to it follow per record, in
      order. */
  function StimulatingQuestions(s: State, parentId: string, questions: seq<PeerItem>, ids: IdSupply, first: nat): (r: State)
    ensures s.nodes <= r.nodes && s.edges <= r.edges && r.agents == s.agents
    ensures |r.nodes| == |s.nodes| + |questions| && |r.edges| == |s.edges| + |questions|
    ensures forall k :: 0 <= k < |questions| ==>
      && r.nodes[|s.nodes| + k]
         == GraphNode(ids.node(first + k), AIGeneratedNode, PeerData(StimulatingQuestion, questions[k]), Position(0, 0), Some(parentId))
      && r.edges[|s.edges| + k] == GraphEdge(ids.edge(first + k), parentId, ids.node(first + k))
  {
    Merge(s, PeerBatch(questions, StimulatingQuestion, parentId, Position(0, 0), ids, first))
  }

  /** What the opinion and question requests send as `roles`: the selected
      agents, in order. */
  function SelectedAgents(agents: seq<Agent>): (r: seq<Agent>)
    ensures |r| <= |agents|
    ensures forall a :: 0 <= a < |r| ==> r[a].selected
    ensures forall a :: 0 <= a < |agents| && agents[a].selected ==> agents[a] in r
    ensures forall a :: a in r ==> a in agents
  {
    if agents == [] then []
    else if agents[0].selected then [agents[0]] + SelectedAgents(agents[1..])
    else SelectedAgents(agents[1..])
  }

  /** Selection distributes over concatenation: the selected agents keep
      their order. */
  lemma {:induction false} SelectedAgentsAppend(a: seq<Agent>, b: seq<Agent>)
    ensures SelectedAgents(a + b) == SelectedAgents(a) + SelectedAgents(b)
  {
    if a == [] {
      assert a + b == b;
    } else {
      assert (a + b)[0] == a[0] && (a + b)[1..] == a[1..] + b;
      SelectedAgentsAppend(a[1..], b);
    }
  }

  /** A brainstorming merge adds one node per section of the forest and one
      edge per new node, except for the top-level ones when the parent id is
      empty. */
  lemma StartBrainstormingCounts(s: State, parentId: string, root: seq<IdeaNode>, ids: IdSupply, first: nat)
    requires forall k :: ids.node(k) != ""
    ensures var r := StartBrainstorming(s, parentId, root, ids, first);
      && |r.nodes| == |s.nodes| + |Flatten(root)|
      && |r.edges| == |s.edges| + |Flatten(root)| - (if parentId != "" then 0 else |root|)
  {
    GenerateNodes(root, Some(parentId), Position(0, 0), ids, first);
    EdgeCount(root, Some(parentId), Position(0, 0), ids, first);
  }

  // ---------------------------------------------------------------------------
  // Single-node and agent updates

  /** `addChildNode(parent, position)`: one `UserNode` with an empty label at
      `position` under `parent`, and one edge from `parent` to it, both
      appended. */
  function AddChildNode(s: State, parent: GraphNode, position: Position, nodeId: string, edgeId: string): (r: State)
    ensures r.nodes == s.nodes + [GraphNode(nodeId, UserNode, NoData.(nodeLabel := Some("")), position, Some(parent.id))]
    ensures r.edges == s.edges + [GraphEdge(edgeId, parent.id, nodeId)]
    ensures r.agents == s.agents
  {
    var node := GraphNode(nodeId, UserNode, NoData.(nodeLabel := Some("")), position, Some(parent.id));
    Merge(s, Batch([node], [GraphEdge(edgeId, parent.id, node.id)]))
  }

  /** The nodes with `data` put in place of the data of every node whose id
      is `nodeId`. */
  function SetData(nodes: seq<GraphNode>, nodeId: string, data: NodeData): (r: seq<GraphNode>)
    ensures |r| == |nodes|
    ensures forall i :: 0 <= i < |nodes| ==>
      && r[i].id == nodes[i].id && r[i].kind == nodes[i].kind
      && r[i].position == nodes[i].position && r[i].parentNode == nodes[i].parentNode
    ensures forall i :: 0 <= i < |nodes| ==> r[i].data == if nodes[i].id == nodeId then data else nodes[i].data
  {
    if nodes == [] then []
    else
      var n := nodes[0];
      [if n.id == nodeId then n.(data := data) else n] + SetData(nodes[1..], nodeId, data)
  }

  /** `updateNodeData(nodeId, data)`. */
  function UpdateNodeData(s: State, nodeId: string, data: NodeData): (r: State)
    ensures r.edges == s.edges && r.agents == s.agents
    ensures |r.nodes| == |s.nodes|
    ensures forall i :: 0 <= i < |s.nodes| && s.nodes[i].id != nodeId ==> r.nodes[i] == s.nodes[i]
    ensures forall i :: 0 <= i < |s.nodes| && s.nodes[i].id == nodeId ==> r.nodes[i] == s.nodes[i].(data := data)
  {
    s.(nodes := SetData(s.nodes, nodeId, data))
  }

  /** Setting the same data twice is setting it once. */
  lemma UpdateNodeDataIdempotent(s: State, nodeId: string, data: NodeData)
    ensures UpdateNodeData(UpdateNodeData(s, nodeId, data), nodeId, data) == UpdateNodeData(s, nodeId, data)
  {
    var r := UpdateNodeData(s, nodeId, data);
    var r2 := UpdateNodeData(r, nodeId, data);
    assert r2.nodes == r.nodes;
  }

  /** A node id no node has leaves the state as it is. */
  lemma UpdateNodeDataAbsent(s: State, nodeId: string, data: NodeData)
    requires !IsNodeId(s.nodes, nodeId)
    ensures UpdateNodeData(s, nodeId, data) == s
  {
    var r := UpdateNodeData(s, nodeId, data);
    assert r.nodes == s.nodes;
  }

  /** The agents with `agent` in place of every agent of the same role. */
  function ReplaceAgent(agents: seq<Agent>, agent: Agent): (r: seq<Agent>)
    ensures |r| == |agents|
    ensures forall a :: 0 <= a < |agents| ==> r[a] == if agents[a].role == agent.role then agent else agents[a]
  {
    if agents == [] then []
    else [if agents[0].role == agent.role then agent else agents[0]] + ReplaceAgent(agents[1..], agent)
  }

  /** `updateAgents(role)` and `updateAgent(role)`, whose bodies are the same. */
  function UpdateAgents(s: State, agent: Agent): (r: State)
    ensures r.nodes == s.nodes && r.edges == s.edges
    ensures |r.agents| == |s.agents|
    ensures forall a :: 0 <= a < |s.agents| ==> r.agents[a].role == s.agents[a].role
    ensures forall a :: 0 <= a < |s.agents| && s.agents[a].role != agent.role ==> r.agents[a] == s.agents[a]
    ensures forall a :: 0 <= a < |s.agents| && s.agents[a].role == agent.role ==> r.agents[a] == agent
  {
    s.(agents := ReplaceAgent(s.agents, agent))
  }

  /** `addAgent(role)`: appended after the existing agents. */
  function AddAgent(s: State, agent: Agent): (r: State)
    ensures r.nodes == s.nodes && r.edges == s.edges
    ensures |r.agents| == |s.agents| + 1 && r.agents[..|s.agents|] == s.agents && r.agents[|s.agents|] == agent
  {
    s.(agents := s.agents + [agent])
  }

  /** Updating an agent is idempotent. */
  lemma UpdateAgentsIdempotent(s: State, agent: Agent)
    ensures UpdateAgents(UpdateAgents(s, agent), agent) == UpdateAgents(s, agent)
  {
    var r := UpdateAgents(s, agent);
    assert UpdateAgents(r, agent).agents == r.agents;
  }

  /** An agent added under a new role can then be updated in place: the
      update acts as if the updated agent had been added instead. */
  lemma AddThenUpdate(s: State, added: Agent, updated: Agent)
    requires added.role == updated.role
    requires forall a :: 0 <= a < |s.agents| ==> s.agents[a].role != added.role
    ensures UpdateAgents(AddAgent(s, added), updated) == AddAgent(s, updated)
  {
    var r := UpdateAgents(AddAgent(s, added), updated);
    assert r.agents == s.agents + [updated];
  }

  // ---------------------------------------------------------------------------
  // Integrity

  lemma IsNodeIdAppend(a: seq<GraphNode>, b: seq<GraphNode>, id: string)
    ensures IsNodeId(a, id) || IsNodeId(b, id) ==> IsNodeId(a + b, id)
  {
    if IsNodeId(a, id) {
      var k :| 0 <= k < |a| && a[k].id == id;
      assert (a + b)[k] == a[k];
    } else if IsNodeId(b, id) {
      var k :| 0 <= k < |b| && b[k].id == id;
      assert (a + b)[|a| + k] == b[k];
    }
  }

  /** Merging keeps every edge joining two nodes when each new edge does. */
  lemma MergeIntegral(s: State, b: Batch)
    requires Integral(s.nodes, s.edges)
    requires forall e :: 0 <= e < |b.edges| ==>
      IsNodeId(s.nodes + b.nodes, b.edges[e].source) && IsNodeId(s.nodes + b.nodes, b.edges[e].target)
    ensures Integral(Merge(s, b).nodes, Merge(s, b).edges)
  {
    var r := Merge(s, b);
    forall e | 0 <= e < |r.edges|
      ensures IsNodeId(r.nodes, r.edges[e].source) && IsNodeId(r.nodes, r.edges[e].target)
    {
      if e < |s.edges| {
        assert r.edges[e] == s.edges[e];
        IsNodeIdAppend(s.nodes, b.nodes, r.edges[e].source);
        IsNodeIdAppend(s.nodes, b.nodes, r.edges[e].target);
      } else {
        assert r.edges[e] == b.edges[e - |s.edges|];
      }
    }
  }

  /** Brainstorming under a node of the graph keeps the graph integral: every
      new edge leaves the parent or an earlier new node and enters a new one. */
  lemma StartBrainstormingIntegral(s: State, parentId: string, root: seq<IdeaNode>, ids: IdSupply, first: nat)
    requires Integral(s.nodes, s.edges)
    requires IsNodeId(s.nodes, parentId)
    ensures var r := StartBrainstorming(s, parentId, root, ids, first);
      Integral(r.nodes, r.edges)
  {
    var b := Generate(root, Some(parentId), Position(0, 0), ids, first);
    forall e | 0 <= e < |b.edges|
      ensures IsNodeId(s.nodes + b.nodes, b.edges[e].source) && IsNodeId(s.nodes + b.nodes, b.edges[e].target)
    {
      GeneratedEdgeJoins(s.nodes, parentId, root, ids, first, e);
    }
    MergeIntegral(s, b);
  }

  /** Edge `e` of a brainstorming batch joins two nodes once the batch is
      appended to nodes that hold the parent. */
  lemma GeneratedEdgeJoins(nodes: seq<GraphNode>, parentId: string, root: seq<IdeaNode>, ids: IdSupply, first: nat, e: nat)
    requires IsNodeId(nodes, parentId)
    requires e < |Generate(root, Some(parentId), Position(0, 0), ids, first).edges|
    ensures var b := Generate(root, Some(parentId), Position(0, 0), ids, first);
      IsNodeId(nodes + b.nodes, b.edges[e].source) && IsNodeId(nodes + b.nodes, b.edges[e].target)
  {
    var b := Generate(root, Some(parentId), Position(0, 0), ids, first);
    GenerateEdgesJoinNodes(root, Some(parentId), Position(0, 0), ids, first);
    var edge := b.edges[e];
    assert EdgeJoins(b.nodes, edge, Some(parentId));
    var k :| 0 <= k < |b.nodes| && JoinsAt(b.nodes, k, edge, Some(parentId));
    assert IsNodeId(b.nodes, edge.target);
    IsNodeIdAppend(nodes, b.nodes, edge.target);
    if edge.source != parentId {
      var j :| 0 <= j < |b.nodes[..k]| && b.nodes[..k][j].id == edge.source;
      assert b.nodes[j].id == edge.source;
    }
    IsNodeIdAppend(nodes, b.nodes, edge.source);
  }

  /** Opinions and questions under a node of the graph keep it integral. */
  lemma PeerMergeIntegral(s: State, peerLabel: Label, parentId: string, items: seq<PeerItem>, ids: IdSupply, first: nat)
    requires Integral(s.nodes, s.edges)
    requires IsNodeId(s.nodes, parentId)
    ensures var r := Merge(s, PeerBatch(items, peerLabel, parentId, Position(0, 0), ids, first));
      Integral(r.nodes, r.edges)
  {
    var b := PeerBatch(items, peerLabel, parentId, Position(0, 0), ids, first);
    forall e | 0 <= e < |b.edges|
      ensures IsNodeId(s.nodes + b.nodes, b.edges[e].source) && IsNodeId(s.nodes + b.nodes, b.edges[e].target)
    {
      assert b.nodes[e].id == b.edges[e].target;
      IsNodeIdAppend(s.nodes, b.nodes, b.edges[e].source);
      IsNodeIdAppend(s.nodes, b.nodes, b.edges[e].target);
    }
    MergeIntegral(s, b);
  }

  /** The store's transitions, with the inputs each one receives. */
  datatype Action =
    | Brainstorm(parentId: string, root: seq<IdeaNode>, ids: IdSupply, first: nat)
    | Opinions(parentId: string, opinions: seq<PeerItem>, ids: IdSupply, first: nat)
    | Questions(parentId: string, questions: seq<PeerItem>, ids: IdSupply, first: nat)
    | AddChild(parent: GraphNode, position: Position, nodeId: string, edgeId: string)
    | UpdateData(nodeId: string, data: NodeData)
    | UpdateAgent(agent: Agent)
    | NewAgent(agent: Agent)

  function Apply(s: State, act: Action): State
  {
    match act
    case Brainstorm(p, root, ids, first) => StartBrainstorming(s, p, root, ids, first)
    case Opinions(p, items, ids, first) => DomainExpertOpinions(s, p, items, ids, first)
    case Questions(p, items, ids, first) => StimulatingQuestions(s, p, items, ids, first)
    case AddChild(parent, position, nodeId, edgeId) => AddChildNode(s, parent, position, nodeId, edgeId)
    case UpdateData(nodeId, data) => UpdateNodeData(s, nodeId, data)
    case UpdateAgent(agent) => UpdateAgents(s, agent)
    case NewAgent(agent) => AddAgent(s, agent)
  }

  /** The parent an action hangs new nodes under is a node of the graph, as
      it is when the action comes from that node's button. */
  predicate Anchored(s: State, act: Action)
  {
    match act
    case Brainstorm(p, _, _, _) => IsNodeId(s.nodes, p)
    case Opinions(p, _, _, _) => IsNodeId(s.nodes, p)
    case Questions(p, _, _, _) => IsNodeId(s.nodes, p)
    case AddChild(parent, _, _, _) => IsNodeId(s.nodes, parent.id)
    case _ => true
  }

  /** No node is ever removed or moved in the list: each action keeps the
      existing nodes' ids, kinds and positions, in place. */
  lemma ApplyKeepsNodes(s: State, act: Action)
    ensures var r := Apply(s, act);
      && |r.nodes| >= |s.nodes| && |r.edges| >= |s.edges|
      && (forall i :: 0 <= i < |s.nodes| ==> r.nodes[i].id == s.nodes[i].id && r.nodes[i].position == s.nodes[i].position)
      && r.edges[..|s.edges|] == s.edges
  {
    match act
    case Brainstorm(p, root, ids, first) =>
    case Opinions(p, items, ids, first) =>
    case Questions(p, items, ids, first) =>
    case AddChild(parent, position, nodeId, edgeId) =>
    case UpdateData(nodeId, data) =>
    case UpdateAgent(agent) =>
    case NewAgent(agent) =>
  }

  /** Every anchored action keeps every edge joining two nodes. */
  lemma ApplyIntegral(s: State, act: Action)
    requires Integral(s.nodes, s.edges)
    requires Anchored(s, act)
    ensures var r := Apply(s, act);
      Integral(r.nodes, r.edges)
  {
    match act
    case Brainstorm(p, root, ids, first) =>
      StartBrainstormingIntegral(s, p, root, ids, first);
    case Opinions(p, items, ids, first) =>
      PeerMergeIntegral(s, DomainExpertOpinion, p, items, ids, first);
    case Questions(p, items, ids, first) =>
      PeerMergeIntegral(s, StimulatingQuestion, p, items, ids, first);
    case AddChild(parent, position, nodeId, edgeId) =>
      var r := Apply(s, act);
      var node := GraphNode(nodeId, UserNode, NoData.(nodeLabel := Some("")), position, Some(parent.id));
      assert r == Merge(s, Batch([node], [GraphEdge(edgeId, parent.id, nodeId)]));
      IsNodeIdAppend(s.nodes, [node], parent.id);
      assert [node][0].id == nodeId;
      IsNodeIdAppend(s.nodes, [node], nodeId);
      MergeIntegral(s, Batch([node], [GraphEdge(edgeId, parent.id, nodeId)]));
    case UpdateData(nodeId, data) =>
      var r := Apply(s, act);
      forall e | 0 <= e < |r.edges|
        ensures IsNodeId(r.nodes, r.edges[e].source) && IsNodeId(r.nodes, r.edges[e].target)
      {
        var a :| 0 <= a < |s.nodes| && s.nodes[a].id == s.edges[e].source;
        var b :| 0 <= b < |s.nodes| && s.nodes[b].id == s.edges[e].target;
        assert r.nodes[a].id == s.nodes[a].id && r.nodes[b].id == s.nodes[b].id;
      }
    case UpdateAgent(agent) =>
    case NewAgent(agent) =>
  }

  /** Whether every action of a run is anchored in the state it meets. */
  predicate AnchoredRun(s: State, run: seq<Action>)
    decreases |run|
  {
    run == [] || (Anchored(s, run[0]) && AnchoredRun(Apply(s, run[0]), run[1..]))
  }

  function Run(s: State, run: seq<Action>): State
    decreases |run|
  {
    if run == [] then s else Run(Apply(s, run[0]), run[1..])
  }

  /** From the initial state, every anchored run of actions yields a graph in
      which every edge joins two nodes. */
  lemma {:induction false} RunIntegral(s: State, run: seq<Action>)
    requires Integral(s.nodes, s.edges)
    requires AnchoredRun(s, run)
    ensures Integral(Run(s, run).nodes, Run(s, run).edges)
    decreases |run|
  {
    if run != [] {
      ApplyIntegral(s, run[0]);
      RunIntegral(Apply(s, run[0]), run[1..]);
    }
  }

  lemma InitialRunIntegral(run: seq<Action>)
    requires AnchoredRun(Initial(), run)
    ensures Integral(Run(Initial(), run).nodes, Run(Initial(), run).edges)
  {
    RunIntegral(Initial(), run);
  }

}
