/** Turning validated responses into graph nodes and edges:
    `generateRootNodesAndEdges`, the depth-first pass over an idea forest with
    its fixed layout, and `generatePeerNodes`, the flat variant for opinions
    and questions.

    `Plan` is the partner of the depth-first pass: it lists the sections in
    pre-order with the number, depth, sibling index and parent each one gets,
    and `GenerateMatchesPlan` proves that the pass emits exactly the node and
    edge each slot of the plan calls for. */
module Materializer {
  import opened Results
  import opened Graph
  import opened Schemas

  datatype Batch = Batch(nodes: seq<GraphNode>, edges: seq<GraphEdge>)

  /** `{label, content, helperText}` copied from a section. */
  function SectionData(s: IdeaNode): NodeData
  {
    NodeData(Some(LabelText(s.kind)), Some(s.content), s.helper, None, None, None)
  }

  // ---------------------------------------------------------------------------
  // generateRootNodesAndEdges

  /** `generateRootNodesAndEdges(forest, parent, pos.x, pos.y)`. The node
      emitted for the `k`-th section in pre-order takes the id
      `ids.node(first + k)`, and its edge, if it has one, `ids.edge(first + k)`.
      Siblings are 200 apart vertically (`yOffset`); a child group starts
      1000 to the right of and 700 below its parent group's origin. */
  function Generate(forest: seq<IdeaNode>, parent: Option<string>, pos: Position, ids: IdSupply, first: nat): Batch
    decreases forest, 1, 0
  {
    GenerateFrom(forest, 0, parent, pos, ids, first)
  }

  /** The `forEach` from sibling `i` on. */
  function GenerateFrom(forest: seq<IdeaNode>, i: nat, parent: Option<string>, pos: Position, ids: IdSupply, first: nat): Batch
    requires i <= |forest|
    decreases forest, 0, |forest| - i
  {
    if i == |forest| then Batch([], [])
    else
      var s := forest[i];
      var id := ids.node(first);
      var node := GraphNode(id, AIGeneratedNode, SectionData(s), Position(pos.x, pos.y + 200 * i), parent);
      var edge := if Linked(parent) then [GraphEdge(ids.edge(first), parent.value, id)] else [];
      var sub :=
        if |s.children| > 0 then Generate(s.children, Some(id), Position(pos.x + 1000, pos.y + 700), ids, first + 1)
        else Batch([], []);
      var rest := GenerateFrom(forest, i + 1, parent, pos, ids, first + 1 + |sub.nodes|);
      Batch([node] + sub.nodes + rest.nodes, edge + sub.edges + rest.edges)
  }

  /** The sections of a forest in pre-order: each before its descendants,
      siblings in order. */
  function Flatten(forest: seq<IdeaNode>): seq<IdeaNode>
    decreases forest
  {
    if forest == [] then [] else [forest[0]] + Flatten(forest[0].children) + Flatten(forest[1..])
  }

  /** A section's place in the pass: its pre-order number (counted from the
      first id index), its depth, its index among its siblings, and the number
      of its parent section (`None` for a top-level section). */
  datatype Slot = Slot(section: IdeaNode, number: nat, depth: nat, index: nat, up: Option<nat>)

  /** The number of top-level slots. */
  function Roots(plan: seq<Slot>): nat
  {
    if plan == [] then 0 else (if plan[0].up.None? then 1 else 0) + Roots(plan[1..])
  }

  function Plan(forest: seq<IdeaNode>, depth: nat, first: nat, up: Option<nat>): seq<Slot>
    decreases forest, 1, 0
  {
    PlanFrom(forest, 0, depth, first, up)
  }

  /** The slots of siblings `i..` and their descendants, in pre-order. */
  function PlanFrom(forest: seq<IdeaNode>, i: nat, depth: nat, first: nat, up: Option<nat>): seq<Slot>
    requires i <= |forest|
    decreases forest, 0, |forest| - i
  {
    if i == |forest| then []
    else
      var s := forest[i];
      var sub := Plan(s.children, depth + 1, first + 1, Some(first));
      [Slot(s, first, depth, i, up)] + sub + PlanFrom(forest, i + 1, depth, first + 1 + |sub|, up)
  }

  /** The unfolding of `PlanFrom` at a sibling `i`: its slot, its
      descendants' plan, then the plan of the later siblings. */
  lemma PlanFromCons(forest: seq<IdeaNode>, i: nat, depth: nat, first: nat, up: Option<nat>)
    requires i < |forest|
    ensures var sub := Plan(forest[i].children, depth + 1, first + 1, Some(first));
      PlanFrom(forest, i, depth, first, up)
      == [Slot(forest[i], first, depth, i, up)] + sub + PlanFrom(forest, i + 1, depth, first + 1 + |sub|, up)
  {
  }

  /** One slot per section of the pre-order listing, in that order. */
  lemma {:induction false} PlanSections(forest: seq<IdeaNode>, i: nat, depth: nat, first: nat, up: Option<nat>)
    requires i <= |forest|
    ensures var r := PlanFrom(forest, i, depth, first, up);
      && |r| == |Flatten(forest[i..])|
      && forall k :: 0 <= k < |r| ==> r[k].section == Flatten(forest[i..])[k]
    decreases forest, |forest| - i
  {
    if i == |forest| {
      assert forest[i..] == [];
    } else {
      var s := forest[i];
      var sub := Plan(s.children, depth + 1, first + 1, Some(first));
      PlanFromCons(forest, i, depth, first, up);
      PlanSections(s.children, 0, depth + 1, first + 1, Some(first));
      PlanSections(forest, i + 1, depth, first + 1 + |sub|, up);
      assert forest[i..][0] == s && forest[i..][1..] == forest[i + 1..];
      assert Flatten(forest[i..]) == [s] + Flatten(s.children) + Flatten(forest[i + 1..]);
      assert s.children[0..] == s.children;
    }
  }

  /** Numbers run consecutively from `first`; no slot is shallower than the
      starting depth; a slot at the starting depth hangs from `up` and a
      deeper one from an earlier slot of the same plan. */
  predicate Numbered(r: seq<Slot>, depth: nat, first: nat, up: Option<nat>)
  {
    forall k :: 0 <= k < |r| ==> SlotNumbered(r[k], k, depth, first, up)
  }

  predicate SlotNumbered(slot: Slot, k: nat, depth: nat, first: nat, up: Option<nat>)
  {
    && slot.number == first + k
    && slot.depth >= depth
    && if slot.depth == depth then slot.up == up
       else slot.up.Some? && first <= slot.up.value < first + k
  }

  lemma {:induction false} PlanNumbers(forest: seq<IdeaNode>, i: nat, depth: nat, first: nat, up: Option<nat>)
    requires i <= |forest|
    ensures Numbered(PlanFrom(forest, i, depth, first, up), depth, first, up)
    decreases forest, |forest| - i
  {
    if i < |forest| {
      var s := forest[i];
      var slot := Slot(s, first, depth, i, up);
      var sub := Plan(s.children, depth + 1, first + 1, Some(first));
      var rest := PlanFrom(forest, i + 1, depth, first + 1 + |sub|, up);
      PlanFromCons(forest, i, depth, first, up);
      PlanNumbers(s.children, 0, depth + 1, first + 1, Some(first));
      PlanNumbers(forest, i + 1, depth, first + 1 + |sub|, up);
      var r := [slot] + sub + rest;
      forall k | 0 <= k < |r|
        ensures SlotNumbered(r[k], k, depth, first, up)
      {
        if k == 0 {
        } else if k <= |sub| {
          assert r[k] == sub[k - 1];
          assert SlotNumbered(sub[k - 1], k - 1, depth + 1, first + 1, Some(first));
        } else {
          assert r[k] == rest[k - 1 - |sub|];
          assert SlotNumbered(rest[k - 1 - |sub|], k - 1 - |sub|, depth, first + 1 + |sub|, up);
        }
      }
    }
  }

  /** `up` is `None` exactly for the top-level slots. */
  lemma {:induction false} PlanRoots(forest: seq<IdeaNode>, i: nat, depth: nat, first: nat, up: Option<nat>)
    requires i <= |forest|
    ensures Roots(PlanFrom(forest, i, depth, first, up)) == if up.None? then |forest| - i else 0
    decreases forest, |forest| - i
  {
    if i < |forest| {
      var s := forest[i];
      var slot := Slot(s, first, depth, i, up);
      var sub := Plan(s.children, depth + 1, first + 1, Some(first));
      var rest := PlanFrom(forest, i + 1, depth, first + 1 + |sub|, up);
      PlanFromCons(forest, i, depth, first, up);
      PlanRoots(s.children, 0, depth + 1, first + 1, Some(first));
      PlanRoots(forest, i + 1, depth, first + 1 + |sub|, up);
      RootsAppend([slot] + sub, rest);
      RootsAppend([slot], sub);
    }
  }

  lemma {:induction false} RootsAppend(a: seq<Slot>, b: seq<Slot>)
    ensures Roots(a + b) == Roots(a) + Roots(b)
  {
    if a == [] {
      assert a + b == b;
    } else {
      assert (a + b)[1..] == a[1..] + b;
      RootsAppend(a[1..], b);
    }
  }

  /** The parent id a slot's node records: the id of its parent slot's node,
      or the pass's own parent for a top-level slot. */
  function ParentId(slot: Slot, ids: IdSupply, parent: Option<string>): Option<string>
  {
    if slot.up.Some? then Some(ids.node(slot.up.value)) else parent
  }

  /** The node a slot calls for: sibling `index` at depth `depth` sits at
      `(x + 1000 * depth, y + 700 * depth + 200 * index)`. */
  function NodeAt(slot: Slot, ids: IdSupply, parent: Option<string>, pos: Position): GraphNode
  {
    GraphNode(
      ids.node(slot.number), AIGeneratedNode, SectionData(slot.section),
      Position(pos.x + 1000 * slot.depth, pos.y + 700 * slot.depth + 200 * slot.index),
      ParentId(slot, ids, parent))
  }

  /** The edge a slot calls for: from its parent's id to its own, when the
      parent id is truthy. */
  function EdgeAt(slot: Slot, ids: IdSupply, parent: Option<string>): seq<GraphEdge>
  {
    var p := ParentId(slot, ids, parent);
    if Linked(p) then [GraphEdge(ids.edge(slot.number), p.value, ids.node(slot.number))] else []
  }

  function PlanNodes(plan: seq<Slot>, ids: IdSupply, parent: Option<string>, pos: Position): (r: seq<GraphNode>)
    ensures |r| == |plan|
    ensures forall k :: 0 <= k < |plan| ==> r[k] == NodeAt(plan[k], ids, parent, pos)
  {
    if plan == [] then [] else [NodeAt(plan[0], ids, parent, pos)] + PlanNodes(plan[1..], ids, parent, pos)
  }

  function PlanEdges(plan: seq<Slot>, ids: IdSupply, parent: Option<string>): seq<GraphEdge>
  {
    if plan == [] then [] else EdgeAt(plan[0], ids, parent) + PlanEdges(plan[1..], ids, parent)
  }

  lemma {:induction false} PlanNodesAppend(a: seq<Slot>, b: seq<Slot>, ids: IdSupply, parent: Option<string>, pos: Position)
    ensures PlanNodes(a + b, ids, parent, pos) == PlanNodes(a, ids, parent, pos) + PlanNodes(b, ids, parent, pos)
  {
    if a == [] {
      assert a + b == b;
    } else {
      assert (a + b)[0] == a[0] && (a + b)[1..] == a[1..] + b;
      PlanNodesAppend(a[1..], b, ids, parent, pos);
    }
  }

  lemma {:induction false} PlanEdgesAppend(a: seq<Slot>, b: seq<Slot>, ids: IdSupply, parent: Option<string>)
    ensures PlanEdges(a + b, ids, parent) == PlanEdges(a, ids, parent) + PlanEdges(b, ids, parent)
  {
    if a == [] {
      assert a + b == b;
    } else {
      assert (a + b)[0] == a[0] && (a + b)[1..] == a[1..] + b;
      PlanEdgesAppend(a[1..], b, ids, parent);
    }
  }

  lemma PlanEdgesSingle(slot: Slot, ids: IdSupply, parent: Option<string>)
    ensures PlanEdges([slot], ids, parent) == EdgeAt(slot, ids, parent)
  {
    assert [slot][1..] == [];
    assert PlanEdges([slot], ids, parent) == EdgeAt(slot, ids, parent) + PlanEdges([], ids, parent);
  }

  /** The pass from sibling `i`, started at depth `d` of the whole pass (its
      origin shifted by `d` child offsets, its parent the id of slot `up`),
      emits exactly the nodes and edges of its slots. */
  lemma {:induction false} GenerateFromFollowsPlan(
    forest: seq<IdeaNode>, i: nat, parent0: Option<string>, pos0: Position, ids: IdSupply, first: nat, d: nat, up: Option<nat>)
    requires i <= |forest|
    ensures var parent := if up.Some? then Some(ids.node(up.value)) else parent0;
      var r := GenerateFrom(forest, i, parent, Position(pos0.x + 1000 * d, pos0.y + 700 * d), ids, first);
      var plan := PlanFrom(forest, i, d, first, up);
      r.nodes == PlanNodes(plan, ids, parent0, pos0) && r.edges == PlanEdges(plan, ids, parent0)
    decreases forest, |forest| - i, 1
  {
    if i < |forest| {
      var sub := SubBatch(forest[i], ids, first, pos0, d);
      var subPlan := Plan(forest[i].children, d + 1, first + 1, Some(first));
      ChildrenFollowPlan(forest, i, parent0, pos0, ids, first, d);
      GenerateFromFollowsPlan(forest, i + 1, parent0, pos0, ids, first + 1 + |subPlan|, d, up);
      FollowsPlanNodesStep(forest, i, parent0, pos0, ids, first, d, up);
      FollowsPlanEdgesStep(forest, i, parent0, pos0, ids, first, d, up);
    }
  }

  /** What the pass emits below sibling `s` numbered `first` at depth `d`. */
  function SubBatch(s: IdeaNode, ids: IdSupply, first: nat, pos0: Position, d: nat): Batch
  {
    if |s.children| > 0 then
      Generate(s.children, Some(ids.node(first)), Position(pos0.x + 1000 * (d + 1), pos0.y + 700 * (d + 1)), ids, first + 1)
    else Batch([], [])
  }

  lemma {:induction false} ChildrenFollowPlan(
    forest: seq<IdeaNode>, i: nat, parent0: Option<string>, pos0: Position, ids: IdSupply, first: nat, d: nat)
    requires i < |forest|
    ensures var sub := SubBatch(forest[i], ids, first, pos0, d);
      var subPlan := Plan(forest[i].children, d + 1, first + 1, Some(first));
      sub.nodes == PlanNodes(subPlan, ids, parent0, pos0) && sub.edges == PlanEdges(subPlan, ids, parent0)
    decreases forest, |forest| - i, 0
  {
    GenerateFromFollowsPlan(forest[i].children, 0, parent0, pos0, ids, first + 1, d + 1, Some(first));
  }

  /** The unfolding of `GenerateFrom` at sibling `i` in terms of `SubBatch`
      and the slot the sibling takes. */
  lemma GenerateFromStep(
    forest: seq<IdeaNode>, i: nat, parent0: Option<string>, pos0: Position, ids: IdSupply, first: nat, d: nat, up: Option<nat>)
    requires i < |forest|
    ensures var parent := if up.Some? then Some(ids.node(up.value)) else parent0;
      var pos := Position(pos0.x + 1000 * d, pos0.y + 700 * d);
      var sub := SubBatch(forest[i], ids, first, pos0, d);
      var rest := GenerateFrom(forest, i + 1, parent, pos, ids, first + 1 + |sub.nodes|);
      var slot := Slot(forest[i], first, d, i, up);
      GenerateFrom(forest, i, parent, pos, ids, first)
      == Batch([NodeAt(slot, ids, parent0, pos0)] + sub.nodes + rest.nodes, EdgeAt(slot, ids, parent0) + sub.edges + rest.edges)
  {
    var parent := if up.Some? then Some(ids.node(up.value)) else parent0;
    var pos := Position(pos0.x + 1000 * d, pos0.y + 700 * d);
    assert Position(pos.x + 1000, pos.y + 700) == Position(pos0.x + 1000 * (d + 1), pos0.y + 700 * (d + 1));
    GenerateFromCons(forest, i, parent, pos, ids, first);
    SlotAgrees(forest[i], first, d, i, up, parent0, pos0, ids);
  }

  lemma FollowsPlanNodesStep(
    forest: seq<IdeaNode>, i: nat, parent0: Option<string>, pos0: Position, ids: IdSupply, first: nat, d: nat, up: Option<nat>)
    requires i < |forest|
    requires var sub := SubBatch(forest[i], ids, first, pos0, d);
      sub.nodes == PlanNodes(Plan(forest[i].children, d + 1, first + 1, Some(first)), ids, parent0, pos0)
    requires var subPlan := Plan(forest[i].children, d + 1, first + 1, Some(first));
      var parent := if up.Some? then Some(ids.node(up.value)) else parent0;
      GenerateFrom(forest, i + 1, parent, Position(pos0.x + 1000 * d, pos0.y + 700 * d), ids, first + 1 + |subPlan|).nodes
      == PlanNodes(PlanFrom(forest, i + 1, d, first + 1 + |subPlan|, up), ids, parent0, pos0)
    ensures var parent := if up.Some? then Some(ids.node(up.value)) else parent0;
      GenerateFrom(forest, i, parent, Position(pos0.x + 1000 * d, pos0.y + 700 * d), ids, first).nodes
      == PlanNodes(PlanFrom(forest, i, d, first, up), ids, parent0, pos0)
  {
    var subPlan := Plan(forest[i].children, d + 1, first + 1, Some(first));
    var restPlan := PlanFrom(forest, i + 1, d, first + 1 + |subPlan|, up);
    var slot := Slot(forest[i], first, d, i, up);
    GenerateFromStep(forest, i, parent0, pos0, ids, first, d, up);
    PlanFromCons(forest, i, d, first, up);
    PlanNodesAppend([slot] + subPlan, restPlan, ids, parent0, pos0);
    PlanNodesAppend([slot], subPlan, ids, parent0, pos0);
  }

  lemma FollowsPlanEdgesStep(
    forest: seq<IdeaNode>, i: nat, parent0: Option<string>, pos0: Position, ids: IdSupply, first: nat, d: nat, up: Option<nat>)
    requires i < |forest|
    requires var sub := SubBatch(forest[i], ids, first, pos0, d);
      var subPlan := Plan(forest[i].children, d + 1, first + 1, Some(first));
      |sub.nodes| == |subPlan| && sub.edges == PlanEdges(subPlan, ids, parent0)
    requires var subPlan := Plan(forest[i].children, d + 1, first + 1, Some(first));
      var parent := if up.Some? then Some(ids.node(up.value)) else parent0;
      GenerateFrom(forest, i + 1, parent, Position(pos0.x + 1000 * d, pos0.y + 700 * d), ids, first + 1 + |subPlan|).edges
      == PlanEdges(PlanFrom(forest, i + 1, d, first + 1 + |subPlan|, up), ids, parent0)
    ensures var parent := if up.Some? then Some(ids.node(up.value)) else parent0;
      GenerateFrom(forest, i, parent, Position(pos0.x + 1000 * d, pos0.y + 700 * d), ids, first).edges
      == PlanEdges(PlanFrom(forest, i, d, first, up), ids, parent0)
  {
    var parent := if up.Some? then Some(ids.node(up.value)) else parent0;
    var pos := Position(pos0.x + 1000 * d, pos0.y + 700 * d);
    var sub := SubBatch(forest[i], ids, first, pos0, d);
    var subPlan := Plan(forest[i].children, d + 1, first + 1, Some(first));
    var restPlan := PlanFrom(forest, i + 1, d, first + 1 + |subPlan|, up);
    var rest := GenerateFrom(forest, i + 1, parent, pos, ids, first + 1 + |sub.nodes|);
    var slot := Slot(forest[i], first, d, i, up);
    GenerateFromStep(forest, i, parent0, pos0, ids, first, d, up);
    assert GenerateFrom(forest, i, parent, pos, ids, first).edges == EdgeAt(slot, ids, parent0) + sub.edges + rest.edges;
    assert rest.edges == PlanEdges(restPlan, ids, parent0);
    PlanFromCons(forest, i, d, first, up);
    assert PlanFrom(forest, i, d, first, up) == ([slot] + subPlan) + restPlan;
    PlanEdgesAppend([slot] + subPlan, restPlan, ids, parent0);
    PlanEdgesAppend([slot], subPlan, ids, parent0);
    PlanEdgesSingle(slot, ids, parent0);
    assert PlanEdges([slot] + subPlan, ids, parent0) == EdgeAt(slot, ids, parent0) + sub.edges;
  }

  /** The node and edge the pass emits for sibling `i` are the ones its slot
      calls for. */
  lemma SlotAgrees(s: IdeaNode, first: nat, d: nat, i: nat, up: Option<nat>, parent0: Option<string>, pos0: Position, ids: IdSupply)
    ensures var parent := if up.Some? then Some(ids.node(up.value)) else parent0;
      var pos := Position(pos0.x + 1000 * d, pos0.y + 700 * d);
      var slot := Slot(s, first, d, i, up);
      && NodeAt(slot, ids, parent0, pos0)
         == GraphNode(ids.node(first), AIGeneratedNode, SectionData(s), Position(pos.x, pos.y + 200 * i), parent)
      && EdgeAt(slot, ids, parent0)
         == if Linked(parent) then [GraphEdge(ids.edge(first), parent.value, ids.node(first))] else []
  {
  }

  /** The unfolding of `GenerateFrom` at a sibling `i`. */
  lemma GenerateFromCons(forest: seq<IdeaNode>, i: nat, parent: Option<string>, pos: Position, ids: IdSupply, first: nat)
    requires i < |forest|
    ensures var s := forest[i];
      var id := ids.node(first);
      var sub :=
        if |s.children| > 0 then Generate(s.children, Some(id), Position(pos.x + 1000, pos.y + 700), ids, first + 1)
        else Batch([], []);
      var rest := GenerateFrom(forest, i + 1, parent, pos, ids, first + 1 + |sub.nodes|);
      GenerateFrom(forest, i, parent, pos, ids, first) == Batch(
        [GraphNode(id, AIGeneratedNode, SectionData(s), Position(pos.x, pos.y + 200 * i), parent)] + sub.nodes + rest.nodes,
        (if Linked(parent) then [GraphEdge(ids.edge(first), parent.value, id)] else []) + sub.edges + rest.edges)
  {
  }

  /** The depth-first pass is its plan, slot by slot. */
  lemma GenerateMatchesPlan(forest: seq<IdeaNode>, parent: Option<string>, pos: Position, ids: IdSupply, first: nat)
    ensures var r := Generate(forest, parent, pos, ids, first);
      var plan := Plan(forest, 0, first, None);
      r.nodes == PlanNodes(plan, ids, parent, pos) && r.edges == PlanEdges(plan, ids, parent)
  {
    GenerateFromFollowsPlan(forest, 0, parent, pos, ids, first, 0, None);
    assert Position(pos.x + 1000 * 0, pos.y + 700 * 0) == pos;
  }

  /** What the plan of a whole pass says about its slots: one per section
      in pre-order, numbered from `first`, each top-level one without a
      parent slot and each deeper one under an earlier slot. */
  lemma PlanFacts(forest: seq<IdeaNode>, first: nat)
    ensures var plan := Plan(forest, 0, first, None);
      && |plan| == |Flatten(forest)|
      && (forall k :: 0 <= k < |plan| ==> plan[k].section == Flatten(forest)[k])
      && Numbered(plan, 0, first, None)
  {
    PlanSections(forest, 0, 0, first, None);
    PlanNumbers(forest, 0, 0, first, None);
    assert forest[0..] == forest;
  }

  /** `GenerateMatchesPlan`, pointwise. */
  lemma GenerateSlots(forest: seq<IdeaNode>, parent: Option<string>, pos: Position, ids: IdSupply, first: nat)
    ensures var r := Generate(forest, parent, pos, ids, first);
      var plan := Plan(forest, 0, first, None);
      && |r.nodes| == |plan|
      && (forall k :: 0 <= k < |plan| ==> r.nodes[k] == NodeAt(plan[k], ids, parent, pos))
  {
    GenerateMatchesPlan(forest, parent, pos, ids, first);
  }

  /** One node per section, in pre-order, each copying its section's label,
      content and helper; node `k` is numbered `first + k`. */
  lemma GenerateNodes(forest: seq<IdeaNode>, parent: Option<string>, pos: Position, ids: IdSupply, first: nat)
    ensures var r := Generate(forest, parent, pos, ids, first);
      && |r.nodes| == |Flatten(forest)|
      && (forall k :: 0 <= k < |r.nodes| ==>
            r.nodes[k].id == ids.node(first + k) && r.nodes[k].data == SectionData(Flatten(forest)[k])
            && r.nodes[k].kind == AIGeneratedNode)
  {
    var r := Generate(forest, parent, pos, ids, first);
    var plan := Plan(forest, 0, first, None);
    GenerateSlots(forest, parent, pos, ids, first);
    PlanFacts(forest, first);
    forall k | 0 <= k < |r.nodes|
      ensures r.nodes[k].id == ids.node(first + k) && r.nodes[k].data == SectionData(Flatten(forest)[k])
    {
      assert SlotNumbered(plan[k], k, 0, first, None);
    }
  }

  /** Each node's parent is the pass's parent (top level) or a node emitted
      before it, and its position is fixed by its depth and sibling index
      alone. */
  lemma GenerateLayout(forest: seq<IdeaNode>, parent: Option<string>, pos: Position, ids: IdSupply, first: nat)
    ensures var r := Generate(forest, parent, pos, ids, first);
      var plan := Plan(forest, 0, first, None);
      && |plan| == |r.nodes|
      && forall k :: 0 <= k < |r.nodes| ==>
        && r.nodes[k].position == Position(pos.x + 1000 * plan[k].depth, pos.y + 700 * plan[k].depth + 200 * plan[k].index)
        && (if plan[k].depth == 0 then r.nodes[k].parentNode == parent
            else exists j :: 0 <= j < k && r.nodes[k].parentNode == Some(r.nodes[j].id))
  {
    var r := Generate(forest, parent, pos, ids, first);
    var plan := Plan(forest, 0, first, None);
    GenerateSlots(forest, parent, pos, ids, first);
    PlanFacts(forest, first);
    forall k | 0 <= k < |r.nodes|
      ensures if plan[k].depth == 0 then r.nodes[k].parentNode == parent
        else exists j :: 0 <= j < k && r.nodes[k].parentNode == Some(r.nodes[j].id)
    {
      assert SlotNumbered(plan[k], k, 0, first, None);
      if plan[k].depth != 0 {
        var j := plan[k].up.value - first;
        assert SlotNumbered(plan[j], j, 0, first, None);
        assert r.nodes[j].id == ids.node(plan[k].up.value);
      }
    }
  }

  /** Top-level sibling `i` is emitted right after everything the earlier
      siblings and their descendants produced, at `(x, y + 200 * i)`, under
      the pass's parent. */
  lemma TopLevelPosition(forest: seq<IdeaNode>, parent: Option<string>, pos: Position, ids: IdSupply, first: nat, i: nat)
    requires i < |forest|
    ensures var r := Generate(forest, parent, pos, ids, first);
      var k := |Flatten(forest[..i])|;
      k < |r.nodes| && r.nodes[k].position == Position(pos.x, pos.y + 200 * i) && r.nodes[k].parentNode == parent
  {
    GenerateMatchesPlan(forest, parent, pos, ids, first);
    PlanSplit(forest, 0, i, 0, first, None);
    assert forest[0..i] == forest[..i];
  }

  /** The plan from sibling `j` reaches sibling `i`'s slot once the slots of
      siblings `j..i-1` and their descendants are skipped. */
  lemma {:induction false} PlanSplit(forest: seq<IdeaNode>, j: nat, i: nat, depth: nat, first: nat, up: Option<nat>)
    requires j <= i < |forest|
    ensures var plan := PlanFrom(forest, j, depth, first, up);
      var k := |Flatten(forest[j..i])|;
      k < |plan| && plan[k] == Slot(forest[i], first + k, depth, i, up)
    decreases i - j
  {
    var s := forest[j];
    var sub := Plan(s.children, depth + 1, first + 1, Some(first));
    var rest := PlanFrom(forest, j + 1, depth, first + 1 + |sub|, up);
    PlanFromCons(forest, j, depth, first, up);
    var plan := [Slot(s, first, depth, j, up)] + sub + rest;
    if j < i {
      var k := |Flatten(forest[j..i])|;
      assert k == 1 + |sub| + |Flatten(forest[j + 1..i])| by {
        PlanSections(s.children, 0, depth + 1, first + 1, Some(first));
        assert s.children[0..] == s.children;
        assert forest[j..i][0] == s && forest[j..i][1..] == forest[j + 1..i];
        assert Flatten(forest[j..i]) == [s] + Flatten(s.children) + Flatten(forest[j + 1..i]);
      }
      PlanSplit(forest, j + 1, i, depth, first + 1 + |sub|, up);
      assert plan[k] == rest[k - 1 - |sub|];
    } else {
      assert forest[j..i] == [];
    }
  }

  /** With a truthy parent every node gets an edge; without one only the
      top-level nodes go without. Assumes the id oracle never hands out an
      empty id, as `nanoid` does not. */
  lemma EdgeCount(forest: seq<IdeaNode>, parent: Option<string>, pos: Position, ids: IdSupply, first: nat)
    requires forall k :: ids.node(k) != ""
    ensures var r := Generate(forest, parent, pos, ids, first);
      |r.edges| == |r.nodes| - (if Linked(parent) then 0 else |forest|)
  {
    var plan := Plan(forest, 0, first, None);
    GenerateMatchesPlan(forest, parent, pos, ids, first);
    PlanEdgesCount(plan, ids, parent);
    PlanRoots(forest, 0, 0, first, None);
  }

  lemma {:induction false} PlanEdgesCount(plan: seq<Slot>, ids: IdSupply, parent: Option<string>)
    requires forall k :: ids.node(k) != ""
    ensures |PlanEdges(plan, ids, parent)| == |plan| - (if Linked(parent) then 0 else Roots(plan))
    ensures Roots(plan) <= |plan|
  {
    if plan != [] {
      PlanEdgesCount(plan[1..], ids, parent);
    }
  }

  /** Every edge runs from the pass's parent or from an emitted node to an
      emitted node, and it records the parent its target node records. */
  lemma GenerateEdgesJoinNodes(forest: seq<IdeaNode>, parent: Option<string>, pos: Position, ids: IdSupply, first: nat)
    ensures var r := Generate(forest, parent, pos, ids, first);
      forall e :: 0 <= e < |r.edges| ==> EdgeJoins(r.nodes, r.edges[e], parent)
  {
    var plan := Plan(forest, 0, first, None);
    GenerateMatchesPlan(forest, parent, pos, ids, first);
    PlanFacts(forest, first);
    forall e | 0 <= e < |PlanEdges(plan, ids, parent)|
      ensures EdgeJoins(PlanNodes(plan, ids, parent, pos), PlanEdges(plan, ids, parent)[e], parent)
    {
      PlanEdgeJoins(plan, ids, parent, pos, first, e);
    }
  }

  /** Edge `e` of a numbered plan joins the node of its slot to the node of
      the slot's parent. */
  lemma PlanEdgeJoins(plan: seq<Slot>, ids: IdSupply, parent: Option<string>, pos: Position, first: nat, e: nat)
    requires Numbered(plan, 0, first, None)
    requires e < |PlanEdges(plan, ids, parent)|
    ensures EdgeJoins(PlanNodes(plan, ids, parent, pos), PlanEdges(plan, ids, parent)[e], parent)
  {
    var nodes := PlanNodes(plan, ids, parent, pos);
    var edge := PlanEdges(plan, ids, parent)[e];
    var k := PlanEdgeSlot(plan, ids, parent, e);
    var slot := plan[k];
    assert nodes[k] == NodeAt(slot, ids, parent, pos);
    assert SlotNumbered(slot, k, 0, first, None);
    if slot.up.Some? {
      var j := slot.up.value - first;
      assert SlotNumbered(plan[j], j, 0, first, None);
      assert nodes[..k][j] == nodes[j];
      assert nodes[j].id == ids.node(slot.up.value);
    }
    assert JoinsAt(nodes, k, edge, parent);
  }

  /** Edge `edge` points at the node `k` of `nodes` whose recorded parent is
      the edge's source, and that source is `parent` or a node before `k`. */
  predicate EdgeJoins(nodes: seq<GraphNode>, edge: GraphEdge, parent: Option<string>)
  {
    exists k :: 0 <= k < |nodes| && JoinsAt(nodes, k, edge, parent)
  }

  predicate JoinsAt(nodes: seq<GraphNode>, k: nat, edge: GraphEdge, parent: Option<string>)
    requires k < |nodes|
  {
    && nodes[k].id == edge.target
    && nodes[k].parentNode == Some(edge.source)
    && (Some(edge.source) == parent || IsNodeId(nodes[..k], edge.source))
  }

  /** The slot an edge of the plan comes from. */
  lemma {:induction false} PlanEdgeSlot(plan: seq<Slot>, ids: IdSupply, parent: Option<string>, e: nat) returns (k: nat)
    requires e < |PlanEdges(plan, ids, parent)|
    ensures k < |plan| && EdgeAt(plan[k], ids, parent) == [PlanEdges(plan, ids, parent)[e]]
  {
    var head := EdgeAt(plan[0], ids, parent);
    if e < |head| {
      k := 0;
      assert head == [head[0]];
    } else {
      var k' := PlanEdgeSlot(plan[1..], ids, parent, e - |head|);
      k := k' + 1;
    }
  }

  // ---------------------------------------------------------------------------
  // generatePeerNodes

  /** An opinion or question node: the fixed label and the record's `thoughts`. */
  function PeerData(peerLabel: Label, item: PeerItem): NodeData
  {
    NodeData(Some(LabelText(peerLabel)), Some(item.thoughts), None, None, None, None)
  }

  /** `generatePeerNodes` as a definition: one node and one `parentId -> node`
      edge per record, every node at the same position. */
  function PeerBatch(items: seq<PeerItem>, peerLabel: Label, parentId: string, pos: Position, ids: IdSupply, first: nat): (r: Batch)
    ensures |r.nodes| == |items| && |r.edges| == |items|
    ensures forall k :: 0 <= k < |items| ==>
      r.nodes[k] == GraphNode(ids.node(first + k), AIGeneratedNode, PeerData(peerLabel, items[k]), pos, Some(parentId))
    ensures forall k :: 0 <= k < |items| ==> r.edges[k] == GraphEdge(ids.edge(first + k), parentId, r.nodes[k].id)
  {
    if items == [] then Batch([], [])
    else
      var rest := PeerBatch(items[1..], peerLabel, parentId, pos, ids, first + 1);
      var node := GraphNode(ids.node(first), AIGeneratedNode, PeerData(peerLabel, items[0]), pos, Some(parentId));
      Batch([node] + rest.nodes, [GraphEdge(ids.edge(first), parentId, node.id)] + rest.edges)
  }

  /** `generatePeerNodes`, the loop. The label is one of the two peer labels. */
  method GeneratePeerNodes(items: seq<PeerItem>, peerLabel: Label, parentId: string, pos: Position, ids: IdSupply, first: nat)
    returns (nodes: seq<GraphNode>, edges: seq<GraphEdge>)
    requires peerLabel == DomainExpertOpinion || peerLabel == StimulatingQuestion
    ensures Batch(nodes, edges) == PeerBatch(items, peerLabel, parentId, pos, ids, first)
    ensures forall k :: 0 <= k < |nodes| ==> nodes[k].position == pos && nodes[k].parentNode == Some(parentId)
  {
    nodes, edges := [], [];
    var k := 0;
    while k < |items|
      invariant 0 <= k <= |items|
      invariant |nodes| == k && |edges| == k
      invariant forall j :: 0 <= j < k ==>
        nodes[j] == GraphNode(ids.node(first + j), AIGeneratedNode, PeerData(peerLabel, items[j]), pos, Some(parentId))
      invariant forall j :: 0 <= j < k ==> edges[j] == GraphEdge(ids.edge(first + j), parentId, nodes[j].id)
    {
      var nodeId := ids.node(first + k);
      var node := GraphNode(nodeId, AIGeneratedNode, PeerData(peerLabel, items[k]), pos, Some(parentId));
      nodes := nodes + [node];
      edges := edges + [GraphEdge(ids.edge(first + k), parentId, nodeId)];
      k := k + 1;
    }
    var b := PeerBatch(items, peerLabel, parentId, pos, ids, first);
    assert nodes == b.nodes;
    assert edges == b.edges;
  }

}
