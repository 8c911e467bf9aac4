/** `convertReactFlowToMermaid`: the graph as Mermaid flowchart text. A
    header, one line for the first master node (if any), one line per other
    node, one line per edge, each line ending in a newline. */
module Mermaid {
  import opened Results
  import opened Graph

  const Header: string := "graph TD\n"

  /** A template literal's rendering of an optional string field: a missing
      field shows as `undefined`. */
  function Show(o: Option<string>): string
  {
    if o.Some? then o.value else "undefined"
  }

  /** The position of the first master node, if there is one. */
  function MasterIndex(nodes: seq<GraphNode>): (r: Option<nat>)
    ensures r.Some? ==> r.value < |nodes| && nodes[r.value].kind == MasterNode
    ensures r.Some? ==> forall j :: 0 <= j < r.value ==> nodes[j].kind != MasterNode
    ensures r.None? ==> forall j :: 0 <= j < |nodes| ==> nodes[j].kind != MasterNode
  {
    if nodes == [] then None
    else if nodes[0].kind == MasterNode then Some(0)
    else
      var t := MasterIndex(nodes[1..]);
      if t.Some? then Some(t.value + 1) else None
  }

  /** A line of the export: its pieces one after the other, then a newline. */
  function Line(pieces: seq<string>): string
  {
    Concat(pieces) + "\n"
  }

  /** The master node's line: indented, its id, then problem, goal and
      context in braces, then its class. */
  function MasterLine(n: GraphNode): string
  {
    Line(MasterPieces(n))
  }

  function MasterPieces(n: GraphNode): seq<string>
  {
    [ "    ", n.id, "[{problem: ", Show(n.data.problem), ", goal: ", Show(n.data.goal),
      ", context: ", Show(n.data.context), "}]:::", KindName(n.kind)]
  }

  /** Any other node's line: indented, its id, then label and content in
      brackets, then its class. */
  function NodeLine(n: GraphNode): string
  {
    Line(NodePieces(n))
  }

  function NodePieces(n: GraphNode): seq<string>
  {
    ["    ", n.id, "[", Show(n.data.nodeLabel), "-", Show(n.data.content), "]:::", KindName(n.kind)]
  }

  /** An edge's line: indented, the source id, an arrow, the target id. */
  function EdgeLine(e: GraphEdge): string
  {
    Line(["    ", e.source, " --> ", e.target])
  }

  /** The nodes other than master nodes, in their original order. */
  function NonMaster(nodes: seq<GraphNode>): (r: seq<GraphNode>)
    ensures |r| <= |nodes|
    ensures forall i :: 0 <= i < |r| ==> r[i].kind != MasterNode && r[i] in nodes
    ensures forall i :: 0 <= i < |nodes| && nodes[i].kind != MasterNode ==> nodes[i] in r
  {
    if nodes == [] then []
    else if nodes[0].kind == MasterNode then NonMaster(nodes[1..])
    else [nodes[0]] + NonMaster(nodes[1..])
  }

  /** The filter keeps the order: it distributes over concatenation. */
  lemma {:induction false} NonMasterAppend(a: seq<GraphNode>, b: seq<GraphNode>)
    ensures NonMaster(a + b) == NonMaster(a) + NonMaster(b)
  {
    if a == [] {
      assert a + b == b;
    } else {
      assert (a + b)[0] == a[0] && (a + b)[1..] == a[1..] + b;
      NonMasterAppend(a[1..], b);
    }
  }

  function NodeLines(nodes: seq<GraphNode>): (r: seq<string>)
    ensures |r| == |nodes| && forall i :: 0 <= i < |nodes| ==> r[i] == NodeLine(nodes[i])
  {
    if nodes == [] then [] else [NodeLine(nodes[0])] + NodeLines(nodes[1..])
  }

  function EdgeLines(edges: seq<GraphEdge>): (r: seq<string>)
    ensures |r| == |edges| && forall i :: 0 <= i < |edges| ==> r[i] == EdgeLine(edges[i])
  {
    if edges == [] then [] else [EdgeLine(edges[0])] + EdgeLines(edges[1..])
  }

  /** The lines of the export, in order. */
  function Lines(nodes: seq<GraphNode>, edges: seq<GraphEdge>): (r: seq<string>)
    ensures var m := if MasterIndex(nodes).Some? then 1 else 0;
      var others := NonMaster(nodes);
      && |r| == 1 + m + |others| + |edges|
      && r[0] == Header
      && (MasterIndex(nodes).Some? ==> r[1] == MasterLine(nodes[MasterIndex(nodes).value]))
      && (forall i :: 0 <= i < |others| ==> r[1 + m + i] == NodeLine(others[i]))
      && (forall e :: 0 <= e < |edges| ==> r[1 + m + |others| + e] == EdgeLine(edges[e]))
  {
    var master := MasterIndex(nodes);
    [Header] + (if master.Some? then [MasterLine(nodes[master.value])] else [])
      + NodeLines(NonMaster(nodes)) + EdgeLines(edges)
  }

  function Concat(ls: seq<string>): string
  {
    if ls == [] then "" else ls[0] + Concat(ls[1..])
  }

  /** `convertReactFlowToMermaid(flow)`. */
  function ToMermaid(nodes: seq<GraphNode>, edges: seq<GraphEdge>): (r: string)
    ensures |r| >= |Header| && r[..|Header|] == Header
  {
    var ls := Lines(nodes, edges);
    assert ls == [Header] + ls[1..];
    Concat(ls)
  }

  // ---------------------------------------------------------------------------
  // Line count

  function Newlines(s: string): nat
  {
    multiset(s)['\n']
  }

  /** No field the export prints holds a newline of its own. */
  predicate PlainNode(n: GraphNode)
  {
    && '\n' !in n.id
    && '\n' !in Show(n.data.nodeLabel) && '\n' !in Show(n.data.content)
    && '\n' !in Show(n.data.problem) && '\n' !in Show(n.data.goal) && '\n' !in Show(n.data.context)
  }

  predicate PlainEdge(e: GraphEdge)
  {
    '\n' !in e.source && '\n' !in e.target
  }

  lemma {:induction false} ConcatNewlines(ls: seq<string>)
    requires forall i :: 0 <= i < |ls| ==> Newlines(ls[i]) == 1
    ensures Newlines(Concat(ls)) == |ls|
  {
    if ls != [] {
      ConcatNewlines(ls[1..]);
      assert multiset(Concat(ls)) == multiset(ls[0]) + multiset(Concat(ls[1..]));
    }
  }

  lemma {:induction false} ConcatPlain(ls: seq<string>)
    requires forall i :: 0 <= i < |ls| ==> '\n' !in ls[i]
    ensures '\n' !in Concat(ls)
  {
    if ls != [] {
      ConcatPlain(ls[1..]);
    }
  }

  /** A line whose pieces hold no newline holds exactly one. */
  lemma LineNewlines(pieces: seq<string>)
    requires forall i :: 0 <= i < |pieces| ==> '\n' !in pieces[i]
    ensures Newlines(Line(pieces)) == 1
  {
    ConcatPlain(pieces);
    assert multiset(Line(pieces)) == multiset(Concat(pieces)) + multiset("\n");
  }

  lemma KindNamePlain(k: NodeKind)
    ensures '\n' !in KindName(k)
  {
  }

  lemma HeaderNewlines()
    ensures Newlines(Header) == 1
  {
    assert Header == "graph TD" + "\n";
    assert '\n' !in "graph TD";
    assert multiset(Header) == multiset("graph TD") + multiset("\n");
  }

  /** The master node's line holds exactly one newline when none of its
      printed fields holds one. */
  lemma MasterLineNewlines(n: GraphNode)
    requires PlainNode(n)
    ensures Newlines(MasterLine(n)) == 1
  {
    KindNamePlain(n.kind);
    LineNewlines(MasterPieces(n));
  }

  /** So does any other node's line. */
  lemma NodeLineNewlines(n: GraphNode)
    requires PlainNode(n)
    ensures Newlines(NodeLine(n)) == 1
  {
    KindNamePlain(n.kind);
    LineNewlines(NodePieces(n));
  }

  /** So does an edge's line when neither id holds a newline. */
  lemma EdgeLineNewlines(e: GraphEdge)
    requires PlainEdge(e)
    ensures Newlines(EdgeLine(e)) == 1
  {
    LineNewlines(["    ", e.source, " --> ", e.target]);
  }

  /** When no printed field holds a newline, the export has exactly
      1 + [a master node exists] + #non-master nodes + #edges lines. */
  lemma LineCount(nodes: seq<GraphNode>, edges: seq<GraphEdge>)
    requires forall i :: 0 <= i < |nodes| ==> PlainNode(nodes[i])
    requires forall e :: 0 <= e < |edges| ==> PlainEdge(edges[e])
    ensures Newlines(ToMermaid(nodes, edges))
      == 1 + (if MasterIndex(nodes).Some? then 1 else 0) + |NonMaster(nodes)| + |edges|
  {
    EachLineOneNewline(nodes, edges);
    ConcatNewlines(Lines(nodes, edges));
  }

  lemma EachLineOneNewline(nodes: seq<GraphNode>, edges: seq<GraphEdge>)
    requires forall i :: 0 <= i < |nodes| ==> PlainNode(nodes[i])
    requires forall e :: 0 <= e < |edges| ==> PlainEdge(edges[e])
    ensures forall i :: 0 <= i < |Lines(nodes, edges)| ==> Newlines(Lines(nodes, edges)[i]) == 1
  {
    var ls := Lines(nodes, edges);
    var m := if MasterIndex(nodes).Some? then 1 else 0;
    var others := NonMaster(nodes);
    forall i | 0 <= i < |ls|
      ensures Newlines(ls[i]) == 1
    {
      if i == 0 {
        HeaderNewlines();
      } else if i < 1 + m {
        MasterLineNewlines(nodes[MasterIndex(nodes).value]);
      } else if i < 1 + m + |others| {
        var n := others[i - 1 - m];
        var j :| 0 <= j < |nodes| && nodes[j] == n;
        NodeLineNewlines(n);
      } else {
        EdgeLineNewlines(edges[i - 1 - m - |others|]);
      }
    }
  }

}
