/** The response validators of `schemas.ts`, written out by hand over the
    normalized value type: the recursive idea-tree node schema with its
    singleton-to-list preprocessing of `children`, the tree and response
    envelopes, and the two pass-through schemas for domain-expert opinions
    and stimulating questions with their singleton promotion.

    A failed validation is reported as the path to the first offending value:
    field names in the order the schema declares its fields, and list
    positions in list order. */
module Schemas {
  import opened Results
  import opened JsValues

  /** The four labels a node may carry. */
  datatype Label = SectionSuggestion | Question | StimulatingQuestion | DomainExpertOpinion

  function LabelText(l: Label): string
  {
    match l
    case SectionSuggestion => "AI Section Suggestion"
    case Question => "AI Question"
    case StimulatingQuestion => "AI Stimulating Question"
    case DomainExpertOpinion => "Domain Expert Opinion"
  }

  /** `z.enum([...])`: exactly the four label texts are accepted. */
  function ParseLabel(s: string): (r: Option<Label>)
    ensures r.Some? ==> LabelText(r.value) == s
    ensures r.None? ==> forall l :: LabelText(l) != s
  {
    if s == "AI Section Suggestion" then Some(SectionSuggestion)
    else if s == "AI Question" then Some(Question)
    else if s == "AI Stimulating Question" then Some(StimulatingQuestion)
    else if s == "Domain Expert Opinion" then Some(DomainExpertOpinion)
    else None
  }

  lemma ParseLabelText(l: Label)
    ensures ParseLabel(LabelText(l)) == Some(l)
  {
  }

  /** A validated idea-tree node (the `Node` interface); `kind` is its `label`. */
  datatype IdeaNode = IdeaNode(id: string, kind: Label, helper: Option<string>, content: string, children: seq<IdeaNode>)

  /** One step of an issue path: a field name or a list position. */
  datatype Segment = Field(name: string) | Index(at: nat)

  /** The path from the validated value to the first field that failed. */
  datatype Issue = Issue(path: seq<Segment>)

  /** Prefixes a failure's path with the field or position it was found under. */
  function Under<T>(key: Segment, r: Result<T, Issue>): (u: Result<T, Issue>)
    ensures u.Ok? <==> r.Ok?
    ensures u.Ok? ==> u.value == r.value
    ensures u.Err? ==> u.error.path == [key] + r.error.path
  {
    match r
    case Ok(x) => Ok(x)
    case Err(e) => Err(Issue([key] + e.path))
  }

  /** `normalizeArray`: nothing becomes the empty list, a list stays as it
      is, and anything else becomes a one-element list. */
  function NormalizeArray(v: JsValue): (r: seq<JsValue>)
    ensures v.Undefined? || v.Null? ==> r == []
    ensures v.Arr? ==> r == v.items
    ensures !v.Undefined? && !v.Null? && !v.Arr? ==> r == [v]
  {
    match v
    case Undefined => []
    case Null => []
    case Arr(items) => items
    case _ => [v]
  }

  /** Normalizing a list that `normalizeArray` produced changes nothing. */
  lemma NormalizeArrayIdempotent(v: JsValue)
    ensures NormalizeArray(Arr(NormalizeArray(v))) == NormalizeArray(v)
  {
  }

  /** The singleton promotion of the opinion and question schemas: a list
      stays as it is, any other value becomes a one-element list. */
  function Promote(v: JsValue): (r: seq<JsValue>)
    ensures |r| >= 1 || v == Arr([])
    ensures v.Arr? ==> r == v.items
    ensures !v.Arr? ==> r == [v]
  {
    if v.Arr? then v.items else [v]
  }

  lemma NormalizeArraySize(v: JsValue)
    ensures ItemsSize(NormalizeArray(v)) <= Size(v) + 1
  {
    if !v.Undefined? && !v.Null? && !v.Arr? {
      assert [v][1..] == [];
    }
  }

  /** The two preprocessors agree except on a missing or `null` value, which
      `normalizeArray` turns into an empty list and `Promote` into a list
      holding that value. */
  lemma PromoteVersusNormalize(v: JsValue)
    ensures !v.Undefined? && !v.Null? ==> Promote(v) == NormalizeArray(v)
    ensures v.Undefined? || v.Null? ==> NormalizeArray(v) == [] && Promote(v) == [v]
  {
  }

  // ---------------------------------------------------------------------------
  // nodeSchema, treeSchema, llmResponseSchema

  /** `nodeSchema`: string `id`, one of the four labels, optional string
      `helper`, string `content`, and `children` preprocessed by
      `normalizeArray` into a list of nodes. */
  function ValidateNode(v: JsValue): (r: Result<IdeaNode, Issue>)
    ensures !v.Obj? ==> r == Err(Issue([]))
    ensures v.Obj? && !Get(v.members, "content").Str? ==> r.Err?
    ensures r.Ok? ==>
      && v.Obj? && Get(v.members, "id") == Str(r.value.id)
      && Get(v.members, "label") == Str(LabelText(r.value.kind))
      && Get(v.members, "content") == Str(r.value.content)
      && |r.value.children| == |NormalizeArray(Get(v.members, "children"))|
    ensures r.Ok? ==>
      Get(v.members, "helper") == (if r.value.helper.Some? then Str(r.value.helper.value) else Undefined)
    ensures v.Obj? && !Get(v.members, "helper").Undefined? && !Get(v.members, "helper").Str? ==> r.Err?
    ensures r.Ok? ==> ValidateChildren(v.members) == Ok(r.value.children)
    ensures r.Ok? <==>
      && v.Obj? && Get(v.members, "id").Str?
      && Get(v.members, "label").Str? && ParseLabel(Get(v.members, "label").s).Some?
      && (Get(v.members, "helper").Undefined? || Get(v.members, "helper").Str?)
      && Get(v.members, "content").Str?
      && ValidateChildren(v.members).Ok?
    decreases Size(v), 1
  {
    if !v.Obj? then Err(Issue([]))
    else
      var ms := v.members;
      var id, lbl, helper, content := Get(ms, "id"), Get(ms, "label"), Get(ms, "helper"), Get(ms, "content");
      if !id.Str? then Err(Issue([Field("id")]))
      else if !lbl.Str? || ParseLabel(lbl.s).None? then Err(Issue([Field("label")]))
      else if !helper.Undefined? && !helper.Str? then Err(Issue([Field("helper")]))
      else if !content.Str? then Err(Issue([Field("content")]))
      else
        assert MembersSize(ms) < Size(v);
        match ValidateChildren(ms)
        case Err(e) => Err(e)
        case Ok(nodes) =>
          Ok(IdeaNode(id.s, ParseLabel(lbl.s).value, if helper.Str? then Some(helper.s) else None, content.s, nodes))
  }

  /** The `children` field: preprocessed into a list, then every item must
      be a valid node. The list is the first branch of a union whose second
      branch (a single node) never accepts a list, so a failure is the
      union's one issue, reported at `children` itself. */
  function ValidateChildren(ms: seq<Member>): Result<seq<IdeaNode>, Issue>
    decreases MembersSize(ms), 2
  {
    var children := NormalizeArray(Get(ms, "children"));
    assert ItemsSize(children) < MembersSize(ms) + 1 by {
      GetSmaller(ms, "children");
      NormalizeArraySize(Get(ms, "children"));
    }
    match ValidateList(children)
    case Err(_) => Err(Issue([Field("children")]))
    case Ok(nodes) => Ok(nodes)
  }

  /** The children are accepted exactly when the normalized list validates,
      and then they are the nodes it reads; a failure is reported at
      `children`. */
  lemma ValidateChildrenList(ms: seq<Member>)
    ensures ValidateChildren(ms).Ok? <==> ValidateList(NormalizeArray(Get(ms, "children"))).Ok?
    ensures ValidateChildren(ms).Ok? ==> ValidateList(NormalizeArray(Get(ms, "children"))) == ValidateChildren(ms)
    ensures ValidateChildren(ms).Err? ==> ValidateChildren(ms).error == Issue([Field("children")])
  {
  }

  /** `z.array(nodeSchema)`: every item must be a valid node. */
  function ValidateList(items: seq<JsValue>): (r: Result<seq<IdeaNode>, Issue>)
    ensures r.Ok? ==> |r.value| == |items|
    decreases ItemsSize(items), 1
  {
    ValidateItems(items, 0)
  }

  /** The items of a list from position `at` on; a failing item is reported
      under its position. */
  function ValidateItems(items: seq<JsValue>, at: nat): (r: Result<seq<IdeaNode>, Issue>)
    ensures r.Ok? ==> |r.value| == |items|
    decreases ItemsSize(items), 0
  {
    if items == [] then Ok([])
    else
      match ValidateNode(items[0])
      case Err(e) => Err(Issue([Index(at)] + e.path))
      case Ok(n) =>
        match ValidateItems(items[1..], at + 1)
        case Err(e) => Err(e)
        case Ok(ns) => Ok([n] + ns)
  }

  /** A non-empty list validates when its head and its tail do. */
  lemma ValidateItemsCons(items: seq<JsValue>, at: nat)
    requires items != []
    ensures ValidateItems(items, at).Ok? <==> ValidateNode(items[0]).Ok? && ValidateItems(items[1..], at + 1).Ok?
    ensures ValidateItems(items, at).Ok? ==>
      ValidateItems(items, at).value == [ValidateNode(items[0]).value] + ValidateItems(items[1..], at + 1).value
  {
  }

  /** `e` is what a list validator reports when, of the items of a list
      starting at position `at`, item `i` is the first that `check` rejects. */
  ghost predicate FirstFailure<T>(check: JsValue -> Result<T, Issue>, items: seq<JsValue>, at: nat, e: Issue)
  {
    exists i :: 0 <= i < |items| && check(items[i]).Err?
      && (forall j :: 0 <= j < i ==> check(items[j]).Ok?)
      && e.path == [Index(at + i)] + check(items[i]).error.path
  }

  /** A list checked item by item with `check`, from position `at` on: the
      first failing item is reported under its position. `z.array` of any
      schema that is not itself recursive is exactly this. */
  function CheckEach<T>(check: JsValue -> Result<T, Issue>, items: seq<JsValue>, at: nat): (r: Result<seq<T>, Issue>)
    ensures r.Ok? ==> |r.value| == |items|
  {
    if items == [] then Ok([])
    else
      match check(items[0])
      case Err(e) => Err(Issue([Index(at)] + e.path))
      case Ok(x) =>
        match CheckEach(check, items[1..], at + 1)
        case Err(e) => Err(e)
        case Ok(xs) => Ok([x] + xs)
  }

  /** A rejected list reports its first failing item, under that item's
      position; the position is returned. */
  lemma {:induction false} CheckEachFirstFailure<T>(check: JsValue -> Result<T, Issue>, items: seq<JsValue>, at: nat)
    returns (i: nat)
    ensures CheckEach(check, items, at).Err? ==>
      && i < |items| && check(items[i]).Err?
      && (forall k :: 0 <= k < i ==> check(items[k]).Ok?)
      && CheckEach(check, items, at).error.path == [Index(at + i)] + check(items[i]).error.path
    ensures CheckEach(check, items, at).Err? ==> FirstFailure(check, items, at, CheckEach(check, items, at).error)
  {
    var r := CheckEach(check, items, at);
    i := 0;
    if items != [] && r.Err? && check(items[0]).Ok? {
      var tail := items[1..];
      var j := CheckEachFirstFailure(check, tail, at + 1);
      i := j + 1;
      assert items[i] == tail[j];
      forall k | 0 <= k < i
        ensures check(items[k]).Ok?
      {
        if k > 0 {
          assert items[k] == tail[k - 1];
        }
      }
    }
  }

  /** A list is accepted exactly when every item is, and then item by item. */
  lemma {:induction false} CheckEachPointwise<T>(check: JsValue -> Result<T, Issue>, items: seq<JsValue>, at: nat)
    ensures CheckEach(check, items, at).Ok? <==> forall i :: 0 <= i < |items| ==> check(items[i]).Ok?
    ensures CheckEach(check, items, at).Ok? ==>
      forall i :: 0 <= i < |items| ==> check(items[i]) == Ok(CheckEach(check, items, at).value[i])
  {
    if items != [] {
      var tail := items[1..];
      CheckEachPointwise(check, tail, at + 1);
      var r := CheckEach(check, items, at);
      forall i | 1 <= i < |items|
        ensures check(items[i]) == check(tail[i - 1])
      {
        assert items[i] == tail[i - 1];
      }
      if r.Ok? {
        var xs := CheckEach(check, tail, at + 1).value;
        forall i | 0 <= i < |items|
          ensures check(items[i]) == Ok(r.value[i])
        {
          if i > 0 {
            assert r.value[i] == xs[i - 1];
          }
        }
      } else if check(items[0]).Ok? {
        var j :| 0 <= j < |tail| && check(tail[j]).Err?;
        assert check(items[j + 1]).Err?;
      }
    }
  }

  /** The node list is the item-by-item check with the node schema. */
  lemma {:induction false} ValidateItemsIsCheckEach(items: seq<JsValue>, at: nat)
    ensures ValidateItems(items, at) == CheckEach(ValidateNode, items, at)
    decreases |items|
  {
    if items != [] {
      ValidateItemsIsCheckEach(items[1..], at + 1);
    }
  }

  /** A list validates exactly when every item does. */
  lemma {:induction false} ValidateItemsAccepts(items: seq<JsValue>, at: nat)
    ensures ValidateItems(items, at).Ok? <==> forall i :: 0 <= i < |items| ==> ValidateNode(items[i]).Ok?
  {
    if items != [] {
      var tail := items[1..];
      ValidateItemsAccepts(tail, at + 1);
      ValidateItemsCons(items, at);
      if ValidateItems(items, at).Ok? {
        forall i | 1 <= i < |items|
          ensures ValidateNode(items[i]).Ok?
        {
          assert items[i] == tail[i - 1];
        }
      } else if ValidateNode(items[0]).Ok? {
        var j :| 0 <= j < |tail| && ValidateNode(tail[j]).Err?;
        assert items[j + 1] == tail[j];
      }
    }
  }

  /** An accepted list holds, item by item, the nodes its items validate to. */
  lemma {:induction false} ValidateItemsValues(items: seq<JsValue>, at: nat)
    ensures ValidateItems(items, at).Ok? ==>
      forall i :: 0 <= i < |items| ==> ValidateNode(items[i]) == Ok(ValidateItems(items, at).value[i])
  {
    var r := ValidateItems(items, at);
    if items != [] && r.Ok? {
      var tail := items[1..];
      ValidateItemsValues(tail, at + 1);
      ValidateItemsCons(items, at);
      var ns := ValidateItems(tail, at + 1).value;
      forall i | 0 <= i < |items|
        ensures ValidateNode(items[i]) == Ok(r.value[i])
      {
        if i > 0 {
          assert items[i] == tail[i - 1];
          assert r.value[i] == ns[i - 1];
        }
      }
    }
  }

  /** A rejected list reports the first failing item's issue under that
      item's position. */
  lemma ValidateItemsFirstFailure(items: seq<JsValue>, at: nat)
    ensures ValidateItems(items, at).Err? ==> FirstFailure(ValidateNode, items, at, ValidateItems(items, at).error)
  {
    ValidateItemsIsCheckEach(items, at);
    var _ := CheckEachFirstFailure(ValidateNode, items, at);
  }

  /** `z.array(nodeSchema)` accepts a list exactly when every item is a valid
      node, and then item by item; otherwise it reports the first failing
      item's issue under that item's position. */
  lemma ValidateListPointwise(items: seq<JsValue>)
    ensures ValidateList(items).Ok? <==> forall i :: 0 <= i < |items| ==> ValidateNode(items[i]).Ok?
    ensures ValidateList(items).Ok? ==>
      forall i :: 0 <= i < |items| ==> ValidateNode(items[i]) == Ok(ValidateList(items).value[i])
    ensures ValidateList(items).Err? ==> FirstFailure(ValidateNode, items, 0, ValidateList(items).error)
  {
    ValidateItemsAccepts(items, 0);
    ValidateItemsValues(items, 0);
    ValidateItemsFirstFailure(items, 0);
  }

  /** `treeSchema`: `root` must already be a list; it is not promoted. */
  function ValidateTree(v: JsValue): (r: Result<seq<IdeaNode>, Issue>)
    ensures v.Obj? && !Get(v.members, "root").Arr? ==> r.Err?
    ensures r.Ok? ==> v.Obj? && Get(v.members, "root").Arr? && |r.value| == |Get(v.members, "root").items|
    ensures r.Ok? ==> ValidateList(Get(v.members, "root").items) == Ok(r.value)
    ensures v.Obj? && Get(v.members, "root").Arr? ==> (r.Ok? <==> ValidateList(Get(v.members, "root").items).Ok?)
    ensures v.Obj? && Get(v.members, "root").Arr? && r.Err? ==>
      && |r.error.path| >= 1 && r.error.path[0] == Field("root")
      && FirstFailure(ValidateNode, Get(v.members, "root").items, 0, Issue(r.error.path[1..]))
  {
    if !v.Obj? then Err(Issue([]))
    else
      match Get(v.members, "root")
      case Arr(items) =>
        ValidateListPointwise(items);
        Under(Field("root"), ValidateList(items))
      case _ => Err(Issue([Field("root")]))
  }

  /** A record with a string `id` and a label that is not one of the four is
      reported at `label`. */
  lemma UnknownLabelRejected(ms: seq<Member>)
    requires Get(ms, "id").Str? && Get(ms, "label").Str? && ParseLabel(Get(ms, "label").s).None?
    ensures ValidateNode(Obj(ms)) == Err(Issue([Field("label")]))
  {
  }

  /** A failing node at the head of the tree's `root` list is reported at
      `tree`, `root`, position 0, then the node's own issue. */
  lemma HeadFailureReported(node: JsValue, rest: seq<JsValue>)
    requires ValidateNode(node).Err?
    ensures ValidateLlmResponse(Obj([Member("tree", Obj([Member("root", Arr([node] + rest))]))]))
      == Err(Issue([Field("tree"), Field("root"), Index(0)] + ValidateNode(node).error.path))
  {
    var items := [node] + rest;
    var tree := Obj([Member("root", Arr(items))]);
    var v := Obj([Member("tree", tree)]);
    var p := ValidateNode(node).error.path;
    assert items[0] == node;
    assert ValidateList(items) == Err(Issue([Index(0)] + p));
    assert Get(tree.members, "root") == Arr(items);
    assert ValidateTree(tree) == Err(Issue([Field("root")] + ([Index(0)] + p)));
    assert Get(v.members, "thought") == Undefined;
    assert Get(v.members, "tree") == tree;
    assert [Field("tree")] + ([Field("root")] + ([Index(0)] + p)) == [Field("tree"), Field("root"), Index(0)] + p;
  }

  /** A node with an unknown label at the head of the tree is reported at
      `tree`, `root`, position 0, `label`. */
  lemma BadLabelReportedAtItem(id: string, lbl: string, content: string, rest: seq<JsValue>)
    requires ParseLabel(lbl).None?
    ensures ValidateLlmResponse(Obj([Member("tree", Obj([Member("root", Arr(
      [Obj([Member("id", Str(id)), Member("label", Str(lbl)), Member("content", Str(content))])] + rest))]))]))
      == Err(Issue([Field("tree"), Field("root"), Index(0), Field("label")]))
  {
    var ms := [Member("id", Str(id)), Member("label", Str(lbl)), Member("content", Str(content))];
    GetCons(ms[0], ms[1..], "label");
    GetCons(ms[1], ms[2..], "label");
    assert ms[1..] == [ms[1]] + ms[2..];
    UnknownLabelRejected(ms);
    HeadFailureReported(Obj(ms), rest);
    assert [Field("tree"), Field("root"), Index(0)] + [Field("label")] == [Field("tree"), Field("root"), Index(0), Field("label")];
  }

  datatype LlmResponse = LlmResponse(thought: Option<string>, tree: seq<IdeaNode>)

  /** `llmResponseSchema`: an optional string `thought` and a `tree`. */
  function ValidateLlmResponse(v: JsValue): (r: Result<LlmResponse, Issue>)
    ensures r.Ok? ==> v.Obj? && ValidateTree(Get(v.members, "tree")) == Ok(r.value.tree)
    ensures r.Ok? ==>
      r.value.thought == (if Get(v.members, "thought").Str? then Some(Get(v.members, "thought").s) else None)
    ensures r.Ok? ==> (r.value.thought.None? <==> Get(v.members, "thought") == Undefined)
    ensures v.Obj? && ValidateTree(Get(v.members, "tree")).Err? ==> r.Err?
    ensures v.Obj? && !Get(v.members, "thought").Undefined? && !Get(v.members, "thought").Str? ==> r.Err?
    ensures (&& v.Obj? && (Get(v.members, "thought").Undefined? || Get(v.members, "thought").Str?)
             && ValidateTree(Get(v.members, "tree")).Ok?) ==> r.Ok?
  {
    if !v.Obj? then Err(Issue([]))
    else
      var thought := Get(v.members, "thought");
      if !thought.Undefined? && !thought.Str? then Err(Issue([Field("thought")]))
      else
        match Under(Field("tree"), ValidateTree(Get(v.members, "tree")))
        case Err(e) => Err(e)
        case Ok(t) => Ok(LlmResponse(if thought.Str? then Some(thought.s) else None, t))
  }

  // ---------------------------------------------------------------------------
  // The partner of the node schema: the normalized value a node comes from

  /** The normalized value of a node's XML: `helper` only when present, and
      `children` absent for no child, a single object for one child and a
      list for several, as the normalizer leaves them. */
  function NodeToJs(n: IdeaNode): JsValue
    decreases n, 2
  {
    Obj(
      [Member("id", Str(n.id)), Member("label", Str(LabelText(n.kind)))]
      + (if n.helper.Some? then [Member("helper", Str(n.helper.value))] else [])
      + [Member("content", Str(n.content))]
      + ChildrenMembers(n.children))
  }

  function ChildrenMembers(ns: seq<IdeaNode>): seq<Member>
    decreases ns, 1
  {
    if |ns| == 0 then []
    else if |ns| == 1 then [Member("children", NodeToJs(ns[0]))]
    else [Member("children", Arr(NodesToJs(ns)))]
  }

  function NodesToJs(ns: seq<IdeaNode>): (r: seq<JsValue>)
    ensures |r| == |ns|
    decreases ns, 0
  {
    if ns == [] then [] else [NodeToJs(ns[0])] + NodesToJs(ns[1..])
  }

  lemma {:induction false} NodesToJsAt(ns: seq<IdeaNode>, i: nat)
    requires i < |ns|
    ensures NodesToJs(ns)[i] == NodeToJs(ns[i])
  {
    if i > 0 {
      NodesToJsAt(ns[1..], i - 1);
    }
  }

  /** The children of `NodeToJs(n)`, whichever of the three shapes they take,
      normalize back to the list of the children's values. */
  lemma ChildrenNormalize(n: IdeaNode)
    ensures NormalizeArray(Get(NodeToJs(n).members, "children")) == NodesToJs(n.children)
  {
    var ms := NodeToJs(n).members;
    var cs := ChildrenMembers(n.children);
    var head := [Member("id", Str(n.id)), Member("label", Str(LabelText(n.kind)))]
      + (if n.helper.Some? then [Member("helper", Str(n.helper.value))] else [])
      + [Member("content", Str(n.content))];
    assert ms == head + cs;
    GetAppendAbsent(head, cs, "children");
    if |n.children| == 1 {
      assert NodesToJs(n.children) == [NodeToJs(n.children[0])] by {
        assert n.children[1..] == [];
      }
    }
  }

  /** Looking a name up past members that do not carry it. */
  lemma {:induction false} GetAppendAbsent(a: seq<Member>, b: seq<Member>, k: string)
    requires forall i :: 0 <= i < |a| ==> a[i].key != k
    ensures Get(a + b, k) == Get(b, k)
  {
    if a != [] {
      assert (a + b)[1..] == a[1..] + b;
      GetAppendAbsent(a[1..], b, k);
    } else {
      assert a + b == b;
    }
  }

  /** Looking a name up that an earlier member carries. */
  lemma {:induction false} GetAppendPresent(a: seq<Member>, b: seq<Member>, k: string)
    requires HasKey(a, k)
    ensures Get(a + b, k) == Get(a, k)
  {
    assert (a + b)[0] == a[0];
    if a[0].key != k {
      assert (a + b)[1..] == a[1..] + b;
      var i :| 0 <= i < |a| && a[i].key == k;
      assert a[1..][i - 1].key == k;
      GetAppendPresent(a[1..], b, k);
    }
  }

  /** Validation reads back exactly the node its normalized value was built
      from: for zero, one or many children alike the result is the list of
      child nodes. */
  lemma {:induction false} ValidateNodeToJs(n: IdeaNode)
    ensures ValidateNode(NodeToJs(n)) == Ok(n)
    decreases n, 1
  {
    var v := NodeToJs(n);
    var ms := v.members;
    ChildrenNormalize(n);
    NodeFields(n);
    ValidateNodesToJs(n.children, 0);
    assert ValidateChildren(ms) == Ok(n.children);
    ParseLabelText(n.kind);
  }

  /** The scalar fields of `NodeToJs(n)` hold what `n` holds. */
  lemma NodeFields(n: IdeaNode)
    ensures var ms := NodeToJs(n).members;
      && Get(ms, "id") == Str(n.id)
      && Get(ms, "label") == Str(LabelText(n.kind))
      && Get(ms, "helper") == (if n.helper.Some? then Str(n.helper.value) else Undefined)
      && Get(ms, "content") == Str(n.content)
  {
    var mi := Member("id", Str(n.id));
    var ml := Member("label", Str(LabelText(n.kind)));
    var mid := NodeRest(n);
    assert NodeToJs(n).members == [mi] + ([ml] + mid);
    NodeRestFields(n);
    GetCons(mi, [ml] + mid, "id");
    GetCons(mi, [ml] + mid, "label");
    GetCons(mi, [ml] + mid, "helper");
    GetCons(mi, [ml] + mid, "content");
    GetCons(ml, mid, "label");
    GetCons(ml, mid, "helper");
    GetCons(ml, mid, "content");
  }

  /** The members of `NodeToJs(n)` after `id` and `label`. */
  function NodeRest(n: IdeaNode): seq<Member>
  {
    (if n.helper.Some? then [Member("helper", Str(n.helper.value))] else [])
      + [Member("content", Str(n.content))]
      + ChildrenMembers(n.children)
  }

  lemma NodeRestFields(n: IdeaNode)
    ensures Get(NodeRest(n), "helper") == (if n.helper.Some? then Str(n.helper.value) else Undefined)
    ensures Get(NodeRest(n), "content") == Str(n.content)
  {
    var cs := ChildrenMembers(n.children);
    var mc := Member("content", Str(n.content));
    var tail := [mc] + cs;
    assert forall i :: 0 <= i < |cs| ==> cs[i].key == "children";
    GetCons(mc, cs, "content");
    GetCons(mc, cs, "helper");
    if n.helper.Some? {
      var mh := Member("helper", Str(n.helper.value));
      assert NodeRest(n) == [mh] + tail;
      GetCons(mh, tail, "helper");
      GetCons(mh, tail, "content");
    } else {
      assert NodeRest(n) == tail;
    }
  }

  lemma GetCons(m: Member, rest: seq<Member>, k: string)
    ensures Get([m] + rest, k) == if m.key == k then m.value else Get(rest, k)
  {
    assert ([m] + rest)[1..] == rest;
  }

  /** A list of node values, starting at any position, validates to those
      nodes. */
  lemma {:induction false} ValidateNodesToJs(ns: seq<IdeaNode>, at: nat)
    ensures ValidateItems(NodesToJs(ns), at) == Ok(ns)
    decreases ns, 0
  {
    if ns != [] {
      var items := NodesToJs(ns);
      assert items[0] == NodeToJs(ns[0]) && items[1..] == NodesToJs(ns[1..]);
      ValidateNodeToJs(ns[0]);
      ValidateNodesToJs(ns[1..], at + 1);
      assert ValidateNode(items[0]) == Ok(ns[0]);
      assert ValidateItems(items[1..], at + 1) == Ok(ns[1..]);
      assert ValidateItems(items, at) == Ok([ns[0]] + ns[1..]);
      assert ns == [ns[0]] + ns[1..];
    }
  }

  /** The tree schema accepts a list of normalized node values and reads the
      nodes back. */
  lemma ValidateTreeNodesToJs(ns: seq<IdeaNode>)
    ensures ValidateTree(Obj([Member("root", Arr(NodesToJs(ns)))])) == Ok(ns)
  {
    ValidateNodesToJs(ns, 0);
    assert Get([Member("root", Arr(NodesToJs(ns)))], "root") == Arr(NodesToJs(ns));
  }

  // ---------------------------------------------------------------------------
  // DomainExpertResponseSchema, StimulatingQuestionResponseSchema

  /** An opinion or a question: string `name` and `thoughts`; the record's
      members are passed through as they came. */
  datatype PeerItem = PeerItem(name: string, thoughts: string, members: seq<Member>)

  /** `OpinionSchema` / `QuestionSchema` (`.passthrough()`). */
  function ValidatePeer(v: JsValue): (r: Result<PeerItem, Issue>)
    ensures r.Ok? <==> v.Obj? && Get(v.members, "name").Str? && Get(v.members, "thoughts").Str?
    ensures r.Ok? ==>
      && r.value.members == v.members
      && Str(r.value.name) == Get(v.members, "name") && Str(r.value.thoughts) == Get(v.members, "thoughts")
  {
    if !v.Obj? then Err(Issue([]))
    else
      var name, thoughts := Get(v.members, "name"), Get(v.members, "thoughts");
      if !name.Str? then Err(Issue([Field("name")]))
      else if !thoughts.Str? then Err(Issue([Field("thoughts")]))
      else Ok(PeerItem(name.s, thoughts.s, v.members))
  }

  /** `z.array(OpinionSchema)` / `z.array(QuestionSchema)`: every record
      must be valid; the first failing record is reported under its
      position. */
  function ValidatePeers(items: seq<JsValue>): (r: Result<seq<PeerItem>, Issue>)
    ensures r.Ok? <==> forall i :: 0 <= i < |items| ==> ValidatePeer(items[i]).Ok?
    ensures r.Ok? ==> |r.value| == |items| && forall i :: 0 <= i < |items| ==> ValidatePeer(items[i]) == Ok(r.value[i])
    ensures r.Err? ==> FirstFailure(ValidatePeer, items, 0, r.error)
  {
    CheckEachPointwise(ValidatePeer, items, 0);
    assert CheckEach(ValidatePeer, items, 0).Err? ==>
      FirstFailure(ValidatePeer, items, 0, CheckEach(ValidatePeer, items, 0).error) by {
      var _ := CheckEachFirstFailure(ValidatePeer, items, 0);
    }
    CheckEach(ValidatePeer, items, 0)
  }

  /** The list under `outer.inner` (`opinions.opinion`,
      `output.questions.question`), promoted to a list when it is a single
      record. */
  function ValidatePromoted(v: JsValue, container: string, item: string): (r: Result<seq<PeerItem>, Issue>)
    ensures r.Ok? ==>
      && v.Obj? && Get(v.members, container).Obj?
      && ValidatePeers(Promote(Get(Get(v.members, container).members, item))) == Ok(r.value)
    ensures v.Obj? && Get(v.members, container).Obj? ==>
      (r.Ok? <==> ValidatePeers(Promote(Get(Get(v.members, container).members, item))).Ok?)
    ensures v.Obj? && Get(v.members, container).Obj? && r.Err? ==>
      r.error.path == [Field(container), Field(item)] + ValidatePeers(Promote(Get(Get(v.members, container).members, item))).error.path
  {
    if !v.Obj? then Err(Issue([]))
    else
      match Get(v.members, container)
      case Obj(cms) => Under(Field(container), Under(Field(item), ValidatePeers(Promote(Get(cms, item)))))
      case _ => Err(Issue([Field(container)]))
  }

  /** `DomainExpertResponseSchema`: the opinions under `opinions.opinion`. */
  function ValidateDomainExpertResponse(v: JsValue): (r: Result<seq<PeerItem>, Issue>)
    ensures r.Ok? <==> (v.Obj? && Get(v.members, "opinions").Obj? &&
      forall i :: 0 <= i < |Promote(Get(Get(v.members, "opinions").members, "opinion"))| ==>
        ValidatePeer(Promote(Get(Get(v.members, "opinions").members, "opinion"))[i]).Ok?)
    ensures r.Ok? ==> |r.value| == |Promote(Get(Get(v.members, "opinions").members, "opinion"))|
    ensures r.Ok? ==> ValidatePeers(Promote(Get(Get(v.members, "opinions").members, "opinion"))) == Ok(r.value)
    ensures v.Obj? && !Get(v.members, "opinions").Obj? ==> r == Err(Issue([Field("opinions")]))
  {
    if v.Obj? && Get(v.members, "opinions").Obj? then
      var items := Promote(Get(Get(v.members, "opinions").members, "opinion"));
      var r := ValidatePromoted(v, "opinions", "opinion");
      assert r.Ok? <==> ValidatePeers(items).Ok?;
      assert ValidatePeers(items).Ok? <==> forall i :: 0 <= i < |items| ==> ValidatePeer(items[i]).Ok?;
      assert items == Promote(Get(Get(v.members, "opinions").members, "opinion"));
      assert r.Ok? <==> forall i :: 0 <= i < |items| ==> ValidatePeer(items[i]).Ok?;
      r
    else
      ValidatePromoted(v, "opinions", "opinion")
  }

  /** `StimulatingQuestionResponseSchema`: the questions under
      `output.questions.question`. */
  function ValidateStimulatingQuestionResponse(v: JsValue): (r: Result<seq<PeerItem>, Issue>)
    ensures v.Obj? && Get(v.members, "output").Obj? ==>
      r == Under(Field("output"), ValidatePromoted(Get(v.members, "output"), "questions", "question"))
    ensures !v.Obj? || !Get(v.members, "output").Obj? ==> r.Err?
  {
    if !v.Obj? then Err(Issue([]))
    else
      match Get(v.members, "output")
      case Obj(_) => Under(Field("output"), ValidatePromoted(Get(v.members, "output"), "questions", "question"))
      case _ => Err(Issue([Field("output")]))
  }

  /** A single opinion record validates as a one-element list. */
  lemma SingleOpinionPromoted(rest: seq<Member>, op: JsValue)
    requires !op.Arr? && ValidatePeer(op).Ok?
    ensures ValidateDomainExpertResponse(Obj([Member("opinions", Obj([Member("opinion", op)]))] + rest))
      == Ok([ValidatePeer(op).value])
  {
    var cms := [Member("opinion", op)];
    var ms := [Member("opinions", Obj(cms))] + rest;
    GetCons(Member("opinions", Obj(cms)), rest, "opinions");
    assert Get(cms, "opinion") == op;
    var items := Promote(op);
    assert items == [op] && items[1..] == [];
    assert ValidatePeers(items[1..]) == Ok([]);
    assert ValidatePeers(items) == Ok([ValidatePeer(op).value] + []);
    assert [ValidatePeer(op).value] + [] == [ValidatePeer(op).value];
    assert ValidatePromoted(Obj(ms), "opinions", "opinion")
      == Under(Field("opinions"), Under(Field("opinion"), ValidatePeers(items)));
  }

  /** A missing `opinion` is promoted to `[undefined]` and rejected, where a
      missing `children` is accepted as no children. */
  lemma MissingOpinionRejected(v: JsValue)
    requires v.Obj? && Get(v.members, "opinions").Obj? && Get(Get(v.members, "opinions").members, "opinion") == Undefined
    ensures ValidateDomainExpertResponse(v).Err?
    ensures NormalizeArray(Get(Get(v.members, "opinions").members, "opinion")) == []
  {
    var items := Promote(Undefined);
    assert items == [Undefined];
    assert ValidatePeer(items[0]).Err?;
  }

  /** A single `<root>` element (normalized to an object, not a list) fails
      the tree schema. */
  lemma SingleRootRejected(root: JsValue, rest: seq<Member>)
    requires root.Obj?
    ensures ValidateTree(Obj([Member("root", root)] + rest)).Err?
  {
    var ms := [Member("root", root)] + rest;
    assert ms[0].key == "root";
  }

}
