# ai-scamper: text/tree transcoding and graph materialization, in Dafny

This project models the part of ai-scamper that sits between the language
model and the flow graph:

- **Encoder** (`jsonToXml`). A record becomes a run of sibling XML tag pairs.
  Tag names and text are escaped with the predefined entities of section 4.6
  of XML 1.0.
- **Decoder** (`xmlToJson`). The model's reply is wrapped in `<_root>`,
  pre-escaped by four chained replaces and handed to a compact-mode XML
  parser. The parser's tree is then unwrapped (`transformJsonFromXmljs`) and
  normalized (`processXmljsNode`).
- **Response schemas** (`schemas.ts`). These are the recursive idea-tree node
  schema with its `normalizeArray` preprocessing, the tree and response
  envelopes, and the opinion and question schemas with their singleton
  promotion.
- **Materializer** (`generateRootNodesAndEdges`, `generatePeerNodes`). It
  turns a validated forest into positioned graph nodes and parent edges.
- **Store** (`app/lib/store.ts`). These are the graph state and its
  transitions.
- **Mermaid export** (`convertReactFlowToMermaid`). It turns the graph back
  into text for the next prompt.

Files and modules, one module per file:

| file | module | models |
|---|---|---|
| results.dfy | Results | `Option`, `Result` |
| text.dfy | Text | global single-character replace, per-character substitution, decimal rendering |
| jsvalues.dfy | JsValues | the untyped JavaScript values the core passes around (member order = enumeration order) |
| encoder.dfy | Encoder | `jsonToXml`, `escapeXmlTag`, `escapeXmlValue`, plus the element tree the output spells and a reader for it |
| normalizer.dfy | Normalizer | `processXmljsNode`, `transformJsonFromXmljs` |
| decoder.dfy | Decoder | `xmlToJson` |
| schemas.dfy | Schemas | `normalizeArray`, `nodeSchema`, `treeSchema`, `llmResponseSchema`, the opinion and question schemas |
| graph.dfy | Graph | flow nodes, edges, agents |
| materializer.dfy | Materializer | `generateRootNodesAndEdges`, `generatePeerNodes` |
| store.dfy | Store | the store's state and actions |
| mermaid.dfy | Mermaid | `convertReactFlowToMermaid` |

Each operation is paired with a property that does not restate it:

- **Encoder.** The escaping is one per-character rewrite, and unescaping
  inverts it. The encoder's output is the rendering of an element tree
  (`Forest`). For a record in which no key, at any depth, starts with `/`,
  that tree is read back from the text unambiguously.
- **Decoder.** The pre-escape pass loses nothing: collapsing its references
  gives back the wrapped reply. The decoded value is the parser's tree,
  unwrapped and normalized.
- **Normalizer.** Normalizing a parser-shaped tree yields a canonical value.
  Canonical values are fixed points, so normalization is idempotent.
- **Schemas.** The node validator accepts every value `NodeToJs` (the
  normalized value of a node's XML) produces, and returns the node back.
  The tree schema does the same for a list of such values.
- **Materializer.** The depth-first pass emits exactly what an independent
  pre-order `Plan` prescribes. From that follow the ids, data, layout and
  edge count, and that every edge joins a node to its recorded parent.
- **Store.** Every anchored run of actions from the initial state keeps
  every edge joining two nodes.
- **Mermaid export.** The export has a header line, then a line for the
  first master node if there is one, then one line per node that is not a
  master node, then one line per edge. Any further master node is printed
  nowhere.

The XML parser, `nanoid` and `fetch` are parameters or are left out (see
below).

## Model

Some functions have no row of their own, because the lemmas about them carry
their contracts:
- `Materializer.Generate` and `Materializer.GenerateFrom` are described by
  the rows for `GenerateMatchesPlan`, `GenerateFromCons`, `GenerateNodes`,
  `GenerateLayout`, `TopLevelPosition`, `EdgeCount` and
  `GenerateEdgesJoinNodes`.
- `Encoder.EncodeRepeated`, `Encoder.EncodeItem` and `Encoder.EncodeIndexed`
  are described by `EncodeRepeatedRenders`, `EncodeItemRenders`,
  `EncodeIndexedRenders` and `RepeatedForest`.
- `Mermaid.MasterLine`, `Mermaid.NodeLine` and `Mermaid.EdgeLine` are
  described by `MasterLineNewlines`, `NodeLineNewlines`, `EdgeLineNewlines`
  and `Lines`.

| member | source | states |
|---|---|---|
| Text.ReplaceAllLength | app/lib/xml-js/jsonToXml.ts:63-66 | a global replace of `c` by `rep` grows the text by the length of `rep` minus one per occurrence of `c` |
| Text.ReplaceAllAppend | app/lib/xml-js/jsonToXml.ts:63-66 | a global replace distributes over concatenation |
| Text.ReplaceAllAbsent | app/lib/xml-js/jsonToXml.ts:63-66 | a global replace of an absent character changes nothing |
| Text.ReplaceAllRemoves | app/lib/xml-js/jsonToXml.ts:63-66 | replacing a character by text without it leaves none of it behind |
| Text.ReplaceAllKeepsOut | app/lib/xml-js/jsonToXml.ts:63-66 | a replace introduces no character that is in neither the text nor the replacement |
| Text.NatToString | app/lib/xml-js/jsonToXml.ts:14 | an array index renders as a non-empty run of decimal digits, without a leading zero, whose value is the index |
| Text.IntToString | app/lib/xml-js/jsonToXml.ts:69-71 | `String(n)` starts with `-` exactly for negative numbers, and the digits after any sign denote the absolute value of `n` |
| JsValues.Get | app/lib/xml-js/jsonToXml.ts:17 | a lookup gives `undefined` for an absent key and otherwise the value of a member with that key |
| Encoder.EscapeMarkupPerChar | app/lib/xml-js/jsonToXml.ts:63-75 | because `&` is replaced first, the three chained replaces equal one per-character escape |
| Encoder.EscapeMarkup | app/lib/xml-js/jsonToXml.ts:63-66 | escaped text contains neither `<` nor `>` |
| Encoder.EscapeMarkupFirst | app/lib/xml-js/jsonToXml.ts:63-66 | escaping keeps text empty exactly when it was, and keeps a leading `/` exactly when there was one |
| Encoder.UnescapeEscape | app/lib/xml-js/jsonToXml.ts:69-75 | reading the three entities back recovers every escaped string |
| Encoder.EscapeValue | app/lib/xml-js/jsonToXml.ts:69-75 | a leaf's escaped text holds no markup delimiter, and resolving its entities gives back the value's string form |
| Encoder.JsonToXml | app/lib/xml-js/jsonToXml.ts:12-60 | the output is empty exactly for an empty record; otherwise it opens with `<`, closes with `>` and holds as many `<` as `>` |
| Encoder.EncodeMember | app/lib/xml-js/jsonToXml.ts:19-56 | every member, an empty value included, writes a non-empty fragment that opens with `<`, closes with `>` and is balanced |
| Encoder.EscapeAmpersand | app/lib/xml-js/jsonToXml.ts:72 | an `&` between plain text becomes `&amp;` and nothing else changes |
| Encoder.EscapePlain | app/lib/xml-js/jsonToXml.ts:63-66 | text without `&`, `<`, `>` is left unchanged |
| Encoder.MemberForest | app/lib/xml-js/jsonToXml.ts:19-56 | a member spells at least one element, all named by the escaped key; a non-empty array spells one element per item, in order; anything else spells exactly one |
| Encoder.RepeatedForest | app/lib/xml-js/jsonToXml.ts:29-39 | the array branch yields exactly one element per item, in item order |
| Encoder.EncodeRendersForest | app/lib/xml-js/jsonToXml.ts:14-60 | the encoder's output is exactly the rendering of the record's element tree, member by member |
| Encoder.EncodeMemberRenders | app/lib/xml-js/jsonToXml.ts:19-56 | each branch (null, empty array, array, empty object, object, primitive) writes the tag pairs of its elements |
| Encoder.EncodeRepeatedRenders | app/lib/xml-js/jsonToXml.ts:29-39 | the array loop writes one tag pair per element |
| Encoder.EncodeItemRenders | app/lib/xml-js/jsonToXml.ts:30-37 | an object-typed array element is encoded recursively, any other is escaped text |
| Encoder.EncodeIndexedRenders | app/lib/xml-js/jsonToXml.ts:14 | an array passed as a record is enumerated under the index names `0`, `1`, ... |
| Encoder.JsonToXmlAppend | app/lib/xml-js/jsonToXml.ts:12-60 | the encoding of a record is the concatenation of its members' fragments in enumeration order |
| Encoder.EncodeStringMember | app/lib/xml-js/jsonToXml.ts:51-56 | a string member becomes `<k>v</k>` with key and value escaped |
| Encoder.ReadBackRender | app/lib/xml-js/jsonToXml.ts:14-60 | the whole text of a well-formed tree reads back as that tree and nothing else |
| Encoder.ReadBackEncoding | app/lib/xml-js/jsonToXml.ts:2-61 | for a record in which no key, at any depth, starts with `/`, the encoder's output determines its element tree: reading it back gives `Forest(record)` |
| Normalizer.ProcessNode | app/lib/xml-js/processXmljsNode.ts:3-44 | primitives pass through; empty arrays and objects become `undefined`; arrays keep length and order; a `_text`-only object becomes its text; otherwise exactly the non-`_text` keys remain |
| Normalizer.ProcessItems | app/lib/xml-js/processXmljsNode.ts:12-19 | array elements are normalized one by one, length kept |
| Normalizer.ProcessMembers | app/lib/xml-js/processXmljsNode.ts:33-43 | the result has exactly the input's keys other than `_text` |
| Normalizer.ProcessMembersAppend | app/lib/xml-js/processXmljsNode.ts:33-43 | members are processed one at a time and kept in order: `_text` is dropped and any other member keeps its name with its value normalized |
| Normalizer.ProcessMembersGet | app/lib/xml-js/processXmljsNode.ts:33-43 | `result[k]` is the normalization of `node[k]` for every key other than `_text` |
| Normalizer.TransformRoot | app/lib/xml-js/transformJsonFromXmljs.ts:4-24 | a non-object passes through; with a `_root` member only that member is normalized; otherwise the whole value is |
| Normalizer.EmptyRootIsUndefined | app/lib/xml-js/transformJsonFromXmljs.ts:9-16 | an empty `<_root></_root>` decodes to `undefined`, whatever siblings it has |
| Normalizer.RootSiblingsIgnored | app/lib/xml-js/transformJsonFromXmljs.ts:9-16 | members beside `_root` have no effect on the result |
| Normalizer.ProcessCompactIsCanonical | app/lib/xml-js/processXmljsNode.ts:3-44 | the normalization of any parser-shaped tree is canonical: no empty containers, no `_text` keys |
| Normalizer.CanonicalIsFixed | app/lib/xml-js/processXmljsNode.ts:3-44 | a canonical value is a fixed point of the normalizer |
| Normalizer.TextObjectNotIdempotent | app/lib/xml-js/processXmljsNode.ts:29-31 | off parser-shaped trees a second pass can differ: `{a: {_text: {}}}` gives `{a: {}}`, then `{a: undefined}` |
| Normalizer.ProcessIdempotent | app/lib/xml-js/processXmljsNode.ts:3-44 | on every parser-shaped (compact) tree, normalizing twice is normalizing once |
| Normalizer.TransformCompactIsCanonical | app/lib/xml-js/transformJsonFromXmljs.ts:4-24 | unwrapping and normalizing a parser-shaped tree yields a canonical value |
| Decoder.Wrap | app/lib/xml-js/xmlToJson.ts:6 | the wrapper adds exactly the 15 characters of `<_root>` and `</_root>` |
| Decoder.ChainAppend | app/lib/xml-js/xmlToJson.ts:6-10 | the four chained replaces distribute over concatenation |
| Decoder.ChainPerChar | app/lib/xml-js/xmlToJson.ts:6-10 | because `&` is replaced first, the chain equals one per-character rewrite |
| Decoder.SubstPreCharPlain | app/lib/xml-js/xmlToJson.ts:7-10 | text without `&`, `-`, `"`, `'` passes through unchanged |
| Decoder.PreEscapeShape | app/lib/xml-js/xmlToJson.ts:6-10 | the `<_root>` tags survive the pre-pass; only the reply between them is rewritten |
| Decoder.PreEscape | app/lib/xml-js/xmlToJson.ts:6-10 | resolving the four references gives back the wrapped reply exactly (nothing is lost, and pre-existing references come back as literal text); no `-`, `"` or `'` is left; every `&` starts one of the four references |
| Decoder.PreEscapeLength | app/lib/xml-js/xmlToJson.ts:6-10 | the pre-pass output length is the input length plus 15 plus 4, 4, 5, 5 per `&`, `-`, `"`, `'` |
| Decoder.XmlToJson | app/lib/xml-js/xmlToJson.ts:4-22 | a parse failure is rethrown unchanged and only then is the result an error; otherwise the result is the parser's tree unwrapped and normalized, and a parser-shaped tree decodes to a canonical value |
| Schemas.ParseLabel | app/schemas/schemas.ts:50-55 | exactly the four label texts are accepted, each as its own label |
| Schemas.ParseLabelText | app/schemas/schemas.ts:50-55 | every label's text parses back to that label |
| Schemas.Under | app/schemas/schemas.ts:47-63 | a nested failure is reported under the field name or list position it was found at; success is unchanged |
| Schemas.NormalizeArray | app/schemas/schemas.ts:39-45 | `undefined`/`null` become the empty list, a list is kept, anything else becomes a one-element list |
| Schemas.NormalizeArrayIdempotent | app/schemas/schemas.ts:39-45 | normalizing a normalized list changes nothing |
| Schemas.Promote | app/schemas/schemas.ts:85-88 | the singleton promotion keeps a list and wraps anything else, so only an empty list yields no items |
| Schemas.PromoteVersusNormalize | app/schemas/schemas.ts:39-45 | the two preprocessors agree except on `undefined`/`null`, which only `normalizeArray` drops |
| Schemas.ValidateNode | app/schemas/schemas.ts:47-63 | a node is accepted exactly when it is an object with string `id`, a known `label`, a missing or string `helper`, string `content` and valid `children`; an accepted node carries the record's id, label, helper, content and the children the `children` field reads |
| Schemas.ValidateChildrenList | app/schemas/schemas.ts:58-61 | the `children` field is accepted exactly when its normalized list validates, and then gives that list's nodes; a failure is the union's single issue, at `children` itself |
| Schemas.ValidateList | app/schemas/schemas.ts:60 | an accepted list has one node per item |
| Schemas.ValidateListPointwise | app/schemas/schemas.ts:60 | a list is accepted exactly when every item is, and then item by item; otherwise the issue is the first failing item's, under that item's position |
| Schemas.ValidateTree | app/schemas/schemas.ts:65-67 | `root` must be a list (it is not promoted); a tree with a list `root` is accepted exactly when that list validates, and gives its nodes; a failure inside the list is reported at `root`, then the first failing item's position and issue |
| Schemas.UnknownLabelRejected | app/schemas/schemas.ts:49-55 | a record with a string `id` and a label that is not one of the four is reported at `label` |
| Schemas.HeadFailureReported | app/schemas/schemas.ts:65-72 | a failing node at the head of the tree's `root` list is reported at `tree`, `root`, position 0, then the node's own issue |
| Schemas.BadLabelReportedAtItem | app/schemas/schemas.ts:65-72 | a node with an unknown label at the head of the tree is reported at `tree`, `root`, position 0, `label` |
| Schemas.ValidateTreeNodesToJs | app/schemas/schemas.ts:65-67 | a `root` list of node values validates to those nodes |
| Schemas.ValidateLlmResponse | app/schemas/schemas.ts:69-72 | an object is accepted exactly when `thought` is missing or a string and `tree` is valid; the result carries that thought and that tree |
| Schemas.ChildrenNormalize | app/schemas/schemas.ts:58-61 | the normalized `children` of a node's value are its children's values, whether none, one or several |
| Schemas.ValidateNodeToJs | app/schemas/schemas.ts:47-63 | the node schema accepts the value of every node and gives that node back |
| Schemas.ValidateNodesToJs | app/schemas/schemas.ts:60 | a list of node values validates to those nodes, wherever the list's positions start |
| Schemas.NodeFields | app/schemas/schemas.ts:27-37 | a node's value carries its id, label text, optional helper and content under the schema's field names |
| Schemas.ValidatePeer | app/schemas/schemas.ts:74-79 | accepted exactly when `name` and `thoughts` are strings; all members pass through |
| Schemas.CheckEachPointwise | app/schemas/schemas.ts:87 | `z.array` of a schema accepts a list exactly when every item is accepted, and then holds the items' values in order |
| Schemas.CheckEachFirstFailure | app/schemas/schemas.ts:87 | a rejected list reports its first failing item's issue under that item's position |
| Schemas.ValidatePeers | app/schemas/schemas.ts:85-88 | a list is accepted exactly when every record is, item by item; otherwise the issue is the first failing record's, under that record's position |
| Schemas.ValidatePromoted | app/schemas/schemas.ts:81-92 | the records under `outer.inner`, promoted to a list, are validated one by one, and a failing record is reported under `outer`, `inner` and its position |
| Schemas.ValidateDomainExpertResponse | app/schemas/schemas.ts:81-92 | accepted exactly when `opinions` is an object and every promoted `opinion` record is valid, and then the result is those records, one per record; a non-object `opinions` is reported at `opinions` |
| Schemas.ValidateStimulatingQuestionResponse | app/schemas/schemas.ts:101-116 | a non-object `output` is rejected; otherwise the promoted `output.questions.question` records are validated |
| Schemas.SingleOpinionPromoted | app/schemas/schemas.ts:85-88 | a single opinion record is accepted as a one-element list |
| Schemas.MissingOpinionRejected | app/schemas/schemas.ts:85-88 | a missing `opinion` is promoted to `[undefined]` and rejected, unlike a missing `children` |
| Schemas.SingleRootRejected | app/schemas/schemas.ts:65-67 | a single `root` object (what the normalizer makes of one `<root>` element) fails the tree schema |
| Materializer.PlanSections | app/lib/store.ts:78-113 | the plan lists the forest's sections in pre-order |
| Materializer.PlanNumbers | app/lib/store.ts:78-113 | slot `k` is numbered `first + k`; a nested slot's parent is an earlier slot |
| Materializer.PlanRoots | app/lib/store.ts:78-113 | a top-level plan has exactly one parentless slot per top-level section |
| Materializer.GenerateMatchesPlan | app/lib/store.ts:68-116 | the depth-first pass emits exactly the nodes and edges of the pre-order plan, in order |
| Materializer.GenerateFromCons | app/lib/store.ts:78-113 | one sibling contributes its node, its optional edge, then its subtree's output, then the later siblings' output |
| Materializer.GenerateNodes | app/lib/store.ts:78-113 | one `AIGeneratedNode` per section in pre-order, the `k`-th with the `k`-th id and the section's label, content and helper |
| Materializer.GenerateLayout | app/lib/store.ts:88-108 | each node sits at `(x + 1000d, y + 700d + 200i)`; a top-level node records the pass's parent, a nested one an earlier node |
| Materializer.TopLevelPosition | app/lib/store.ts:88-90 | the `i`-th top-level section sits 200·i below the origin under the pass's parent |
| Materializer.EdgeCount | app/lib/store.ts:94-112 | every node gets an edge except the top-level ones when the parent id is falsy |
| Materializer.GenerateEdgesJoinNodes | app/lib/store.ts:94-111 | every edge targets a generated node whose recorded parent is the edge's source, and that source is the pass's parent or an earlier node |
| Materializer.PeerBatch | app/lib/store.ts:118-150 | one node and one `parentId -> node` edge per record, in order, every node at the same position |
| Materializer.GeneratePeerNodes | app/lib/store.ts:128-148 | the loop builds exactly that batch |
| Store.Initial | app/lib/store.ts:159-205 | the master node `root` with empty problem and goal, no edges, two unselected agents |
| Store.Merge | app/lib/store.ts:266-269 | the existing nodes and edges stay in front, unchanged; the batch follows; agents are untouched |
| Store.SelectedAgents | app/lib/store.ts:285 | exactly the selected agents, drawn from the list |
| Store.SelectedAgentsAppend | app/lib/store.ts:285 | the filter keeps order: it distributes over concatenation |
| Store.StartBrainstorming | app/lib/store.ts:252-271 | the existing nodes, edges and agents stay; one `AIGeneratedNode` per section follows in pre-order, with the next ids and the section's fields |
| Store.DomainExpertOpinions | app/lib/store.ts:272-302 | the existing nodes, edges and agents stay; one opinion node at the origin and one edge from the parent to it follow per record, in order |
| Store.StimulatingQuestions | app/lib/store.ts:303-333 | the existing nodes, edges and agents stay; one question node at the origin and one edge from the parent to it follow per record, in order |
| Store.StartBrainstormingCounts | app/lib/store.ts:252-271 | brainstorming adds one node per section and one edge per section (the top-level ones only when the parent id is truthy) |
| Store.AddChildNode | app/lib/store.ts:231-251 | appends one `UserNode` with an empty label under the parent and one edge from it |
| Store.SetData | app/lib/store.ts:184-193 | only the data of nodes with the given id changes; ids, types, positions and parents stay |
| Store.UpdateNodeData | app/lib/store.ts:184-193 | nodes with the id get the new data, every other node and all edges and agents are unchanged |
| Store.UpdateNodeDataIdempotent | app/lib/store.ts:184-193 | updating twice with the same data is updating once |
| Store.UpdateNodeDataAbsent | app/lib/store.ts:184-193 | an unknown id changes nothing |
| Store.ReplaceAgent | app/lib/store.ts:206-215 | agents with the role are replaced, others kept, length kept |
| Store.UpdateAgents | app/lib/store.ts:206-225 | every agent with the role becomes the given agent; roles, order, nodes and edges are kept |
| Store.AddAgent | app/lib/store.ts:226-230 | the agent is appended after the existing ones |
| Store.UpdateAgentsIdempotent | app/lib/store.ts:206-215 | updating an agent twice is updating once |
| Store.AddThenUpdate | app/lib/store.ts:216-230 | for an agent added under a role no other agent has, updating that role is the same as adding the updated agent |
| Store.MergeIntegral | app/lib/store.ts:266-269 | merging a batch whose edges join nodes of the merged graph keeps every edge joining two nodes |
| Store.StartBrainstormingIntegral | app/lib/store.ts:252-271 | brainstorming under an existing node keeps every edge joining two nodes |
| Store.PeerMergeIntegral | app/lib/store.ts:272-333 | merging opinions or questions under an existing node keeps every edge joining two nodes |
| Store.ApplyKeepsNodes | app/lib/store.ts:184-333 | no action removes or moves a node or an edge |
| Store.ApplyIntegral | app/lib/store.ts:184-333 | every action anchored at an existing node keeps every edge joining two nodes |
| Store.RunIntegral | app/lib/store.ts:184-333 | so does every anchored run of actions |
| Store.InitialRunIntegral | app/lib/store.ts:159-333 | from the initial state, every anchored run ends in a graph whose edges all join two nodes |
| Mermaid.MasterIndex | app/components/Scamper/index.tsx:300 | the first `MasterNode`, if any, and none before it |
| Mermaid.NonMaster | app/components/Scamper/index.tsx:306 | exactly the non-master nodes, drawn from the list |
| Mermaid.NonMasterAppend | app/components/Scamper/index.tsx:306 | the filter keeps order |
| Mermaid.MasterLineNewlines | app/components/Scamper/index.tsx:303 | the master node's line holds exactly one newline when none of its printed fields holds one |
| Mermaid.NodeLineNewlines | app/components/Scamper/index.tsx:310 | so does every other node's line |
| Mermaid.EdgeLineNewlines | app/components/Scamper/index.tsx:315 | so does every edge's line |
| Mermaid.Lines | app/components/Scamper/index.tsx:299-317 | the header, then the master line if a master exists, then one line per other node, then one line per edge, in order |
| Mermaid.ToMermaid | app/components/Scamper/index.tsx:293-320 | the export starts with `graph TD` and a newline |
| Mermaid.LineCount | app/components/Scamper/index.tsx:293-320 | with newline-free fields, the export has 1 + [master] + #other nodes + #edges lines |

## Left out

- `jsonToXml` called with a string: the `JSON.parse` attempt and its fallback
  (app/lib/xml-js/jsonToXml.ts:6-10) are not modelled. The model starts from
  the parsed record.
- Encoder.ReadBackEncoding: requires that no key, at any depth, starts with
  `/`. The source accepts such keys, but `<` followed by `/a` reads back as a
  closing tag, so the text no longer determines the tree.
- Normalizer.ProcessIdempotent: requires a parser-shaped tree. `_text` is
  returned unprocessed, so a `_text` holding an object is not idempotent:
  `{a: {_text: {}}}` becomes `{a: {}}`, then `{a: undefined}`
  (`Normalizer.TextObjectNotIdempotent`).
- `hasOwnProperty` (jsonToXml.ts:16): records have no inherited members in
  the model.
- The XML parser (`xml-js`'s `xml2js` in compact mode) is not part of this
  model. `Decoder.XmlToJson` takes it as a parameter. What the parser does
  with the references is stated separately, as `CollapseEntities`.
- `console.log`/`console.error` are left out. A `try`/`catch` that logs and
  rethrows is modelled as propagating the error unchanged.
- The encoder and the decoder are not shown to be inverse. The decoder's
  pre-pass escapes every `&` again, including the `&amp;`, `&lt;` and `&gt;`
  the encoder produced, so the round trip does not hold as written.
  `Decoder.PreEscape` states what does hold.
- Text.IntToString: numbers are unbounded integers here and always print as
  plain exact digits. JavaScript's `String` switches to exponent form from
  10^21 up, and cannot hold integers above 2^53 exactly, so the two differ
  there. Fractions and floating point are out of scope.
- zod reports every issue. The validators report only the first: the
  fields of an object are tried in declaration order, and the items of a
  list in list order. Paths are otherwise zod's. A list item's position is
  a path step of its own. A failure under `children` is the single
  `invalid_union` issue at `children`, because the union's list branch fails
  and its single-node branch rejects every list. The union's nested issues
  (`unionErrors`) and the issue codes and messages are not modelled.
- Schemas.ValidatePeer: the passthrough records are kept as their member
  lists. No field other than `name` and `thoughts` is checked, as in the
  source.
- `nanoid` is an `IdSupply` parameter. The model draws node and edge ids
  from two indexed streams, not one interleaved stream. Nothing is assumed
  about distinctness, so no property depends on ids being unique.
- Materializer.EdgeCount: requires every supplied node id to be non-empty,
  as `nanoid` ids are. With an empty id, a nested section would get no edge.
- Store.StartBrainstormingCounts: same requirement, for the same reason.
- `generateRootNodesAndEdges` is given the validated forest. The store's
  untyped `json.root` access and the API routes that validate it are not
  part of this model.
- No depth limit is modelled. The source has none either.
- `fetch`, the `isLoading` flag, `set`/`get`, `setNodes`/`setEdges`,
  `onNodesChange`/`onEdgesChange` (`applyNodeChanges`/`applyEdgeChanges`
  from React Flow) and all rendering are left out. They are I/O, UI state,
  or library code not part of this model.
- Store.AddChildNode: takes the new node and edge ids as arguments instead
  of calling `nanoid`.
- `updateNodeData` replaces `data` in place in the source. The model returns
  a new node list with the same observable result.
- Positions are integers. React Flow's positions are floating point, but
  every position the core computes is an integer offset.
- Mermaid.LineCount: requires that no printed field contains a newline. A
  field with a newline adds lines to the export.
- Mermaid.ToMermaid: the `if (flow.edges)` guard
  (app/components/Scamper/index.tsx:313) is not modelled. The edge list is
  always present in the model.
