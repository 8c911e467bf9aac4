/** The normalizer (`processXmljsNode`) and the root unwrapping
    (`transformJsonFromXmljs`) that turn the XML parser's compact tree into
    plain values: text-only elements become strings, empty elements become
    `undefined`, arrays are normalized element by element, and the `_text`
    member of mixed content is dropped. */
module Normalizer {
  import opened JsValues

  /** `processXmljsNode`. */
  function ProcessNode(v: JsValue): (r: JsValue)
    ensures !v.Arr? && !v.Obj? ==> r == v
    ensures v == Arr([]) || v == Obj([]) ==> r == Undefined
    ensures v.Arr? && v.items != [] ==>
      r.Arr? && |r.items| == |v.items| && forall i :: 0 <= i < |v.items| ==> r.items[i] == ProcessNode(v.items[i])
    ensures v.Obj? && OnlyText(v.members) ==> r == v.members[0].value
    ensures v.Obj? && v.members != [] && !OnlyText(v.members) ==>
      r.Obj? && forall k :: k != "_text" ==> (HasKey(r.members, k) <==> HasKey(v.members, k))
    ensures r.Arr? ==> v.Arr? || (v.Obj? && OnlyText(v.members))
    decreases v
  {
    match v
    case Arr(items) => if items == [] then Undefined else Arr(ProcessItems(items))
    case Obj(ms) =>
      if ms == [] then Undefined
      else if OnlyText(ms) then ms[0].value
      else Obj(ProcessMembers(ms))
    case _ => v
  }

  /** The object's one and only member is `_text`. */
  predicate OnlyText(ms: seq<Member>)
  {
    |ms| == 1 && ms[0].key == "_text"
  }

  function ProcessItems(items: seq<JsValue>): (r: seq<JsValue>)
    ensures |r| == |items|
    ensures forall i :: 0 <= i < |items| ==> r[i] == ProcessNode(items[i])
    decreases items
  {
    if items == [] then [] else [ProcessNode(items[0])] + ProcessItems(items[1..])
  }

  /** Every member except `_text`, in order, each value normalized: the result
      has exactly the input's names other than `_text`. */
  function ProcessMembers(ms: seq<Member>): (r: seq<Member>)
    ensures forall i :: 0 <= i < |r| ==> r[i].key != "_text"
    ensures forall k :: k != "_text" ==> (HasKey(r, k) <==> HasKey(ms, k))
    decreases ms
  {
    if ms == [] then []
    else
      var rest := ProcessMembers(ms[1..]);
      assert ms == [ms[0]] + ms[1..];
      assert forall k :: HasKey(ms, k) <==> ms[0].key == k || HasKey(ms[1..], k) by {
        forall k ensures HasKey(ms, k) <==> ms[0].key == k || HasKey(ms[1..], k) {
          HasKeyCons(ms[0], ms[1..], k);
        }
      }
      if ms[0].key == "_text" then rest
      else
        var r := [Member(ms[0].key, ProcessNode(ms[0].value))] + rest;
        assert forall k :: HasKey(r, k) <==> ms[0].key == k || HasKey(rest, k) by {
          forall k ensures HasKey(r, k) <==> ms[0].key == k || HasKey(rest, k) {
            HasKeyCons(r[0], rest, k);
          }
        }
        r
  }

  /** The members are processed one by one and kept in order: the result
      for a concatenation is the concatenation of the results, and a single
      member is dropped when it is `_text` and otherwise kept with its value
      normalized. */
  lemma {:induction false} ProcessMembersAppend(a: seq<Member>, b: seq<Member>)
    ensures ProcessMembers(a + b) == ProcessMembers(a) + ProcessMembers(b)
    ensures |a| == 1 ==>
      ProcessMembers(a) == if a[0].key == "_text" then [] else [Member(a[0].key, ProcessNode(a[0].value))]
  {
    if a == [] {
      assert a + b == b;
    } else {
      assert (a + b)[0] == a[0];
      assert (a + b)[1..] == a[1..] + b;
      ProcessMembersAppend(a[1..], b);
      if |a| == 1 {
        assert a[1..] == [];
      }
    }
  }

  /** Looked up by name, the normalized members are the normalized values:
      `result[k] == processXmljsNode(node[k])` for every `k` other than `_text`. */
  lemma {:induction false} ProcessMembersGet(ms: seq<Member>, k: string)
    requires k != "_text"
    ensures Get(ProcessMembers(ms), k) == ProcessNode(Get(ms, k))
  {
    if ms != [] {
      ProcessMembersGet(ms[1..], k);
    }
  }

  /** `transformJsonFromXmljs`: a non-object or `null` is returned as is; an
      object with a `_root` member is replaced by the normalization of that
      member alone; anything else is normalized whole. */
  function TransformRoot(json: JsValue): (r: JsValue)
    ensures !json.Arr? && !json.Obj? ==> r == json
    ensures json.Obj? && HasKey(json.members, "_root") ==> r == ProcessNode(Get(json.members, "_root"))
    ensures json.Arr? || (json.Obj? && !HasKey(json.members, "_root")) ==> r == ProcessNode(json)
  {
    match json
    case Obj(ms) => if HasKey(ms, "_root") then ProcessNode(Get(ms, "_root")) else ProcessNode(json)
    case Arr(_) => ProcessNode(json)
    case _ => json
  }

  /** An empty `<_root></_root>` (parsed as an empty object) yields `undefined`. */
  lemma EmptyRootIsUndefined(rest: seq<Member>)
    ensures TransformRoot(Obj([Member("_root", Obj([]))] + rest)) == Undefined
  {
    var ms := [Member("_root", Obj([]))] + rest;
    assert ms[0].key == "_root";
  }

  /** Members beside a leading `_root` (the parser's declaration, say) do not
      affect the result. */
  lemma RootSiblingsIgnored(root: JsValue, rest: seq<Member>)
    ensures TransformRoot(Obj([Member("_root", root)] + rest)) == TransformRoot(Obj([Member("_root", root)]))
  {
    var ms := [Member("_root", root)] + rest;
    assert ms[0].key == "_root";
  }

  // ---------------------------------------------------------------------------
  // What the parser produces and what normalization makes of it

  /** Text content in the parser's compact form: a string, or several strings
      when the element has several text runs. */
  predicate IsText(v: JsValue)
  {
    v.Str? || (v.Arr? && |v.items| > 0 && forall i :: 0 <= i < |v.items| ==> v.items[i].Str?)
  }

  /** The shapes the compact form takes: objects with distinct member names
      whose `_text` member is text, non-empty arrays for repeated elements, and
      scalars. */
  predicate IsCompact(v: JsValue)
  {
    match v
    case Arr(items) => |items| > 0 && forall i :: 0 <= i < |items| ==> IsCompact(items[i])
    case Obj(ms) =>
      && DistinctKeys(ms)
      && forall i :: 0 <= i < |ms| ==> IsCompact(ms[i].value) && (ms[i].key == "_text" ==> IsText(ms[i].value))
    case _ => true
  }

  /** Normalized values: no empty object, no empty array, no `_text` member. */
  predicate Canonical(v: JsValue)
  {
    match v
    case Arr(items) => |items| > 0 && forall i :: 0 <= i < |items| ==> Canonical(items[i])
    case Obj(ms) =>
      |ms| > 0 && forall i :: 0 <= i < |ms| ==> ms[i].key != "_text" && Canonical(ms[i].value)
    case _ => true
  }

  /** Normalizing a compact tree yields a canonical value. */
  lemma {:induction false} ProcessCompactIsCanonical(v: JsValue)
    requires IsCompact(v)
    ensures Canonical(ProcessNode(v))
    decreases v, 1
  {
    match v
    case Arr(items) =>
      forall i | 0 <= i < |items|
        ensures Canonical(ProcessNode(items[i]))
      {
        ProcessCompactIsCanonical(items[i]);
      }
    case Obj(ms) =>
      if ms != [] && !OnlyText(ms) {
        ProcessMembersCanonical(ms);
      } else if ms != [] {
        assert IsText(ms[0].value);
      }
    case _ =>
  }

  lemma {:induction false} ProcessMembersCanonical(ms: seq<Member>)
    requires ms != [] && !OnlyText(ms)
    requires DistinctKeys(ms)
    requires forall i :: 0 <= i < |ms| ==> IsCompact(ms[i].value)
    ensures var r := ProcessMembers(ms);
      |r| > 0 && forall i :: 0 <= i < |r| ==> Canonical(r[i].value)
    decreases ms, 1
  {
    var r := ProcessMembers(ms);
    var j := if ms[0].key != "_text" then 0 else 1;
    assert ms[j].key != "_text";
    assert HasKey(r, ms[j].key);
    forall i | 0 <= i < |r|
      ensures Canonical(r[i].value)
    {
      ProcessMembersValue(ms, i);
    }
  }

  /** Each value of `ProcessMembers(ms)` is a normalized value of `ms`. */
  lemma {:induction false} ProcessMembersValue(ms: seq<Member>, i: nat)
    requires forall j :: 0 <= j < |ms| ==> IsCompact(ms[j].value)
    requires i < |ProcessMembers(ms)|
    ensures Canonical(ProcessMembers(ms)[i].value)
    decreases ms, 0
  {
    var rest := ProcessMembers(ms[1..]);
    assert forall j :: 0 <= j < |ms[1..]| ==> ms[1..][j] == ms[j + 1];
    if ms[0].key == "_text" {
      ProcessMembersValue(ms[1..], i);
    } else if i == 0 {
      ProcessCompactIsCanonical(ms[0].value);
    } else {
      ProcessMembersValue(ms[1..], i - 1);
    }
  }

  /** A canonical value is left as it is. */
  lemma {:induction false} CanonicalIsFixed(v: JsValue)
    requires Canonical(v)
    ensures ProcessNode(v) == v
    decreases v, 1
  {
    match v
    case Arr(items) =>
      forall i | 0 <= i < |items|
        ensures ProcessNode(items[i]) == items[i]
      {
        CanonicalIsFixed(items[i]);
      }
      assert ProcessItems(items) == items;
    case Obj(ms) =>
      CanonicalMembersFixed(ms);
    case _ =>
  }

  lemma {:induction false} CanonicalMembersFixed(ms: seq<Member>)
    requires forall i :: 0 <= i < |ms| ==> ms[i].key != "_text" && Canonical(ms[i].value)
    ensures ProcessMembers(ms) == ms
    decreases ms, 0
  {
    if ms != [] {
      assert forall i :: 0 <= i < |ms[1..]| ==> ms[1..][i] == ms[i + 1];
      CanonicalIsFixed(ms[0].value);
      CanonicalMembersFixed(ms[1..]);
      assert ms == [ms[0]] + ms[1..];
    }
  }

  /** Off parser-shaped trees a second pass can change the result: `_text` is
      returned unprocessed, so `{a: {_text: {}}}` becomes `{a: {}}`, and then
      `{a: undefined}`. */
  lemma TextObjectNotIdempotent()
    ensures ProcessNode(Obj([Member("a", Obj([Member("_text", Obj([]))]))])) == Obj([Member("a", Obj([]))])
    ensures ProcessNode(Obj([Member("a", Obj([]))])) == Obj([Member("a", Undefined)])
  {
  }

  /** On everything the parser can produce, normalizing twice is normalizing once. */
  lemma ProcessIdempotent(v: JsValue)
    requires IsCompact(v)
    ensures ProcessNode(ProcessNode(v)) == ProcessNode(v)
  {
    ProcessCompactIsCanonical(v);
    CanonicalIsFixed(ProcessNode(v));
  }

  /** Root unwrapping of a compact tree also yields a canonical value. */
  lemma TransformCompactIsCanonical(json: JsValue)
    requires IsCompact(json)
    ensures Canonical(TransformRoot(json))
  {
    match json
    case Obj(ms) =>
      if HasKey(ms, "_root") {
        var i :| 0 <= i < |ms| && ms[i].key == "_root" && ms[i].value == Get(ms, "_root");
        ProcessCompactIsCanonical(ms[i].value);
      } else {
        ProcessCompactIsCanonical(json);
      }
    case Arr(_) => ProcessCompactIsCanonical(json);
    case _ =>
  }

}
