/** The encoder `jsonToXml`: a record becomes a run of sibling tag pairs, one
    per member (one per element for a non-empty array), with tag names and
    text escaped using the predefined entities of section 4.6 of XML 1.0.

    Besides the string-building function itself the module gives the
    encoder's output a structure: `Forest` says which element tree the output
    spells, `EncodeRendersForest` proves the output is exactly that tree
    rendered, and `ReadBackEncoding` proves the tree can be read back from the
    text unambiguously. */
module Encoder {
  import opened Results
  import opened JsValues
  import opened Text

  // ---------------------------------------------------------------------------
  // Escaping (escapeXmlTag, escapeXmlValue)

  /** The three chained global replaces: `&` first, then `<`, then `>`.
      Escaped text contains no markup delimiter. */
  function EscapeMarkup(s: string): (r: string)
    ensures '<' !in r && '>' !in r
  {
    var a := ReplaceAll(s, '&', "&amp;");
    var b := ReplaceAll(a, '<', "&lt;");
    ReplaceAllRemoves(a, '<', "&lt;");
    ReplaceAllRemoves(b, '>', "&gt;");
    ReplaceAllKeepsOut(b, '>', "&gt;", '<');
    ReplaceAll(b, '>', "&gt;")
  }

  /** The per-character reading of the escape: each special character becomes
      its entity, every other character is kept. */
  function EscapeChar(ch: char): string
  {
    if ch == '&' then "&amp;"
    else if ch == '<' then "&lt;"
    else if ch == '>' then "&gt;"
    else [ch]
  }

  /** Because `&` is replaced first, the entities introduced for `<` and `>`
      are not escaped again: the chain is one per-character rewrite. */
  lemma {:induction false} EscapeMarkupPerChar(s: string)
    ensures EscapeMarkup(s) == Subst(s, EscapeChar)
  {
    if s != [] {
      var x, t := s[0], s[1..];
      assert s == [x] + t;
      EscapeMarkupPerChar(t);
      var a := ReplaceAll([x], '&', "&amp;");
      var b := ReplaceAll(t, '&', "&amp;");
      ReplaceAllAppend([x], t, '&', "&amp;");
      ReplaceAllAppend(a, b, '<', "&lt;");
      var a2 := ReplaceAll(a, '<', "&lt;");
      var b2 := ReplaceAll(b, '<', "&lt;");
      ReplaceAllAppend(a2, b2, '>', "&gt;");
      if x == '&' {
        assert a == "&amp;";
        ReplaceAllAbsent("&amp;", '<', "&lt;");
        ReplaceAllAbsent("&amp;", '>', "&gt;");
      } else if x == '<' {
        assert a == [x];
        assert a2 == "&lt;";
        ReplaceAllAbsent("&lt;", '>', "&gt;");
      } else if x == '>' {
        assert a == [x];
        assert a2 == [x];
      } else {
        assert a == [x];
        assert a2 == [x];
      }
    }
  }

  /** Escaping keeps a leading `/` and introduces none. */
  lemma EscapeMarkupFirst(s: string)
    ensures |s| == 0 <==> |EscapeMarkup(s)| == 0
    ensures |s| > 0 ==> (s[0] == '/' <==> EscapeMarkup(s)[0] == '/')
  {
    EscapeMarkupPerChar(s);
    if s != [] {
      assert Subst(s, EscapeChar) == EscapeChar(s[0]) + Subst(s[1..], EscapeChar);
    }
  }

  /** Reading the three entities back, left to right. */
  function UnescapeMarkup(s: string): string
  {
    if s == [] then []
    else if "&amp;" <= s then "&" + UnescapeMarkup(s[5..])
    else if "&lt;" <= s then "<" + UnescapeMarkup(s[4..])
    else if "&gt;" <= s then ">" + UnescapeMarkup(s[4..])
    else [s[0]] + UnescapeMarkup(s[1..])
  }

  /** Unescaping undoes escaping for every string. */
  lemma {:induction false} UnescapeEscape(s: string)
    ensures UnescapeMarkup(EscapeMarkup(s)) == s
  {
    EscapeMarkupPerChar(s);
    UnescapeSubst(s);
  }

  lemma {:induction false} UnescapeSubst(s: string)
    ensures UnescapeMarkup(Subst(s, EscapeChar)) == s
  {
    if s != [] {
      var x, t := s[0], s[1..];
      var e := EscapeChar(x);
      var u := e + Subst(t, EscapeChar);
      assert Subst(s, EscapeChar) == u;
      UnescapeSubst(t);
      if x == '&' {
        assert "&amp;" <= u && u[5..] == Subst(t, EscapeChar);
      } else if x == '<' {
        assert !("&amp;" <= u) by { assert u[1] == 'l'; }
        assert "&lt;" <= u && u[4..] == Subst(t, EscapeChar);
      } else if x == '>' {
        assert !("&amp;" <= u) by { assert u[1] == 'g'; }
        assert !("&lt;" <= u) by { assert u[1] == 'g'; }
        assert "&gt;" <= u && u[4..] == Subst(t, EscapeChar);
      } else {
        assert u[0] == x && u[1..] == Subst(t, EscapeChar);
      }
      assert s == [x] + t;
    }
  }

  // ---------------------------------------------------------------------------
  // The encoder (jsonToXml, object branch)

  /** `<t>` + inner + `</t>` */
  function Pair(t: string, inner: string): string
  {
    "<" + t + ">" + inner + "</" + t + ">"
  }

  /** As many `<` as `>`. */
  predicate Balanced(s: string)
  {
    multiset(s)['<'] == multiset(s)['>']
  }

  /** Text that opens with `<`, closes with `>` and is balanced: the coarse
      shape of a run of tag pairs. */
  predicate Tagged(s: string)
  {
    |s| >= 2 && s[0] == '<' && s[|s| - 1] == '>' && Balanced(s)
  }

  lemma TaggedAppend(a: string, b: string)
    requires Tagged(a) && Tagged(b)
    ensures Tagged(a + b)
  {
    assert multiset(a + b) == multiset(a) + multiset(b);
  }

  /** A tag pair is tagged when its name holds no delimiter and its content
      is balanced. */
  lemma PairTagged(t: string, inner: string)
    requires Balanced(inner)
    ensures '<' !in t && '>' !in t ==> Tagged(Pair(t, inner))
  {
    if '<' !in t && '>' !in t {
      var p := Pair(t, inner);
      assert p == "<" + t + ">" + inner + "</" + t + ">";
      assert multiset(p) == multiset("<") + multiset(t) + multiset(">") + multiset(inner)
        + multiset("</") + multiset(t) + multiset(">");
      assert multiset(t)['<'] == 0 && multiset(t)['>'] == 0;
    }
  }

  lemma NoDelimitersBalanced(s: string)
    requires '<' !in s && '>' !in s
    ensures Balanced(s)
  {
    assert multiset(s)['<'] == 0 && multiset(s)['>'] == 0;
  }

  /** A leaf's text: the escaped string form of the value, from which the
      string form is read back by resolving the three entities. */
  function EscapeValue(v: JsValue): (r: string)
    requires !v.Arr? && !v.Obj?
    ensures UnescapeMarkup(r) == Stringify(v)
    ensures '<' !in r && '>' !in r
  {
    UnescapeEscape(Stringify(v));
    EscapeMarkup(Stringify(v))
  }

  /** `jsonToXml(record)`: the members' fragments concatenated in member order. */
  function JsonToXml(ms: seq<Member>): (r: string)
    ensures ms == [] <==> r == []
    ensures ms != [] ==> Tagged(r)
    decreases ms
  {
    if ms == [] then ""
    else
      var a, b := EncodeMember(ms[0].key, ms[0].value), JsonToXml(ms[1..]);
      if b == [] then assert a + b == a; a + b
      else TaggedAppend(a, b); a + b
  }

  /** The fragment for one member `k: v`: never empty, since an empty value
      keeps its name as an empty element. */
  function EncodeMember(k: string, v: JsValue): (r: string)
    ensures Tagged(r)
    decreases v
  {
    var t := EscapeMarkup(k);
    NoDelimitersBalanced("");
    match v
    case Null => PairTagged(t, ""); Pair(t, "")
    case Arr(items) => if items == [] then PairTagged(t, ""); Pair(t, "") else EncodeRepeated(t, items)
    case Obj(ms) =>
      if ms == [] then PairTagged(t, ""); Pair(t, "")
      else PairTagged(t, JsonToXml(ms)); Pair(t, JsonToXml(ms))
    case _ => NoDelimitersBalanced(EscapeValue(v)); PairTagged(t, EscapeValue(v)); Pair(t, EscapeValue(v))
  }

  /** A non-empty array: one `<t>…</t>` per element, in element order. */
  function EncodeRepeated(t: string, items: seq<JsValue>): (r: string)
    ensures items == [] <==> r == []
    ensures '<' !in t && '>' !in t && items != [] ==> Tagged(r)
    decreases items
  {
    if items == [] then ""
    else
      var a, b := EncodeItem(t, items[0]), EncodeRepeated(t, items[1..]);
      if b == [] then assert a + b == a; a + b
      else if '<' !in t && '>' !in t then TaggedAppend(a, b); a + b
      else a + b
  }

  /** One array element: an object-typed element (`null`, array, object) is
      encoded recursively, any other element is escaped text. */
  function EncodeItem(t: string, v: JsValue): (r: string)
    ensures |r| >= 2
    ensures '<' !in t && '>' !in t ==> Tagged(r)
    decreases v
  {
    NoDelimitersBalanced("");
    match v
    case Null => PairTagged(t, ""); Pair(t, "")
    case Arr(items) => PairTagged(t, EncodeIndexed(items, 0)); Pair(t, EncodeIndexed(items, 0))
    case Obj(ms) => PairTagged(t, JsonToXml(ms)); Pair(t, JsonToXml(ms))
    case _ => NoDelimitersBalanced(EscapeValue(v)); PairTagged(t, EscapeValue(v)); Pair(t, EscapeValue(v))
  }

  /** `jsonToXml` on an array enumerates it like a record whose member names
      are the indices `"0"`, `"1"`, ... */
  function EncodeIndexed(items: seq<JsValue>, i: nat): (r: string)
    ensures items == [] <==> r == []
    ensures items != [] ==> Tagged(r)
    decreases items
  {
    if items == [] then ""
    else
      var a, b := EncodeMember(NatToString(i), items[0]), EncodeIndexed(items[1..], i + 1);
      if b == [] then assert a + b == a; a + b
      else TaggedAppend(a, b); a + b
  }

  // ---------------------------------------------------------------------------
  // The element tree the encoding spells

  datatype Element = Element(name: string, body: Body)

  datatype Body = Text(text: string) | Children(elements: seq<Element>)

  function Render(es: seq<Element>): string
  {
    if es == [] then "" else RenderElement(es[0]) + Render(es[1..])
  }

  function RenderElement(e: Element): string
  {
    Pair(e.name, RenderBody(e.body))
  }

  function RenderBody(b: Body): string
  {
    match b
    case Text(t) => t
    case Children(es) => Render(es)
  }

  lemma {:induction false} RenderAppend(a: seq<Element>, b: seq<Element>)
    ensures Render(a + b) == Render(a) + Render(b)
  {
    if a == [] {
      assert a + b == b;
    } else {
      assert (a + b)[0] == a[0];
      assert (a + b)[1..] == a[1..] + b;
      RenderAppend(a[1..], b);
    }
  }

  /** Content made of elements; no elements is empty text. */
  function Nest(es: seq<Element>): Body
  {
    if es == [] then Text("") else Children(es)
  }

  /** The element tree of a record. */
  function Forest(ms: seq<Member>): seq<Element>
    decreases ms
  {
    if ms == [] then [] else MemberForest(ms[0].key, ms[0].value) + Forest(ms[1..])
  }

  /** The elements of one member: at least one (an empty value keeps its
      name as an empty element), all named by the escaped key, and for a
      non-empty array exactly one per array element, in order. */
  function MemberForest(k: string, v: JsValue): (r: seq<Element>)
    ensures |r| >= 1
    ensures forall i :: 0 <= i < |r| ==> r[i].name == EscapeMarkup(k)
    ensures v.Arr? && v.items != [] ==>
      |r| == |v.items| && forall i :: 0 <= i < |r| ==> r[i] == ItemElement(EscapeMarkup(k), v.items[i])
    ensures !v.Arr? || v.items == [] ==> |r| == 1
    decreases v
  {
    var t := EscapeMarkup(k);
    match v
    case Null => [Element(t, Text(""))]
    case Arr(items) => if items == [] then [Element(t, Text(""))] else RepeatedForest(t, items)
    case Obj(ms) => [Element(t, Nest(Forest(ms)))]
    case _ => [Element(t, Text(EscapeValue(v)))]
  }

  function RepeatedForest(t: string, items: seq<JsValue>): (r: seq<Element>)
    ensures |r| == |items|
    ensures forall i :: 0 <= i < |r| ==> r[i] == ItemElement(t, items[i])
    decreases items
  {
    if items == [] then [] else [ItemElement(t, items[0])] + RepeatedForest(t, items[1..])
  }

  function ItemElement(t: string, v: JsValue): (r: Element)
    ensures r.name == t
    decreases v
  {
    match v
    case Null => Element(t, Text(""))
    case Arr(items) => Element(t, Nest(IndexedForest(items, 0)))
    case Obj(ms) => Element(t, Nest(Forest(ms)))
    case _ => Element(t, Text(EscapeValue(v)))
  }

  function IndexedForest(items: seq<JsValue>, i: nat): seq<Element>
    decreases items
  {
    if items == [] then [] else MemberForest(NatToString(i), items[0]) + IndexedForest(items[1..], i + 1)
  }

  lemma RenderNest(es: seq<Element>)
    ensures RenderBody(Nest(es)) == Render(es)
  {
  }

  /** The encoder's output is the rendering of `Forest`: each member becomes
      its elements' tag pairs, concatenated in member order. */
  lemma {:induction false} EncodeRendersForest(ms: seq<Member>)
    ensures JsonToXml(ms) == Render(Forest(ms))
    decreases ms, 0
  {
    if ms != [] {
      EncodeMemberRenders(ms[0].key, ms[0].value);
      EncodeRendersForest(ms[1..]);
      RenderAppend(MemberForest(ms[0].key, ms[0].value), Forest(ms[1..]));
    }
  }

  lemma {:induction false} EncodeMemberRenders(k: string, v: JsValue)
    ensures EncodeMember(k, v) == Render(MemberForest(k, v))
    decreases v, 1
  {
    var t := EscapeMarkup(k);
    match v
    case Null =>
      RenderSingle(Element(t, Text("")));
    case Arr(items) =>
      if items != [] {
        EncodeRepeatedRenders(t, items);
      } else {
        RenderSingle(Element(t, Text("")));
      }
    case Obj(ms) =>
      EncodeRendersForest(ms);
      RenderNest(Forest(ms));
      RenderSingle(Element(t, Nest(Forest(ms))));
    case _ =>
      RenderSingle(Element(t, Text(EscapeValue(v))));
  }

  lemma RenderSingle(e: Element)
    ensures Render([e]) == RenderElement(e)
  {
    assert [e][1..] == [];
  }

  lemma {:induction false} EncodeRepeatedRenders(t: string, items: seq<JsValue>)
    ensures EncodeRepeated(t, items) == Render(RepeatedForest(t, items))
    decreases items, 2
  {
    if items != [] {
      EncodeItemRenders(t, items[0]);
      EncodeRepeatedRenders(t, items[1..]);
      RenderAppend([ItemElement(t, items[0])], RepeatedForest(t, items[1..]));
    }
  }

  lemma {:induction false} EncodeItemRenders(t: string, v: JsValue)
    ensures EncodeItem(t, v) == RenderElement(ItemElement(t, v))
    decreases v, 1
  {
    match v
    case Null =>
    case Arr(items) =>
      EncodeIndexedRenders(items, 0);
      RenderNest(IndexedForest(items, 0));
    case Obj(ms) =>
      EncodeRendersForest(ms);
      RenderNest(Forest(ms));
    case _ =>
  }

  lemma {:induction false} EncodeIndexedRenders(items: seq<JsValue>, i: nat)
    ensures EncodeIndexed(items, i) == Render(IndexedForest(items, i))
    decreases items, 2
  {
    if items != [] {
      EncodeMemberRenders(NatToString(i), items[0]);
      EncodeIndexedRenders(items[1..], i + 1);
      RenderAppend(MemberForest(NatToString(i), items[0]), IndexedForest(items[1..], i + 1));
    }
  }

  /** The encoding of a record is the encodings of any split of its members,
      concatenated in order. */
  lemma {:induction false} JsonToXmlAppend(a: seq<Member>, b: seq<Member>)
    ensures JsonToXml(a + b) == JsonToXml(a) + JsonToXml(b)
  {
    if a == [] {
      assert a + b == b;
    } else {
      assert (a + b)[0] == a[0];
      assert (a + b)[1..] == a[1..] + b;
      JsonToXmlAppend(a[1..], b);
    }
  }

  /** A string member `k: s` is `<k>s</k>` with both sides escaped. */
  lemma EncodeStringMember(k: string, s: string)
    ensures JsonToXml([Member(k, Str(s))]) == Pair(EscapeMarkup(k), EscapeMarkup(s))
  {
    assert [Member(k, Str(s))][1..] == [];
  }

  /** An `&` between plain text becomes `&amp;` and nothing else changes:
      `"A&B"` is escaped to `"A&amp;B"`. */
  lemma EscapeAmpersand(a: string, b: string)
    requires '&' !in a && '<' !in a && '>' !in a
    requires '&' !in b && '<' !in b && '>' !in b
    ensures EscapeMarkup(a + "&" + b) == a + "&amp;" + b
  {
    EscapeMarkupPerChar(a + "&" + b);
    SubstAppend(a + "&", b, EscapeChar);
    SubstAppend(a, "&", EscapeChar);
    SubstSingle('&', EscapeChar);
    SubstIdentityEscape(a);
    SubstIdentityEscape(b);
  }

  lemma EscapePlain(s: string)
    requires '&' !in s && '<' !in s && '>' !in s
    ensures EscapeMarkup(s) == s
  {
    EscapeMarkupPerChar(s);
    SubstIdentityEscape(s);
  }

  lemma {:induction false} SubstIdentityEscape(s: string)
    requires '&' !in s && '<' !in s && '>' !in s
    ensures Subst(s, EscapeChar) == s
  {
    if s != [] {
      assert s[0] in s;
      assert forall i :: 0 <= i < |s[1..]| ==> s[1..][i] == s[i + 1];
      SubstIdentityEscape(s[1..]);
      assert s == [s[0]] + s[1..];
    }
  }

  // ---------------------------------------------------------------------------
  // Reading an element tree back

  /** A name may not contain `<` or `>` and may not start with `/` (it would
      read as a closing tag); text may not contain `<`; element content is
      never an empty list of elements (that is written as empty text). */
  predicate WfElement(e: Element)
  {
    && '<' !in e.name && '>' !in e.name
    && (|e.name| > 0 ==> e.name[0] != '/')
    && WfBody(e.body)
  }

  predicate WfBody(b: Body)
  {
    match b
    case Text(t) => '<' !in t
    case Children(es) => |es| > 0 && forall i :: 0 <= i < |es| ==> WfElement(es[i])
  }

  predicate WfForest(es: seq<Element>)
  {
    forall i :: 0 <= i < |es| ==> WfElement(es[i])
  }

  datatype Parsed<T> = Parsed(value: T, rest: string)

  /** The longest prefix of `s` that does not contain `c`. */
  function TakeUntil(s: string, c: char): (r: string)
    ensures r <= s && c !in r
    ensures |r| < |s| ==> s[|r|] == c
  {
    if s == [] || s[0] == c then [] else [s[0]] + TakeUntil(s[1..], c)
  }

  lemma {:induction false} TakeUntilPrefix(a: string, b: string, c: char)
    requires c !in a && |b| > 0 && b[0] == c
    ensures TakeUntil(a + b, c) == a
  {
    if a != [] {
      assert a[0] in a;
      assert c !in a[1..] by { assert forall i :: 0 <= i < |a[1..]| ==> a[1..][i] == a[i + 1]; }
      assert (a + b)[1..] == a[1..] + b;
      TakeUntilPrefix(a[1..], b, c);
    } else {
      assert a + b == b;
    }
  }

  /** `s` starts with an opening tag. */
  predicate OpensElement(s: string)
  {
    |s| >= 2 && s[0] == '<' && s[1] != '/'
  }

  function ParseElement(s: string): (r: Option<Parsed<Element>>)
    ensures r.Some? ==> |r.value.rest| < |s|
    decreases |s|, 1
  {
    if !OpensElement(s) then None
    else
      var name := TakeUntil(s[1..], '>');
      if 1 + |name| == |s| then None
      else
        var inner := s[2 + |name|..];
        var b := ParseBody(inner);
        var close := "</" + name + ">";
        if close <= b.rest then Some(Parsed(Element(name, b.value), b.rest[|close|..])) else None
  }

  function ParseBody(s: string): (r: Parsed<Body>)
    ensures |r.rest| <= |s|
    decreases |s|, 3
  {
    if OpensElement(s) then
      var p := ParseElements(s);
      Parsed(Children(p.value), p.rest)
    else
      var t := TakeUntil(s, '<');
      Parsed(Text(t), s[|t|..])
  }

  function ParseElements(s: string): (r: Parsed<seq<Element>>)
    ensures |r.rest| <= |s|
    decreases |s|, 2
  {
    match ParseElement(s)
    case None => Parsed([], s)
    case Some(p) =>
      var more := ParseElements(p.rest);
      Parsed([p.value] + more.value, more.rest)
  }

  /** The element tree spelled by the whole of `s`, if any. */
  function ReadBack(s: string): Option<seq<Element>>
  {
    var p := ParseElements(s);
    if p.rest == [] then Some(p.value) else None
  }

  /** What may follow a run of sibling elements: nothing, or a closing tag. */
  predicate EndsRun(rest: string)
  {
    rest == [] || "</" <= rest
  }

  lemma {:induction false} ParseElementRender(e: Element, rest: string)
    requires WfElement(e)
    ensures ParseElement(RenderElement(e) + rest) == Some(Parsed(e, rest))
    decreases e, 1
  {
    var n := e.name;
    var body := RenderBody(e.body);
    var close := "</" + n + ">";
    var after := close + rest;
    var tail := ">" + (body + after);
    var s := "<" + (n + tail);
    assert RenderElement(e) + rest == s by { PairShape(n, body, rest); }
    assert OpensElement(s) by {
      if |n| > 0 { assert s[1] == n[0]; } else { assert s[1] == '>'; }
    }
    assert TakeUntil(s[1..], '>') == n by {
      assert s[1..] == n + tail;
      TakeUntilPrefix(n, tail, '>');
    }
    assert s[2 + |n|..] == body + after;
    ParseBodyRender(e.body, after);
    assert close <= after && after[|close|..] == rest;
    ParseElementOf(s, n, Parsed(e.body, after));
  }

  /** The unfolding of `ParseElement` once the name and the body are read. */
  lemma ParseElementOf(s: string, n: string, b: Parsed<Body>)
    requires OpensElement(s) && TakeUntil(s[1..], '>') == n && 1 + |n| < |s|
    requires ParseBody(s[2 + |n|..]) == b
    requires "</" + n + ">" <= b.rest
    ensures ParseElement(s) == Some(Parsed(Element(n, b.value), b.rest[|"</" + n + ">"|..]))
  {
  }

  lemma PairShape(n: string, body: string, rest: string)
    ensures Pair(n, body) + rest == "<" + (n + (">" + (body + (("</" + n + ">") + rest))))
  {
  }

  lemma {:induction false} ParseBodyRender(b: Body, rest: string)
    requires WfBody(b) && "</" <= rest
    ensures ParseBody(RenderBody(b) + rest) == Parsed(b, rest)
    decreases b, 0
  {
    var s := RenderBody(b) + rest;
    match b
    case Text(t) =>
      assert !OpensElement(s) by {
        if |t| > 0 { assert s[0] == t[0]; assert t[0] in t; } else { assert s == rest; }
      }
      TakeUntilPrefix(t, rest, '<');
      assert s[|t|..] == rest;
    case Children(es) =>
      var e := es[0];
      assert Render(es) == RenderElement(e) + Render(es[1..]);
      assert WfElement(e);
      assert OpensElement(s) by {
        assert s[0] == '<';
        if |e.name| > 0 { assert s[1] == e.name[0]; } else { assert s[1] == '>'; }
      }
      ParseElementsRender(es, rest);
  }

  lemma {:induction false} ParseElementsRender(es: seq<Element>, rest: string)
    requires WfForest(es) && EndsRun(rest)
    ensures ParseElements(Render(es) + rest) == Parsed(es, rest)
    decreases es, 2
  {
    if es == [] {
      assert Render(es) + rest == rest;
      assert !OpensElement(rest);
    } else {
      var e := es[0];
      var tail := Render(es[1..]) + rest;
      assert ParseElement(Render(es) + rest) == Some(Parsed(e, tail)) by {
        assert WfElement(e);
        assert Render(es) + rest == RenderElement(e) + tail;
        ParseElementRender(e, tail);
      }
      ParseElementsCons(Render(es) + rest, e, tail);
      assert ParseElements(tail) == Parsed(es[1..], rest) by {
        assert WfForest(es[1..]) by {
          assert forall i :: 0 <= i < |es[1..]| ==> es[1..][i] == es[i + 1];
        }
        ParseElementsRender(es[1..], rest);
      }
      assert es == [e] + es[1..];
    }
  }

  /** The unfolding of `ParseElements` after an element. */
  lemma ParseElementsCons(s: string, e: Element, tail: string)
    requires ParseElement(s) == Some(Parsed(e, tail))
    ensures ParseElements(s) == Parsed([e] + ParseElements(tail).value, ParseElements(tail).rest)
  {
  }

  /** Every well-formed element tree is read back exactly from its rendering. */
  lemma ReadBackRender(es: seq<Element>)
    requires WfForest(es)
    ensures ReadBack(Render(es)) == Some(es)
  {
    ParseElementsRender(es, []);
    assert Render(es) + [] == Render(es);
  }

  // ---------------------------------------------------------------------------
  // The encoder's tree is well formed

  predicate PlainKey(k: string)
  {
    |k| == 0 || k[0] != '/'
  }

  /** No member name, at any depth, starts with `/`. */
  predicate PlainValue(v: JsValue)
  {
    match v
    case Arr(items) => forall i :: 0 <= i < |items| ==> PlainValue(items[i])
    case Obj(ms) => PlainMembers(ms)
    case _ => true
  }

  predicate PlainMembers(ms: seq<Member>)
  {
    forall i :: 0 <= i < |ms| ==> PlainKey(ms[i].key) && PlainValue(ms[i].value)
  }

  lemma EscapedName(k: string)
    requires PlainKey(k)
    ensures var t := EscapeMarkup(k); '<' !in t && '>' !in t && (|t| > 0 ==> t[0] != '/')
  {
    EscapeMarkupFirst(k);
  }

  lemma WfForestAppend(a: seq<Element>, b: seq<Element>)
    requires WfForest(a) && WfForest(b)
    ensures WfForest(a + b)
  {
  }

  lemma WfNest(es: seq<Element>)
    requires WfForest(es)
    ensures WfBody(Nest(es))
  {
  }

  lemma {:induction false} ForestWf(ms: seq<Member>)
    requires PlainMembers(ms)
    ensures WfForest(Forest(ms))
    decreases ms, 0
  {
    if ms != [] {
      MemberForestWf(ms[0].key, ms[0].value);
      assert PlainMembers(ms[1..]) by {
        assert forall i :: 0 <= i < |ms[1..]| ==> ms[1..][i] == ms[i + 1];
      }
      ForestWf(ms[1..]);
      WfForestAppend(MemberForest(ms[0].key, ms[0].value), Forest(ms[1..]));
    }
  }

  lemma {:induction false} MemberForestWf(k: string, v: JsValue)
    requires PlainKey(k) && PlainValue(v)
    ensures WfForest(MemberForest(k, v))
    decreases v, 1
  {
    var t := EscapeMarkup(k);
    EscapedName(k);
    match v
    case Null =>
    case Arr(items) =>
      if items != [] {
        forall i | 0 <= i < |items|
          ensures WfElement(ItemElement(t, items[i]))
        {
          ItemElementWf(t, items[i]);
        }
      }
    case Obj(ms) =>
      ForestWf(ms);
      WfNest(Forest(ms));
    case _ =>
  }

  lemma {:induction false} ItemElementWf(t: string, v: JsValue)
    requires '<' !in t && '>' !in t && (|t| > 0 ==> t[0] != '/')
    requires PlainValue(v)
    ensures WfElement(ItemElement(t, v))
    decreases v, 0
  {
    match v
    case Null =>
    case Arr(items) =>
      IndexedForestWf(items, 0);
      WfNest(IndexedForest(items, 0));
    case Obj(ms) =>
      ForestWf(ms);
      WfNest(Forest(ms));
    case _ =>
  }

  lemma {:induction false} IndexedForestWf(items: seq<JsValue>, i: nat)
    requires forall j :: 0 <= j < |items| ==> PlainValue(items[j])
    ensures WfForest(IndexedForest(items, i))
    decreases items, 2
  {
    if items != [] {
      assert PlainKey(NatToString(i));
      MemberForestWf(NatToString(i), items[0]);
      assert forall j :: 0 <= j < |items[1..]| ==> items[1..][j] == items[j + 1];
      IndexedForestWf(items[1..], i + 1);
      WfForestAppend(MemberForest(NatToString(i), items[0]), IndexedForest(items[1..], i + 1));
    }
  }

  /** The encoding of a record whose member names do not start with `/` reads
      back as exactly the element tree `Forest` describes: the output is an
      unambiguous run of well-nested sibling tag pairs. */
  lemma ReadBackEncoding(ms: seq<Member>)
    requires PlainMembers(ms)
    ensures ReadBack(JsonToXml(ms)) == Some(Forest(ms))
  {
    EncodeRendersForest(ms);
    ForestWf(ms);
    ReadBackRender(Forest(ms));
  }

}
