/** The decoder `xmlToJson`: the model's reply is wrapped in a synthetic
    `<_root>` element, four characters are pre-escaped by chained global
    replaces, the result is handed to a compact-mode XML parser and the
    parser's tree is unwrapped and normalized.

    The XML parser is not part of this model: it is a parameter, a function
    from text to either a compact tree or a parse error. */
module Decoder {
  import opened Results
  import opened JsValues
  import opened Text
  import Normalizer

  const RootOpen: string := "<_root>"
  const RootClose: string := "</_root>"

  /** The reply between an opening and a closing `_root` tag, so that the
      parser sees a single document element. */
  function Wrap(s: string): (r: string)
    ensures |r| == |s| + 15
  {
    RootOpen + s + RootClose
  }

  /** The four chained replaces, applied to the wrapped text as a whole:
      `&` first, then `-`, `"` and `'`. The pass loses nothing: resolving the
      references gives back the wrapped reply exactly, so a reply that
      already held a reference (`&amp;`) comes back with that reference as
      literal text, one level of escaping deeper than a parser of the raw
      reply would see it. Afterwards no `-` or quote is left, and every `&`
      begins one of the four references. */
  function PreEscape(s: string): (r: string)
    ensures CollapseEntities(r) == Wrap(s)
    ensures '-' !in r && '"' !in r && '\'' !in r
    ensures AmpersandsAreEntities(r)
  {
    ChainPerChar(Wrap(s));
    CollapseSubst(Wrap(s));
    SubstPreCharAvoids(Wrap(s));
    SubstAmpersands(Wrap(s));
    Chain(Wrap(s))
  }

  function Chain(t: string): string
  {
    ReplaceAll(ReplaceAll(ReplaceAll(ReplaceAll(t, '&', "&amp;"), '-', "&#45;"), '"', "&quot;"), '\'', "&apos;")
  }

  /** The per-character reading of the four replaces. */
  function PreChar(ch: char): string
  {
    if ch == '&' then "&amp;"
    else if ch == '-' then "&#45;"
    else if ch == '"' then "&quot;"
    else if ch == '\'' then "&apos;"
    else [ch]
  }

  /** The chain distributes over concatenation. */
  lemma ChainAppend(a: string, b: string)
    ensures Chain(a + b) == Chain(a) + Chain(b)
  {
    ReplaceAllAppend(a, b, '&', "&amp;");
    var a1, b1 := ReplaceAll(a, '&', "&amp;"), ReplaceAll(b, '&', "&amp;");
    ReplaceAllAppend(a1, b1, '-', "&#45;");
    var a2, b2 := ReplaceAll(a1, '-', "&#45;"), ReplaceAll(b1, '-', "&#45;");
    ReplaceAllAppend(a2, b2, '"', "&quot;");
    var a3, b3 := ReplaceAll(a2, '"', "&quot;"), ReplaceAll(b2, '"', "&quot;");
    ReplaceAllAppend(a3, b3, '\'', "&apos;");
  }

  /** On one character the chain is `PreChar`: an entity written by one step
      holds no character a later step rewrites. */
  lemma ChainChar(x: char)
    ensures Chain([x]) == PreChar(x)
  {
    if x == '&' {
      ChainAmpersand();
    } else if x == '-' {
      ChainHyphen();
    } else if x == '"' {
      ChainQuote();
    } else if x == '\'' {
      ChainApostrophe();
    } else {
      ReplaceAllSingle(x, '&', "&amp;");
      ReplaceAllSingle(x, '-', "&#45;");
      ReplaceAllSingle(x, '"', "&quot;");
      ReplaceAllSingle(x, '\'', "&apos;");
    }
  }

  lemma ChainAmpersand()
    ensures Chain("&") == "&amp;"
  {
    ReplaceAllSingle('&', '&', "&amp;");
    ChainTail("&amp;");
  }

  /** The last three replaces leave alone a text without their characters. */
  lemma ChainTail(e: string)
    requires '-' !in e && '"' !in e && '\'' !in e
    ensures ReplaceAll(ReplaceAll(ReplaceAll(e, '-', "&#45;"), '"', "&quot;"), '\'', "&apos;") == e
  {
    ReplaceAllAbsent(e, '-', "&#45;");
    ReplaceAllAbsent(e, '"', "&quot;");
    ReplaceAllAbsent(e, '\'', "&apos;");
  }

  lemma ChainHyphen()
    ensures Chain("-") == "&#45;"
  {
    var e := "&#45;";
    ReplaceAllSingle('-', '&', "&amp;");
    assert ReplaceAll("-", '&', "&amp;") == "-";
    ReplaceAllSingle('-', '-', e);
    assert ReplaceAll("-", '-', e) == e;
    ChainTailQuotes(e);
  }

  /** The two quote replaces leave alone a text without quotes. */
  lemma ChainTailQuotes(e: string)
    requires '"' !in e && '\'' !in e
    ensures ReplaceAll(ReplaceAll(e, '"', "&quot;"), '\'', "&apos;") == e
  {
    ReplaceAllAbsent(e, '"', "&quot;");
    ReplaceAllAbsent(e, '\'', "&apos;");
  }

  lemma ChainQuote()
    ensures Chain("\"") == "&quot;"
  {
    ReplaceAllSingle('"', '&', "&amp;");
    ReplaceAllSingle('"', '-', "&#45;");
    ReplaceAllSingle('"', '"', "&quot;");
    ReplaceAllAbsent("&quot;", '\'', "&apos;");
  }

  lemma ChainApostrophe()
    ensures Chain("'") == "&apos;"
  {
    ReplaceAllSingle('\'', '&', "&amp;");
    ReplaceAllSingle('\'', '-', "&#45;");
    ReplaceAllSingle('\'', '"', "&quot;");
    ReplaceAllSingle('\'', '\'', "&apos;");
  }

  /** Because `&` is replaced first and no replacement introduces a character
      a later one rewrites, the four chained replaces are a single
      per-character rewrite. */
  lemma {:induction false} ChainPerChar(t: string)
    ensures Chain(t) == Subst(t, PreChar)
  {
    if t != [] {
      assert t == [t[0]] + t[1..];
      ChainAppend([t[0]], t[1..]);
      ChainChar(t[0]);
      ChainPerChar(t[1..]);
    }
  }

  /** Text free of the four characters passes through unchanged. */
  lemma {:induction false} SubstPreCharPlain(t: string)
    requires '&' !in t && '-' !in t && '"' !in t && '\'' !in t
    ensures Subst(t, PreChar) == t
  {
    if t != [] {
      var x := t[0];
      assert x in t;
      assert PreChar(x) == [x];
      assert '&' !in t[1..] && '-' !in t[1..] && '"' !in t[1..] && '\'' !in t[1..] by {
        assert forall ch :: ch in t[1..] ==> ch in t;
      }
      SubstPreCharPlain(t[1..]);
      assert t == [x] + t[1..];
    }
  }

  /** The wrapper tags are left alone; only the reply's own text is rewritten,
      and it is rewritten character by character. */
  lemma PreEscapeShape(s: string)
    ensures PreEscape(s) == RootOpen + Subst(s, PreChar) + RootClose
  {
    ChainPerChar(Wrap(s));
    SubstAppend(RootOpen + s, RootClose, PreChar);
    SubstAppend(RootOpen, s, PreChar);
    RootTagsPlain();
  }

  lemma RootTagsPlain()
    ensures Subst(RootOpen, PreChar) == RootOpen
    ensures Subst(RootClose, PreChar) == RootClose
  {
    RootOpenPlain();
    RootClosePlain();
  }

  lemma RootOpenPlain()
    ensures Subst(RootOpen, PreChar) == RootOpen
  {
    SubstPreCharPlain(RootOpen);
  }

  lemma RootClosePlain()
    ensures Subst(RootClose, PreChar) == RootClose
  {
    SubstPreCharPlain(RootClose);
  }

  /** No image of `PreChar` holds `-`, `"` or `'`. */
  lemma SubstPreCharAvoids(t: string)
    ensures var r := Subst(t, PreChar);
      '-' !in r && '"' !in r && '\'' !in r
  {
    SubstAvoids(t, PreChar, '-');
    SubstAvoids(t, PreChar, '"');
    SubstAvoids(t, PreChar, '\'');
  }


  /** One of the four entity references the pre-pass writes starts at `i`. */
  predicate EntityAt(r: string, i: nat)
    requires i <= |r|
  {
    var t := r[i..];
    "&amp;" <= t || "&#45;" <= t || "&quot;" <= t || "&apos;" <= t
  }

  predicate AmpersandsAreEntities(r: string)
  {
    forall i :: 0 <= i < |r| && r[i] == '&' ==> EntityAt(r, i)
  }

  lemma AmpersandsAppend(a: string, b: string)
    requires AmpersandsAreEntities(a) && AmpersandsAreEntities(b)
    ensures AmpersandsAreEntities(a + b)
  {
    var r := a + b;
    forall i | 0 <= i < |r| && r[i] == '&'
      ensures EntityAt(r, i)
    {
      if i < |a| {
        assert EntityAt(a, i);
        assert r[i..] == a[i..] + b;
      } else {
        assert b[i - |a|] == '&';
        assert EntityAt(b, i - |a|);
        assert r[i..] == b[i - |a|..];
      }
    }
  }

  lemma {:induction false} SubstAmpersands(t: string)
    ensures AmpersandsAreEntities(Subst(t, PreChar))
  {
    if t != [] {
      SubstAmpersands(t[1..]);
      var e := PreChar(t[0]);
      assert AmpersandsAreEntities(e) by {
        forall i | 0 <= i < |e| && e[i] == '&'
          ensures EntityAt(e, i)
        {
          assert i == 0;
          assert e[0..] == e;
        }
      }
      AmpersandsAppend(e, Subst(t[1..], PreChar));
    }
  }

  /** Each `&` and `-` adds four characters, each quote five. */
  lemma {:induction false} SubstPreCharLength(t: string)
    ensures var m := multiset(t);
      |Subst(t, PreChar)| == |t| + 4 * m['&'] + 4 * m['-'] + 5 * m['"'] + 5 * m['\'']
  {
    if t != [] {
      SubstPreCharLength(t[1..]);
      assert t == [t[0]] + t[1..];
      var m, n := multiset(t), multiset(t[1..]);
      assert m == multiset{t[0]} + n;
      assert |Subst(t, PreChar)| == |PreChar(t[0])| + |Subst(t[1..], PreChar)|;
      if t[0] == '&' {
        assert m['&'] == n['&'] + 1 && m['-'] == n['-'] && m['"'] == n['"'] && m['\''] == n['\''];
      } else if t[0] == '-' {
        assert m['&'] == n['&'] && m['-'] == n['-'] + 1 && m['"'] == n['"'] && m['\''] == n['\''];
      } else if t[0] == '"' {
        assert m['&'] == n['&'] && m['-'] == n['-'] && m['"'] == n['"'] + 1 && m['\''] == n['\''];
      } else if t[0] == '\'' {
        assert m['&'] == n['&'] && m['-'] == n['-'] && m['"'] == n['"'] && m['\''] == n['\''] + 1;
      } else {
        assert m['&'] == n['&'] && m['-'] == n['-'] && m['"'] == n['"'] && m['\''] == n['\''];
      }
    }
  }

  lemma PreEscapeLength(s: string)
    ensures var m := multiset(s);
      |PreEscape(s)| == |s| + 15 + 4 * m['&'] + 4 * m['-'] + 5 * m['"'] + 5 * m['\'']
  {
    PreEscapeShape(s);
    SubstPreCharLength(s);
  }

  /** What an XML parser does with the four references: each is read back as
      the character it names. */
  function CollapseEntities(r: string): string
  {
    if r == [] then []
    else if "&amp;" <= r then "&" + CollapseEntities(r[5..])
    else if "&#45;" <= r then "-" + CollapseEntities(r[5..])
    else if "&quot;" <= r then "\"" + CollapseEntities(r[6..])
    else if "&apos;" <= r then "'" + CollapseEntities(r[6..])
    else [r[0]] + CollapseEntities(r[1..])
  }

  lemma {:induction false} CollapseSubst(t: string)
    ensures CollapseEntities(Subst(t, PreChar)) == t
  {
    if t != [] {
      var x, rest := t[0], t[1..];
      var tail := Subst(rest, PreChar);
      var u := PreChar(x) + tail;
      assert Subst(t, PreChar) == u;
      CollapseSubst(rest);
      if x == '&' {
        assert "&amp;" <= u && u[5..] == tail;
      } else if x == '-' {
        assert !("&amp;" <= u) by { assert u[1] == '#'; }
        assert "&#45;" <= u && u[5..] == tail;
      } else if x == '"' {
        assert !("&amp;" <= u) by { assert u[1] == 'q'; }
        assert !("&#45;" <= u) by { assert u[1] == 'q'; }
        assert "&quot;" <= u && u[6..] == tail;
      } else if x == '\'' {
        assert !("&amp;" <= u) by { assert u[2] == 'p'; }
        assert !("&#45;" <= u) by { assert u[1] == 'a'; }
        assert !("&quot;" <= u) by { assert u[1] == 'a'; }
        assert "&apos;" <= u && u[6..] == tail;
      } else {
        assert u[0] == x && u[1..] == tail;
      }
      assert t == [x] + rest;
    }
  }

  /** `xmlToJson`: a parse failure propagates unchanged; otherwise the
      parser's tree is unwrapped and normalized. */
  function XmlToJson<E>(s: string, parse: string -> Result<JsValue, E>): (r: Result<JsValue, E>)
    ensures r.Err? <==> parse(PreEscape(s)).Err?
    ensures r.Err? ==> r.error == parse(PreEscape(s)).error
    ensures r.Ok? ==> parse(PreEscape(s)).Ok? && r.value == Normalizer.TransformRoot(parse(PreEscape(s)).value)
    ensures r.Ok? && Normalizer.IsCompact(parse(PreEscape(s)).value) ==> Normalizer.Canonical(r.value)
  {
    match parse(PreEscape(s))
    case Err(e) => Err(e)
    case Ok(tree) =>
      assert Normalizer.IsCompact(tree) ==> Normalizer.Canonical(Normalizer.TransformRoot(tree)) by {
        if Normalizer.IsCompact(tree) {
          Normalizer.TransformCompactIsCanonical(tree);
        }
      }
      Ok(Normalizer.TransformRoot(tree))
  }

}
