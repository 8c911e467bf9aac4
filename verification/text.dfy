/** String helpers: the per-character rewrite behind `String.prototype.replace`
    with a global single-character pattern, and the decimal form `String(n)`
    gives an integer. */
module Text {

  /** Concatenation of `f(s[0]) + f(s[1]) + ...`: every character is rewritten
      independently of its neighbours. */
  function Subst(s: string, f: char -> string): (r: string)
  {
    if s == [] then [] else f(s[0]) + Subst(s[1..], f)
  }

  lemma {:induction false} SubstAppend(a: string, b: string, f: char -> string)
    ensures Subst(a + b, f) == Subst(a, f) + Subst(b, f)
  {
    if a == [] {
      assert a + b == b;
    } else {
      assert (a + b)[0] == a[0];
      assert (a + b)[1..] == a[1..] + b;
      SubstAppend(a[1..], b, f);
    }
  }

  lemma SubstSingle(c: char, f: char -> string)
    ensures Subst([c], f) == f(c)
  {
    assert [c][1..] == [];
  }

  /** A character no image contains does not occur in the rewrite. */
  lemma {:induction false} SubstAvoids(s: string, f: char -> string, c: char)
    requires forall i :: 0 <= i < |s| ==> c !in f(s[i])
    ensures c !in Subst(s, f)
  {
    if s != [] {
      assert forall i :: 0 <= i < |s[1..]| ==> s[1..][i] == s[i + 1];
      SubstAvoids(s[1..], f, c);
    }
  }

  /** A global regular-expression replace whose pattern is the single
      character `c`: every `c`
      becomes `rep`, every other character stays, in order. */
  function ReplaceAll(s: string, c: char, rep: string): string
  {
    if s == [] then [] else (if s[0] == c then rep else [s[0]]) + ReplaceAll(s[1..], c, rep)
  }

  /** Each occurrence of `c` grows the text by `|rep| - 1`. */
  lemma {:induction false} ReplaceAllLength(s: string, c: char, rep: string)
    ensures |ReplaceAll(s, c, rep)| == |s| + multiset(s)[c] * (|rep| - 1)
  {
    if s != [] {
      ReplaceAllLength(s[1..], c, rep);
      assert s == [s[0]] + s[1..];
      assert multiset(s) == multiset{s[0]} + multiset(s[1..]);
      var m := multiset(s[1..])[c];
      assert (m + 1) * (|rep| - 1) == m * (|rep| - 1) + (|rep| - 1);
    }
  }

  lemma {:induction false} ReplaceAllAppend(a: string, b: string, c: char, rep: string)
    ensures ReplaceAll(a + b, c, rep) == ReplaceAll(a, c, rep) + ReplaceAll(b, c, rep)
  {
    if a == [] {
      assert a + b == b;
    } else {
      assert (a + b)[0] == a[0];
      assert (a + b)[1..] == a[1..] + b;
      ReplaceAllAppend(a[1..], b, c, rep);
    }
  }

  /** Replacing `c` by text without `c` leaves no `c` behind. */
  lemma {:induction false} ReplaceAllRemoves(s: string, c: char, rep: string)
    requires c !in rep
    ensures c !in ReplaceAll(s, c, rep)
  {
    if s != [] {
      ReplaceAllRemoves(s[1..], c, rep);
    }
  }

  /** A character in neither the text nor the replacement is not in the
      result. */
  lemma {:induction false} ReplaceAllKeepsOut(s: string, c: char, rep: string, d: char)
    requires d !in s && d !in rep
    ensures d !in ReplaceAll(s, c, rep)
  {
    if s != [] {
      assert s == [s[0]] + s[1..];
      ReplaceAllKeepsOut(s[1..], c, rep, d);
    }
  }

  lemma ReplaceAllSingle(x: char, c: char, rep: string)
    ensures ReplaceAll([x], c, rep) == if x == c then rep else [x]
  {
    assert [x][1..] == [];
  }

  /** Replacing a character that does not occur changes nothing. */
  lemma {:induction false} ReplaceAllAbsent(s: string, c: char, rep: string)
    requires c !in s
    ensures ReplaceAll(s, c, rep) == s
  {
    if s != [] {
      assert c !in s[1..] by { assert forall i :: 0 <= i < |s[1..]| ==> s[1..][i] == s[i + 1]; }
      ReplaceAllAbsent(s[1..], c, rep);
      assert s == [s[0]] + s[1..];
    }
  }

  function DigitChar(d: nat): (c: char)
    requires d < 10
    ensures '0' <= c <= '9' && DigitValue(c) == d
  {
    ('0' as int + d) as char
  }

  function DigitValue(c: char): int
  {
    c as int - '0' as int
  }

  /** The number a run of decimal digits denotes, most significant first. */
  function DigitsValue(s: string): int
  {
    if s == [] then 0 else 10 * DigitsValue(s[..|s| - 1]) + DigitValue(s[|s| - 1])
  }

  /** `String(n)` for a natural number: its decimal digits, most significant
      first, without leading zeros; read back as a number they give `n`. */
  function NatToString(n: nat): (r: string)
    ensures |r| > 0
    ensures forall i :: 0 <= i < |r| ==> '0' <= r[i] <= '9'
    ensures |r| > 1 ==> r[0] != '0'
    ensures DigitsValue(r) == n
    ensures n < 10 <==> |r| == 1
  {
    if n < 10 then [DigitChar(n)]
    else
      var r := NatToString(n / 10) + [DigitChar(n % 10)];
      assert r[..|r| - 1] == NatToString(n / 10);
      r
  }

  /** `String(n)` for any integer: a minus sign before the digits of `|n|`. */
  function IntToString(n: int): (r: string)
    ensures |r| > 0
    ensures n < 0 <==> r[0] == '-'
    ensures n >= 0 ==> DigitsValue(r) == n
    ensures n < 0 ==> |r| > 1 && DigitsValue(r[1..]) == -n
    ensures forall i :: (n < 0 ==> 1 <= i) && 0 <= i < |r| ==> '0' <= r[i] <= '9'
  {
    if n < 0 then
      var d := NatToString(-n);
      assert ("-" + d)[1..] == d;
      "-" + d
    else NatToString(n)
  }

}
