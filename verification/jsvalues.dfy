/** The untyped JavaScript values that flow through the transcoding layer: the
    records handed to the encoder, the compact trees the XML parser returns,
    the normalized values and the inputs of the schema validators are all of
    this one type. An object is its own enumerable members in enumeration
    order (the order `for...in` and `Object.entries` visit them). */
module JsValues {
  import Text

  datatype JsValue =
    | Undefined
    | Null
    | Bool(b: bool)
    | Num(n: int)
    | Str(s: string)
    | Arr(items: seq<JsValue>)
    | Obj(members: seq<Member>)

  datatype Member = Member(key: string, value: JsValue)

  /** JavaScript's object type test: true of `null`, arrays and plain
      objects alike. */
  predicate IsObjectType(v: JsValue)
  {
    v.Null? || v.Arr? || v.Obj?
  }

  predicate HasKey(ms: seq<Member>, k: string)
  {
    exists i :: 0 <= i < |ms| && ms[i].key == k
  }

  /** `o[k]`: the value of the first member named `k`, `undefined` when there is none. */
  function Get(ms: seq<Member>, k: string): (r: JsValue)
    ensures !HasKey(ms, k) ==> r == Undefined
    ensures HasKey(ms, k) ==> exists i :: 0 <= i < |ms| && ms[i].key == k && ms[i].value == r
  {
    if ms == [] then Undefined
    else if ms[0].key == k then ms[0].value
    else
      assert forall i :: 1 <= i < |ms| ==> ms[1..][i - 1] == ms[i];
      Get(ms[1..], k)
  }

  lemma HasKeyCons(m: Member, ms: seq<Member>, k: string)
    ensures HasKey([m] + ms, k) <==> m.key == k || HasKey(ms, k)
  {
    var r := [m] + ms;
    assert r[0] == m;
    assert forall i :: 0 <= i < |ms| ==> r[i + 1] == ms[i];
    if HasKey(r, k) && m.key != k {
      var i :| 0 <= i < |r| && r[i].key == k;
      assert ms[i - 1].key == k;
    }
  }

  /** A JavaScript object never has two own members with the same name. */
  predicate DistinctKeys(ms: seq<Member>)
  {
    forall i, j :: 0 <= i < j < |ms| ==> ms[i].key != ms[j].key
  }

  /** `String(v)` for a value that is not an array or a plain object. */
  function Stringify(v: JsValue): string
    requires !v.Arr? && !v.Obj?
  {
    match v
    case Undefined => "undefined"
    case Null => "null"
    case Bool(b) => if b then "true" else "false"
    case Num(n) => Text.IntToString(n)
    case Str(s) => s
  }

  /** A size measure that strictly shrinks from a container to each member or
      item, used to justify recursion that looks members up by name. */
  function Size(v: JsValue): nat
  {
    match v
    case Arr(items) => 1 + ItemsSize(items)
    case Obj(ms) => 1 + MembersSize(ms)
    case _ => 1
  }

  function ItemsSize(items: seq<JsValue>): nat
  {
    if items == [] then 0 else 1 + Size(items[0]) + ItemsSize(items[1..])
  }

  function MembersSize(ms: seq<Member>): nat
  {
    if ms == [] then 0 else 1 + Size(ms[0].value) + MembersSize(ms[1..])
  }

  lemma {:induction false} GetSmaller(ms: seq<Member>, k: string)
    ensures Size(Get(ms, k)) < MembersSize(ms) || Get(ms, k) == Undefined
  {
    if ms != [] && ms[0].key != k {
      GetSmaller(ms[1..], k);
    }
  }
}
