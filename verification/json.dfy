/**
  A value as `json.loads` returns it, and the handful of Python operations
  the agent applies to such values: `dict.get`, truth testing, iteration
  (`for x in v`, `list(v)`), `int(v)` and `str(v)` on scalars.
  JSON numbers with a fraction or exponent (Python floats) are not modelled.
 */
module Json {
  import opened Wrappers
  import Text

  /** Objects keep the key order `json.loads` gives them, which is the order
      Python iterates a dict in. Keys are unique, as in any dict; `Lookup`'s
      "first entry" is then the only one. */
  datatype Value =
    | JNull
    | JBool(b: bool)
    | JInt(i: int)
    | JStr(s: string)
    | JList(items: seq<Value>)
    | JObj(fields: seq<(string, Value)>)

  /** The value stored under `key` (the first entry with that key), if any. */
  function Lookup(fields: seq<(string, Value)>, key: string): (r: Option<Value>)
    ensures r.None? <==> forall k :: 0 <= k < |fields| ==> fields[k].0 != key
    ensures r.Some? ==> exists k :: 0 <= k < |fields| && fields[k] == (key, r.value)
  {
    if |fields| == 0 then None
    else if fields[0].0 == key then Some(fields[0].1)
    else
      var r := Lookup(fields[1..], key);
      assert forall k :: 1 <= k < |fields| ==> fields[k] == fields[1..][k - 1];
      r
  }

  /** `d.get(key, default)` on a dict `d`. */
  function GetOr(fields: seq<(string, Value)>, key: string, default: Value): (r: Value)
    ensures Lookup(fields, key).None? ==> r == default
    ensures Lookup(fields, key).Some? ==> r == Lookup(fields, key).value
  {
    Lookup(fields, key).GetOr(default)
  }

  /** Python truth testing (`if v:`): null, false, 0, "", [] and {} are false. */
  predicate Truthy(v: Value) {
    match v
    case JNull => false
    case JBool(b) => b
    case JInt(i) => i != 0
    case JStr(s) => s != ""
    case JList(items) => items != []
    case JObj(fields) => fields != []
  }

  /** Iterating a value (`for x in v`, `list(v)`): a list yields its items, a
      string its one-character strings, a dict its keys; iterating null, a
      boolean or an int raises TypeError (None). */
  function Iterate(v: Value): (r: Option<seq<Value>>)
    ensures r.Some? <==> (v.JList? || v.JStr? || v.JObj?)
    ensures v.JList? ==> r == Some(v.items)
    ensures v.JStr? ==> r.Some? && |r.value| == |v.s|
    ensures v.JStr? ==> forall k :: 0 <= k < |v.s| ==> r.value[k] == JStr([v.s[k]])
    ensures v.JObj? ==> r.Some? && |r.value| == |v.fields|
    ensures v.JObj? ==> forall k :: 0 <= k < |v.fields| ==> r.value[k] == JStr(v.fields[k].0)
  {
    match v
    case JList(items) => Some(items)
    case JStr(s) => Some(seq(|s|, k requires 0 <= k < |s| => JStr([s[k]])))
    case JObj(fields) => Some(seq(|fields|, k requires 0 <= k < |fields| => JStr(fields[k].0)))
    case _ => None
  }

  /** `int(v)`: ints are kept, booleans are 0/1 (bool is an int subclass),
      strings are parsed as decimal; null, lists and dicts raise TypeError. */
  function ToInt(v: Value): (r: Option<int>)
    ensures v.JInt? ==> r == Some(v.i)
    ensures v.JBool? ==> r == Some(if v.b then 1 else 0)
    ensures v.JStr? ==> r == Text.ParseInt(v.s)
    ensures (v.JNull? || v.JList? || v.JObj?) ==> r.None?
  {
    match v
    case JInt(i) => Some(i)
    case JBool(b) => Some(if b then 1 else 0)
    case JStr(s) => Text.ParseInt(s)
    case _ => None
  }

  /** `str(v)` (and f-string interpolation) for scalar values; the model does
      not render lists and dicts (None). */
  function ScalarText(v: Value): (r: Option<string>)
    ensures r.Some? <==> !(v.JList? || v.JObj?)
    ensures v.JStr? ==> r == Some(v.s)
  {
    match v
    case JNull => Some("None")
    case JBool(b) => Some(if b then "True" else "False")
    case JInt(i) => Some(Text.IntToStr(i))
    case JStr(s) => Some(s)
    case _ => None
  }

  /** Python `v == 1`: true for the int 1 and for `True`. */
  predicate EqualsOne(v: Value) {
    v == JInt(1) || v == JBool(true)
  }

  /** The string LLMs often send for a number is read back as that number. */
  lemma QuotedNumberIsRead(n: int)
    ensures ToInt(JStr(Text.IntToStr(n))) == Some(n)
  {
    Text.IntToStrRoundTrip(n);
  }
}
