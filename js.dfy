/**
 * The JavaScript values the structured strategy touches: a parsed JSON
 * document, `undefined` (as `None`), truthiness, optional chaining
 * (`v?.key`, `v?.[0]`), the `||` operator and the `String()` conversion.
 */
module Js {
  import opened Wrappers

  /** A value produced by `JSON.parse`. A number is the real it denotes. */
  datatype Json =
    | JNull
    | JBool(b: bool)
    | JNumber(n: real)
    | JString(s: string)
    | JArray(elems: seq<Json>)
    | JObject(fields: map<string, Json>)

  /** A JavaScript value reached by optional chaining: `None` is `undefined`. */
  type Value = Option<Json>

  /**
   * JavaScript truthiness: `undefined`, `null`, `false`, `0` and `""` are
   * falsy; every array and object, even an empty one, is truthy.
   */
  predicate Truthy(v: Value)
  {
    match v
    case None => false
    case Some(JNull) => false
    case Some(JBool(b)) => b
    case Some(JNumber(n)) => n != 0.0
    case Some(JString(s)) => s != []
    case Some(JArray(_)) => true
    case Some(JObject(_)) => true
  }

  /**
   * `v?.key` for a named property that is neither an index nor inherited:
   * only an object can hold it, and `undefined` or `null` short-circuit.
   */
  function Get(v: Value, key: string): Value
  {
    match v
    case Some(JObject(fields)) => if key in fields then Some(fields[key]) else None
    case _ => None
  }

  /**
   * `v?.[0]`: the first element of an array, the property `"0"` of an
   * object, or the first character of a string; `undefined` otherwise.
   */
  function Head(v: Value): Value
  {
    match v
    case Some(JArray(elems)) => if |elems| > 0 then Some(elems[0]) else None
    case Some(JObject(fields)) => if "0" in fields then Some(fields["0"]) else None
    case Some(JString(s)) => if |s| > 0 then Some(JString([s[0]])) else None
    case _ => None
  }

  /**
   * `a || b`: the left operand when it is truthy, otherwise the right one.
   * The result is one of the operands, and it is truthy exactly when one of
   * them is.
   */
  function Or(a: Value, b: Value): (r: Value)
    ensures r == a || r == b
    ensures Truthy(r) <==> Truthy(a) || Truthy(b)
  {
    if Truthy(a) then a else b
  }

  /** A chain of `||` gives the same value however it is grouped. */
  lemma OrAssociative(a: Value, b: Value, c: Value)
    ensures Or(Or(a, b), c) == Or(a, Or(b, c))
  {
  }

  /** A falsy operand on the left is skipped, and a truthy one decides the chain. */
  lemma OrSkipsFalsy(a: Value, b: Value, c: Value)
    ensures !Truthy(a) ==> Or(Or(a, b), c) == Or(b, c)
    ensures Truthy(a) ==> Or(Or(a, b), c) == a
  {
  }

  /** `Array.prototype.join(",")` over already converted elements. */
  function JoinWithCommas(parts: seq<string>): string
  {
    if |parts| == 0 then []
    else if |parts| == 1 then parts[0]
    else parts[0] + "," + JoinWithCommas(parts[1..])
  }

  /**
   * A value whose `String()` throws a `TypeError`: an object holding its own
   * `toString` key (a parsed value is never callable, so neither its own
   * `toString` nor the inherited `valueOf`, which returns the object itself,
   * gives a primitive), or an array with such an element.
   */
  predicate Unprintable(v: Json)
    decreases v
  {
    match v
    case JObject(fields) => "toString" in fields
    case JArray(elems) => exists i :: 0 <= i < |elems| && Unprintable(elems[i])
    case _ => false
  }

  /** All the texts, when every one of them exists. */
  function AllPresent(texts: seq<Option<string>>): (r: Option<seq<string>>)
    ensures r.Some? <==> forall i :: 0 <= i < |texts| ==> texts[i].Some?
    ensures r.Some? ==> |r.value| == |texts| && forall i :: 0 <= i < |texts| ==> r.value[i] == texts[i].value
  {
    if |texts| == 0 then Some([])
    else match (texts[0], AllPresent(texts[1..]))
      case (Some(t), Some(ts)) => Some([t] + ts)
      case _ => None
  }

  /**
   * `String(v)` for a parsed JSON value, `None` when it throws.
   * `showNumber` is JavaScript's conversion of a number to its shortest
   * decimal text, which this model takes as given; arrays join their
   * elements with commas (a `null` element gives the empty string), an
   * object without its own `toString` reads `[object Object]`, and the
   * conversion throws exactly for the unprintable values.
   */
  function ToText(v: Json, showNumber: real -> string): (r: Option<string>)
    decreases v
    ensures r.None? <==> Unprintable(v)
    ensures v.JString? ==> r == Some(v.s)
  {
    match v
    case JNull => Some("null")
    case JBool(b) => Some(if b then "true" else "false")
    case JNumber(n) => Some(showNumber(n))
    case JString(s) => Some(s)
    case JArray(elems) =>
      var texts := seq(|elems|, i requires 0 <= i < |elems| =>
        if elems[i].JNull? then Some([]) else ToText(elems[i], showNumber));
      assert forall i :: 0 <= i < |elems| ==> (texts[i].None? <==> Unprintable(elems[i]));
      (match AllPresent(texts)
       case Some(parts) => Some(JoinWithCommas(parts))
       case None => None)
    case JObject(fields) => if "toString" in fields then None else Some("[object Object]")
  }
}
