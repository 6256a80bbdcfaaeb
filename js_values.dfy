/**
 * The JavaScript values the two pages inspect: parsed JSON response bodies,
 * JavaScript truthiness, optional property access (`v?.key`), and the
 * conversions of a value to display text.
 */
module JsValues {

  datatype Option<+T> = None | Some(value: T)

  /** A value produced by `res.json()`: any JSON document. */
  datatype Json =
    | JNull
    | JBool(b: bool)
    | JNum(n: real)
    | JStr(s: string)
    | JArr(items: seq<Json>)
    | JObj(fields: map<string, Json>)

  /** The outcome of `await res.json()`: a value, or a body that is not JSON. */
  datatype Body = Unparsable | Parsed(value: Json)

  /**
   * A property read that may yield `undefined`: `None` is `undefined`,
   * `Some(v)` a present value (possibly `null`).
   */
  type Slot = Option<Json>

  /** `null` or `undefined`: the values at which `?.` stops. */
  predicate Nullish(o: Slot) {
    o.None? || o.value.JNull?
  }

  /**
   * JavaScript truthiness of a JSON value (JSON has no NaN): everything
   * except `undefined`, `null`, `false`, 0 and the empty string.
   */
  predicate Truthy(o: Slot)
    ensures Truthy(o) <==> o.Some? && o.value !in {JNull, JBool(false), JNum(0.0), JStr("")}
  {
    match o
    case None => false
    case Some(v) =>
      match v
      case JNull => false
      case JBool(b) => b
      case JNum(n) => n != 0.0
      case JStr(s) => s != ""
      case JArr(_) => true
      case JObj(_) => true
  }

  /**
   * `o?.key` for the data-property names the pages use ("detail", "msg",
   * "message", "id", "command"): only an object has them; `null` and
   * `undefined` short-circuit to `undefined`.
   */
  function Member(o: Slot, key: string): (r: Slot)
    ensures Nullish(o) ==> r.None?
    ensures r.Some? <==> o.Some? && o.value.JObj? && key in o.value.fields
    ensures r.Some? ==> r.value == o.value.fields[key]
  {
    match o
    case Some(JObj(fields)) => if key in fields then Some(fields[key]) else None
    case _ => None
  }

  /** `xs[i]`: `undefined` past the end. */
  function Element(xs: seq<Json>, i: nat): (r: Slot)
    ensures r.Some? <==> i < |xs|
    ensures r.Some? ==> r.value == xs[i]
  {
    if i < |xs| then Some(xs[i]) else None
  }

  /**
   * The text conversions the pages rely on but whose exact output is
   * formatting detail: `JSON.stringify(v)`, `JSON.stringify(v, null, 2)` and
   * `String(v)` of a value that is not a string.
   */
  datatype Render = Render(
    stringify: Json -> string,
    stringifyPretty: Json -> string,
    nonStringText: Json -> string)

  /** `String(v)` of a present value: a string is shown as it is. */
  function Text(v: Json, r: Render): (t: string)
    ensures v.JStr? ==> t == v.s
  {
    if v.JStr? then v.s else r.nonStringText(v)
  }

  /** `${o}` in a template literal: `undefined` is shown as "undefined". */
  function TemplateText(o: Slot, r: Render): (t: string)
    ensures o.None? ==> t == "undefined"
    ensures o.Some? && o.value.JStr? ==> t == o.value.s
    ensures o.Some? ==> t == Text(o.value, r)
  {
    match o
    case None => "undefined"
    case Some(v) => Text(v, r)
  }

  /**
   * `!s` for a string read from the browser that may be absent: it agrees
   * with JavaScript truthiness, so only `null` and "" count as falsy.
   */
  predicate Falsy(s: Option<string>)
    ensures Falsy(s) <==> !Truthy(if s.None? then None else Some(JStr(s.value)))
  {
    s.None? || s.value == ""
  }
}
