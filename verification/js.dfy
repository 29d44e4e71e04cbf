/** The JavaScript values the application exchanges (JSON bodies and the objects built
    from them) and the language operations the modelled code applies to them:
    truthiness, optional property reads, `||`, `??`, object spread, `String(v)` and
    thrown errors. */
module Js {
  import opened Wrappers
  import Strings

  /** A JSON value. Numbers are integers in this model. */
  datatype Json =
    | Null
    | Bool(b: bool)
    | Num(n: int)
    | Str(s: string)
    | Arr(items: seq<Json>)
    | Obj(fields: map<string, Json>)

  /** The own properties of an object. */
  type Fields = map<string, Json>

  /** The result of a property read: `None` is `undefined`. */
  type Value = Option<Json>

  /** JavaScript truthiness, `undefined` included. */
  predicate Truthy(v: Value) {
    match v
    case None => false
    case Some(j) =>
      match j
      case Null => false
      case Bool(b) => b
      case Num(n) => n != 0
      case Str(s) => s != ""
      case _ => true
  }

  /** `v == null`: undefined or null, the values `??` replaces. */
  predicate Nullish(v: Value) {
    v.None? || v.value.Null?
  }

  /** `v?.key` for the property names the modelled code reads. Only objects carry
      such properties: null, primitives and arrays give `undefined`. */
  function Get(v: Value, key: string): Value {
    if v.Some? && v.value.Obj? && key in v.value.fields then Some(v.value.fields[key]) else None
  }

  /** `a || b`. */
  function Or(a: Value, b: Value): Value {
    if Truthy(a) then a else b
  }

  /** `a ?? b`. */
  function Coalesce(a: Value, b: Value): Value {
    if Nullish(a) then b else a
  }

  /** The `id` property of a record compared with `===` against a string. */
  predicate HasId(m: Fields, id: string) {
    "_id" in m && m["_id"] == Str(id)
  }

  /** `{...v}`: the own enumerable properties that spreading `v` copies. Strings and
      arrays contribute their indices; null, booleans and numbers contribute nothing.
      A string here is a sequence of code points, so a string spreads one property per
      code point, where JavaScript spreads one per UTF-16 code unit; the two differ for
      characters outside the Basic Multilingual Plane. */
  function Spread(v: Json): Fields {
    match v
    case Obj(m) => m
    case Arr(items) => Indexed(items)
    case Str(s) => Indexed(seq(|s|, i requires 0 <= i < |s| => Str([s[i]])))
    case _ => map[]
  }

  lemma DistinctNumerals(n: nat)
    ensures forall i: nat :: i < n ==> Strings.NatToDecimal(i) != Strings.NatToDecimal(n)
  {
    forall i: nat | i < n
      ensures Strings.NatToDecimal(i) != Strings.NatToDecimal(n)
    {
      Strings.NatToDecimalInjective(i, n);
    }
  }

  /** The index properties of an array or string, keyed by their decimal numerals. */
  function Indexed(items: seq<Json>): (m: Fields)
    ensures forall i :: 0 <= i < |items| ==> Strings.NatToDecimal(i) in m && m[Strings.NatToDecimal(i)] == items[i]
    ensures forall k :: k in m ==> Strings.IsDigits(k)
    decreases |items|
  {
    if |items| == 0 then map[]
    else
      var n := |items| - 1;
      DistinctNumerals(n);
      Indexed(items[..n])[Strings.NatToDecimal(n) := items[n]]
  }

  /** `String(v)`. Array elements that are null become empty strings. */
  function ToJsString(v: Json): string
    decreases v
  {
    match v
    case Null => "null"
    case Bool(b) => if b then "true" else "false"
    case Num(n) => Strings.IntToDecimal(n)
    case Str(s) => s
    case Arr(items) =>
      Strings.Join(seq(|items|, i requires 0 <= i < |items| => if items[i].Null? then "" else ToJsString(items[i])), ",")
    case Obj(_) => "[object Object]"
  }

  /** A thrown error: its `message` and, for a failed HTTP request, the response body
      (`err.response?.data`, `None` when there is no response). */
  datatype JsError = JsError(message: string, responseData: Value)

  /** `new Error(message)`. */
  function PlainError(message: string): JsError {
    JsError(message, None)
  }

  /** The TypeError raised by reading a property of null or calling a method a value
      does not have. The runtime's wording of the message is not modelled. */
  const RuntimeTypeError: JsError := PlainError("TypeError")

  /** `err.response?.data?.key`. */
  function ResponseField(e: JsError, key: string): Value {
    Get(e.responseData, key)
  }

  /** The error text the hooks record for a failed fetch,
      `err.response?.data?.message || err.message || fallback`: the backend's message,
      else the error's own message, else the fallback. */
  function ErrorText(e: JsError, fallback: string): (r: Json)
    requires fallback != ""
    ensures Truthy(Some(r))
    ensures Truthy(ResponseField(e, "message")) ==> r == ResponseField(e, "message").value
    ensures !Truthy(ResponseField(e, "message")) && e.message != "" ==> r == Str(e.message)
    ensures !Truthy(ResponseField(e, "message")) && e.message == "" ==> r == Str(fallback)
  {
    Or(ResponseField(e, "message"), Or(Some(Str(e.message)), Some(Str(fallback)))).value
  }
}

/** Route handler results: `NextResponse.json(body, { status })`. */
module Http {
  import opened Js

  datatype Response = Response(status: int, body: Json)

  /** A `{ error: message }` body. */
  function ErrorBody(message: string): Json {
    Obj(map["error" := Str(message)])
  }
}
