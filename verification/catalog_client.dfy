/** `apiFetch.crearCaja` (lib/api.ts): normalise the submitted catalog entry into a
    payload, refuse an incomplete one locally, POST it, and turn every failure into an
    error whose message is the backend's or a fixed fallback. The outcome of the POST
    and the value of `Number(cajaData.precio)` are parameters. */
module CatalogClient {
  import opened Wrappers
  import opened Js
  import Strings
  import Seqs

  const CreateFailedMessage := "Error creando caja"
  const ValidationMessage := "Todos los campos son obligatorios y debe haber al menos un producto."

  /** A number as `Number(...)` yields it. Fractions are not modelled. */
  datatype JsNumber = Finite(n: int) | NaN

  /** The body POSTed to `/api/cajas`; a string field that was undefined is `None`. */
  datatype Payload = Payload(
    nombre: Option<string>,
    pais: Option<string>,
    descripcion: Option<string>,
    imagen: Option<string>,
    precio: JsNumber,
    productos: seq<string>)

  /** `cajaData.key?.trim()`: undefined for a missing or null field, the trimmed text
      of a string, and a TypeError for any other value, which has no `trim` method. */
  function TrimmedField(cajaData: Json, key: string): (r: Result<Option<string>, JsError>)
    ensures Nullish(Get(Some(cajaData), key)) ==> r == Ok(None)
    ensures !Nullish(Get(Some(cajaData), key)) && Get(Some(cajaData), key).value.Str? ==>
              r == Ok(Some(Strings.Trim(Get(Some(cajaData), key).value.s)))
    ensures !Nullish(Get(Some(cajaData), key)) && !Get(Some(cajaData), key).value.Str? ==>
              r == Err(RuntimeTypeError)
  {
    var v := Get(Some(cajaData), key);
    if Nullish(v) then Ok(None)
    else if v.value.Str? then Ok(Some(Strings.Trim(v.value.s)))
    else Err(RuntimeTypeError)
  }

  /** A product the filter `p => !!p && p.trim() !== ""` keeps. */
  predicate NonBlankString(p: Json) {
    p.Str? && Strings.Trim(p.s) != ""
  }

  /** An element the filter can test without throwing: falsy, or a string. */
  predicate Filterable(p: Json) {
    !Truthy(Some(p)) || p.Str?
  }

  /** The text of each JSON string, position by position. */
  function Texts(js: seq<Json>): (r: seq<string>)
    requires forall i :: 0 <= i < |js| ==> js[i].Str?
    ensures |r| == |js| && forall i :: 0 <= i < |js| ==> Str(r[i]) == js[i]
    decreases |js|
  {
    if |js| == 0 then [] else [js[0].s] + Texts(js[1..])
  }

  /** The strings as JSON values, position by position. */
  function Strs(ss: seq<string>): (r: seq<Json>)
    ensures |r| == |ss| && forall i :: 0 <= i < |ss| ==> r[i] == Str(ss[i])
    decreases |ss|
  {
    if |ss| == 0 then [] else [Str(ss[0])] + Strs(ss[1..])
  }

  /** The kept products, as they were: `Array.filter` with the test above, which does
      not trim what it keeps. */
  function KeptProducts(items: seq<Json>): (r: seq<string>)
    ensures |r| <= |items|
    ensures forall i :: 0 <= i < |r| ==> Str(r[i]) in items && Strings.Trim(r[i]) != ""
    ensures forall j :: 0 <= j < |items| && NonBlankString(items[j]) ==> items[j].s in r
  {
    var kept := Seqs.Filter(items, NonBlankString);
    Seqs.FilterComplete(items, NonBlankString);
    Texts(kept)
  }

  /** Taking the texts distributes over concatenation. */
  lemma {:induction false} TextsAppend(x: seq<Json>, y: seq<Json>)
    requires forall i :: 0 <= i < |x| ==> x[i].Str?
    requires forall i :: 0 <= i < |y| ==> y[i].Str?
    ensures Texts(x + y) == Texts(x) + Texts(y)
    decreases |x|
  {
    if |x| == 0 {
      assert x + y == y;
    } else {
      assert (x + y)[1..] == x[1..] + y;
      TextsAppend(x[1..], y);
    }
  }

  /** Filtering a concatenation keeps the products of each part, in order. */
  lemma KeptProductsAppend(a: seq<Json>, b: seq<Json>)
    ensures KeptProducts(a + b) == KeptProducts(a) + KeptProducts(b)
  {
    Seqs.FilterAppend(a, b, NonBlankString);
    TextsAppend(Seqs.Filter(a, NonBlankString), Seqs.Filter(b, NonBlankString));
  }

  /** The kept products are exactly the strings `Array.filter` keeps: same order, same
      duplicates. */
  lemma KeptProductsFollowFilter(items: seq<Json>)
    ensures Seqs.Filter(items, NonBlankString) == Strs(KeptProducts(items))
  {
    var kept := Seqs.Filter(items, NonBlankString);
    assert forall i :: 0 <= i < |kept| ==> Strs(KeptProducts(items))[i] == kept[i];
  }

  /** The `productos` of the payload: the filtered array, or `[]` when the field is not an array. */
  function Products(cajaData: Json): (r: Result<seq<string>, JsError>)
    ensures var v := Get(Some(cajaData), "productos");
            r.Err? <==> v.Some? && v.value.Arr? && exists j :: 0 <= j < |v.value.items| && !Filterable(v.value.items[j])
    ensures var v := Get(Some(cajaData), "productos");
            v.Some? && v.value.Arr? && (forall j :: 0 <= j < |v.value.items| ==> Filterable(v.value.items[j])) ==>
              r == Ok(KeptProducts(v.value.items))
    ensures var v := Get(Some(cajaData), "productos");
            !(v.Some? && v.value.Arr?) ==> r == Ok([])
  {
    var v := Get(Some(cajaData), "productos");
    if v.Some? && v.value.Arr? then
      var items := v.value.items;
      if forall j :: 0 <= j < |items| ==> Filterable(items[j]) then Ok(KeptProducts(items))
      else Err(RuntimeTypeError)
    else Ok([])
  }

  /** The payload object built at the top of `crearCaja`; any step that throws a
      TypeError (a null argument, a non-string field, a product that is neither
      falsy nor a string) makes the whole construction throw. */
  function Normalise(cajaData: Json, precio: JsNumber): (r: Result<Payload, JsError>)
    ensures r.Ok? <==>
              && !cajaData.Null?
              && TrimmedField(cajaData, "nombre").Ok? && TrimmedField(cajaData, "pais").Ok?
              && TrimmedField(cajaData, "descripcion").Ok? && TrimmedField(cajaData, "imagen").Ok?
              && Products(cajaData).Ok?
    ensures r.Ok? ==> r.value.precio == precio
    ensures r.Ok? ==> r.value.nombre == TrimmedField(cajaData, "nombre").value
    ensures r.Ok? ==> r.value.pais == TrimmedField(cajaData, "pais").value
    ensures r.Ok? ==> r.value.descripcion == TrimmedField(cajaData, "descripcion").value
    ensures r.Ok? ==> r.value.imagen == TrimmedField(cajaData, "imagen").value
    ensures r.Ok? ==> Products(cajaData) == Ok(r.value.productos)
    ensures r.Err? ==> r.error == RuntimeTypeError
  {
    if cajaData.Null? then Err(RuntimeTypeError)
    else
      var nombre := TrimmedField(cajaData, "nombre");
      var pais := TrimmedField(cajaData, "pais");
      var descripcion := TrimmedField(cajaData, "descripcion");
      var imagen := TrimmedField(cajaData, "imagen");
      var productos := Products(cajaData);
      if nombre.Err? || pais.Err? || descripcion.Err? || imagen.Err? || productos.Err? then Err(RuntimeTypeError)
      else Ok(Payload(nombre.value, pais.value, descripcion.value, imagen.value, precio, productos.value))
  }

  /** A string property of the request body: left out when it is `undefined`. */
  function WithString(m: Fields, key: string, v: Option<string>): (r: Fields)
    ensures key in r <==> key in m || v.Some?
    ensures v.Some? ==> r[key] == Str(v.value)
    ensures v.None? ==> r == m
    ensures forall k :: k in m && k != key ==> k in r && r[k] == m[k]
    ensures forall k :: k in r && k != key ==> k in m
  {
    if v.Some? then m[key := Str(v.value)] else m
  }

  /** The JSON body the POST carries for a payload: properties that are `undefined` are
      omitted and a `NaN` price is written as `null`. */
  function PayloadBody(p: Payload): (j: Json)
    ensures j.Obj? && "_id" !in j.fields
    ensures j.fields.Keys <= {"nombre", "pais", "descripcion", "imagen", "precio", "productos"}
    ensures "precio" in j.fields && j.fields["precio"] == (if p.precio.NaN? then Null else Num(p.precio.n))
    ensures "productos" in j.fields && j.fields["productos"].Arr? && |j.fields["productos"].items| == |p.productos|
    ensures forall i :: 0 <= i < |p.productos| ==> j.fields["productos"].items[i] == Str(p.productos[i])
  {
    var productos := seq(|p.productos|, i requires 0 <= i < |p.productos| => Str(p.productos[i]));
    var m1 := WithString(map[], "nombre", p.nombre);
    var m2 := WithString(m1, "pais", p.pais);
    var m3 := WithString(m2, "descripcion", p.descripcion);
    var m4 := WithString(m3, "imagen", p.imagen);
    Obj(m4["precio" := (if p.precio.NaN? then Null else Num(p.precio.n))]["productos" := Arr(productos)])
  }

  /** The string properties of the body are the payload's defined strings. */
  lemma PayloadBodyStrings(p: Payload)
    ensures var j := PayloadBody(p);
            && Get(Some(j), "nombre") == (if p.nombre.Some? then Some(Str(p.nombre.value)) else None)
            && Get(Some(j), "pais") == (if p.pais.Some? then Some(Str(p.pais.value)) else None)
            && Get(Some(j), "descripcion") == (if p.descripcion.Some? then Some(Str(p.descripcion.value)) else None)
            && Get(Some(j), "imagen") == (if p.imagen.Some? then Some(Str(p.imagen.value)) else None)
  {
  }

  predicate Present(s: Option<string>) {
    s.Some? && s.value != ""
  }

  /** The required-field check: every string non-empty after trimming, a price that is
      neither 0 nor NaN, and at least one product. */
  predicate Complete(p: Payload) {
    && Present(p.nombre) && Present(p.pais) && Present(p.descripcion) && Present(p.imagen)
    && p.precio.Finite? && p.precio.n != 0
    && |p.productos| > 0
  }

  /** The submitted field is a string with something besides whitespace. */
  predicate Filled(cajaData: Json, key: string) {
    var v := Get(Some(cajaData), key);
    v.Some? && v.value.Str? && Strings.Trim(v.value.s) != ""
  }

  /** A field that reads without throwing is present after trimming exactly when it
      was filled. */
  lemma PresentExactly(cajaData: Json, key: string)
    ensures TrimmedField(cajaData, key).Ok? ==> (Present(TrimmedField(cajaData, key).value) <==> Filled(cajaData, key))
  {
  }

  /** Something is kept exactly when some element is a non-blank string. */
  lemma KeptNonEmptyExactly(items: seq<Json>)
    ensures |KeptProducts(items)| > 0 <==> exists j :: 0 <= j < |items| && NonBlankString(items[j])
  {
    var kept := KeptProducts(items);
    if |kept| > 0 {
      var j :| 0 <= j < |items| && items[j] == Str(kept[0]);
      assert NonBlankString(items[j]);
    }
  }

  /** A product list that filters without throwing is non-empty exactly when the field
      is an array holding a non-blank string. */
  lemma ProductsNonEmptyExactly(cajaData: Json)
    ensures Products(cajaData).Ok? ==>
              (|Products(cajaData).value| > 0 <==>
                exists items, j :: Get(Some(cajaData), "productos") == Some(Arr(items))
                                   && 0 <= j < |items| && NonBlankString(items[j]))
  {
    var v := Get(Some(cajaData), "productos");
    if Products(cajaData).Ok? && v.Some? && v.value.Arr? {
      var items := v.value.items;
      assert Products(cajaData) == Ok(KeptProducts(items));
      KeptNonEmptyExactly(items);
    }
  }

  /** In terms of what was submitted, a normalised payload passes the required-field
      check exactly when the four text fields are filled, the price is a number other
      than 0, and `productos` is an array holding at least one non-blank string. */
  lemma CompleteExactly(cajaData: Json, precio: JsNumber)
    ensures Normalise(cajaData, precio).Ok? ==>
              (Complete(Normalise(cajaData, precio).value) <==>
                && Filled(cajaData, "nombre") && Filled(cajaData, "pais")
                && Filled(cajaData, "descripcion") && Filled(cajaData, "imagen")
                && precio.Finite? && precio.n != 0
                && exists items, j :: Get(Some(cajaData), "productos") == Some(Arr(items))
                                      && 0 <= j < |items| && NonBlankString(items[j]))
  {
    if Normalise(cajaData, precio).Ok? {
      PresentExactly(cajaData, "nombre");
      PresentExactly(cajaData, "pais");
      PresentExactly(cajaData, "descripcion");
      PresentExactly(cajaData, "imagen");
      ProductsNonEmptyExactly(cajaData);
    }
  }

  /** The `catch` of `crearCaja`: the backend's `message`, else its `error`, else the
      fixed fallback, always as a fresh `Error` without a response. */
  function CreateCatch(e: JsError): (r: JsError)
    ensures r.responseData.None?
    ensures Truthy(ResponseField(e, "message")) ==> r.message == ToJsString(ResponseField(e, "message").value)
    ensures !Truthy(ResponseField(e, "message")) && Truthy(ResponseField(e, "error")) ==>
              r.message == ToJsString(ResponseField(e, "error").value)
    ensures !Truthy(ResponseField(e, "message")) && !Truthy(ResponseField(e, "error")) ==>
              r.message == CreateFailedMessage
  {
    var backend := Or(ResponseField(e, "message"), ResponseField(e, "error"));
    PlainError(if Truthy(backend) then ToJsString(backend.value) else CreateFailedMessage)
  }

  datatype CreateOutcome = CreateOutcome(posted: Option<Payload>, result: Result<Json, JsError>)

  /** `apiFetch.crearCaja(cajaData)`, where `precio` is `Number(cajaData.precio)` and
      `post` the outcome the POST would have. */
  function CrearCaja(cajaData: Json, precio: JsNumber, post: Result<Json, JsError>): (o: CreateOutcome)
    ensures o.posted.Some? <==> Normalise(cajaData, precio).Ok? && Complete(Normalise(cajaData, precio).value)
    ensures o.posted.Some? ==> Complete(o.posted.value) && Normalise(cajaData, precio) == Ok(o.posted.value)
    ensures o.posted.None? ==> o.result == Err(PlainError(CreateFailedMessage))
    ensures o.posted.Some? && post.Ok? ==> o.result == post
    ensures o.posted.Some? && post.Err? ==> o.result == Err(CreateCatch(post.error))
  {
    var attempt: Result<Payload, JsError> :=
      match Normalise(cajaData, precio)
      case Err(e) => Err(e)
      case Ok(p) => if Complete(p) then Ok(p) else Err(PlainError(ValidationMessage));
    match attempt
    case Err(e) => CreateOutcome(None, Err(CreateCatch(e)))
    case Ok(p) =>
      match post
      case Ok(data) => CreateOutcome(Some(p), Ok(data))
      case Err(e) => CreateOutcome(Some(p), Err(CreateCatch(e)))
  }

  /** A failure detected before the request is reported as the fallback message, so the
      caller never sees the local validation text. */
  lemma LocalFailureHidesValidationText(cajaData: Json, precio: JsNumber, post: Result<Json, JsError>)
    ensures var o := CrearCaja(cajaData, precio, post);
            o.posted.None? ==> o.result.Err? && o.result.error.message != ValidationMessage
  {
  }

  /** A price of 0 or NaN, or an empty product list, stops the request. */
  lemma NoRequestWithoutPriceOrProducts(cajaData: Json, precio: JsNumber, post: Result<Json, JsError>)
    requires precio == NaN || precio == Finite(0) || Products(cajaData) == Ok([])
    ensures CrearCaja(cajaData, precio, post).posted.None?
  {
  }
}
