/** The `useUsuarios` hook (hooks/useUsuarios.ts): the administrator's user statistics,
    taken from the server when it supplies them and derived from the user list when it
    does not, and their adjustment after a deletion. The API outcomes are parameters and
    each operation is one atomic state transition. */
module UsuariosHook {
  import opened Wrappers
  import opened Js
  import Strings
  import Seqs
  import Records

  /** The price of one subscription the hook assumes whenever it computes a total value itself. */
  const HookUnitValue := 50

  const FetchFailedMessage := "Error al cargar usuarios"

  /** `UsuariosData`: the totals and the normalised user records. */
  datatype Data = Data(totalUsers: int, totalSubscriptions: int, totalValue: int, usuarios: seq<Fields>)

  /** The hook's `data` (`None` is `null`) and `error` state. */
  datatype State = State(data: Option<Data>, error: Option<Json>)

  const Initial := State(None, None)

  datatype Step = Step(state: State, result: Result<Json, JsError>)

  /** The response is an object with an own `usuarios` property, so it is taken to carry statistics. */
  predicate CarriesStats(response: Json) {
    response.Obj? && "usuarios" in response.fields
  }

  predicate NumberOrNullish(v: Value) {
    Nullish(v) || v.value.Num?
  }

  /** Each total a statistics response supplies is a number, as the `UsuariosData` type declares. */
  predicate NumericTotals(response: Json) {
    CarriesStats(response) ==>
      && NumberOrNullish(Get(Some(response), "totalUsers"))
      && NumberOrNullish(Get(Some(response), "totalSubscriptions"))
      && NumberOrNullish(Get(Some(response), "totalValue"))
  }

  /** A normalised record whose `suscripcionActiva` is truthy. */
  predicate Subscribed(m: Fields) {
    Records.ActiveSubscription(Obj(m))
  }

  /** The number of records with an active subscription. */
  function Subscribers(users: seq<Fields>): nat {
    |Seqs.Filter(users, Subscribed)|
  }

  /** The statistics agree with the list: one user per record, one subscription per
      active record, and the value at the hook's unit price. */
  predicate Consistent(d: Data) {
    && d.totalUsers == |d.usuarios|
    && d.totalSubscriptions == Subscribers(d.usuarios)
    && d.totalValue == d.totalSubscriptions * HookUnitValue
  }

  /** `{ ...u, fechaRegistro: u.fechaRegistro || u.createdAt || '', suscripcion: u.suscripcion ?? null }`. */
  function Normalise(u: Json): (m: Fields)
    ensures "fechaRegistro" in m && "suscripcion" in m
    ensures Truthy(Get(Some(u), "fechaRegistro")) ==> m["fechaRegistro"] == u.fields["fechaRegistro"]
    ensures !Truthy(Get(Some(u), "fechaRegistro")) && Truthy(Get(Some(u), "createdAt")) ==> m["fechaRegistro"] == u.fields["createdAt"]
    ensures !Truthy(Get(Some(u), "fechaRegistro")) && !Truthy(Get(Some(u), "createdAt")) ==> m["fechaRegistro"] == Str("")
    ensures Nullish(Get(Some(u), "suscripcion")) ==> m["suscripcion"] == Null
    ensures !Nullish(Get(Some(u), "suscripcion")) ==> m["suscripcion"] == u.fields["suscripcion"]
    ensures forall k :: k in Spread(u) && k != "fechaRegistro" && k != "suscripcion" ==> k in m && m[k] == Spread(u)[k]
    ensures forall k :: k in m ==> k in Spread(u) || k == "fechaRegistro" || k == "suscripcion"
  {
    var fecha := Or(Or(Get(Some(u), "fechaRegistro"), Get(Some(u), "createdAt")), Some(Str(""))).value;
    var suscripcion := Coalesce(Get(Some(u), "suscripcion"), Some(Null)).value;
    Spread(u)["fechaRegistro" := fecha]["suscripcion" := suscripcion]
  }

  function NormaliseAll(items: seq<Json>): (r: seq<Fields>)
    ensures |r| == |items|
    ensures forall i :: 0 <= i < |items| ==> r[i] == Normalise(items[i])
  {
    seq(|items|, i requires 0 <= i < |items| => Normalise(items[i]))
  }

  /** Normalisation keeps whether a user is subscribed. */
  lemma NormaliseKeepsSubscription(u: Json)
    ensures Subscribed(Normalise(u)) <==> Records.ActiveSubscription(u)
  {
    var key := "suscripcionActiva";
    assert !Strings.IsDigits(key) by {
      assert key[0] == 's';
    }
    assert !u.Obj? ==> key !in Spread(u);
  }

  /** Normalising a list keeps its number of subscribers. */
  lemma {:induction false} NormaliseKeepsSubscribers(items: seq<Json>)
    ensures Subscribers(NormaliseAll(items)) == |Seqs.Filter(items, Records.ActiveSubscription)|
    decreases |items|
  {
    if |items| > 0 {
      var n := NormaliseAll(items);
      assert n[1..] == NormaliseAll(items[1..]);
      NormaliseKeepsSubscription(items[0]);
      NormaliseKeepsSubscribers(items[1..]);
    }
  }

  /** The list the hook works on: the `usuarios` array of a statistics response, the
      response itself when it is an array, `[]` for any other non-null response; reading
      `usuarios` of `null`, or mapping over a `usuarios` that is not an array, throws. */
  function UserList(response: Json): (r: Result<seq<Json>, JsError>)
    ensures CarriesStats(response) && response.fields["usuarios"].Arr? ==> r == Ok(response.fields["usuarios"].items)
    ensures CarriesStats(response) && !response.fields["usuarios"].Arr? ==> r == Err(RuntimeTypeError)
    ensures response.Arr? ==> r == Ok(response.items)
    ensures response.Null? ==> r == Err(RuntimeTypeError)
    ensures !CarriesStats(response) && !response.Arr? && !response.Null? ==> r == Ok([])
  {
    if CarriesStats(response) then
      var usuarios := response.fields["usuarios"];
      if usuarios.Arr? then Ok(usuarios.items) else Err(RuntimeTypeError)
    else if response.Arr? then Ok(response.items)
    else if response.Null? then Err(RuntimeTypeError)
    else Ok([])
  }

  /** `response.key ?? fallback` for a total. */
  function Total(response: Json, key: string, fallback: int): int
    requires NumberOrNullish(Get(Some(response), key))
  {
    var v := Get(Some(response), key);
    if Nullish(v) then fallback else v.value.n
  }

  /** The `UsuariosData` built from a response: the server's totals where it supplies
      them, the derived ones otherwise. A null user throws when it is read. */
  function Stats(response: Json): (r: Result<Data, JsError>)
    requires NumericTotals(response)
    ensures r.Ok? <==> UserList(response).Ok? && forall i :: 0 <= i < |UserList(response).value| ==> !UserList(response).value[i].Null?
    ensures r.Err? ==> r.error == RuntimeTypeError
    ensures r.Ok? ==> r.value.usuarios == NormaliseAll(UserList(response).value)
    ensures r.Ok? && !CarriesStats(response) ==> Consistent(r.value)
    ensures r.Ok? && CarriesStats(response) ==>
              && (Nullish(Get(Some(response), "totalUsers")) ==> r.value.totalUsers == |r.value.usuarios|)
              && (Nullish(Get(Some(response), "totalSubscriptions")) ==> r.value.totalSubscriptions == Subscribers(r.value.usuarios))
              && (Nullish(Get(Some(response), "totalValue")) ==> r.value.totalValue == Subscribers(r.value.usuarios) * HookUnitValue)
    ensures r.Ok? && CarriesStats(response) ==>
              && (!Nullish(Get(Some(response), "totalUsers")) ==> Num(r.value.totalUsers) == response.fields["totalUsers"])
              && (!Nullish(Get(Some(response), "totalSubscriptions")) ==> Num(r.value.totalSubscriptions) == response.fields["totalSubscriptions"])
              && (!Nullish(Get(Some(response), "totalValue")) ==> Num(r.value.totalValue) == response.fields["totalValue"])
  {
    match UserList(response)
    case Err(e) => Err(e)
    case Ok(items) =>
      if exists i :: 0 <= i < |items| && items[i].Null? then Err(RuntimeTypeError)
      else
        var subs := |Seqs.Filter(items, Records.ActiveSubscription)|;
        NormaliseKeepsSubscribers(items);
        var usuarios := NormaliseAll(items);
        if CarriesStats(response) then
          Ok(Data(
               Total(response, "totalUsers", |items|),
               Total(response, "totalSubscriptions", subs),
               Total(response, "totalValue", subs * HookUnitValue),
               usuarios))
        else Ok(Data(|items|, subs, subs * HookUnitValue, usuarios))
  }

  /** `fetchUsuarios`: a response the hook can read replaces the data and clears the
      error; otherwise the data stays and the error text is recorded. */
  function FetchUsuarios(st: State, response: Result<Json, JsError>): (st': State)
    requires response.Ok? ==> NumericTotals(response.value)
    ensures response.Err? ==> st' == st.(error := Some(ErrorText(response.error, FetchFailedMessage)))
    ensures response.Ok? && Stats(response.value).Ok? ==> st' == State(Some(Stats(response.value).value), None)
    ensures response.Ok? && Stats(response.value).Err? ==> st' == st.(error := Some(Str(RuntimeTypeError.message)))
    ensures st'.error.None? <==> st'.data.Some? && response.Ok? && UserList(response.value).Ok?
                                 && forall i :: 0 <= i < |UserList(response.value).value| ==> !UserList(response.value).value[i].Null?
  {
    match response
    case Err(e) => st.(error := Some(ErrorText(e, FetchFailedMessage)))
    case Ok(v) =>
      match Stats(v)
      case Ok(d) => State(Some(d), None)
      case Err(e) => st.(error := Some(ErrorText(e, FetchFailedMessage)))
  }

  /** `u._id === id`. */
  function WithId(id: string): Fields -> bool {
    m => HasId(m, id)
  }

  /** The filter of `eliminarUsuario`: `u._id !== id`. */
  function OtherUser(id: string): Fields -> bool {
    m => !HasId(m, id)
  }

  /** The data after a successful deletion: the records with that id go, the user count
      drops by one, the subscription count drops by one when the first such record was
      subscribed, and the value is recomputed at the hook's unit price. */
  function AfterDelete(d: Data, id: string): (r: Data)
    ensures r.usuarios == Seqs.Filter(d.usuarios, OtherUser(id))
    ensures forall i :: 0 <= i < |r.usuarios| ==> !HasId(r.usuarios[i], id)
    ensures r.totalUsers == d.totalUsers - 1
    ensures r.totalSubscriptions == d.totalSubscriptions - 1 <==>
              exists k :: 0 <= k < |d.usuarios| && HasId(d.usuarios[k], id) && Subscribed(d.usuarios[k])
                          && forall j :: 0 <= j < k ==> !HasId(d.usuarios[j], id)
    ensures r.totalSubscriptions == d.totalSubscriptions || r.totalSubscriptions == d.totalSubscriptions - 1
    ensures r.totalValue == r.totalSubscriptions * HookUnitValue
  {
    var found := Seqs.FindIndex(d.usuarios, WithId(id));
    var dropped := if found.Some? && Subscribed(d.usuarios[found.value]) then 1 else 0;
    var subs := d.totalSubscriptions - dropped;
    Data(d.totalUsers - 1, subs, subs * HookUnitValue, Seqs.Filter(d.usuarios, OtherUser(id)))
  }

  /** `eliminarUsuario`: after a successful delete request the data, when there is any,
      is adjusted; a failed request is rethrown and nothing changes. */
  function EliminarUsuario(st: State, id: string, deleted: Result<Json, JsError>): (s: Step)
    ensures deleted.Ok? && st.data.Some? ==> s.state == st.(data := Some(AfterDelete(st.data.value, id)))
    ensures deleted.Ok? && st.data.None? ==> s.state == st
    ensures deleted.Ok? ==> s.result == Ok(Null)
    ensures deleted.Err? ==> s == Step(st, deleted)
  {
    match deleted
    case Err(_) => Step(st, deleted)
    case Ok(_) =>
      match st.data
      case None => Step(st, Ok(Null))
      case Some(d) => Step(st.(data := Some(AfterDelete(d, id))), Ok(Null))
  }

  /** Deleting a user whose id occurs exactly once keeps consistent statistics consistent. */
  lemma DeleteKeepsConsistent(d: Data, id: string, k: int)
    requires Consistent(d)
    requires 0 <= k < |d.usuarios| && HasId(d.usuarios[k], id)
    requires forall j :: 0 <= j < |d.usuarios| && j != k ==> !HasId(d.usuarios[j], id)
    ensures Consistent(AfterDelete(d, id))
  {
    var u := d.usuarios;
    var r := AfterDelete(d, id);
    assert r.usuarios == u[..k] + u[k + 1..] by {
      OnlyRecordDropped(u, id, k);
    }
    assert r.totalSubscriptions == Subscribers(u[..k] + u[k + 1..]) by {
      assert Seqs.FindIndex(u, WithId(id)) == Some(k);
      SubscribersAround(u, k);
      Seqs.FilterAppend(u[..k], u[k + 1..], Subscribed);
    }
  }

  /** Filtering out an id that only record `k` carries removes exactly that record. */
  lemma OnlyRecordDropped(u: seq<Fields>, id: string, k: int)
    requires 0 <= k < |u| && HasId(u[k], id)
    requires forall j :: 0 <= j < |u| && j != k ==> !HasId(u[j], id)
    ensures Seqs.Filter(u, OtherUser(id)) == u[..k] + u[k + 1..]
  {
    Seqs.FilterDropsOne(u, k, OtherUser(id));
  }

  lemma SubscribersAround(u: seq<Fields>, k: int)
    requires 0 <= k < |u|
    ensures Subscribers(u) == Subscribers(u[..k]) + (if Subscribed(u[k]) then 1 else 0) + Subscribers(u[k + 1..])
  {
    Seqs.FilterAround(u, k, Subscribed);
  }

  /** Deleting the only record with an id that has no active subscription keeps the
      subscription count and removes one record. */
  lemma DeleteNonSubscriber(d: Data, id: string, k: int)
    requires 0 <= k < |d.usuarios| && HasId(d.usuarios[k], id) && !Subscribed(d.usuarios[k])
    requires forall j :: 0 <= j < |d.usuarios| && j != k ==> !HasId(d.usuarios[j], id)
    ensures AfterDelete(d, id).totalSubscriptions == d.totalSubscriptions
    ensures AfterDelete(d, id).usuarios == d.usuarios[..k] + d.usuarios[k + 1..]
  {
    assert Seqs.FindIndex(d.usuarios, WithId(id)) == Some(k);
    OnlyRecordDropped(d.usuarios, id, k);
  }

  /** Deleting an id no record carries still lowers the user count, so consistent
      statistics stop matching the list. */
  lemma DeleteAbsentIdDesynchronises(d: Data, id: string)
    requires Consistent(d)
    requires forall j :: 0 <= j < |d.usuarios| ==> !HasId(d.usuarios[j], id)
    ensures AfterDelete(d, id).usuarios == d.usuarios
    ensures AfterDelete(d, id).totalUsers == |d.usuarios| - 1
    ensures !Consistent(AfterDelete(d, id))
  {
    Seqs.FilterKeepsAll(d.usuarios, OtherUser(id));
  }
}
