/** The `useCajas` hook (hooks/useCajas.ts): the client's cached list of catalog
    entries and its reconciliation after each API call. Every call's outcome is a
    parameter and each operation is one atomic state transition. */
module CajasHook {
  import opened Wrappers
  import opened Js
  import Seqs

  const FetchFailedMessage := "Error al cargar cajas"

  /** The hook's `cajas` and `error` state. */
  datatype State = State(cajas: seq<Json>, error: Option<Json>)

  const Initial := State([], None)

  /** The result of a mutation helper: the new state and what the helper returns or rethrows. */
  datatype Step = Step(state: State, result: Result<Json, JsError>)

  /** `caja._id === id`. */
  predicate Matches(caja: Json, id: string) {
    caja.Obj? && HasId(caja.fields, id)
  }

  /** The filter of `eliminarCaja`: keeps the entries whose `_id` is not `id`. */
  function Other(id: string): Json -> bool {
    caja => !Matches(caja, id)
  }

  /** `fetchCajas`: a successful fetch replaces the cache with the response when it is
      an array and with `[]` otherwise, and clears the error; a failed one keeps the
      cache and records the error text. */
  function FetchCajas(st: State, response: Result<Json, JsError>): (st': State)
    ensures response.Ok? && response.value.Arr? ==> st' == State(response.value.items, None)
    ensures response.Ok? && !response.value.Arr? ==> st' == State([], None)
    ensures response.Err? ==> st'.cajas == st.cajas && st'.error == Some(ErrorText(response.error, FetchFailedMessage))
  {
    match response
    case Ok(data) => State(if data.Arr? then data.items else [], None)
    case Err(e) => st.(error := Some(ErrorText(e, FetchFailedMessage)))
  }

  /** `crearCaja`: on success the new entry is appended at the end of the cache; a
      failure is rethrown and leaves the state alone. */
  function CrearCaja(st: State, created: Result<Json, JsError>): (s: Step)
    ensures s.result == created
    ensures created.Ok? ==> |s.state.cajas| == |st.cajas| + 1
    ensures created.Ok? ==> s.state.cajas[..|st.cajas|] == st.cajas && s.state.cajas[|st.cajas|] == created.value
    ensures created.Err? ==> s.state == st
    ensures s.state.error == st.error
  {
    match created
    case Ok(caja) => Step(st.(cajas := st.cajas + [caja]), created)
    case Err(_) => Step(st, created)
  }

  /** The entry after `{ ...caja, ...cajaActualizada }` for a matching entry. */
  function Merge(caja: Json, updated: Json): (r: Json)
    requires caja.Obj?
    ensures r.Obj?
    ensures forall k :: k in Spread(updated) ==> k in r.fields && r.fields[k] == Spread(updated)[k]
    ensures forall k :: k in caja.fields && k !in Spread(updated) ==> k in r.fields && r.fields[k] == caja.fields[k]
    ensures forall k :: k in r.fields ==> k in caja.fields || k in Spread(updated)
  {
    Obj(caja.fields + Spread(updated))
  }

  function UpdateEntries(cajas: seq<Json>, id: string, updated: Json): (r: seq<Json>)
    ensures |r| == |cajas|
    ensures forall i :: 0 <= i < |cajas| && !Matches(cajas[i], id) ==> r[i] == cajas[i]
    ensures forall i :: 0 <= i < |cajas| && Matches(cajas[i], id) ==> r[i] == Merge(cajas[i], updated)
  {
    seq(|cajas|, i requires 0 <= i < |cajas| => if Matches(cajas[i], id) then Merge(cajas[i], updated) else cajas[i])
  }

  /** `actualizarCaja`: on success every entry with `_id === id` is overlaid with the
      response's fields and every other entry is kept as it was; a failure is rethrown
      and leaves the state alone. */
  function ActualizarCaja(st: State, id: string, updated: Result<Json, JsError>): (s: Step)
    ensures s.result == updated
    ensures updated.Ok? ==> s.state == st.(cajas := UpdateEntries(st.cajas, id, updated.value))
    ensures updated.Err? ==> s.state == st
  {
    match updated
    case Ok(u) => Step(st.(cajas := UpdateEntries(st.cajas, id, u)), updated)
    case Err(_) => Step(st, updated)
  }

  /** `eliminarCaja`: on success every entry with `_id === id` is dropped and the others
      keep their order; a failure is rethrown and leaves the state alone. The helper
      itself returns nothing (`Null` here). */
  function EliminarCaja(st: State, id: string, deleted: Result<Json, JsError>): (s: Step)
    ensures deleted.Ok? ==> s.state.cajas == Seqs.Filter(st.cajas, Other(id)) && s.result == Ok(Null)
    ensures deleted.Ok? ==> forall i :: 0 <= i < |s.state.cajas| ==> !Matches(s.state.cajas[i], id)
    ensures deleted.Ok? ==> forall i :: 0 <= i < |st.cajas| && !Matches(st.cajas[i], id) ==> st.cajas[i] in s.state.cajas
    ensures deleted.Err? ==> s == Step(st, deleted)
    ensures s.state.error == st.error
  {
    Seqs.FilterComplete(st.cajas, Other(id));
    match deleted
    case Ok(_) => Step(st.(cajas := Seqs.Filter(st.cajas, Other(id))), Ok(Null))
    case Err(_) => Step(st, deleted)
  }

  /** Deleting an entry that was just created, under an id no other entry had, gives
      back the cache as it was before the creation. */
  lemma DeleteUndoesCreate(st: State, caja: Json, id: string, ack: Json)
    requires Matches(caja, id)
    requires forall i :: 0 <= i < |st.cajas| ==> !Matches(st.cajas[i], id)
    ensures EliminarCaja(CrearCaja(st, Ok(caja)).state, id, Ok(ack)).state == st
  {
    Seqs.FilterAppend(st.cajas, [caja], Other(id));
    Seqs.FilterKeepsAll(st.cajas, Other(id));
    assert Seqs.Filter([caja], Other(id)) == [];
  }

  /** Deleting the same id twice is deleting it once. */
  lemma DeleteIdempotent(st: State, id: string, ack1: Json, ack2: Json)
    ensures var once := EliminarCaja(st, id, Ok(ack1)).state;
            EliminarCaja(once, id, Ok(ack2)).state == once
  {
    Seqs.FilterIdempotent(st.cajas, Other(id));
  }

  /** Deleting from a concatenation deletes from each part, so order is preserved. */
  lemma DeleteDistributes(a: seq<Json>, b: seq<Json>, id: string, ack: Json)
    ensures EliminarCaja(State(a + b, None), id, Ok(ack)).state.cajas
         == EliminarCaja(State(a, None), id, Ok(ack)).state.cajas + EliminarCaja(State(b, None), id, Ok(ack)).state.cajas
  {
    Seqs.FilterAppend(a, b, Other(id));
  }
}
