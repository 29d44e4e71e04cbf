/** How the modelled pieces compose when the three mock routes stand in for the remote
    API that the HTTP client is configured to call: the login endpoint with the browser
    session, the request interceptor with the statistics endpoint's bearer gate,
    `crearCaja` with the catalog endpoint and the `useCajas` cache, and the statistics
    endpoint with the `useUsuarios` hook. */
module Flows {
  import opened Wrappers
  import opened Js
  import Strings
  import Session
  import LoginRoute
  import UsuariosRoute
  import CajasRoute
  import CatalogClient
  import CajasHook
  import UsuariosHook
  import Seqs
  import Records

  /** The `authorization` header a request carries when it reaches a route. */
  function AuthorizationOf(headers: Session.Headers): Option<string> {
    if "Authorization" in headers then Some(headers["Authorization"]) else None
  }

  /** Logging in with the admin credentials writes a cookie that reads back as the issued
      token, so the browser counts as authenticated. */
  lemma AdminLoginAuthenticates(body: Json, now: nat)
    requires LoginRoute.ValidCredentials(body)
    ensures var o := Session.Login(Ok(LoginRoute.HandlePost(Some(body), now).body));
            && o.result.Ok?
            && o.cookieWrite.Some?
            && Session.ExtractToken(o.cookieWrite.value) == Some(LoginRoute.MockToken(now))
            && Session.IsAuthenticated(o.cookieWrite.value)
  {
    var t := LoginRoute.MockToken(now);
    Session.LoginCookieRoundTrip(t);
    assert t != "" by {
      assert |t| >= |LoginRoute.TokenPrefix|;
    }
  }

  /** A rejected login (a 401 that the HTTP client turns into an error carrying the
      response body) is rethrown as it is and writes no cookie. */
  lemma RejectedLoginWritesNoCookie(body: Json, now: nat, message: string)
    requires !body.Null? && !LoginRoute.ValidCredentials(body)
    ensures var response := LoginRoute.HandlePost(Some(body), now);
            var e := JsError(message, Some(response.body));
            && response.status == 401
            && Session.Login(Err(e)) == Session.LoginOutcome(None, Err(e))
  {
  }

  /** A request sent through the interceptor, delivered to the statistics endpoint,
      passes its gate exactly when the browser holds a non-empty session token. */
  lemma GateFollowsSession(headers: Session.Headers, cookie: string)
    requires "Authorization" !in headers
    ensures UsuariosRoute.HandleGet(AuthorizationOf(Session.Intercept(headers, cookie))).status == 200
            <==> Session.IsAuthenticated(cookie)
  {
    var h := Session.Intercept(headers, cookie);
    if Session.IsAuthenticated(cookie) {
      var value := h["Authorization"];
      assert Session.BearerToken(h).Some?;
      assert Strings.StartsWith(value, "Bearer ");
    }
  }

  /** After logout the same request is refused. */
  lemma LogoutLocksOut(headers: Session.Headers)
    requires "Authorization" !in headers
    ensures UsuariosRoute.HandleGet(AuthorizationOf(Session.Intercept(headers, Session.Logout().cookieWrite))).status == 401
  {
    GateFollowsSession(headers, Session.Logout().cookieWrite);
  }

  /** The box the catalog endpoint creates from a payload's body carries the clock's id
      and the payload's name, and is appended to the server's list. */
  lemma ServerStoresBox(p: CatalogClient.Payload, boxes: seq<Json>, now: nat)
    requires p.nombre.Some?
    ensures var server := CajasRoute.HandlePost(boxes, Some(CatalogClient.PayloadBody(p)), now);
            && server.boxes == boxes + [server.response.body]
            && CajasHook.Matches(server.response.body, Strings.NatToDecimal(now))
            && Get(Some(server.response.body), "nombre") == Some(Str(p.nombre.value))
  {
    var body := CatalogClient.PayloadBody(p);
    CatalogClient.PayloadBodyStrings(p);
    var box := CajasRoute.HandlePost(boxes, Some(body), now).response.body;
    assert box == Obj(CajasRoute.NewBox(body, now));
    assert "_id" !in Spread(body);
    assert "nombre" in Spread(body) && Spread(body)["nombre"] == Str(p.nombre.value);
  }

  /** A complete payload built by `crearCaja`, accepted by the catalog endpoint, comes
      back with the clock's id, lands at the end of both the server list and the client
      cache, and deleting that id from the cache restores it. */
  lemma CreatedBoxReachesCache(cajaData: Json, precio: CatalogClient.JsNumber, boxes: seq<Json>, now: nat,
                               cache: CajasHook.State, ack: Json)
    requires CatalogClient.Normalise(cajaData, precio).Ok?
    requires CatalogClient.Complete(CatalogClient.Normalise(cajaData, precio).value)
    requires forall i :: 0 <= i < |cache.cajas| ==> !CajasHook.Matches(cache.cajas[i], Strings.NatToDecimal(now))
    ensures var p := CatalogClient.Normalise(cajaData, precio).value;
            var server := CajasRoute.HandlePost(boxes, Some(CatalogClient.PayloadBody(p)), now);
            var client := CatalogClient.CrearCaja(cajaData, precio, Ok(server.response.body));
            var hook := CajasHook.CrearCaja(cache, client.result).state;
            && client.posted == Some(p)
            && client.result == Ok(server.response.body)
            && server.boxes == boxes + [server.response.body]
            && hook.cajas == cache.cajas + [server.response.body]
            && CajasHook.Matches(server.response.body, Strings.NatToDecimal(now))
            && Get(Some(server.response.body), "nombre") == Some(Str(p.nombre.value))
            && CajasHook.EliminarCaja(hook, Strings.NatToDecimal(now), Ok(ack)).state == cache
  {
    var p := CatalogClient.Normalise(cajaData, precio).value;
    ServerStoresBox(p, boxes, now);
    var box := CajasRoute.HandlePost(boxes, Some(CatalogClient.PayloadBody(p)), now).response.body;
    var client := CatalogClient.CrearCaja(cajaData, precio, Ok(box));
    assert client.posted == Some(p) && client.result == Ok(box);
    CajasHook.DeleteUndoesCreate(cache, box, Strings.NatToDecimal(now), ack);
  }

  /** The hook reads a statistics body of the endpoint's shape as the totals it carries
      and the normalised users. */
  lemma ReadStatsBody(u: seq<Json>)
    requires forall i :: 0 <= i < |u| ==> !u[i].Null?
    ensures UsuariosHook.NumericTotals(UsuariosRoute.StatsBody(u))
    ensures var subs := |Seqs.Filter(u, Records.ActiveSubscription)|;
            UsuariosHook.Stats(UsuariosRoute.StatsBody(u))
              == Ok(UsuariosHook.Data(|u|, subs, subs * UsuariosRoute.RouteUnitValue, UsuariosHook.NormaliseAll(u)))
  {
    var body := UsuariosRoute.StatsBody(u);
    var subs := |Seqs.Filter(u, Records.ActiveSubscription)|;
    assert UsuariosHook.CarriesStats(body) && UsuariosHook.UserList(body) == Ok(u);
    assert Get(Some(body), "totalUsers") == Some(Num(|u|));
    assert Get(Some(body), "totalSubscriptions") == Some(Num(subs));
    assert Get(Some(body), "totalValue") == Some(Num(subs * UsuariosRoute.RouteUnitValue));
    var r := UsuariosHook.Stats(body);
    assert r.Ok?;
    assert r.value.totalUsers == |u| && r.value.totalSubscriptions == subs;
  }

  /** The statistics the endpoint sends, as the hook would read them. */
  function ServedStats(authorization: Option<string>): (d: UsuariosHook.Data)
    requires UsuariosRoute.Authorized(authorization)
    ensures d.usuarios == UsuariosHook.NormaliseAll(UsuariosRoute.MockUsuarios)
    ensures d.totalUsers == 5 && d.totalSubscriptions == 3 && d.totalValue == 135
  {
    var body := UsuariosRoute.HandleGet(authorization).body;
    UsuariosRoute.MockUsersAreRecords();
    ReadStatsBody(UsuariosRoute.MockUsuarios);
    UsuariosRoute.MockActiveCount();
    UsuariosHook.Stats(body).value
  }

  /** Reading the endpoint's totals, which value a subscription at 45, the hook keeps
      them, while its own arithmetic values one at 50: the statistics it would hold do
      not satisfy its own consistency relation. */
  lemma ServedStatsDisagreeWithHookPrice(authorization: Option<string>)
    requires UsuariosRoute.Authorized(authorization)
    ensures UsuariosHook.Subscribers(ServedStats(authorization).usuarios) == 3
    ensures !UsuariosHook.Consistent(ServedStats(authorization))
  {
    UsuariosHook.NormaliseKeepsSubscribers(UsuariosRoute.MockUsuarios);
    UsuariosRoute.MockActiveCount();
  }

  /** Statistics valued at the endpoint's price, once a user without a subscription is
      deleted, are revalued at the hook's price: the value goes up. */
  lemma DeletingNonSubscriberRaisesValue(d: UsuariosHook.Data, id: string, k: int)
    requires d.totalSubscriptions > 0
    requires d.totalValue == d.totalSubscriptions * UsuariosRoute.RouteUnitValue
    requires 0 <= k < |d.usuarios| && HasId(d.usuarios[k], id) && !UsuariosHook.Subscribed(d.usuarios[k])
    requires forall j :: 0 <= j < |d.usuarios| && j != k ==> !HasId(d.usuarios[j], id)
    ensures UsuariosHook.AfterDelete(d, id).totalSubscriptions == d.totalSubscriptions
    ensures UsuariosHook.AfterDelete(d, id).totalValue > d.totalValue
  {
    UsuariosHook.DeleteNonSubscriber(d, id, k);
  }
}
