/** The administrator's statistics endpoint (app/api/admin/usuarios/route.ts): a bearer
    gate in front of fixed mock users and the statistics computed from them. */
module UsuariosRoute {
  import opened Js
  import opened Http
  import opened Wrappers
  import Strings
  import Seqs
  import Records

  /** The average subscription price the endpoint values subscriptions at. */
  const RouteUnitValue := 45

  const UnauthorizedMessage := "Unauthorized"

  function MockUser(id: string, nombre: string, correo: string, fechaRegistro: string, activa: bool): Json {
    Obj(map[
      "_id" := Str(id),
      "nombre" := Str(nombre),
      "correo" := Str(correo),
      "fechaRegistro" := Str(fechaRegistro),
      "suscripcionActiva" := Bool(activa)])
  }

  /** The endpoint's fixed user list. */
  const MockUsuarios: seq<Json> := [
    MockUser("user1", "Carlos López", "carlos@example.com", "2024-01-15T00:00:00.000Z", true),
    MockUser("user2", "María García", "maria@example.com", "2024-02-20T00:00:00.000Z", true),
    MockUser("user3", "Juan Pérez", "juan@example.com", "2024-03-10T00:00:00.000Z", false),
    MockUser("user4", "Ana Martínez", "ana@example.com", "2024-03-25T00:00:00.000Z", true),
    MockUser("user5", "Luis Rodriguez", "luis@example.com", "2024-04-05T00:00:00.000Z", false)
  ]

  /** The `authorization` header is present and starts with `Bearer `. The credential
      after the prefix is not checked. */
  predicate Authorized(authorization: Option<string>) {
    authorization.Some? && Strings.StartsWith(authorization.value, "Bearer ")
  }

  /** The statistics body for a list of users: the users themselves, how many there are,
      how many of them subscribe (all of them exactly when every user is active, none
      exactly when no user is), and that count valued at the route's price. */
  function StatsBody(usuarios: seq<Json>): (body: Json)
    ensures body.Obj? && body.fields.Keys == {"totalUsers", "totalSubscriptions", "totalValue", "usuarios"}
    ensures body.fields["usuarios"] == Arr(usuarios) && body.fields["totalUsers"] == Num(|usuarios|)
    ensures body.fields["totalSubscriptions"] == Num(|Seqs.Filter(usuarios, Records.ActiveSubscription)|)
    ensures 0 <= body.fields["totalSubscriptions"].n <= |usuarios|
    ensures body.fields["totalValue"] == Num(body.fields["totalSubscriptions"].n * RouteUnitValue)
    ensures body.fields["totalSubscriptions"] == Num(|usuarios|) <==>
              forall i :: 0 <= i < |usuarios| ==> Records.ActiveSubscription(usuarios[i])
    ensures body.fields["totalSubscriptions"] == Num(0) <==>
              forall i :: 0 <= i < |usuarios| ==> !Records.ActiveSubscription(usuarios[i])
  {
    Seqs.FilterCountExtremes(usuarios, Records.ActiveSubscription);
    var subs := |Seqs.Filter(usuarios, Records.ActiveSubscription)|;
    Obj(map[
      "totalUsers" := Num(|usuarios|),
      "totalSubscriptions" := Num(subs),
      "totalValue" := Num(subs * RouteUnitValue),
      "usuarios" := Arr(usuarios)])
  }

  /** `GET`: 401 without a bearer header; otherwise 200 with the number of users, the
      number of active subscriptions, their value at the route's price, and the users. */
  function HandleGet(authorization: Option<string>): (r: Response)
    ensures !Authorized(authorization) ==> r == Response(401, ErrorBody(UnauthorizedMessage))
    ensures Authorized(authorization) ==> r.status == 200 && r.body.Obj?
    ensures Authorized(authorization) ==>
              && r.body.fields.Keys == {"totalUsers", "totalSubscriptions", "totalValue", "usuarios"}
              && r.body.fields["usuarios"] == Arr(MockUsuarios)
              && r.body.fields["totalUsers"] == Num(|MockUsuarios|)
              && r.body.fields["totalValue"].Num? && r.body.fields["totalSubscriptions"].Num?
              && r.body.fields["totalValue"].n == r.body.fields["totalSubscriptions"].n * RouteUnitValue
              && 0 <= r.body.fields["totalSubscriptions"].n <= |MockUsuarios|
  {
    if !Authorized(authorization) then Response(401, ErrorBody(UnauthorizedMessage))
    else Response(200, StatsBody(MockUsuarios))
  }

  /** Every mock user is a record. */
  lemma MockUsersAreRecords()
    ensures |MockUsuarios| == 5
    ensures forall i :: 0 <= i < |MockUsuarios| ==> MockUsuarios[i].Obj?
  {
  }

  lemma MockUserActivity(id: string, nombre: string, correo: string, fechaRegistro: string, activa: bool)
    ensures Records.ActiveSubscription(MockUser(id, nombre, correo, fechaRegistro, activa)) <==> activa
  {
  }

  /** Three of the mock users hold an active subscription. */
  lemma MockActiveCount()
    ensures |Seqs.Filter(MockUsuarios, Records.ActiveSubscription)| == 3
  {
    var u := MockUsuarios;
    var keep := Records.ActiveSubscription;
    MockUserActivity("user1", "Carlos López", "carlos@example.com", "2024-01-15T00:00:00.000Z", true);
    MockUserActivity("user2", "María García", "maria@example.com", "2024-02-20T00:00:00.000Z", true);
    MockUserActivity("user3", "Juan Pérez", "juan@example.com", "2024-03-10T00:00:00.000Z", false);
    MockUserActivity("user4", "Ana Martínez", "ana@example.com", "2024-03-25T00:00:00.000Z", true);
    MockUserActivity("user5", "Luis Rodriguez", "luis@example.com", "2024-04-05T00:00:00.000Z", false);
    assert |Seqs.Filter(u[4..], keep)| == 0 by {
      assert u[4..][1..] == [];
    }
    assert |Seqs.Filter(u[3..], keep)| == 1 by {
      assert u[3..][1..] == u[4..];
    }
    assert |Seqs.Filter(u[2..], keep)| == 1 by {
      assert u[2..][1..] == u[3..];
    }
    assert |Seqs.Filter(u[1..], keep)| == 2 by {
      assert u[1..][1..] == u[2..];
    }
  }

  /** With the mock data the endpoint reports five users, three subscriptions and a
      value of 135. */
  lemma MockStatistics(authorization: Option<string>)
    requires Authorized(authorization)
    ensures HandleGet(authorization).body.fields["totalUsers"] == Num(5)
    ensures HandleGet(authorization).body.fields["totalSubscriptions"] == Num(3)
    ensures HandleGet(authorization).body.fields["totalValue"] == Num(135)
  {
    MockActiveCount();
  }
}
