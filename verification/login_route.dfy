/** The login endpoint (app/api/auth/login/route.ts): one fixed pair of credentials earns a
    mock token built from the clock. The parsed request body (`None` when it is not valid
    JSON) and the clock are parameters. */
module LoginRoute {
  import opened Js
  import opened Http
  import opened Wrappers
  import Strings

  const AdminEmail := "admin@snackworld.com"
  const AdminPassword := "admin123"
  const TokenPrefix := "mock-jwt-token-"
  const InvalidCredentialsMessage := "Invalid credentials"
  const LoginFailedMessage := "Login failed"

  /** `correo === AdminEmail && contrasena === AdminPassword`: strict equality, so only
      the exact strings match. */
  predicate ValidCredentials(body: Json) {
    Get(Some(body), "correo") == Some(Str(AdminEmail)) && Get(Some(body), "contrasena") == Some(Str(AdminPassword))
  }

  /** The token built on a digit string keeps the digits after the prefix and holds
      no cookie separator. */
  lemma DigitTokenShape(digits: string)
    requires Strings.IsDigits(digits)
    ensures var t := TokenPrefix + digits; ';' !in t && '=' !in t && t[|TokenPrefix|..] == digits
  {
    var t := TokenPrefix + digits;
    assert forall i :: 0 <= i < |digits| ==> t[|TokenPrefix| + i] == digits[i];
  }

  /** `"mock-jwt-token-" + Date.now()`: the prefix, then the decimal digits of the clock. */
  function MockToken(now: nat): (t: string)
    ensures Strings.StartsWith(t, TokenPrefix)
    ensures ';' !in t && '=' !in t
    ensures Strings.IsDigits(t[|TokenPrefix|..]) && Strings.DecimalValue(t[|TokenPrefix|..]) == now
    ensures |t| > |TokenPrefix|
    ensures now > 0 ==> t[|TokenPrefix|] != '0'
    ensures t[|TokenPrefix|] == '0' ==> t == TokenPrefix + "0"
  {
    var digits := Strings.NatToDecimal(now);
    Strings.DecimalRoundTrip(now);
    DigitTokenShape(digits);
    TokenPrefix + digits
  }

  /** `POST`: a body that is not JSON, or is `null` (which cannot be destructured), gives
      500; the admin credentials give 200 with `{ token }`; anything else gives 401. */
  function HandlePost(body: Option<Json>, now: nat): (r: Response)
    ensures body.None? || body == Some(Null) ==> r == Response(500, ErrorBody(LoginFailedMessage))
    ensures body.Some? && ValidCredentials(body.value) ==> r == Response(200, Obj(map["token" := Str(MockToken(now))]))
    ensures body.Some? && !body.value.Null? && !ValidCredentials(body.value) ==> r == Response(401, ErrorBody(InvalidCredentialsMessage))
    ensures r.status == 200 <==> body.Some? && ValidCredentials(body.value)
  {
    match body
    case None => Response(500, ErrorBody(LoginFailedMessage))
    case Some(b) =>
      if b.Null? then Response(500, ErrorBody(LoginFailedMessage))
      else if ValidCredentials(b) then Response(200, Obj(map["token" := Str(MockToken(now))]))
      else Response(401, ErrorBody(InvalidCredentialsMessage))
  }

  /** Logins at different instants receive different tokens. */
  lemma TokensDifferAcrossInstants(t1: nat, t2: nat)
    requires t1 != t2
    ensures MockToken(t1) != MockToken(t2)
  {
    Strings.NatToDecimalInjective(t1, t2);
    var p := TokenPrefix;
    assert MockToken(t1)[|p|..] == Strings.NatToDecimal(t1);
    assert MockToken(t2)[|p|..] == Strings.NatToDecimal(t2);
  }
}
