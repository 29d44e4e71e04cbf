/** The browser side of the session (lib/api.ts): reading the `auth-token` cookie out
    of `document.cookie`, the request interceptor that turns it into a bearer
    `Authorization` header, and the cookie writes of `login` and `logout`.
    The cookie string and the HTTP results are parameters. */
module Session {
  import opened Wrappers
  import opened Js
  import Strings
  import Seqs

  const TokenCookiePrefix := "auth-token="

  /** Seven days in seconds: the `Max-Age` attribute (section 5.2.2 of RFC 6265) of the login cookie. */
  const SessionMaxAge: nat := 7 * 24 * 60 * 60

  /** The cookie `logout` writes: an empty value that expired at the start of 1970. */
  const LogoutCookie := TokenCookiePrefix + "" + "; " + LogoutAttributes

  const LogoutAttributes := "path=/; expires=Thu, 01 Jan 1970 00:00:01 GMT"

  const NoTokenMessage := "No se recibió token en la respuesta"

  /** `document.cookie.split('; ')`. */
  function Rows(cookie: string): seq<string> {
    Strings.Split(cookie, "; ")
  }

  predicate IsTokenRow(row: string) {
    Strings.StartsWith(row, TokenCookiePrefix)
  }

  /** Row `k` is the first row that starts with `auth-token=`. */
  predicate FirstTokenRow(cookie: string, k: int) {
    var rows := Rows(cookie);
    && 0 <= k < |rows|
    && IsTokenRow(rows[k])
    && forall j :: 0 <= j < k ==> !IsTokenRow(rows[j])
  }

  /** `document.cookie.split('; ').find(row => row.startsWith('auth-token='))?.split('=')[1]`:
      the text after `auth-token=` in the first such row, cut at the next `=`. */
  function ExtractToken(cookie: string): (r: Option<string>)
    ensures r.Some? <==> exists k :: 0 <= k < |Rows(cookie)| && IsTokenRow(Rows(cookie)[k])
    ensures r.Some? ==> '=' !in r.value
    ensures r.Some? ==> exists k :: FirstTokenRow(cookie, k) && TokenOfRow(Rows(cookie)[k], r.value)
  {
    var rows := Rows(cookie);
    match Seqs.FindIndex(rows, IsTokenRow)
    case None => None
    case Some(k) =>
      TokenRowSplits(rows[k]);
      assert FirstTokenRow(cookie, k);
      Some(Strings.Split(rows[k], "=")[1])
  }

  /** A row starting with `auth-token=` splits on `=` into the name and, second, the
      value up to its first `=`. */
  lemma TokenRowSplits(row: string)
    requires IsTokenRow(row)
    ensures var pieces := Strings.Split(row, "=");
            && |pieces| >= 2
            && pieces[1] == Strings.Split(row[|TokenCookiePrefix|..], "=")[0]
            && '=' !in pieces[1]
            && TokenOfRow(row, pieces[1])
  {
    var tail := row[|TokenCookiePrefix|..];
    assert row == "auth-token" + "=" + tail;
    Strings.SplitAtFirst("auth-token", "=", tail);
    var token := Strings.Split(tail, "=")[0];
    Strings.SplitFirstPiece(tail, "=");
    Strings.SplitPiecesAreFree(tail, "=");
    Strings.AbsentChar(token, '=');
    assert TokenOfRow(row, token);
  }

  /** `row` is `auth-token=` + `token`, followed by nothing or by `=`. */
  predicate TokenOfRow(row: string, token: string) {
    var head := TokenCookiePrefix + token;
    Strings.StartsWith(row, head) && (|row| == |head| || row[|head|] == '=')
  }

  /** `authService.isAuthenticated()`: the extracted token is a non-empty string. */
  predicate IsAuthenticated(cookie: string) {
    var t := ExtractToken(cookie);
    t.Some? && t.value != ""
  }

  /** The row carries a value: at least one character follows `auth-token=`, and it is
      not a further `=`. */
  predicate HasTokenValue(row: string) {
    |row| > |TokenCookiePrefix| && row[|TokenCookiePrefix|] != '='
  }

  /** `isAuthenticated` holds exactly when the first `auth-token=` row carries a value. */
  lemma AuthenticatedExactly(cookie: string)
    ensures IsAuthenticated(cookie) <==> exists k :: FirstTokenRow(cookie, k) && HasTokenValue(Rows(cookie)[k])
  {
    match Seqs.FindIndex(Rows(cookie), IsTokenRow)
    case None =>
    case Some(k) =>
      assert FirstTokenRow(cookie, k);
      ExtractAt(cookie, k);
      TokenValueExactly(Rows(cookie)[k]);
      forall j | FirstTokenRow(cookie, j)
        ensures j == k
      {
        FirstTokenRowUnique(cookie, j, k);
      }
  }

  /** The value read from a token row is non-empty exactly when the row carries one. */
  lemma TokenValueExactly(row: string)
    requires IsTokenRow(row)
    ensures Strings.Split(row[|TokenCookiePrefix|..], "=")[0] != "" <==> HasTokenValue(row)
  {
    var tail := row[|TokenCookiePrefix|..];
    Strings.FirstPieceEmpty(tail, "=");
    if |tail| > 0 {
      assert tail[0..1] == [tail[0]];
    }
  }

  lemma FirstTokenRowUnique(cookie: string, j: int, k: int)
    requires FirstTokenRow(cookie, j) && FirstTokenRow(cookie, k)
    ensures j == k
  {
  }

  /** Extraction reads the first entry when it is the session cookie. */
  lemma ExtractFirstEntry(value: string, rest: string)
    requires ';' !in value
    ensures ExtractToken(TokenCookiePrefix + value + "; " + rest) == Some(Strings.Split(value, "=")[0])
  {
    var row := TokenCookiePrefix + value;
    var cookie := row + "; " + rest;
    assert ';' !in row;
    Strings.SplitAtFirst(row, "; ", rest);
    assert Rows(cookie)[0] == row;
    assert IsTokenRow(row);
    ExtractAt(cookie, 0);
    assert row[|TokenCookiePrefix|..] == value;
  }

  /** Extraction reads the row that `find` returns. */
  lemma ExtractAt(cookie: string, k: int)
    requires FirstTokenRow(cookie, k)
    ensures ExtractToken(cookie) == Some(Strings.Split(Rows(cookie)[k][|TokenCookiePrefix|..], "=")[0])
  {
    var rows := Rows(cookie);
    assert Seqs.FindIndex(rows, IsTokenRow) == Some(k);
    TokenRowSplits(rows[k]);
  }

  /** Extraction skips an entry that is not the session cookie. */
  lemma SkipOtherEntry(other: string, rest: string)
    requires ';' !in other && !IsTokenRow(other)
    ensures ExtractToken(other + "; " + rest) == ExtractToken(rest)
  {
    var cookie := other + "; " + rest;
    Strings.SplitAtFirst(other, "; ", rest);
    var rows := Rows(rest);
    var all := Rows(cookie);
    assert all == [other] + rows;
    assert forall j :: 0 <= j < |rows| ==> all[j + 1] == rows[j];
    match Seqs.FindIndex(rows, IsTokenRow)
    case None =>
      forall j | 0 <= j < |all|
        ensures !IsTokenRow(all[j])
      {
        if j > 0 {
          assert all[j] == rows[j - 1];
        }
      }
    case Some(k) =>
      assert FirstTokenRow(rest, k);
      assert FirstTokenRow(cookie, k + 1) by {
        forall j | 0 <= j < k + 1
          ensures !IsTokenRow(all[j])
        {
          if j > 0 {
            assert all[j] == rows[j - 1];
          }
        }
      }
      ExtractAt(rest, k);
      ExtractAt(cookie, k + 1);
  }

  /** A value holding `=` is cut at its first `=`. */
  lemma ExtractTruncates(u: string, v: string, rest: string)
    requires ';' !in u + "=" + v && '=' !in u
    ensures ExtractToken(TokenCookiePrefix + u + "=" + v + "; " + rest) == Some(u)
  {
    var value := u + "=" + v;
    ExtractFirstEntry(value, rest);
    Strings.SplitAtFirst(u, "=", v);
    assert TokenCookiePrefix + u + "=" + v == TokenCookiePrefix + value by {
      assert TokenCookiePrefix + u + "=" == TokenCookiePrefix + (u + "=");
    }
  }

  /** The `Authorization` header the request interceptor produces. */
  type Headers = map<string, string>

  /** The token carried by a `Bearer` credential (section 2.1 of RFC 6750, simplified
      to the exact prefix `Bearer `). */
  function BearerToken(headers: Headers): Option<string> {
    if "Authorization" in headers && Strings.StartsWith(headers["Authorization"], "Bearer ")
    then Some(headers["Authorization"][|"Bearer "|..])
    else None
  }

  /** The request interceptor: `Authorization: Bearer <token>` when the cookie holds a
      non-empty token; the request configuration is otherwise returned unchanged. */
  function Intercept(headers: Headers, cookie: string): (h: Headers)
    ensures IsAuthenticated(cookie) ==> BearerToken(h) == ExtractToken(cookie)
    ensures !IsAuthenticated(cookie) ==> h == headers
    ensures forall name :: name in headers && name != "Authorization" ==> name in h && h[name] == headers[name]
    ensures h.Keys <= headers.Keys + {"Authorization"}
  {
    var token := ExtractToken(cookie);
    if token.Some? && token.value != "" then
      var value := "Bearer " + token.value;
      assert value[|"Bearer "|..] == token.value;
      headers["Authorization" := value]
    else headers
  }

  /** The cookie `login` writes for a token. */
  function LoginCookie(token: string): string {
    TokenCookiePrefix + token + "; path=/; max-age=" + Strings.NatToDecimal(SessionMaxAge)
  }

  /** A login cookie reads back as its token when the token holds neither `;` nor `=`. */
  lemma LoginCookieRoundTrip(token: string)
    requires ';' !in token && '=' !in token
    ensures ExtractToken(LoginCookie(token)) == Some(token)
  {
    var rest := "path=/; max-age=" + Strings.NatToDecimal(SessionMaxAge);
    assert LoginCookie(token) == TokenCookiePrefix + token + "; " + rest;
    ExtractFirstEntry(token, rest);
    Strings.SplitWhole(token, "=");
  }

  /** A login cookie whose token holds `=` reads back as the part before it. */
  lemma LoginCookieTruncates(u: string, v: string)
    requires ';' !in u + "=" + v && '=' !in u
    ensures ExtractToken(LoginCookie(u + "=" + v)) == Some(u)
  {
    var rest := "path=/; max-age=" + Strings.NatToDecimal(SessionMaxAge);
    var token := u + "=" + v;
    assert LoginCookie(token) == TokenCookiePrefix + token + "; " + rest;
    ExtractFirstEntry(token, rest);
    Strings.SplitAtFirst(u, "=", v);
  }

  datatype LoginOutcome = LoginOutcome(cookieWrite: Option<string>, result: Result<Json, JsError>)

  /** The `catch` of `login`: a backend `message` replaces the error, anything else is rethrown. */
  function LoginCatch(e: JsError): (r: JsError)
    ensures e.responseData.None? ==> r == e
    ensures !Truthy(ResponseField(e, "message")) ==> r == e
    ensures Truthy(ResponseField(e, "message")) ==> r == PlainError(ToJsString(ResponseField(e, "message").value))
  {
    var message := ResponseField(e, "message");
    if Truthy(message) then PlainError(ToJsString(message.value)) else e
  }

  /** `authService.login`, given the outcome of the POST to `/api/auth/login`: the cookie
      is written only when the response body carries a truthy `token`. */
  function Login(response: Result<Json, JsError>): (o: LoginOutcome)
    ensures o.cookieWrite.Some? <==> o.result.Ok?
    ensures o.result.Ok? ==> response.Ok? && o.result.value == response.value
    ensures o.result.Ok? ==> Truthy(Get(Some(response.value), "token"))
    ensures o.result.Ok? ==> o.cookieWrite.value == LoginCookie(ToJsString(response.value.fields["token"]))
    ensures response.Ok? && !Truthy(Get(Some(response.value), "token")) ==> o.result.Err?
    ensures response.Ok? && Truthy(Get(Some(response.value), "token")) ==>
              && o.result == Ok(response.value)
              && o.cookieWrite == Some(LoginCookie(ToJsString(Get(Some(response.value), "token").value)))
    ensures response.Ok? && !response.value.Null? && !Truthy(Get(Some(response.value), "token")) ==> o.result == Err(PlainError(NoTokenMessage))
    ensures response.Ok? && response.value.Null? ==> o.result == Err(RuntimeTypeError)
    ensures response.Err? ==> o.result == Err(LoginCatch(response.error))
  {
    match response
    case Ok(data) =>
      if data.Null? then LoginOutcome(None, Err(LoginCatch(RuntimeTypeError)))
      else
        var token := Get(Some(data), "token");
        if Truthy(token) then LoginOutcome(Some(LoginCookie(ToJsString(token.value))), Ok(data))
        else LoginOutcome(None, Err(LoginCatch(PlainError(NoTokenMessage))))
    case Err(e) => LoginOutcome(None, Err(LoginCatch(e)))
  }

  datatype LogoutOutcome = LogoutOutcome(cookieWrite: string, result: Json)

  /** `authService.logout`: the written cookie carries an empty token, so reading it
      back does not authenticate. */
  function Logout(): (o: LogoutOutcome)
    ensures ExtractToken(o.cookieWrite) == Some("")
    ensures !IsAuthenticated(o.cookieWrite)
    ensures o.result == Obj(map["success" := Bool(true)])
  {
    ExtractFirstEntry("", LogoutAttributes);
    Strings.SplitWhole("", "=");
    LogoutOutcome(LogoutCookie, Obj(map["success" := Bool(true)]))
  }

  /** The interceptor attaches a header exactly when `isAuthenticated` holds. */
  lemma InterceptAgreesWithIsAuthenticated(headers: Headers, cookie: string)
    requires "Authorization" !in headers
    ensures "Authorization" in Intercept(headers, cookie) <==> IsAuthenticated(cookie)
  {
  }
}
