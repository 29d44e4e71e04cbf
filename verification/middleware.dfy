/** The access gate run on every matched request (middleware.ts): it redirects between
    the login page and the dashboard according to whether the `auth-token` cookie has a
    non-empty value, and otherwise lets the request through. */
module Middleware {
  import opened Wrappers
  import Strings

  datatype Decision = Next | Redirect(target: string)

  const RootPath := "/"
  const LoginPath := "/login"
  const DashboardPath := "/dashboard"

  /** The paths the `matcher` hands to the middleware: `/`, `/login`, `/dashboard`
      and every path below `/dashboard/`. */
  predicate Matched(path: string) {
    path == RootPath || path == LoginPath || path == DashboardPath || Strings.StartsWith(path, "/dashboard/")
  }

  /** The cookie value (`request.cookies.get('auth-token')?.value`) is truthy. */
  predicate HasToken(token: Option<string>) {
    token.Some? && token.value != ""
  }

  /** The redirect decision for a request path and the session cookie's value. */
  function Decide(path: string, token: Option<string>): (d: Decision)
    ensures path == LoginPath && HasToken(token) ==> d == Redirect(DashboardPath)
    ensures Strings.StartsWith(path, DashboardPath) && !HasToken(token) ==> d == Redirect(LoginPath)
    ensures path == RootPath ==> d == Redirect(if HasToken(token) then DashboardPath else LoginPath)
    ensures d.Redirect? ==> d.target != path
    ensures d.Redirect? ==> d.target == LoginPath || d.target == DashboardPath
  {
    var authed := HasToken(token);
    if path == LoginPath && authed then Redirect(DashboardPath)
    else if Strings.StartsWith(path, DashboardPath) && !authed then Redirect(LoginPath)
    else if path == RootPath then
      if authed then Redirect(DashboardPath) else Redirect(LoginPath)
    else Next
  }

  /** The two-state policy, stated per class of matched path. */
  datatype PathClass = LoginPage | Protected | Root

  function Classify(path: string): PathClass
    requires Matched(path)
  {
    if path == LoginPath then LoginPage
    else if path == RootPath then Root
    else Protected
  }

  function Policy(c: PathClass, authenticated: bool): Decision {
    match c
    case LoginPage => if authenticated then Redirect(DashboardPath) else Next
    case Protected => if authenticated then Next else Redirect(LoginPath)
    case Root => Redirect(if authenticated then DashboardPath else LoginPath)
  }

  /** On every matched path the gate follows the policy table. */
  lemma DecideFollowsPolicy(path: string, token: Option<string>)
    requires Matched(path)
    ensures Decide(path, token) == Policy(Classify(path), HasToken(token))
  {
    if path != LoginPath && path != RootPath {
      assert Strings.StartsWith(path, DashboardPath) by {
        if path != DashboardPath {
          assert path[..|DashboardPath|] == path[..|"/dashboard/"|][..|DashboardPath|];
        }
      }
    }
  }

  /** A matched request passes through exactly when it is the login page without a
      session or a dashboard page with one. */
  lemma PassThroughExactly(path: string, token: Option<string>)
    requires Matched(path)
    ensures Decide(path, token) == Next <==>
      (path == LoginPath && !HasToken(token)) || (path != LoginPath && path != RootPath && HasToken(token))
  {
    DecideFollowsPolicy(path, token);
  }

  /** The decision depends only on whether the cookie value is non-empty: an empty
      value counts as no cookie. */
  lemma OnlyPresenceMatters(path: string, t1: Option<string>, t2: Option<string>)
    requires HasToken(t1) == HasToken(t2)
    ensures Decide(path, t1) == Decide(path, t2)
  {
  }
}
