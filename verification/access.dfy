/**
  The request gate in front of the application: which requests are
  refused, which are sent to the sign-in page or elsewhere, and which
  pass. The session token is an input: absent, or present with an admin
  flag.
 */
module Access {
  import opened Text
  import opened Wrappers

  datatype Token = Token(isAdmin: bool)

  datatype Decision =
    | Unauthorized            // 401 with `{ error: "Unauthorized" }`
    | ToLogin(callbackUrl: string)
    | ToDashboard
    | Forbidden               // 403 with `{ error: "Forbidden" }`
    | ToHome
    | Next

  predicate IsApi(path: string) { StartsWith(path, "/api") }
  predicate IsAuthApi(path: string) { StartsWith(path, "/api/auth") }
  predicate IsAdmin(path: string) { StartsWith(path, "/admin") || StartsWith(path, "/api/admin") }
  predicate IsLogin(path: string) { StartsWith(path, "/login") }
  predicate IsDashboard(path: string) { StartsWith(path, "/dashboard") }

  /** The gate's rules, tried in order; the first that applies decides. */
  function Decide(path: string, token: Option<Token>): Decision {
    var authenticated := token.Some?;
    if IsApi(path) && !IsAuthApi(path) && !authenticated then Unauthorized
    else if !authenticated && (IsAdmin(path) || IsDashboard(path)) then ToLogin(path)
    else if IsLogin(path) && authenticated then ToDashboard
    else if IsAdmin(path) && !(authenticated && token.value.isAdmin) then
      if StartsWith(path, "/api/") then Forbidden else ToHome
    else Next
  }

  /** The sign-in interface lies inside the application interface and
      outside every other protected area. */
  lemma AuthApiIsApi(path: string)
    requires IsAuthApi(path)
    ensures IsApi(path) && !IsAdmin(path) && !IsLogin(path) && !IsDashboard(path)
  {
    StartsWithTrans(path, "/api/auth", "/api");
    StartsWithClash(path, "/api/auth", "/admin", 2);
    StartsWithClash(path, "/api/auth", "/api/admin", 6);
    StartsWithClash(path, "/api/auth", "/login", 1);
    StartsWithClash(path, "/api/auth", "/dashboard", 1);
  }

  /** Without a session: the application interface (other than sign-in)
      refuses, the dashboard and admin pages send to sign-in with the
      page to come back to, and nothing else is stopped. */
  lemma Anonymous(path: string)
    ensures IsApi(path) && !IsAuthApi(path) ==> Decide(path, None) == Unauthorized
    ensures !IsApi(path) && (IsAdmin(path) || IsDashboard(path)) ==> Decide(path, None) == ToLogin(path)
    ensures Decide(path, None) == Next <==> !(IsApi(path) && !IsAuthApi(path)) && !IsAdmin(path) && !IsDashboard(path)
  {
    if IsAuthApi(path) {
      AuthApiIsApi(path);
    }
  }

  /** The sign-in interface is never refused, with or without a session. */
  lemma AuthApiAlwaysPasses(path: string, token: Option<Token>)
    requires IsAuthApi(path)
    ensures Decide(path, token) == Next
  {
    AuthApiIsApi(path);
  }

  /** A signed-in user is sent from the sign-in page to the dashboard. */
  lemma SignedInLeavesLogin(path: string, t: Token)
    requires IsLogin(path)
    ensures Decide(path, Some(t)) == ToDashboard
  {
    StartsWithClash(path, "/login", "/api", 1);
    StartsWithClash(path, "/login", "/admin", 1);
    StartsWithClash(path, "/login", "/api/admin", 1);
    StartsWithClash(path, "/login", "/dashboard", 1);
  }

  /** A signed-in non-admin on an admin path: 403 for the interface,
      sent home for pages. */
  lemma NonAdminKeptOut(path: string)
    requires IsAdmin(path)
    ensures StartsWith(path, "/api/") ==> Decide(path, Some(Token(false))) == Forbidden
    ensures !StartsWith(path, "/api/") ==> Decide(path, Some(Token(false))) == ToHome
  {
    StartsWithClash(path, "/admin", "/login", 1);
    StartsWithClash(path, "/api/admin", "/login", 1);
    StartsWithClash(path, "/admin", "/api/", 2);
  }

  /** An admin is only ever redirected away from the sign-in page;
      every other request passes. */
  lemma AdminPasses(path: string)
    ensures Decide(path, Some(Token(true))) == (if IsLogin(path) then ToDashboard else Next)
  {
  }

  /** The paths the gate runs on; every other request passes untouched. */
  predicate Matched(path: string) {
    || path == "/api" || StartsWith(path, "/api/")
    || path == "/login"
    || path == "/dashboard" || StartsWith(path, "/dashboard/")
    || path == "/admin" || StartsWith(path, "/admin/")
  }

  function Handle(path: string, token: Option<Token>): (d: Decision)
    ensures !Matched(path) ==> d == Next
    ensures Matched(path) ==> d == Decide(path, token)
  {
    if Matched(path) then Decide(path, token) else Next
  }
}
