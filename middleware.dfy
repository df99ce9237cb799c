/** The per-request route-access policy of the edge middleware
    (src/middleware.ts): from the signed-in user (if any), the role found in
    that user's profile and the request's pathname to "let through" or
    "redirect to a target". The two lookups are inputs; the decision is a pure
    chain of early returns. */
module Middleware {
  import opened Types
  import opened Text

  /** What the middleware sees of a request once both lookups have resolved.
      `profileRole` is what the `profiles` lookup would return; it is consulted
      only when a user is signed in. */
  datatype Request = Request(user: Option<UserId>, profileRole: Option<Role>, pathname: string)

  datatype Decision = Allow | Redirect(target: string)

  /** Which return statement of the middleware produced the decision. */
  datatype Rule =
    | LeaveAuthPage       // signed in on /login or /signup
    | LoginRequired       // anonymous anywhere else
    | AdminLoginRequired  // anonymous on /admin (inside the /admin branch)
    | AdminOnly           // signed in without the admin role on /admin
    | PassThrough         // the final `return response`

  datatype Outcome = Outcome(rule: Rule, decision: Decision)

  const LoginPath := "/login"
  const SignupPath := "/signup"
  const AdminPath := "/admin"
  const HomePath := "/"

  predicate IsAuthPath(path: string) {
    StartsWith(path, LoginPath) || StartsWith(path, SignupPath)
  }

  /** The profile lookup runs only for a signed-in user; otherwise the profile
      is `null`. */
  function ProfileOf(req: Request): Option<Role> {
    if req.user.Some? then req.profileRole else None
  }

  /** The middleware's chain of checks, in the order the source makes them,
      including the anonymous check inside the `/admin` branch. */
  function Evaluate(req: Request): (o: Outcome)
    ensures o.decision == Allow <==> o.rule == PassThrough
    ensures o.rule in {LeaveAuthPage, AdminOnly} ==> o.decision == Redirect(HomePath)
    ensures o.rule in {LoginRequired, AdminLoginRequired} ==> o.decision == Redirect(LoginPath)
    ensures o.rule == LeaveAuthPage <==> req.user.Some? && IsAuthPath(req.pathname)
  {
    var signedIn := req.user.Some?;
    var isAdmin := IsAdmin(ProfileOf(req));
    var path := req.pathname;
    if signedIn && (StartsWith(path, LoginPath) || StartsWith(path, SignupPath)) then
      Outcome(LeaveAuthPage, Redirect(HomePath))
    else if !signedIn && !StartsWith(path, LoginPath) && !StartsWith(path, SignupPath) then
      Outcome(LoginRequired, Redirect(LoginPath))
    else if StartsWith(path, AdminPath) then
      if !signedIn then Outcome(AdminLoginRequired, Redirect(LoginPath))
      else if !isAdmin then Outcome(AdminOnly, Redirect(HomePath))
      else Outcome(PassThrough, Allow)
    else
      Outcome(PassThrough, Allow)
  }

  // ---------------------------------------------------------------------
  // The policy as a table over (identity, route class): the reference the
  // ordered chain above is proved to agree with.

  datatype Identity = Anonymous | Member | Administrator

  datatype RouteClass = AuthPage | AdminPage | OtherPage

  function IdentityOf(user: Option<UserId>, profileRole: Option<Role>): Identity {
    if user.None? then Anonymous
    else if IsAdmin(profileRole) then Administrator
    else Member
  }

  /** `/login` and `/signup` are auth pages, `/admin` (and anything that merely
      starts with it, such as `/administrator`) is an admin page. */
  function Classify(path: string): RouteClass {
    if IsAuthPath(path) then AuthPage
    else if StartsWith(path, AdminPath) then AdminPage
    else OtherPage
  }

  function Policy(id: Identity, route: RouteClass): Decision {
    match (id, route)
    case (Anonymous, AuthPage) => Allow
    case (Anonymous, _) => Redirect(LoginPath)
    case (_, AuthPage) => Redirect(HomePath)
    case (Member, AdminPage) => Redirect(HomePath)
    case (_, _) => Allow
  }

  /** The middleware's decision for a request. It depends only on who is
      asking and on the class of the path. */
  function Decide(req: Request): (d: Decision)
    ensures d == Policy(IdentityOf(req.user, req.profileRole), Classify(req.pathname))
  {
    AuthAndAdminDisjoint(req.pathname);
    Evaluate(req).decision
  }

  // ---------------------------------------------------------------------
  // Properties of the decision.

  /** No path can be both an auth page and an admin page. */
  lemma AuthAndAdminDisjoint(path: string)
    ensures !(IsAuthPath(path) && StartsWith(path, AdminPath))
  {
    if StartsWith(path, AdminPath) {
      assert path[1] == 'a';
      assert !StartsWith(path, LoginPath) by { assert LoginPath[1] == 'l'; }
      assert !StartsWith(path, SignupPath) by { assert SignupPath[1] == 's'; }
    }
  }

  lemma AnonymousRedirectedToLogin(req: Request)
    requires req.user.None? && !IsAuthPath(req.pathname)
    ensures Decide(req) == Redirect(LoginPath)
  {
  }

  lemma AnonymousAllowedOnAuthPages(req: Request)
    requires req.user.None? && IsAuthPath(req.pathname)
    ensures Decide(req) == Allow
  {
  }

  lemma SignedInLeavesAuthPages(req: Request)
    requires req.user.Some? && IsAuthPath(req.pathname)
    ensures Decide(req) == Redirect(HomePath)
  {
  }

  /** A signed-in user without the admin role (role `user`, role `demo`, or no
      profile at all) is sent home from every path that starts with `/admin`. */
  lemma NonAdminKeptOutOfAdmin(req: Request)
    requires req.user.Some? && req.profileRole != Some(Admin)
    requires StartsWith(req.pathname, AdminPath)
    ensures Decide(req) == Redirect(HomePath)
  {
    AuthAndAdminDisjoint(req.pathname);
  }

  /** The prefix test also catches paths that only begin like the admin area. */
  lemma AdministratorIsAnAdminPath(user: UserId)
    ensures Decide(Request(Some(user), Some(User), "/administrator")) == Redirect(HomePath)
  {
    NonAdminKeptOutOfAdmin(Request(Some(user), Some(User), "/administrator"));
  }

  lemma AdminAllowedOnAdmin(req: Request)
    requires req.user.Some? && req.profileRole == Some(Admin)
    requires StartsWith(req.pathname, AdminPath)
    ensures Decide(req) == Allow
  {
    AuthAndAdminDisjoint(req.pathname);
  }

  /** Every signed-in user, admin or not, is let through on every path outside
      the auth pages and the admin area: admins are not sent to `/admin`. */
  lemma SignedInAllowedElsewhere(req: Request)
    requires req.user.Some?
    requires !IsAuthPath(req.pathname) && !StartsWith(req.pathname, AdminPath)
    ensures Decide(req) == Allow
  {
  }

  /** The anonymous check inside the `/admin` branch never fires: every
      anonymous request to `/admin` was already redirected by the rule before. */
  lemma AdminLoginRequiredUnreachable(req: Request)
    ensures Evaluate(req).rule != AdminLoginRequired
  {
    if req.user.None? && StartsWith(req.pathname, AdminPath) {
      AuthAndAdminDisjoint(req.pathname);
    }
  }

  /** The chain of checks as written and the table agree on every request, and
      the rule that fired is the one the table's row stands for. */
  lemma EvaluateFollowsPolicy(req: Request)
    ensures var o := Evaluate(req);
            var id := IdentityOf(req.user, req.profileRole);
            var route := Classify(req.pathname);
            o.decision == Policy(id, route) &&
            (o.rule == LeaveAuthPage <==> id != Anonymous && route == AuthPage) &&
            (o.rule == LoginRequired <==> id == Anonymous && route != AuthPage) &&
            (o.rule == AdminOnly <==> id == Member && route == AdminPage)
  {
    AuthAndAdminDisjoint(req.pathname);
  }

  /** Following a redirect never leads to a second redirect: the target is a
      path the middleware runs on, and the same identity is let through there. */
  lemma NoRedirectLoop(req: Request)
    ensures Decide(req).Redirect? ==>
              var next := req.(pathname := Decide(req).target);
              RunsOn(next.pathname) && Decide(next) == Allow
  {
    assert !StartsWith(HomePath, LoginPath) && !StartsWith(HomePath, SignupPath);
    assert !StartsWith(HomePath, AdminPath);
    assert StartsWith(LoginPath, LoginPath);
    assert RunsOn(HomePath) by { assert HomePath[1..] == ""; }
    assert RunsOn(LoginPath) by { LoginRunsPolicy(); }
  }

  // ---------------------------------------------------------------------
  // `config.matcher`: the paths the middleware runs on at all, read as the
  // pattern '/((?!_next/static|_next/image|favicon.ico|.*\.(?:svg|png|jpg|jpeg|gif|webp)$).*)'
  // matched against the whole pathname.

  const ImageExtensions: seq<string> := ["svg", "png", "jpg", "jpeg", "gif", "webp"]

  /** `favicon.ico`, where the `.` is the pattern's any-character. */
  predicate FaviconAt(rest: string) {
    |rest| >= 11 && rest[..7] == "favicon" && !IsLineTerminator(rest[7]) && rest[8..11] == "ico"
  }

  predicate HasImageExtension(rest: string) {
    exists e :: e in ImageExtensions && EndsWith(rest, "." + e)
  }

  /** The negative lookahead after the leading `/`. */
  predicate Excluded(rest: string) {
    StartsWith(rest, "_next/static") || StartsWith(rest, "_next/image") ||
    FaviconAt(rest) || HasImageExtension(rest)
  }

  /** The pathname starts with `/`, the rest is one line (`.*` must reach the
      end), and the lookahead does not exclude it. */
  predicate RunsOn(path: string) {
    |path| >= 1 && path[0] == '/' && NoLineTerminator(path[1..]) && !Excluded(path[1..])
  }

  /** A rest with no `.` in it cannot end in an image extension. */
  lemma NoDotNoImageExtension(rest: string)
    requires forall i :: 0 <= i < |rest| ==> rest[i] != '.'
    ensures !HasImageExtension(rest)
  {
    forall e | e in ImageExtensions ensures !EndsWith(rest, "." + e) {
      var ext := "." + e;
      if |ext| <= |rest| {
        assert rest[|rest| - |ext|..][0] != ext[0];
      }
    }
  }

  lemma LoginRunsPolicy()
    ensures RunsOn(LoginPath)
  {
    assert LoginPath[1..] == "login";
    NoDotNoImageExtension("login");
  }

  /** Every page path is matched: a pathname whose tail has no `.`, no line
      terminator, and does not begin with `_next/` or `favicon`. This covers
      `/`, `/login`, `/signup`, `/admin...` and `/aulas`. */
  lemma PagesRunPolicy(rest: string)
    requires forall i :: 0 <= i < |rest| ==> rest[i] != '.'
    requires NoLineTerminator(rest)
    requires !StartsWith(rest, "_next/") && !StartsWith(rest, "favicon")
    ensures RunsOn("/" + rest)
  {
    var path := "/" + rest;
    assert path[1..] == rest;
    NoDotNoImageExtension(rest);
    StartsWithPrefix(rest, "_next/static", "_next/");
    StartsWithPrefix(rest, "_next/image", "_next/");
    assert FaviconAt(rest) ==> StartsWith(rest, "favicon");
  }

  /** Static assets, the favicon and image files bypass the policy; pages do not. */
  lemma StaticAssetsBypassPolicy()
    ensures !RunsOn("/_next/static/chunks/main.js")
    ensures !RunsOn("/_next/image")
    ensures !RunsOn("/favicon.ico")
  {
    assert "/_next/static/chunks/main.js"[1..][..12] == "_next/static";
    assert "/_next/image"[1..][..11] == "_next/image";
    assert FaviconAt("/favicon.ico"[1..]);
  }

  lemma ImagesBypassPolicy()
    ensures !RunsOn("/logo.png") && !RunsOn("/img/cover.webp")
  {
    assert EndsWith("/logo.png"[1..], "." + ImageExtensions[1]);
    assert EndsWith("/img/cover.webp"[1..], "." + ImageExtensions[5]);
  }

  lemma AdminPagesRunPolicy()
    ensures RunsOn("/admin") && RunsOn("/administrator")
  {
    assert "/admin"[1..] == "admin";
    NoDotNoImageExtension("admin");
    var rest := "/administrator"[1..];
    assert rest == "administrator";
    NoDotNoImageExtension(rest);
    assert rest[..7][0] != "favicon"[0];
    assert rest[..12] != "_next/static";
    assert rest[..11] != "_next/image";
  }
}
