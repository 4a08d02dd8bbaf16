/**
 * The four request gates of the bankly middleware. Each gate takes a
 * request context and either lets the request continue, with a context,
 * or stops it with a status and a `{message}` body. Token verification is
 * an oracle from token text to the verified payload; `None` stands for
 * every way `jwt.verify` can throw (bad format, bad signature, expiry).
 */
module Auth {
  import opened Wrappers
  import opened Js
  import CreateToken

  /** `jwt.verify(token, SECRET_KEY)`: the payload of a token that verifies. */
  type Verifier = string -> Option<JsObject>

  /** What the gates read and write: the parsed body, the `:username` route parameter and `req.user`. */
  datatype Context = Context(body: JsObject, routeUsername: string, user: Option<JsObject>)

  /** A gate's decision: call `next()` with the context, or respond with a status and a message. */
  datatype Gate = Continue(ctx: Context) | Stop(status: int, message: string)

  const Unauthorized: string := "Unauthorized"
  const AdminRequired: string := "Forbidden: Admin privileges required"

  /**
   * `jwt.verify(req.body._token)`: a missing, empty or non-string token throws
   * before any check; a string token is decided by the verifier.
   */
  function VerifyBodyToken(verify: Verifier, body: JsObject): (claims: Option<JsObject>)
    ensures claims.Some? ==> Get(body, "_token").Str? && claims == verify(Get(body, "_token").s)
    ensures !Truthy(Get(body, "_token")) || !Get(body, "_token").Str? ==> claims.None?
    ensures Get(body, "_token").Str? && Get(body, "_token").s != "" ==> claims == verify(Get(body, "_token").s)
  {
    match Get(body, "_token")
    case Str(t) => if t == "" then None else verify(t)
    case _ => None
  }

  /** authUser: never stops; sets `user` to the verified payload, or leaves the context as it was. */
  function AuthUser(verify: Verifier, ctx: Context): (r: Gate)
    ensures r.Continue?
    ensures r.ctx.body == ctx.body && r.ctx.routeUsername == ctx.routeUsername
    ensures VerifyBodyToken(verify, ctx.body).Some? ==> r.ctx.user == VerifyBodyToken(verify, ctx.body)
    ensures VerifyBodyToken(verify, ctx.body).None? ==> r.ctx == ctx
  {
    match VerifyBodyToken(verify, ctx.body)
    case Some(payload) => Continue(ctx.(user := Some(payload)))
    case None => Continue(ctx)
  }

  /** requireLogin: stops with 401 exactly when no user is set. */
  function RequireLogin(ctx: Context): (r: Gate)
    ensures r.Stop? <==> ctx.user.None?
    ensures r.Stop? ==> r == Stop(401, Unauthorized)
    ensures r.Continue? ==> r.ctx == ctx
  {
    if ctx.user.None? then Stop(401, Unauthorized) else Continue(ctx)
  }

  /**
   * ensureCorrectUser: continues only when the user's `username` is strictly
   * equal to the route parameter. Reading `username` of an absent user throws,
   * and the catch answers 401 too.
   */
  function EnsureCorrectUser(ctx: Context): (r: Gate)
    ensures r.Continue? <==> ctx.user.Some? && StrictEqStr(Get(ctx.user.value, "username"), ctx.routeUsername)
    ensures r.Stop? ==> r == Stop(401, Unauthorized)
    ensures r.Continue? ==> r.ctx == ctx
  {
    match ctx.user
    case None => Stop(401, Unauthorized)
    case Some(u) =>
      if StrictEqStr(Get(u, "username"), ctx.routeUsername) then Continue(ctx) else Stop(401, Unauthorized)
  }

  /** requireAdmin: continues only when a user is set and its `is_admin` is truthy; otherwise 403. */
  function RequireAdmin(ctx: Context): (r: Gate)
    ensures r.Continue? <==> ctx.user.Some? && Truthy(Get(ctx.user.value, "is_admin"))
    ensures r.Stop? ==> r == Stop(403, AdminRequired)
    ensures r.Continue? ==> r.ctx == ctx
  {
    if ctx.user.Some? && Truthy(Get(ctx.user.value, "is_admin")) then Continue(ctx) else Stop(403, AdminRequired)
  }

  /** The context a request starts with: no user set yet. */
  function Initial(body: JsObject, routeUsername: string): Context
  {
    Context(body, routeUsername, None)
  }

  /** The admin flag plays no part in ensureCorrectUser. */
  lemma CorrectUserIgnoresAdmin(ctx: Context, u: JsObject, flag: JsValue)
    requires ctx.user == Some(u)
    ensures EnsureCorrectUser(ctx).Continue? <==> EnsureCorrectUser(ctx.(user := Some(u["is_admin" := flag]))).Continue?
  {
    assert Get(u["is_admin" := flag], "username") == Get(u, "username");
  }

  /** authUser then ensureCorrectUser passes exactly when the body token verifies to claims naming the route user. */
  lemma AuthThenCorrectUser(verify: Verifier, body: JsObject, routeUsername: string)
    ensures var ctx := AuthUser(verify, Initial(body, routeUsername)).ctx;
      EnsureCorrectUser(ctx).Continue? <==>
        exists claims :: VerifyBodyToken(verify, body) == Some(claims) && Get(claims, "username") == Str(routeUsername)
  {
    var ctx := AuthUser(verify, Initial(body, routeUsername)).ctx;
    if EnsureCorrectUser(ctx).Continue? {
      var claims := VerifyBodyToken(verify, body).value;
      assert VerifyBodyToken(verify, body) == Some(claims) && Get(claims, "username") == Str(routeUsername);
    }
  }

  /** authUser then requireAdmin passes exactly when the body token verifies to claims with a truthy `is_admin`. */
  lemma AuthThenAdmin(verify: Verifier, body: JsObject, routeUsername: string)
    ensures var ctx := AuthUser(verify, Initial(body, routeUsername)).ctx;
      RequireAdmin(ctx).Continue? <==>
        VerifyBodyToken(verify, body).Some? && Truthy(Get(VerifyBodyToken(verify, body).value, "is_admin"))
  {
  }

  /**
   * A token issued by createToken and verified intact (the verifier returns
   * the signed payload, possibly with timestamps added) opens exactly the
   * user's own routes, and the admin routes exactly when `is_admin` is truthy.
   */
  lemma IssuedTokenOpensOwnRoutes(verify: Verifier, user: JsObject, token: string, routeUsername: string)
    requires CreateToken.CreateToken(Some(user)).Success?
    requires token != ""
    requires verify(token).Some?
    requires var payload := CreateToken.CreateToken(Some(user)).value.payload;
      Get(verify(token).value, "username") == payload["username"] &&
      Get(verify(token).value, "is_admin") == payload["is_admin"]
    ensures var ctx := AuthUser(verify, Initial(map["_token" := Str(token)], routeUsername)).ctx;
      && (EnsureCorrectUser(ctx).Continue? <==> Get(user, "username") == Str(routeUsername))
      && (RequireAdmin(ctx).Continue? <==> Truthy(Get(user, "is_admin")))
      && RequireLogin(ctx).Continue?
  {
    var body := map["_token" := Str(token)];
    assert Get(body, "_token") == Str(token);
  }
}
