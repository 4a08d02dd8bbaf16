/**
 * The `/users` routes, each composed with its gates, as transitions over
 * an abstract store of user records keyed by username. `User.findOne` is
 * a key lookup and `User.delete` a key removal; `User.findAll` is given
 * as the list it returns and `User.update` as an oracle, since the user
 * model's SQL is not part of this model.
 */
module Users {
  import opened Wrappers
  import opened Js
  import Auth

  /** A stored user record. */
  datatype User = User(
    username: string, firstName: string, lastName: string,
    email: string, phone: string, password: string, isAdmin: bool)

  /** The user table, keyed by username. */
  type Store = map<string, User>

  /** The basic fields the listing shows: `{username, first_name, last_name}`. */
  datatype BasicUser = BasicUser(username: string, firstName: string, lastName: string)

  /** Response bodies: the list, one user, a gate's or the delete route's `{message}`, or the error handler's `{error}`. */
  datatype Body =
    | UserList(users: seq<BasicUser>)
    | OneUser(user: User)
    | Message(message: string)
    | Error(message: string, errorStatus: int)

  datatype Response = Response(status: int, body: Body)

  /** A handled request: the response sent and the store afterwards. */
  datatype Outcome = Outcome(response: Response, store: Store)

  /**
   * What `User.update(username, fields)` did: it returned, with the store
   * afterwards and the record it resolved to, if any; or it threw, with a
   * message and possibly a status, leaving the store as it was.
   */
  datatype UpdateResult =
    | Updated(store: Store, record: Option<User>)
    | Raised(message: string, status: Option<int>)

  /** `User.update`. */
  type Updater = (Store, string, JsObject) -> UpdateResult

  /** An incoming request: the parsed JSON body and the `:username` route parameter. */
  datatype Request = Request(body: JsObject, username: string)

  const NotFound: string := "User not found"

  /**
   * The message of the TypeError thrown by reading `username` of an absent
   * `req.user`; the error handler turns it into a 500 since it carries no status.
   */
  const MissingUserTypeError: string := "Cannot read properties of undefined (reading 'username')"

  /**
   * The general error handler: it answers `err.status || 500` with
   * `{error: {message, status}}`. `None` stands for an error without a status.
   */
  function ErrorHandler(message: string, status: Option<int>): (r: Response)
    ensures r.body == Error(message, r.status)
    ensures r.status != 0
    ensures status.Some? && status.value != 0 ==> r.status == status.value
    ensures !(status.Some? && status.value != 0) ==> r.status == 500
  {
    var code := if status.Some? && status.value != 0 then status.value else 500;
    Response(code, Error(message, code))
  }

  /** `next(new ExpressError(message, status))`, as the error handler renders it. */
  function Thrown(message: string, status: int): Response
  {
    ErrorHandler(message, Some(status))
  }

  /** The listing's projection of one user. */
  function Basic(u: User): (b: BasicUser)
    ensures b.username == u.username && b.firstName == u.firstName && b.lastName == u.lastName
  {
    BasicUser(u.username, u.firstName, u.lastName)
  }

  /** The listing shows nothing but the three basic fields: users that agree on them are listed alike, whatever their password, email, phone or admin flag. */
  lemma BasicHidesPrivate(u: User, v: User)
    requires u.username == v.username && u.firstName == v.firstName && u.lastName == v.lastName
    ensures Basic(u) == Basic(v)
  {
  }

  /** `authUser` applied to a fresh request. */
  function Authenticate(verify: Auth.Verifier, req: Request): Auth.Context
  {
    Auth.AuthUser(verify, Auth.Initial(req.body, req.username)).ctx
  }

  /**
   * GET /, given the list `User.findAll` returned. Its only gate is
   * authUser, which never stops a request, so every caller gets 200 with
   * every found user's basic fields, in order.
   */
  function ListUsers(verify: Auth.Verifier, req: Request, found: seq<User>): (r: Response)
    ensures r.status == 200 && r.body.UserList?
    ensures |r.body.users| == |found|
    ensures forall i :: 0 <= i < |found| ==>
              && r.body.users[i].username == found[i].username
              && r.body.users[i].firstName == found[i].firstName
              && r.body.users[i].lastName == found[i].lastName
  {
    match Auth.AuthUser(verify, Auth.Initial(req.body, req.username))
    case Stop(status, message) => Response(status, Message(message))
    case Continue(_) => Response(200, UserList(seq(|found|, i requires 0 <= i < |found| => Basic(found[i]))))
  }

  /** The listing does not depend on who asks: an anonymous caller sees what an admin sees. */
  lemma ListingIgnoresCaller(v1: Auth.Verifier, r1: Request, v2: Auth.Verifier, r2: Request, found: seq<User>)
    ensures ListUsers(v1, r1, found) == ListUsers(v2, r2, found)
  {
  }

  /** GET /:username: 404 for an absent user first, then 401 unless the caller is that user or an admin. */
  function GetUser(verify: Auth.Verifier, req: Request, store: Store): (r: Response)
    ensures req.username !in store <==> r == Thrown(NotFound, 404)
    ensures r.status == 200 <==>
              req.username in store && Authenticate(verify, req).user.Some? &&
              (StrictEqStr(Get(Authenticate(verify, req).user.value, "username"), req.username) ||
               Truthy(Get(Authenticate(verify, req).user.value, "is_admin")))
    ensures r.status == 200 ==> r.body == OneUser(store[req.username])
    ensures req.username in store && Authenticate(verify, req).user.Some? &&
            !StrictEqStr(Get(Authenticate(verify, req).user.value, "username"), req.username) &&
            !Truthy(Get(Authenticate(verify, req).user.value, "is_admin")) ==>
              r == Thrown(Auth.Unauthorized, 401)
    ensures req.username in store && Authenticate(verify, req).user.None? ==>
              r == ErrorHandler(MissingUserTypeError, None)
  {
    var ctx := Authenticate(verify, req);
    if req.username !in store then Thrown(NotFound, 404)
    else match ctx.user
      case None => ErrorHandler(MissingUserTypeError, None)
      case Some(u) =>
        if !StrictEqStr(Get(u, "username"), req.username) && !Truthy(Get(u, "is_admin"))
        then Thrown(Auth.Unauthorized, 401)
        else Response(200, OneUser(store[req.username]))
  }

  /** PATCH /:username, behind authUser and ensureCorrectUser. */
  function PatchUser(verify: Auth.Verifier, update: Updater, req: Request, store: Store): (r: Outcome)
    ensures Auth.EnsureCorrectUser(Authenticate(verify, req)).Stop? ==>
              r == Outcome(Response(401, Message(Auth.Unauthorized)), store)
    ensures "username" in req.body ==> r.response.status == 401 && r.store == store
    ensures "admin" in req.body ==> r.response.status == 401 && r.store == store
    ensures Auth.EnsureCorrectUser(Authenticate(verify, req)).Continue? && "username" in req.body ==>
              r == Outcome(Thrown("Cannot update 'username' field", 401), store)
    ensures Auth.EnsureCorrectUser(Authenticate(verify, req)).Continue? && "username" !in req.body && "admin" in req.body ==>
              r == Outcome(Thrown("Cannot update 'admin' field", 401), store)
    ensures r.response.body.OneUser? ==>
              var u := update(store, req.username, req.body - {"_token"});
              u.Updated? && u.record.Some? && r == Outcome(Response(200, OneUser(u.record.value)), u.store)
    ensures Auth.EnsureCorrectUser(Authenticate(verify, req)).Continue? && "username" !in req.body &&
            "admin" !in req.body ==>
              var u := update(store, req.username, req.body - {"_token"});
              && (u.Updated? ==> r.store == u.store)
              && (u.Raised? ==> r == Outcome(ErrorHandler(u.message, u.status), store))
              && (u.Updated? && u.record.None? ==> r.response == Thrown(NotFound, 404))
              && (u.Updated? && u.record.Some? ==> r == Outcome(Response(200, OneUser(u.record.value)), u.store))
  {
    var ctx := Authenticate(verify, req);
    match Auth.EnsureCorrectUser(ctx)
    case Stop(status, message) => Outcome(Response(status, Message(message)), store)
    case Continue(ctx) =>
      var u := ctx.user.value;
      if !StrictEqStr(Get(u, "username"), req.username) && !Truthy(Get(u, "is_admin")) then
        Outcome(Thrown(Auth.Unauthorized, 401), store)
      else if "username" in req.body then
        Outcome(Thrown("Cannot update 'username' field", 401), store)
      else if "admin" in req.body then
        Outcome(Thrown("Cannot update 'admin' field", 401), store)
      else
        var fields := req.body - {"_token"};
        match update(store, req.username, fields)
        case Raised(message, status) => Outcome(ErrorHandler(message, status), store)
        case Updated(after, None) => Outcome(Thrown(NotFound, 404), after)
        case Updated(after, Some(user)) => Outcome(Response(200, OneUser(user)), after)
  }

  /** DELETE /:username, behind authUser and requireAdmin. */
  function DeleteUser(verify: Auth.Verifier, req: Request, store: Store): (r: Outcome)
    ensures Auth.RequireAdmin(Authenticate(verify, req)).Stop? ==>
              r == Outcome(Response(403, Message(Auth.AdminRequired)), store)
    ensures Auth.RequireAdmin(Authenticate(verify, req)).Continue? && req.username !in store ==>
              r == Outcome(Thrown(NotFound, 404), store)
    ensures r.response.status == 200 <==>
              Auth.RequireAdmin(Authenticate(verify, req)).Continue? && req.username in store
    ensures r.response.status == 200 ==>
              r.response.body == Message("deleted") && r.store.Keys == store.Keys - {req.username} &&
              forall k :: k in r.store ==> r.store[k] == store[k]
  {
    var ctx := Authenticate(verify, req);
    match Auth.RequireAdmin(ctx)
    case Stop(status, message) => Outcome(Response(status, Message(message)), store)
    case Continue(_) =>
      if req.username !in store then Outcome(Thrown(NotFound, 404), store)
      else Outcome(Response(200, Message("deleted")), store - {req.username})
  }

  // ---------------------------------------------------------------------
  // What the routes do for the requests their tests exercise

  /** `found` lists the store: every listed record is stored under its username, and every stored user is listed. */
  predicate Enumerates(found: seq<User>, store: Store)
  {
    && (forall i :: 0 <= i < |found| ==> found[i].username in store && store[found[i].username] == found[i])
    && (forall k :: k in store ==> exists i :: 0 <= i < |found| && found[i].username == k)
  }

  /** Listing a store shows exactly its usernames, each with that user's stored names. */
  lemma ListingShowsStore(verify: Auth.Verifier, req: Request, found: seq<User>, store: Store)
    requires Enumerates(found, store)
    ensures var users := ListUsers(verify, req, found).body.users;
      && (forall k :: k in store <==> exists i :: 0 <= i < |users| && users[i].username == k)
      && (forall i :: 0 <= i < |users| ==> users[i] == Basic(store[users[i].username]))
  {
    var users := ListUsers(verify, req, found).body.users;
    forall k | k in store
      ensures exists i :: 0 <= i < |users| && users[i].username == k
    {
      var i :| 0 <= i < |found| && found[i].username == k;
      assert users[i].username == k;
    }
  }

  /** A request with no verifiable token for an existing user reaches `req.user.username` and fails with 500, not 401. */
  lemma AnonymousGetIsServerError(verify: Auth.Verifier, req: Request, store: Store)
    requires req.username in store
    requires Auth.VerifyBodyToken(verify, req.body).None?
    ensures GetUser(verify, req, store) == Response(500, Error(MissingUserTypeError, 500))
  {
  }

  /** An admin patching another user is stopped by ensureCorrectUser with 401; the handler's admin check is never reached. */
  lemma AdminCannotPatchOthers(verify: Auth.Verifier, update: Updater, req: Request, store: Store, claims: JsObject)
    requires Auth.VerifyBodyToken(verify, req.body) == Some(claims)
    requires Truthy(Get(claims, "is_admin"))
    requires Get(claims, "username") != Str(req.username)
    ensures PatchUser(verify, update, req, store) == Outcome(Response(401, Message(Auth.Unauthorized)), store)
  {
  }

  /** A caller patching their own record with an `is_admin` key has it forwarded to the update: only "username" and "admin" are refused. */
  lemma PatchForwardsAdminFlag(verify: Auth.Verifier, update: Updater, req: Request, store: Store)
    requires Auth.EnsureCorrectUser(Authenticate(verify, req)).Continue?
    requires "is_admin" in req.body && "username" !in req.body && "admin" !in req.body
    ensures "is_admin" in req.body - {"_token"}
    ensures update(store, req.username, req.body - {"_token"}).Updated? ==>
              PatchUser(verify, update, req, store).store == update(store, req.username, req.body - {"_token"}).store
  {
  }

  /** A logged-in user without a truthy `is_admin` is refused deletion with 403, not 401. */
  lemma NonAdminDeleteForbidden(verify: Auth.Verifier, req: Request, store: Store, claims: JsObject)
    requires Auth.VerifyBodyToken(verify, req.body) == Some(claims)
    requires !Truthy(Get(claims, "is_admin"))
    ensures DeleteUser(verify, req, store) == Outcome(Response(403, Message(Auth.AdminRequired)), store)
  {
  }

  /**
   * After a successful patch whose update stored the record it returned,
   * fetching the same user with the same token answers 200 with that record.
   */
  lemma PatchThenGet(verify: Auth.Verifier, update: Updater, req: Request, store: Store, later: Request)
    requires PatchUser(verify, update, req, store).response.body.OneUser?
    requires var u := update(store, req.username, req.body - {"_token"});
      u.Updated? && u.record.Some? && req.username in u.store && u.store[req.username] == u.record.value
    requires later.username == req.username && Get(later.body, "_token") == Get(req.body, "_token")
    ensures GetUser(verify, later, PatchUser(verify, update, req, store).store)
         == Response(200, OneUser(update(store, req.username, req.body - {"_token"}).record.value))
  {
    assert Auth.VerifyBodyToken(verify, later.body) == Auth.VerifyBodyToken(verify, req.body);
    assert Authenticate(verify, later).user == Authenticate(verify, req).user;
  }

  /** After a successful delete, fetching the same user answers 404. */
  lemma DeleteThenGetNotFound(verify: Auth.Verifier, req: Request, store: Store, later: Request)
    requires DeleteUser(verify, req, store).response.status == 200
    requires later.username == req.username
    ensures GetUser(verify, later, DeleteUser(verify, req, store).store) == Thrown(NotFound, 404)
  {
  }
}
