/**
 * createToken: validate a user object and build the payload handed to the
 * token signer. Signing itself is left to an external library; the model
 * returns what is asked of it, the payload and the requested lifetime.
 */
module CreateToken {
  import opened Wrappers
  import opened Js

  /** The three validation failures, in the order they are checked. */
  datatype TokenError = MissingUser | MissingUsername | MissingAdminFlag

  /** The message each failure throws with. */
  function ErrorMessage(e: TokenError): string
  {
    match e
    case MissingUser => "Invalid user object: User object is undefined or null"
    case MissingUsername => "Invalid user object: Username is undefined"
    case MissingAdminFlag => "Invalid user object: is_admin property is undefined"
  }

  /** Each failure throws its own message, so a caller can tell from the message which check failed. */
  lemma ErrorMessagesDistinct(e1: TokenError, e2: TokenError)
    ensures ErrorMessage(e1) == ErrorMessage(e2) <==> e1 == e2
  {
  }

  /** The lifetime every token is requested with: one hour. */
  const ExpiresIn: string := "1h"

  /** A signing request: the payload and the `expiresIn` option. */
  datatype SignRequest = SignRequest(payload: JsObject, expiresIn: string)

  /**
   * createToken(user). `None` stands for every falsy `user` (undefined,
   * null, false, 0, ""), all of which fail the first check. Any truthy user
   * is an object whose missing properties read `undefined`; a truthy
   * primitive such as the string "u1" is one with no `username` property,
   * so it fails the second check.
   */
  function CreateToken(user: Option<JsObject>): (r: Result<SignRequest, TokenError>)
    ensures user.None? <==> r == Failure(MissingUser)
    ensures r == Failure(MissingUsername) <==> user.Some? && !Truthy(Get(user.value, "username"))
    ensures r == Failure(MissingAdminFlag) <==>
              user.Some? && Truthy(Get(user.value, "username")) && Get(user.value, "is_admin") == Undefined
    ensures r.Success? ==> user.Some? && r.value.expiresIn == "1h"
    ensures r.Success? ==> r.value.payload.Keys == {"username", "is_admin"}
    ensures r.Success? ==> r.value.payload["username"] == Get(user.value, "username")
    ensures r.Success? ==> r.value.payload["is_admin"] == Get(user.value, "is_admin")
  {
    match user
    case None => Failure(MissingUser)
    case Some(u) =>
      if !Truthy(Get(u, "username")) then Failure(MissingUsername)
      else if Get(u, "is_admin") == Undefined then Failure(MissingAdminFlag)
      else Success(SignRequest(map["username" := Get(u, "username"), "is_admin" := Get(u, "is_admin")], ExpiresIn))
  }

  /** An explicit `is_admin = false` is accepted, and the password and other fields are dropped. */
  lemma FalseAdminAccepted(u: JsObject)
    requires Truthy(Get(u, "username")) && Get(u, "is_admin") == Bool(false)
    ensures CreateToken(Some(u)).Success?
    ensures CreateToken(Some(u)).value.payload == map["username" := Get(u, "username"), "is_admin" := Bool(false)]
  {
  }
}
