# Node-Express2 core in Dafny

This project models the decision logic of the Node-Express2 repository:

- `timeToWords`, which reads a 24-hour clock time aloud in English;
- the bank.ly API's helpers:
  - `sqlForPartialUpdate`, which builds the `SET` fragment of an UPDATE statement;
  - `createToken`, which validates a user object and builds the token payload;
- the four request gates of bank.ly (`authUser`, `requireLogin`, `ensureCorrectUser`, `requireAdmin`);
- the `/users` route handlers (list, fetch, patch, delete), each composed with its gates.

Everything is immutable data and pure functions. JavaScript semantics the code relies on are written out explicitly:

- truthiness;
- `===` against a string;
- `undefined` for a missing property;
- the truncating `%`;
- `||` on table lookups;
- the text `"undefined"` that a missing lookup contributes to a template string.

External effects become parameters:

- `jwt.verify` is an oracle from token text to an optional payload.
- `User.update` is an oracle over an abstract store `map<string, User>`.
- `User.findAll` is given as the list it returned.

Modules, one per file:

| module | file | what it holds |
|---|---|---|
| `Wrappers` | wrappers.dfy | `Option`, `Result` |
| `Js` | js.dfy | JavaScript values, objects as maps, truthiness, strict string equality |
| `Text` | text.dfy | join/split on a separator, decimal rendering and parsing, and their round trips |
| `TimeWord` | timeword.dfy | `timeToWords`; a reference reading written from clock-name lists; a decoder that reads the words back |
| `PartialUpdate` | partialupdate.dfy | `sqlForPartialUpdate`; a parser that reads the `SET` fragment back |
| `CreateToken` | createtoken.dfy | `createToken` up to the signing call |
| `Auth` | auth.dfy | the four gates and their compositions |
| `Users` | users.dfy | the four `/users` handlers over the store, with the error handler |

The main results:

- **timeToWords.** For every valid time, the output is the reference reading. Reading the output back returns the time. Therefore no two valid times read alike, and no word of a valid reading is `"undefined"`.
- **sqlForPartialUpdate.** The fragment parses back into the columns of the fields, numbered `$1..$n` in key order. It never depends on the values.
- **Tokens and gates.** A token created for a user and verified intact opens exactly that user's routes, and opens the admin routes exactly when `is_admin` is truthy.

### Behaviour that differs from the repository's tests

The model follows the code. Lemmas state the code's actual behaviour where bankly/__tests__/routes.test.js expects something else:

- **Anonymous `GET /users` answers 200, not 401.** The route's only gate is `authUser`, which never stops a request. See `ListUsers` and `ListingIgnoresCaller`.
- **An admin patching another user gets 401, not 200.** The route's gate `ensureCorrectUser` compares usernames only, so the handler's own admin check at bankly/routes/users.js:85 is never reached. See `AdminCannotPatchOthers`.
- **A non-admin `DELETE` gets 403, not 401.** See `NonAdminDeleteForbidden`.
- **An anonymous `DELETE` gets 403, not 401.** `requireAdmin` answers 403 whenever no admin user is set, including when no user is set at all. See `DeleteUser`.
- **An admin patching an absent user gets 401, not 404.** `ensureCorrectUser` stops the request before the update runs, because the admin's username is not the route's. See `AdminCannotPatchOthers`.
- **An anonymous `GET /users/:username` on an existing user answers 500, not 401.** The handler reads `req.user.username` while `req.user` is undefined. The resulting TypeError carries no status, so the error handler answers 500. See `AnonymousGetIsServerError`.

## Model

| member | source | states |
|---|---|---|
| TimeWord.TimeToWords | timeWord.js:31-54 | the result is "midnight" exactly for 00:00 and "noon" exactly for 12:00; every other hour/minute pair ends in " am" exactly when hour < 12 and in " pm" exactly when hour >= 12, so the two special words come from nowhere else |
| TimeWord.HourWordDefined | timeWord.js:34 | for hours 0..23 the `hour % 12` lookup hits a defined key and the hour word is the dial name of hour mod 12, so 0 and 12 both read "twelve" |
| TimeWord.DialName | timeWord.js:3-14 | table keys 0..11 hold the twelve dial names, none empty |
| TimeWord.UnitName | timeWord.js:4-22 | table keys 1..19 hold the reference names of 1..19, none empty |
| TimeWord.TensName | timeWord.js:23-26 | table keys 20, 30, 40, 50 hold the reference tens words, none empty |
| TimeWord.MinuteWordLow | timeWord.js:37-38 | a minute 1..20 is a defined table word, its reference name |
| TimeWord.MinuteWordHigh | timeWord.js:39-46 | for 21..59 the tens lookup and (for a non-zero ones digit) the ones lookup hit, and the minute word is the tens word followed by the ones word only when the ones digit is not zero |
| TimeWord.MinuteWordDefined | timeWord.js:37-46 | every lookup made for a minute 1..59 hits, and the minute word is the reference naming of the minute |
| TimeWord.TemplateJoin | timeWord.js:48-54 | the templates put one space between the hour word and the minute words, with "oh" inserted for minutes below ten |
| TimeWord.StemWords | timeWord.js:34-54 | for a valid time the text before the marker is the template filled with the reference hour name and minute names |
| TimeWord.StemReference | timeWord.js:34-54 | the text before the marker is the reference hour name and middle words joined by single spaces |
| TimeWord.MatchesReference | timeWord.js:31-54 | for every valid time the output equals the reference reading: "midnight", "noon", or hour name, "o'clock" / "oh"+digit / minute names, and the am/pm marker, joined by spaces |
| TimeWord.ReadTimeRoundTrip | timeWord.js:31-54 | reading the output of any valid time back gives that hour and minute |
| TimeWord.TimeToWordsInjective | timeWord.js:31-54 | two valid times with the same reading are the same time |
| TimeWord.HalfDaysShareWords | timeWord.js:34-53 | an hour h < 12 and h + 12 read the same except that "am" becomes "pm": the hour word depends only on hour mod 12 |
| TimeWord.OClockShape | timeWord.js:48-49 | a whole hour other than midnight and noon reads "<hour> o'clock am/pm" |
| TimeWord.OhShape | timeWord.js:50-51 | minutes 1..9 read "<hour> oh <digit> am/pm" |
| TimeWord.TableMinuteShape | timeWord.js:37-38 | minutes 10..20 read as one table word between the hour word and the marker |
| TimeWord.TensMinuteShape | timeWord.js:39-46 | minutes 21..59 read as the tens word, then the ones word only when minute mod 10 is non-zero |
| TimeWord.NoUndefinedWord | timeWord.js:2-27 | no word of the reading of a valid time is "undefined": no lookup misses |
| TimeWord.ExampleHalfPastMidnight | timeWord.js:34 | 00:30 reads "twelve thirty am" |
| TimeWord.ExampleFivePastNoon | timeWord.js:50-51 | 12:05 reads "twelve oh five pm" |
| TimeWord.ExampleTwoForty | timeWord.js:39-46 | 14:40 reads "two forty pm", without a ones word |
| PartialUpdate.ErrorMessageNamesFailure | bankly/helpers/partialUpdate.js:17-21 | the two failures throw different messages, and a rejected field's message determines the field |
| PartialUpdate.Assignments | bankly/helpers/partialUpdate.js:20-23 | the map succeeds exactly when every field has a truthy column; field i becomes "<column>=$<start+i>"; otherwise it fails naming the first rejected field |
| PartialUpdate.SqlForPartialUpdate | bankly/helpers/partialUpdate.js:14-31 | an empty update fails; the call succeeds exactly when every field has a truthy column, otherwise it fails naming the first field without one; on success `setCols` is exactly the ", "-join of "<column of field i>=$<i+1>" in key order, and the values line up with the fields |
| PartialUpdate.ReadRendered | bankly/helpers/partialUpdate.js:22-28 | a ", "-joined list of assignments whose columns hold neither "," nor "=" parses back into its (column, number) pairs |
| PartialUpdate.SetColsRoundTrip | bankly/helpers/partialUpdate.js:20-29 | for columns free of "," and "=", on success `setCols` parses back into exactly the pairs (column of field i, i + 1) in key order, so placeholder $i is assigned the column of the field whose value is values[i-1] |
| PartialUpdate.ClauseIgnoresValues | bankly/helpers/partialUpdate.js:20-28 | updates with the same fields give the same success, the same fragment and the same failure whatever their values |
| PartialUpdate.ExampleTwoFields | bankly/helpers/partialUpdate.js:14-31 | {first_name, phone} gives "first_name=$1, phone=$2" with the values in that order |
| PartialUpdate.ExampleUnknownField | bankly/helpers/partialUpdate.js:21 | a field missing from the allow-list is named in the failure |
| CreateToken.CreateToken | bankly/helpers/createToken.js:4-21 | a falsy user (undefined, null, false, 0, "") fails first, and a truthy primitive such as "u1" behaves as an object without a username; a falsy username fails next; an undefined is_admin fails last; otherwise the payload has exactly the keys username and is_admin, copied from the user, and a 1h lifetime |
| CreateToken.FalseAdminAccepted | bankly/helpers/createToken.js:11-18 | for any truthy username, is_admin = false is accepted and every other field (such as password) is dropped from the payload |
| CreateToken.ErrorMessagesDistinct | bankly/helpers/createToken.js:5-13 | the three failures throw three different messages |
| Auth.VerifyBodyToken | bankly/middleware/auth.js:7-8 | claims exist only for a string `_token` and are what the verifier returns for it; a non-empty string token yields exactly the verifier's answer; a missing, empty or non-string token verifies to nothing |
| Auth.AuthUser | bankly/middleware/auth.js:5-14 | never stops; sets the user to the verified payload when there is one, otherwise leaves the context unchanged |
| Auth.RequireLogin | bankly/middleware/auth.js:17-23 | stops with 401 "Unauthorized" exactly when no user is set, otherwise continues with the context unchanged |
| Auth.EnsureCorrectUser | bankly/middleware/auth.js:26-37 | continues, unchanged, exactly when a user is set whose username is strictly equal to the route username; otherwise 401 "Unauthorized" |
| Auth.RequireAdmin | bankly/middleware/auth.js:40-50 | continues, unchanged, exactly when a user is set with a truthy is_admin; otherwise 403 with the admin-privileges message |
| Auth.CorrectUserIgnoresAdmin | bankly/middleware/auth.js:28 | changing the user's is_admin never changes ensureCorrectUser's decision |
| Auth.AuthThenCorrectUser | bankly/middleware/auth.js:5-37 | authUser then ensureCorrectUser passes exactly when the body token verifies to claims whose username is the route username |
| Auth.AuthThenAdmin | bankly/middleware/auth.js:5-50 | authUser then requireAdmin passes exactly when the body token verifies to claims with a truthy is_admin |
| Auth.IssuedTokenOpensOwnRoutes | bankly/middleware/auth.js:5-50 | a token issued by createToken and verified intact passes requireLogin, passes ensureCorrectUser exactly for the user's own username, and passes requireAdmin exactly when the user's is_admin is truthy |
| Users.ErrorHandler | bankly/app.js:29-36 | the error handler answers the error's non-zero status, and 500 when its status is missing or 0, since a falsy status falls back to 500, with the same status in the body |
| Users.BasicHidesPrivate | bankly/routes/users.js:24-28 | users that agree on username, first and last name are listed alike, so the listing reveals no password, email, phone or admin flag |
| Users.ListUsers | bankly/routes/users.js:21-29 | behind authUser, which never stops, the answer is 200 with one entry per found user, in order, carrying that user's username, first and last name |
| Users.ListingIgnoresCaller | bankly/routes/users.js:21 | the listing is the same whatever the token or body of the request, so an anonymous caller sees what an admin sees |
| Users.GetUser | bankly/routes/users.js:48-64 | 404 exactly when the user is absent, checked first; for an existing user, a logged-in caller who is neither that user nor an admin gets 401 "Unauthorized", an anonymous caller gets the error handler's 500, and 200 with the stored record happens exactly when the caller is that user or an admin |
| Users.PatchUser | bankly/routes/users.js:82-109 | the gate's 401 leaves the store unchanged; past the gate, a "username" key is checked first and gives the error handler's 401 "Cannot update 'username' field", then an "admin" key gives 401 "Cannot update 'admin' field", both with the store unchanged; otherwise the store is what the update made of the body minus `_token`, a thrown update is rendered by the error handler, a missing record gives 404, and a returned record gives 200 with exactly that record |
| Users.DeleteUser | bankly/routes/users.js:122-134 | a non-admin gets 403 and an absent user 404, both with the store unchanged; 200 "deleted" exactly for an admin and a stored user, which is removed with every other record kept |
| Users.ListingShowsStore | bankly/routes/users.js:23-29 | when the found list enumerates the store, the listing shows exactly the stored usernames, each with its stored names |
| Users.AnonymousGetIsServerError | bankly/routes/users.js:56 | without a verifiable token, fetching an existing user answers 500, the error handler's default, not 401 |
| Users.AdminCannotPatchOthers | bankly/routes/users.js:82-87 | an admin patching another user is stopped by ensureCorrectUser with 401 and the store unchanged |
| Users.PatchForwardsAdminFlag | bankly/routes/users.js:90-100 | an is_admin key is not refused and reaches the update together with the other keys |
| Users.NonAdminDeleteForbidden | bankly/routes/users.js:122 | a logged-in caller without a truthy is_admin is refused deletion with 403 |
| Users.PatchThenGet | bankly/routes/users.js:97-105 | after a successful patch whose update stored the record it returned, the same caller fetching the user gets 200 with that record |
| Users.DeleteThenGetNotFound | bankly/routes/users.js:124-130 | after a successful delete, fetching that user answers 404 |

## Left out

- Parsing the time text: `split(':')` and `Number` can produce `NaN` on malformed input, and a fraction on input such as "12:30.5". The model starts from the two integers. `TimeToWords` is defined for every integer pair, with the truncating `%`.
- `jwt.sign` and `jwt.verify` are left out:
  - No cryptography, signatures, secret key or clock is modelled.
  - `verify` is an oracle, and `createToken` returns the signing request (payload and `expiresIn`).
  - The `iat`/`exp` claims the library adds are not modelled.
- `User.findAll`, `findOne`, `update` and `delete` (the user model, SQL and bcrypt) are not part of this model:
  - `findOne` and `delete` are a lookup and a removal on the store.
  - `findAll` is the list it returned.
  - `update` is an oracle that returns a store and a record or throws.
- `Users.ListUsers`: does not model a rejected `findAll`, because the user model is outside the model. Such a rejection would reach the error handler.
- `Users.GetUser`: does not model `findOne` throwing, for the same reason.
- `Users.DeleteUser`: does not model `delete` throwing, for the same reason.
- `PartialUpdate.SqlForPartialUpdate`:
  - The allow-list is a map from field name to column text. JavaScript's inherited properties (a field named `constructor`, say) would pass the `jsToSql[colName]` check in the source. The map does not model that.
  - The update is a sequence of (key, value) pairs in `Object.keys` order. JavaScript's rule that integer-like keys come first is taken as already applied.
  - Duplicate keys are not excluded. The contracts hold without that assumption.
- bankly/routes/auth.js (register and login) is not part of this model. It is glue over the user model, and it calls `createToken` through a destructured default export with two arguments.
- bankly/app.js wiring is not part of this model:
  - It passes `authenticateJWT` to `app.use`, but bankly/middleware/auth.js does not export it. `app.use(undefined)` throws "app.use() requires a middleware function" while app.js loads, so the app as written never starts. The model describes the routes as they would behave with that line removed.
  - The only part of app.js modelled is its general error handler.
- bankly/server.js and bankly/db.js are process startup and a connection pool.
- JavaScript numbers are modelled as unbounded integers. Fractions from time parsing are covered by the parsing line above, and no caller reaches overflow.
