# Authentication core of a portfolio backend, in Dafny

This project models the username/password authentication layer of a small
Express + Mongoose portfolio backend: the `User` schema and its collection,
the `/auth/register`, `/auth/login`, `/auth/logout` and `/auth/me` handlers,
and the `auth` middleware that gates requests on a signed session token.

Every handler is a pure transition: it takes the user collection and a
request and yields the response, the collection afterwards, and the trace of
calls it made into the collection (`FindOne`, `CreateUser`) and the password
hasher (`HashPassword`, `ComparePassword`). The trace is what lets the model
say "the store is not consulted" and "no hash is computed".

Modules:

- `Wrappers`: `Option` and `Result`.
- `JsString`: JavaScript `trim` (exact ECMAScript whitespace set), `toLowerCase`, `startsWith`.
- `ObjectIds`: document ids and their hexadecimal `toString()`, with a parser that inverts it.
- `Crypto`: token signing/verification and password hashing, abstract.
  They are function values inside `TokenService` and `PasswordHasher`.
  The only facts assumed of them are two predicates.
  `SignsVerifiably`: a freshly signed token is non-empty and verifies to the signed claims.
  `ComparesOwnHash`: a password matches its own hash, whatever the salt.
  Lemmas that need these facts take them as preconditions.
- `UserModel`: the schema's setters (`Cast`), validators (`SchemaAccepts`), and the record invariant (`RecordValid`).
  The collection is a map keyed by username; the unique index is the key discipline.
  `WellFormed` is the collection invariant; `FindByUsername` and `Create` are the two store operations.
- `AuthMiddleware`: header/cookie token extraction and the three-way gate.
- `AuthRoutes`: the four handlers and the router `Handle`.
- `AuthProperties`: properties relating several requests.
- `App`: the middleware the application installs ahead of the auth router, and what it leaves of a request.

The register route validates the raw username length (3..50) and trims the
name only afterwards. The schema checks `minlength` on the trimmed name.
The two checks also count differently. The validator's `isLength` counts
characters, ignoring the variation selectors U+FE0E and U+FE0F
(`JsString.ValidatorLength`). Mongoose's `minlength`/`maxlength` count UTF-16
code units, two for a character outside the Basic Multilingual Plane
(`JsString.Utf16Length`). So a
padded short name such as `"  ab  "` passes route validation. It is then
looked up, its password is hashed, `User.create` refuses it, and the handler
answers 500. The model keeps this path; `AuthProperties.PaddedShortUsernameFails`
states it.

The session token's `sub` claim is `user._id.toString()`. `/auth/me` answers
with that string as `id`, and register and login answer with the id serialised
as JSON. Both are modelled as the same hexadecimal rendering.

## Model

| member | source | states |
|---|---|---|
| `JsString.Trim` | routes/auth.js:22 | the result has no whitespace at either end, is an infix of the input surrounded only by whitespace, and a trimmed input is returned unchanged |
| `JsString.TrimUnique` | models/user.js:5 | those properties determine the trimmed string: any whitespace-bounded infix with non-whitespace ends is the trim |
| `JsString.ToLower` | models/user.js:6 | the result has no upper-case letter and differs from the input only where an upper-case letter became its lower-case form |
| `ObjectIds.ParseToHex` | routes/auth.js:15 | parsing the hexadecimal rendering of an id gives back the id's bytes |
| `ObjectIds.IdStringInjective` | routes/auth.js:15 | two ids render to the same string exactly when they are the same id |
| `JsString.Utf16Length` | models/user.js:5 | the UTF-16 length lies between the character count and twice it, equals the count exactly when no character is astral, and equals twice it exactly when every character is; a single character counts 2 when astral and 1 otherwise |
| `JsString.Utf16LengthConcat` | models/user.js:5 | the UTF-16 length of a concatenation is the sum of the parts' lengths, so with the one-character values it is the character count plus the number of astral characters |
| `JsString.ValidatorLength` | routes/auth.js:22-23 | the validator's length never exceeds the character count and equals it exactly when no character is a variation selector U+FE0E/U+FE0F; a single character counts 0 when it is such a selector and 1 otherwise |
| `JsString.ValidatorLengthConcat` | routes/auth.js:22-23 | the validator's length of a concatenation is the sum of the parts' lengths, so with the one-character values it is the number of characters that are not variation selectors |
| `UserModel.NormalizeEmail` | models/user.js:6 | a stored email is trimmed and lower-case, is the lower-cased form of a whitespace-bounded infix of the input, and an already normal email is kept as is |
| `UserModel.Cast` | models/user.js:5-7 | the stored username is the trim of the given one, a present email is stored as its normalised form, an absent one stays absent, and the hash passes through |
| `UserModel.CastIdempotent` | models/user.js:5-6 | applying the setters to an already cast document changes nothing |
| `UserModel.FindByUsername` | routes/auth.js:34 | in a well-formed collection a document is found exactly when one carries the username, and it is that document |
| `UserModel.Create` | models/user.js:3-12 | creation succeeds exactly when the cast document passes the schema and neither username nor id is taken; success adds one valid document and keeps all others; failure by schema is told apart from a duplicate key; the collection stays well-formed |
| `AuthMiddleware.HeaderToken` | middleware/auth.js:6-7 | a header token exists exactly when the header starts with the case-sensitive "Bearer ", and the header is then "Bearer " followed by the token |
| `AuthMiddleware.CandidateToken` | middleware/auth.js:8-9 | a token is found exactly when the header token or the cookie is non-empty; a non-empty header token wins; the result is never empty |
| `AuthMiddleware.Gate` | middleware/auth.js:11-18 | the request continues exactly when a token is found and verifies, with req.user set to the payload's sub and username; otherwise 401, "Unauthorized" exactly when no token was found and "Invalid token" when a found token does not verify |
| `AuthMiddleware.LowercaseBearerIgnored` | middleware/auth.js:7 | "bearer " and "Basic " headers yield no header token |
| `AuthMiddleware.EmptyBearerFallsBackToCookie` | middleware/auth.js:7-9 | a header of exactly "Bearer " leaves the decision to the cookie |
| `AuthMiddleware.FreshBearerTokenAccepted` | middleware/auth.js:6-15 | a freshly signed token sent as a bearer header passes the gate with the signed identity, whatever the cookie |
| `AuthMiddleware.FreshCookieTokenAccepted` | middleware/auth.js:8-15 | a freshly signed token sent as the only credential, in the cookie, passes the gate with the signed identity |
| `AuthRoutes.SessionCookieOptions` | routes/auth.js:46-51 | the session cookie is http-only, and secure and cross-site exactly in production; a cross-site (`SameSite=None`) cookie is always secure, as browsers require |
| `AuthRoutes.Register` | routes/auth.js:19-59 | 400 exactly on invalid raw input, with the validation errors, no cookie and no call made; 409 exactly for a taken trimmed name, after one lookup and no hash; 500 exactly when the trimmed name is under 3 or over 50 UTF-16 code units, the hash is empty or the id is taken, after the hash is computed; 201 exactly when none of these happen; only 201 changes the store, adding one record with the hash of the password and keeping all others, and answering with the public identity and a session cookie; well-formedness is kept |
| `AuthRoutes.Login` | routes/auth.js:62-101 | the store never changes; 400 exactly for non-string fields, with the validation errors, no cookie and no call made; 401 with one fixed response exactly when the trimmed name is unknown or the password does not match; 200 returns the stored user's identity and a session cookie |
| `AuthRoutes.Logout` | routes/auth.js:104-112 | always 200 "Logged out", clears the token cookie with the session cookie's attributes, makes no call and leaves the store alone |
| `AuthRoutes.Me` | routes/auth.js:115-128 | answers 200 exactly when the gate would continue, with the identity the gate would attach; "No token" exactly when no token is found; "Invalid token" exactly when the gate rejects a found token |
| `AuthRoutes.Handle` | routes/auth.js:19-128 | only registration can change the store, and every route keeps the store well-formed |
| `AuthProperties.AcceptedPartsExactly` | routes/auth.js:22-53 | for a name made of a trimmed core between whitespace padding, the trim is the core, and registration is accepted exactly when the validator counts the padded name as 3..50 and the password as 6..100, the core is new and measures 3..50 UTF-16 code units, the hash is non-empty and the id unused |
| `AuthProperties.RegisterThenLogin` | routes/auth.js:34-95 | after a successful registration, logging in with the same credentials succeeds and returns the same identity |
| `AuthProperties.SessionRecognisedByMe` | routes/auth.js:115-127 | the token issued for a user (signed over `AuthRoutes.IssuedClaims`, the claims of `signToken`), as cookie or bearer header, makes /auth/me return that user's issued identity |
| `AuthProperties.LoginSessionRecognised` | routes/auth.js:87-95 | the cookie a successful login sets makes /auth/me return the identity login returned |
| `AuthProperties.RegisterSessionRecognised` | routes/auth.js:42-53 | a successful registration sets a session cookie, and that cookie makes /auth/me return the identity registration returned |
| `AuthProperties.RegisterTwice` | routes/auth.js:34-37 | after a successful registration, a valid registration of the same name with any whitespace padding gets 409 and changes nothing |
| `AuthProperties.PaddedShortUsernameFails` | routes/auth.js:22-56 | a raw name the validator counts as 3..50 long that is a core of under 3 UTF-16 code units padded with whitespace is hashed, refused by the schema and answered with 500, leaving the store unchanged |
| `AuthProperties.PaddedShortUsernameExample` | routes/auth.js:22-56 | registering "  ab  " with password "secret1" in an empty collection is answered with 500 |
| `AuthProperties.PaddedUsernameRegisters` | routes/auth.js:22-53 | a padded name whose core is 3..50 UTF-16 code units and new to the collection registers with 201 and is stored under its core |
| `AuthProperties.AstralUsernameRegisters` | models/user.js:5 | " \U{1F600}\U{1F600} " registers with 201: its two emoji are four UTF-16 code units |
| `AuthProperties.LoginFailuresIndistinguishable` | routes/auth.js:77-85 | an unknown username and a wrong password get the identical 401 response |
| `AuthProperties.LogoutDoesNotRevoke` | routes/auth.js:104-111 | logout only clears the cookie: a bearer copy of the session token still gets 200 with the user's identity from /auth/me afterwards |
| `AuthProperties.SubjectIdentifiesUser` | routes/auth.js:14-16 | in a well-formed store, two users whose issued sub claims agree are the same user; the claims are those `signToken` puts in a token, modelled by `AuthRoutes.IssuedClaims` |
| `App.OnlyBearerAuthenticatesAsWired` | app.js:8-11 | with the middleware as installed, /auth/me answers 200 only to a request carrying a non-empty bearer token, whatever cookie it sends |
| `App.SessionCookieIgnoredAsWired` | app.js:8-11 | with the middleware as installed, a browser's follow-up to /auth/me after a successful login is answered 401 "No token" |
| `App.SessionCookieRecognisedWithParser` | routes/auth.js:87-95 | with a cookie parser added, the same follow-up is answered 200 with the identity login returned |

## Left out

- Token signing and verification are abstract. HMAC, base64url encoding, the `"1h"` lifetime, the clock and the `iat`/`exp` claims are all hidden in them. Expiry appears only as a `verify` that returns `None`. Under `SignsVerifiably` no signed token ever expires, so the session lemmas (`SessionRecognisedByMe`, `LoginSessionRecognised`, `RegisterSessionRecognised`, `LogoutDoesNotRevoke`, `App.SessionCookieRecognisedWithParser`) speak of a token used before its expiry.
- bcrypt internals are not modelled: salt generation, cost factor 10, and truncation of passwords beyond 72 bytes. The random salt is an input of the hash.
- The server secret and its insecure default come from the environment. They are captured inside the abstract token service rather than modelled.
- The deployment mode (`NODE_ENV`) is an immutable `Config`.
- Collection I/O failures are not modelled. A lost connection or timeout would make `findOne` or `create` throw, and the handlers would answer 500.
- The check-then-insert race between `findOne` and `create` under concurrent registrations is not modelled. The store is sequential.
- The `createdAt`/`updatedAt` timestamps are not modelled, because they need the clock.
- Express-validator's error array is collapsed to one `ValidationErrors` body. Logging is not modelled.
- `JsString.ToLower`: maps only ASCII letters. JavaScript's `toLowerCase` applies full Unicode case mapping.
- `JsString.ValidatorLength`: follows the validator releases that discount only U+FE0E and U+FE0F. Other releases also discount combining marks, which is not modelled.
- `UserModel.FindByUsername`: matches the username exactly as given. Every caller passes an already trimmed name, so the schema setters Mongoose may apply to query values make no difference.
- `Credentials.cookieToken` is what a cookie parser would put in `req.cookies.token`. The application installs none (app.js:8-11), so requests served as wired always carry `None` there; `App.OnlyBearerAuthenticatesAsWired` states the consequence, and the handlers are modelled for the intended wiring with a parser. A parser's decoding of `j:`-prefixed cookies into JSON objects is not modelled.
- Claim values in a verified payload are strings or absent. Other JSON values are not modelled.
- Strings are sequences of Unicode scalar values. A JSON body can carry an unpaired surrogate (`"\ud800abc"`), which reaches `isLength`, `trim` and Mongoose as is and is stored as U+FFFD; such request strings are not modelled.
- Ids are byte strings of any length. The 12-byte width of a real ObjectId is not enforced.
- The CRUD routes, their schemas, app start-up and database connection are not part of this model. They pass data through without decision logic.

## Findings

| source | as written | input that shows it | evidently intended | confidence | as-written member | corrected member |
|---|---|---|---|---|---|---|
| app.js:8-11 | only `express.json()` runs before the auth router, so `req.cookies` is undefined and the `token` cookie read at middleware/auth.js:8 and routes/auth.js:118 is never seen | log in, then GET /auth/me from a browser that sends the http-only session cookie and no Authorization header: 401 "No token" | a cookie parser installed, so the session cookie set at login authenticates | high, not executed | `App.SessionCookieIgnoredAsWired` | `App.SessionCookieRecognisedWithParser` |
