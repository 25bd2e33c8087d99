/**
 * The `/auth` endpoints as pure transitions: each handler takes the user
 * collection and a request and yields the response, the collection
 * afterwards, and the trace of calls it made into the collection and the
 * password hasher.
 */
module AuthRoutes {
  import opened Wrappers
  import opened JsString
  import opened ObjectIds
  import opened Crypto
  import opened UserModel
  import opened AuthMiddleware

  const TokenCookie := "token"
  const SessionMaxAgeMs := 3600 * 1000
  const MinPasswordLength := 6
  const MaxPasswordLength := 100

  /** The deployment mode (`NODE_ENV === "production"`), fixed at start-up. */
  datatype Config = Config(production: bool)

  datatype SameSite = Lax | NoRestriction

  datatype CookieOptions = CookieOptions(httpOnly: bool, sameSite: SameSite, secure: bool,
                                         maxAgeMs: Option<nat>)

  datatype CookieDirective =
    | NoCookie
    | SetCookie(name: string, value: string, options: CookieOptions)
    | ClearCookie(name: string, options: CookieOptions)

  /** A JSON response body; a 400 is one validation-error variant whatever fields failed. */
  datatype Body = Message(text: string) | ValidationErrors | Identity(id: Option<string>, username: Option<string>)

  datatype Response = Response(status: nat, body: Body, cookie: CookieDirective)

  /** A JSON body field: a string, or anything else (absent, number, object, ...). */
  datatype Field = Str(value: string) | NotString

  datatype Request = Request(credentials: Credentials, username: Field, password: Field)

  /** A call a handler makes into the collection or the password hasher. */
  datatype Effect = FindOne(username: string) | HashPassword(password: string)
                  | CreateUser(username: string) | ComparePassword(password: string)

  /** The collaborators and configuration every handler sees. */
  datatype Env = Env(tokens: TokenService, hasher: PasswordHasher, config: Config)

  /** The random values one registration draws: the document `_id` and the bcrypt salt. */
  datatype Entropy = Entropy(id: ObjectId, salt: string)

  datatype Outcome = Outcome(response: Response, store: Store, trace: seq<Effect>)

  datatype Route = RegisterRoute | LoginRoute | LogoutRoute | MeRoute

  /**
   * The session cookie's attributes: cross-site and secure in production,
   * `lax` and not secure otherwise; always http-only. A cross-site cookie is
   * always secure, as browsers drop a `SameSite=None` cookie that is not.
   */
  function SessionCookieOptions(cfg: Config, maxAgeMs: Option<nat>): (o: CookieOptions)
    ensures o.httpOnly && o.secure == cfg.production && o.maxAgeMs == maxAgeMs
    ensures o.sameSite == NoRestriction <==> cfg.production
    ensures o.sameSite == NoRestriction ==> o.secure
  {
    CookieOptions(true, if cfg.production then NoRestriction else Lax, cfg.production, maxAgeMs)
  }

  /** The claims `signToken` puts in a token: the user's id rendered as a string, and the username. */
  function IssuedClaims(rec: UserRecord): (c: Claims) {
    Claims(Some(IdString(rec.id)), Some(rec.username))
  }

  /** The public identity returned for a user: id and username, never the hash. */
  function PublicIdentity(rec: UserRecord): (b: Body) {
    Identity(Some(IdString(rec.id)), Some(rec.username))
  }

  /** The response that issues a session for `rec`. */
  function SessionResponse(env: Env, status: nat, rec: UserRecord): (r: Response) {
    Response(status, PublicIdentity(rec),
             SetCookie(TokenCookie, env.tokens.sign(IssuedClaims(rec)),
                       SessionCookieOptions(env.config, Some(SessionMaxAgeMs))))
  }

  const InvalidCredentials := Response(401, Message("Invalid credentials"), NoCookie)
  const InternalError := Response(500, Message("Internal server error"), NoCookie)

  /**
   * The register validators, on the raw (untrimmed) values, measuring length
   * as the validator's `isLength` does.
   */
  predicate RegisterInputValid(req: Request) {
    && req.username.Str? && MinUsernameLength <= ValidatorLength(req.username.value) <= MaxUsernameLength
    && req.password.Str? && MinPasswordLength <= ValidatorLength(req.password.value) <= MaxPasswordLength
  }

  /**
   * When a registration is accepted: valid input, a free trimmed name whose
   * UTF-16 length the schema accepts, a non-empty hash, and an unused `_id`.
   */
  predicate RegistrationAccepted(env: Env, store: Store, req: Request, draw: Entropy) {
    && RegisterInputValid(req)
    && Trim(req.username.value) !in store.users
    && MinUsernameLength <= Utf16Length(Trim(req.username.value)) <= MaxUsernameLength
    && env.hasher.hash(req.password.value, draw.salt) != ""
    && !IdInUse(store, draw.id)
  }

  /** The login validators: both fields are strings. */
  predicate LoginInputValid(req: Request) {
    req.username.Str? && req.password.Str?
  }

  /**
   * `POST /auth/register`. Invalid input is refused with 400 before the
   * collection or the hasher is called. A taken (trimmed) username is refused
   * with 409 after one lookup and without hashing. Otherwise the password is
   * hashed and one document is created: 201 with the public identity and a
   * session cookie, or 500 when `User.create` rejects. The route and the
   * schema measure the username differently (before and after trimming, by
   * the validator's count and by UTF-16 code units), so input the route
   * accepts can still end in 500. Only a 201 changes the
   * collection, by exactly the new document.
   */
  function Register(env: Env, store: Store, req: Request, draw: Entropy): (out: Outcome)
    ensures out.response.status in {201, 400, 409, 500}
    ensures out.response.status == 400 <==> !RegisterInputValid(req)
    ensures out.response.status == 400 ==>
              out.response == Response(400, ValidationErrors, NoCookie) && out.store == store && out.trace == []
    ensures out.response.status == 409 <==>
              RegisterInputValid(req) && Trim(req.username.value) in store.users
    ensures out.response.status == 409 ==>
              && out.response == Response(409, Message("Username already taken"), NoCookie)
              && out.store == store && out.trace == [FindOne(Trim(req.username.value))]
    ensures out.response.status == 500 <==>
              && RegisterInputValid(req) && Trim(req.username.value) !in store.users
              && (Utf16Length(Trim(req.username.value)) < MinUsernameLength
                  || Utf16Length(Trim(req.username.value)) > MaxUsernameLength
                  || env.hasher.hash(req.password.value, draw.salt) == ""
                  || IdInUse(store, draw.id))
    ensures out.response.status == 500 ==>
              && out.response == InternalError && out.store == store
              && var name := Trim(req.username.value);
                 out.trace == [FindOne(name), HashPassword(req.password.value), CreateUser(name)]
    ensures out.response.status == 201 <==> RegistrationAccepted(env, store, req, draw)
    ensures out.store != store ==> out.response.status == 201
    ensures out.response.status == 201 ==>
              RegisterInputValid(req) &&
              var name := Trim(req.username.value);
              var password := req.password.value;
              && name !in store.users
              && out.store.users.Keys == store.users.Keys + {name}
              && (forall n :: n in store.users ==> out.store.users[n] == store.users[n])
              && out.store.users[name] ==
                 UserRecord(draw.id, name, None, env.hasher.hash(password, draw.salt))
              && out.response == SessionResponse(env, 201, out.store.users[name])
              && out.trace == [FindOne(name), HashPassword(password), CreateUser(name)]
    ensures WellFormed(store) ==> WellFormed(out.store)
  {
    if !RegisterInputValid(req) then
      Outcome(Response(400, ValidationErrors, NoCookie), store, [])
    else
      var name := Trim(req.username.value);
      var password := req.password.value;
      if FindByUsername(store, name).Some? then
        Outcome(Response(409, Message("Username already taken"), NoCookie), store, [FindOne(name)])
      else
        var hash := env.hasher.hash(password, draw.salt);
        var trace := [FindOne(name), HashPassword(password), CreateUser(name)];
        match Create(store, UserDraft(name, None, hash), draw.id)
        case Err(_) => Outcome(InternalError, store, trace)
        case Ok((store', rec)) => Outcome(SessionResponse(env, 201, rec), store', trace)
  }

  /**
   * `POST /auth/login`. Never changes the collection. Non-string fields give
   * 400 with no calls made. An unknown (trimmed) username and a wrong password
   * give the one and the same 401 response. Otherwise 200 with the stored
   * user's public identity and a session cookie for that user.
   */
  function Login(env: Env, store: Store, req: Request): (out: Outcome)
    ensures out.store == store
    ensures out.response.status in {200, 400, 401}
    ensures out.response.status == 400 <==> !LoginInputValid(req)
    ensures out.response.status == 400 ==> out.response == Response(400, ValidationErrors, NoCookie) && out.trace == []
    ensures out.response.status == 401 <==>
              LoginInputValid(req) &&
              var name := Trim(req.username.value);
              (name !in store.users || !env.hasher.compare(req.password.value, store.users[name].passwordHash))
    ensures out.response.status == 401 ==> out.response == InvalidCredentials
    ensures out.response.status == 200 ==>
              LoginInputValid(req) &&
              var name := Trim(req.username.value);
              && name in store.users
              && env.hasher.compare(req.password.value, store.users[name].passwordHash)
              && out.response == SessionResponse(env, 200, store.users[name])
              && out.trace == [FindOne(name), ComparePassword(req.password.value)]
  {
    if !LoginInputValid(req) then
      Outcome(Response(400, ValidationErrors, NoCookie), store, [])
    else
      var name := Trim(req.username.value);
      var password := req.password.value;
      match FindByUsername(store, name)
      case None => Outcome(InvalidCredentials, store, [FindOne(name)])
      case Some(rec) =>
        var trace := [FindOne(name), ComparePassword(password)];
        if !env.hasher.compare(password, rec.passwordHash) then Outcome(InvalidCredentials, store, trace)
        else Outcome(SessionResponse(env, 200, rec), store, trace)
  }

  /**
   * `POST /auth/logout`: always 200 "Logged out", clearing the token cookie
   * with the session cookie's attributes; no call is made and the collection
   * is untouched.
   */
  function Logout(env: Env, store: Store): (out: Outcome)
    ensures out.store == store && out.trace == []
    ensures out.response.status == 200 && out.response.body == Message("Logged out")
    ensures out.response.cookie.ClearCookie? && out.response.cookie.name == TokenCookie
    ensures out.response.cookie.options == SessionCookieOptions(env.config, None)
  {
    Outcome(Response(200, Message("Logged out"),
                     ClearCookie(TokenCookie, SessionCookieOptions(env.config, None))),
            store, [])
  }

  /**
   * `GET /auth/me`: the gate's decision, answered directly. It succeeds exactly
   * when the gate would let the request through, returning the identity the
   * gate would attach; otherwise 401, "No token" exactly when the gate finds no
   * token. Nothing is stored or called.
   */
  function Me(env: Env, store: Store, req: Request): (out: Outcome)
    ensures out.store == store && out.trace == [] && out.response.cookie == NoCookie
    ensures out.response.status in {200, 401}
    ensures out.response.status == 200 <==> Gate(env.tokens, req.credentials).Next?
    ensures out.response.status == 200 ==>
              var user := Gate(env.tokens, req.credentials).user;
              out.response.body == Identity(user.id, user.username)
    ensures out.response.body == Message("No token") <==> CandidateToken(req.credentials).None?
    ensures out.response.body == Message("Invalid token") <==>
              Gate(env.tokens, req.credentials) == Reject(401, "Invalid token")
    ensures CandidateToken(req.credentials).Some? && env.tokens.verify(CandidateToken(req.credentials).value).None? ==>
              out.response == Response(401, Message("Invalid token"), NoCookie)
  {
    var c := req.credentials;
    var fromHeader := HeaderToken(c.authorization);
    var token := if Truthy(fromHeader) then fromHeader else c.cookieToken;
    if !Truthy(token) then
      Outcome(Response(401, Message("No token"), NoCookie), store, [])
    else
      match env.tokens.verify(token.value)
      case None => Outcome(Response(401, Message("Invalid token"), NoCookie), store, [])
      case Some(payload) => Outcome(Response(200, Identity(payload.sub, payload.username), NoCookie), store, [])
  }

  /**
   * The router. Only registration may change the collection, and every
   * handler keeps the collection well-formed.
   */
  function Handle(env: Env, route: Route, store: Store, req: Request, draw: Entropy): (out: Outcome)
    ensures route != RegisterRoute ==> out.store == store
    ensures WellFormed(store) ==> WellFormed(out.store)
  {
    match route
    case RegisterRoute => Register(env, store, req, draw)
    case LoginRoute => Login(env, store, req)
    case LogoutRoute => Logout(env, store)
    case MeRoute => Me(env, store, req)
  }
}
