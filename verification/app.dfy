/**
 * How a request reaches the auth handlers. The application installs JSON
 * body parsing and nothing else before the auth router, so no cookie parser
 * fills `req.cookies` and the handlers' `req.cookies?.token` is always
 * undefined. The handlers' `Credentials.cookieToken` is what a cookie parser
 * would put there.
 */
module App {
  import opened Wrappers
  import opened Crypto
  import opened UserModel
  import opened AuthMiddleware
  import opened AuthRoutes
  import AuthProperties

  datatype Middleware = JsonBody | CookieParser

  /** The middleware the application installs ahead of the auth router. */
  const Installed: seq<Middleware> := [JsonBody]

  /** The same stack with a cookie parser, which the handlers' cookie reads presuppose. */
  const WithCookieParser: seq<Middleware> := [JsonBody, CookieParser]

  /**
   * A request as sent: the `Authorization` header, the `token` entry of the
   * `Cookie` header, and the JSON body's `username` and `password`.
   */
  datatype HttpRequest = HttpRequest(authorization: Option<string>, tokenCookie: Option<string>,
                                     username: Field, password: Field)

  /**
   * What the handlers see once the middleware has run: the header always; the
   * cookie only when a cookie parser ran; the body fields only when the JSON
   * body parser ran (otherwise `req.body` is undefined and no field is a string).
   */
  function Receive(stack: seq<Middleware>, h: HttpRequest): Request {
    Request(Credentials(h.authorization, if CookieParser in stack then h.tokenCookie else None),
            if JsonBody in stack then h.username else NotString,
            if JsonBody in stack then h.password else NotString)
  }

  /**
   * The request a browser sends to `/auth/me` after a response that set the
   * `token` cookie: the cookie comes back, and since it is http-only no script
   * can copy it into an `Authorization` header.
   */
  function BrowserFollowUp(previous: Response): HttpRequest {
    var cookie := if previous.cookie.SetCookie? && previous.cookie.name == TokenCookie
                  then Some(previous.cookie.value) else None;
    HttpRequest(None, cookie, NotString, NotString)
  }

  /** Serving a request: the middleware stack, then the router. */
  function Serve(stack: seq<Middleware>, env: Env, route: Route, store: Store, h: HttpRequest,
                 draw: Entropy): (out: Outcome)
    ensures route != RegisterRoute ==> out.store == store
    ensures WellFormed(store) ==> WellFormed(out.store)
  {
    Handle(env, route, store, Receive(stack, h), draw)
  }

  /**
   * As installed, only a bearer header authenticates: whenever `/auth/me`
   * answers 200, whatever cookie was sent, the request carried a non-empty
   * bearer token.
   */
  lemma OnlyBearerAuthenticatesAsWired(env: Env, store: Store, h: HttpRequest, draw: Entropy)
    ensures Serve(Installed, env, MeRoute, store, h, draw).response.status == 200 ==>
              Truthy(HeaderToken(h.authorization))
  {
    assert CookieParser !in Installed;
  }

  /**
   * As installed, a session cookie never authenticates: after a successful
   * login, the browser's follow-up to `/auth/me` is answered 401 "No token".
   */
  lemma SessionCookieIgnoredAsWired(env: Env, store: Store, req: Request, draw: Entropy)
    requires Login(env, store, req).response.status == 200
    ensures var login := Login(env, store, req);
            Serve(Installed, env, MeRoute, store, BrowserFollowUp(login.response), draw).response
              == Response(401, Message("No token"), NoCookie)
  {
    var login := Login(env, store, req);
    assert CookieParser !in Installed;
    assert Receive(Installed, BrowserFollowUp(login.response)).credentials == Credentials(None, None);
  }

  /**
   * With a cookie parser installed, the same follow-up is answered 200 with
   * the identity login returned.
   */
  lemma SessionCookieRecognisedWithParser(env: Env, store: Store, req: Request, draw: Entropy)
    requires SignsVerifiably(env.tokens)
    requires Login(env, store, req).response.status == 200
    ensures var login := Login(env, store, req);
            Serve(WithCookieParser, env, MeRoute, store, BrowserFollowUp(login.response), draw).response
              == Response(200, login.response.body, NoCookie)
  {
    assert CookieParser in WithCookieParser;
    AuthProperties.LoginSessionRecognised(env, store, req);
  }
}
