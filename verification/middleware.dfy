/**
 * The authentication gate (`auth(req, res, next)`): pick a candidate token
 * from the `Authorization` header or the `token` cookie, verify it, and
 * either attach the caller's identity and continue or answer 401.
 */
module AuthMiddleware {
  import opened Wrappers
  import opened JsString
  import opened Crypto

  const BearerPrefix := "Bearer "

  /** The credentials a request carries; `None` is an absent header or cookie. */
  datatype Credentials = Credentials(authorization: Option<string>, cookieToken: Option<string>)

  /** The identity attached as `req.user`: the verified payload's `sub` and `username`. */
  datatype RequestUser = RequestUser(id: Option<string>, username: Option<string>)

  /** The gate either answers 401 with a message, or calls `next` once with `req.user` set. */
  datatype GateDecision = Reject(status: nat, message: string) | Next(user: RequestUser)

  /** JavaScript truthiness of an optional string: present and non-empty. */
  predicate Truthy(t: Option<string>) {
    t.Some? && t.value != ""
  }

  /**
   * The header token: present exactly when the header (absent reads as "")
   * starts with the case-sensitive `"Bearer "`, and then it is everything
   * after those seven characters.
   */
  function HeaderToken(authorization: Option<string>): (r: Option<string>)
    ensures r.Some? <==> StartsWith(authorization.GetOr(""), BearerPrefix)
    ensures r.Some? ==> authorization == Some(BearerPrefix + r.value)
  {
    var header := authorization.GetOr("");
    if StartsWith(header, BearerPrefix) then
      assert header == BearerPrefix + header[|BearerPrefix|..];
      Some(header[|BearerPrefix|..])
    else None
  }

  /**
   * `tokenHeader || tokenCookie`, with a falsy result read as "no token".
   * A token is found exactly when one of the two sources is truthy; a truthy
   * header token wins over the cookie; the result is never empty.
   */
  function CandidateToken(c: Credentials): (r: Option<string>)
    ensures r.Some? <==> Truthy(HeaderToken(c.authorization)) || Truthy(c.cookieToken)
    ensures r.Some? ==> r.value != "" && (r == HeaderToken(c.authorization) || r == c.cookieToken)
    ensures Truthy(HeaderToken(c.authorization)) ==> r == HeaderToken(c.authorization)
  {
    var fromHeader := HeaderToken(c.authorization);
    if Truthy(fromHeader) then fromHeader
    else if Truthy(c.cookieToken) then c.cookieToken
    else None
  }

  /**
   * The gate: 401 "Unauthorized" when no token is found, 401 "Invalid token"
   * when verification fails, otherwise `next` with the payload's identity.
   */
  function Gate(tokens: TokenService, c: Credentials): (d: GateDecision)
    ensures d.Next? <==> CandidateToken(c).Some? && tokens.verify(CandidateToken(c).value).Some?
    ensures d.Reject? ==> d.status == 401
    ensures d == Reject(401, "Unauthorized") <==> CandidateToken(c).None?
    ensures CandidateToken(c).Some? && tokens.verify(CandidateToken(c).value).None? ==>
              d == Reject(401, "Invalid token")
    ensures d.Next? ==>
              var payload := tokens.verify(CandidateToken(c).value).value;
              d.user == RequestUser(payload.sub, payload.username)
  {
    match CandidateToken(c)
    case None => Reject(401, "Unauthorized")
    case Some(token) =>
      match tokens.verify(token)
      case None => Reject(401, "Invalid token")
      case Some(payload) => Next(RequestUser(payload.sub, payload.username))
  }

  /** A header that is not exactly `"Bearer "`-prefixed, such as lower-case `"bearer "`, yields no header token. */
  lemma LowercaseBearerIgnored(t: string)
    ensures HeaderToken(Some("bearer " + t)).None?
    ensures HeaderToken(Some("Basic " + t)).None?
  {
    assert ("bearer " + t)[0] == 'b';
    assert ("Basic " + t)[1] == 'a';
  }

  /** A header of exactly `"Bearer "` gives the falsy empty token, so the cookie decides. */
  lemma EmptyBearerFallsBackToCookie(cookie: Option<string>)
    ensures CandidateToken(Credentials(Some(BearerPrefix), cookie)) ==
            (if Truthy(cookie) then cookie else None)
  {
  }

  /**
   * A token the service has just signed, presented as a bearer header, lets
   * the request through with exactly the signed identity, whatever cookie
   * accompanies it.
   */
  lemma FreshBearerTokenAccepted(tokens: TokenService, claims: Claims, cookie: Option<string>)
    requires SignsVerifiably(tokens)
    ensures Gate(tokens, Credentials(Some(BearerPrefix + tokens.sign(claims)), cookie))
            == Next(RequestUser(claims.sub, claims.username))
  {
  }

  /** The same holds for a freshly signed token arriving as the only credential, in the cookie. */
  lemma FreshCookieTokenAccepted(tokens: TokenService, claims: Claims)
    requires SignsVerifiably(tokens)
    ensures Gate(tokens, Credentials(None, Some(tokens.sign(claims))))
            == Next(RequestUser(claims.sub, claims.username))
  {
  }
}
