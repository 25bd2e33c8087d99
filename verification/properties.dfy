/**
 * Properties that relate several requests: sessions issued by register and
 * login are recognised by `/auth/me` and the gate, credentials just
 * registered log in, usernames stay unique, and login failures look alike.
 */
module AuthProperties {
  import opened Wrappers
  import opened JsString
  import opened ObjectIds
  import opened Crypto
  import opened UserModel
  import opened AuthMiddleware
  import opened AuthRoutes

  /** A request carrying only a body, no credentials. */
  function BodyRequest(username: string, password: string): (req: Request) {
    Request(Credentials(None, None), Str(username), Str(password))
  }

  /**
   * An accepted registration spelled out on the parts of the submitted name:
   * a trimmed `core` between whitespace `pad1` and `pad2`. Every name has
   * this shape (see `JsString.Trim`), and `AcceptedPartsExactly` shows the
   * two descriptions agree.
   */
  predicate AcceptedParts(env: Env, store: Store, pad1: string, core: string, pad2: string,
                          password: string, draw: Entropy) {
    && AllWhitespace(pad1) && AllWhitespace(pad2) && Trimmed(core)
    && MinUsernameLength <= ValidatorLength(pad1 + core + pad2) <= MaxUsernameLength
    && MinPasswordLength <= ValidatorLength(password) <= MaxPasswordLength
    && core !in store.users
    && MinUsernameLength <= Utf16Length(core) <= MaxUsernameLength
    && env.hasher.hash(password, draw.salt) != ""
    && !IdInUse(store, draw.id)
  }

  /** For a padded trimmed name, registration is accepted exactly when its parts say so, and the trim is the core. */
  lemma AcceptedPartsExactly(env: Env, store: Store, pad1: string, core: string, pad2: string,
                             password: string, draw: Entropy)
    requires AllWhitespace(pad1) && AllWhitespace(pad2) && Trimmed(core)
    ensures Trim(pad1 + core + pad2) == core
    ensures RegistrationAccepted(env, store, BodyRequest(pad1 + core + pad2, password), draw)
            <==> AcceptedParts(env, store, pad1, core, pad2, password, draw)
  {
    var name := pad1 + core + pad2;
    TrimUnique(name, pad1, core, pad2);
    var req := BodyRequest(name, password);
    assert req.username == Str(name) && req.password == Str(password);
    assert RegisterInputValid(req) <==>
             && MinUsernameLength <= ValidatorLength(name) <= MaxUsernameLength
             && MinPasswordLength <= ValidatorLength(password) <= MaxPasswordLength;
  }

  /**
   * Registering and then logging in with the same credentials succeeds and
   * returns the identity registration returned.
   */
  lemma RegisterThenLogin(env: Env, store: Store, pad1: string, core: string, pad2: string,
                          password: string, draw: Entropy)
    requires ComparesOwnHash(env.hasher)
    requires AcceptedParts(env, store, pad1, core, pad2, password, draw)
    ensures var registered := Register(env, store, BodyRequest(pad1 + core + pad2, password), draw);
            var login := Login(env, registered.store, BodyRequest(pad1 + core + pad2, password));
            && login.response.status == 200
            && login.response.body == registered.response.body
  {
    AcceptedPartsExactly(env, store, pad1, core, pad2, password, draw);
  }

  /**
   * The session token issued for a user is accepted by `/auth/me`, which
   * answers with the identity the issuing response returned, whether the
   * token comes as the cookie or as a bearer header beside any cookie.
   */
  lemma SessionRecognisedByMe(env: Env, status: nat, rec: UserRecord, store: Store, other: Option<string>)
    requires SignsVerifiably(env.tokens)
    ensures var issued := SessionResponse(env, status, rec);
            var token := issued.cookie.value;
            && Me(env, store, Request(Credentials(None, Some(token)), NotString, NotString)).response
               == Response(200, issued.body, NoCookie)
            && Me(env, store, Request(Credentials(Some(BearerPrefix + token), other), NotString, NotString)).response
               == Response(200, issued.body, NoCookie)
  {
  }

  /** A successful login yields a session `/auth/me` recognises as the same user. */
  lemma LoginSessionRecognised(env: Env, store: Store, req: Request)
    requires SignsVerifiably(env.tokens)
    requires Login(env, store, req).response.status == 200
    ensures var login := Login(env, store, req);
            Me(env, store, Request(Credentials(None, Some(login.response.cookie.value)), NotString, NotString))
              .response == Response(200, login.response.body, NoCookie)
  {
  }

  /** A successful registration yields a session `/auth/me` recognises as the new user. */
  lemma RegisterSessionRecognised(env: Env, store: Store, pad1: string, core: string, pad2: string,
                                  password: string, draw: Entropy)
    requires SignsVerifiably(env.tokens)
    requires AcceptedParts(env, store, pad1, core, pad2, password, draw)
    ensures var reg := Register(env, store, BodyRequest(pad1 + core + pad2, password), draw);
            && reg.response.cookie.SetCookie?
            && Me(env, reg.store, Request(Credentials(None, Some(reg.response.cookie.value)), NotString, NotString))
                 .response == Response(200, reg.response.body, NoCookie)
  {
    AcceptedPartsExactly(env, store, pad1, core, pad2, password, draw);
    var reg := Register(env, store, BodyRequest(pad1 + core + pad2, password), draw);
    SessionRecognisedByMe(env, 201, reg.store.users[core], reg.store, None);
  }

  /**
   * Registering the same username twice: after a success, a second valid
   * registration of that name, padded with any whitespace, is refused with
   * 409 and leaves the collection as the first left it.
   */
  lemma RegisterTwice(env: Env, store: Store, pad1: string, core: string, pad2: string, password: string,
                      draw1: Entropy, second: Request, pad3: string, pad4: string, draw2: Entropy)
    requires AcceptedParts(env, store, pad1, core, pad2, password, draw1)
    requires AllWhitespace(pad3) && AllWhitespace(pad4)
    requires RegisterInputValid(second) && second.username.value == pad3 + core + pad4
    ensures var s1 := Register(env, store, BodyRequest(pad1 + core + pad2, password), draw1).store;
            var again := Register(env, s1, second, draw2);
            again.response.status == 409 && again.store == s1
  {
    AcceptedPartsExactly(env, store, pad1, core, pad2, password, draw1);
    TrimUnique(pad3 + core + pad4, pad3, core, pad4);
  }

  /**
   * The route validates the raw username's length but the schema validates
   * the trimmed one: a name the validator counts as 3..50 characters, made of
   * a core shorter than 3 UTF-16 code units padded with whitespace, passes
   * validation, is hashed, is refused by `User.create` and ends in 500 with
   * the collection unchanged.
   */
  lemma PaddedShortUsernameFails(env: Env, store: Store, pad1: string, core: string, pad2: string,
                                 password: string, draw: Entropy)
    requires AllWhitespace(pad1) && AllWhitespace(pad2) && Trimmed(core)
    requires Utf16Length(core) < MinUsernameLength && core !in store.users
    requires MinUsernameLength <= ValidatorLength(pad1 + core + pad2) <= MaxUsernameLength
    requires MinPasswordLength <= ValidatorLength(password) <= MaxPasswordLength
    ensures var out := Register(env, store, BodyRequest(pad1 + core + pad2, password), draw);
            && out.response == InternalError && out.store == store
            && HashPassword(password) in out.trace
  {
    TrimUnique(pad1 + core + pad2, pad1, core, pad2);
  }

  /**
   * Registering `"  ab  "` with password `"secret1"` in an empty collection
   * ends in 500. The two strings are bound through the precondition rather
   * than written into the call: with constants in the call the verifier
   * evaluates `Register` and its string functions character by character,
   * which costs far more than going through their contracts.
   */
  lemma PaddedShortUsernameExample(env: Env, draw: Entropy, name: string, password: string)
    requires name == "  ab  " && password == "secret1"
    ensures Register(env, Store(map[]), BodyRequest(name, password), draw).response == InternalError
  {
    var core := "ab";
    assert name == "  " + core + "  ";
    assert forall i :: 0 <= i < |core| ==> !IsAstral(core[i]);
    assert forall i :: 0 <= i < |name| ==> !IsPresentationSelector(name[i]);
    assert forall i :: 0 <= i < |password| ==> !IsPresentationSelector(password[i]);
    PaddedShortUsernameFails(env, Store(map[]), "  ", core, "  ", password, draw);
  }

  /**
   * Conversely, a padded name whose core the schema measures as 3..50 UTF-16
   * code units registers, whatever the validator counted for the padded name,
   * so long as that count was within 3..50.
   */
  lemma PaddedUsernameRegisters(env: Env, store: Store, pad1: string, core: string, pad2: string,
                                password: string, draw: Entropy)
    requires AcceptedParts(env, store, pad1, core, pad2, password, draw)
    ensures var out := Register(env, store, BodyRequest(pad1 + core + pad2, password), draw);
            out.response.status == 201 && core in out.store.users
  {
    AcceptedPartsExactly(env, store, pad1, core, pad2, password, draw);
  }

  /**
   * The two measures differ on astral characters: `" \U{1F600}\U{1F600} "`
   * is 4 characters to the validator and its trim is 4 UTF-16 code units to
   * the schema, so it registers although it holds only two characters.
   * The strings are bound through the precondition for the reason given at
   * `PaddedShortUsernameExample`.
   */
  lemma AstralUsernameRegisters(env: Env, draw: Entropy, name: string, password: string)
    requires name == " \U{1F600}\U{1F600} " && password == "secret1"
    requires env.hasher.hash(password, draw.salt) != ""
    ensures Register(env, Store(map[]), BodyRequest(name, password), draw).response.status == 201
  {
    var core := "\U{1F600}\U{1F600}";
    assert name == " " + core + " ";
    assert forall i :: 0 <= i < |core| ==> IsAstral(core[i]);
    assert forall i :: 0 <= i < |name| ==> !IsPresentationSelector(name[i]);
    assert forall i :: 0 <= i < |password| ==> !IsPresentationSelector(password[i]);
    PaddedUsernameRegisters(env, Store(map[]), " ", core, " ", password, draw);
  }

  /**
   * Login does not reveal whether a username exists: an unknown username and
   * a known one with a wrong password get the identical response.
   */
  lemma LoginFailuresIndistinguishable(env: Env, s1: Store, s2: Store, req: Request)
    requires LoginInputValid(req)
    requires Trim(req.username.value) !in s1.users
    requires Trim(req.username.value) in s2.users
    requires !env.hasher.compare(req.password.value, s2.users[Trim(req.username.value)].passwordHash)
    ensures Login(env, s1, req).response == Login(env, s2, req).response == InvalidCredentials
  {
  }

  /**
   * Logout does not revoke: it clears the cookie, but a bearer copy of a
   * session token still makes `/auth/me` answer with the session's identity
   * after it (until the token expires, which `verify` alone decides).
   */
  lemma LogoutDoesNotRevoke(env: Env, store: Store, status: nat, rec: UserRecord, draw: Entropy)
    requires SignsVerifiably(env.tokens)
    ensures var token := SessionResponse(env, status, rec).cookie.value;
            var bearer := Request(Credentials(Some(BearerPrefix + token), None), NotString, NotString);
            var logout := Handle(env, LogoutRoute, store, bearer, draw);
            && logout.response.cookie.ClearCookie?
            && Handle(env, MeRoute, logout.store, bearer, draw).response
               == Response(200, PublicIdentity(rec), NoCookie)
  {
    SessionRecognisedByMe(env, status, rec, store, None);
  }

  /**
   * In a well-formed collection an issued `sub` claim names one document:
   * two stored users whose ids render alike are the same user.
   */
  lemma SubjectIdentifiesUser(store: Store, n1: string, n2: string)
    requires WellFormed(store) && n1 in store.users && n2 in store.users
    requires IssuedClaims(store.users[n1]).sub == IssuedClaims(store.users[n2]).sub
    ensures n1 == n2
  {
    IdStringInjective(store.users[n1].id, store.users[n2].id);
  }
}
