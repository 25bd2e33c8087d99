/**
 * The `User` schema and the collection that holds user documents.
 * The collection is a map from username to document: the unique index on
 * `username` is the map's key discipline, and `WellFormed` is the invariant
 * every reachable collection keeps.
 */
module UserModel {
  import opened Wrappers
  import opened JsString
  import opened ObjectIds

  const MinUsernameLength := 3
  const MaxUsernameLength := 50

  /** A stored user document (the automatic timestamps are not modelled). */
  datatype UserRecord = UserRecord(id: ObjectId, username: string, email: Option<string>,
                                   passwordHash: string)

  /** The fields handed to `User.create`, before the schema's setters run. */
  datatype UserDraft = UserDraft(username: string, email: Option<string>, passwordHash: string)

  /** Why `User.create` rejects: schema validation, or the unique index on `username` or `_id`. */
  datatype CreateError = SchemaRejected | DuplicateKey

  datatype Store = Store(users: map<string, UserRecord>)

  /**
   * `r` is the part of `e` at offset `k`, with every character lower-cased,
   * and only whitespace stands before and after that part in `e`.
   */
  predicate LowerCasedInfix(e: string, k: int, r: string) {
    && 0 <= k <= |e| - |r|
    && AllWhitespace(e[..k]) && AllWhitespace(e[k + |r|..])
    && forall i :: 0 <= i < |r| ==> r[i] == LowerChar(e[k + i])
  }

  /**
   * The `email` path's setters: trimmed, then lower-cased. The result is the
   * input with a whitespace prefix and suffix removed and every remaining
   * character lower-cased.
   */
  function NormalizeEmail(e: string): (r: string)
    ensures Trimmed(r) && IsLower(r)
    ensures exists k :: LowerCasedInfix(e, k, r)
    ensures Trimmed(e) && IsLower(e) ==> r == e
  {
    LoweredTrim(e);
    ToLower(Trim(e))
  }

  /** Lower-casing the trim of `e` lower-cases a whitespace-bounded infix of `e`. */
  lemma LoweredTrim(e: string)
    ensures exists k :: LowerCasedInfix(e, k, ToLower(Trim(e)))
  {
    var t := Trim(e);
    var k :| SurroundedByWhitespace(e, k, t);
    LoweredInfix(e, k, t, ToLower(t));
  }

  lemma LoweredInfix(e: string, k: int, t: string, r: string)
    requires SurroundedByWhitespace(e, k, t) && r == ToLower(t)
    ensures LowerCasedInfix(e, k, r)
  {
    forall i | 0 <= i < |r|
      ensures r[i] == LowerChar(e[k + i])
    {
      assert e[k + i] == e[k..k + |t|][i] == t[i];
    }
  }

  /**
   * Casting a draft applies the setters: the username is trimmed, a present
   * email is normalised, an absent one stays absent, and the password hash
   * passes through untouched.
   */
  function Cast(d: UserDraft): (doc: UserDraft)
    ensures doc.username == Trim(d.username) && doc.passwordHash == d.passwordHash
    ensures doc.email.Some? <==> d.email.Some?
    ensures d.email.Some? ==> doc.email == Some(NormalizeEmail(d.email.value))
    ensures doc.email.Some? ==> Trimmed(doc.email.value) && IsLower(doc.email.value)
  {
    UserDraft(Trim(d.username),
              if d.email.Some? then Some(NormalizeEmail(d.email.value)) else None,
              d.passwordHash)
  }

  /**
   * The schema's validators, run on a cast document: `required`, and
   * `minlength`/`maxlength` on the username's UTF-16 length.
   */
  predicate SchemaAccepts(doc: UserDraft) {
    && MinUsernameLength <= Utf16Length(doc.username) <= MaxUsernameLength
    && doc.passwordHash != ""
  }

  /** The field constraints every stored document satisfies. */
  predicate RecordValid(r: UserRecord) {
    && Trimmed(r.username)
    && MinUsernameLength <= Utf16Length(r.username) <= MaxUsernameLength
    && r.passwordHash != ""
    && (r.email.Some? ==> Trimmed(r.email.value) && IsLower(r.email.value))
  }

  /**
   * The collection invariant: each document is filed under its own username
   * and satisfies the schema, and no two documents share an `_id`.
   */
  predicate WellFormed(s: Store) {
    && (forall name :: name in s.users ==> s.users[name].username == name && RecordValid(s.users[name]))
    && (forall n1, n2 :: n1 in s.users && n2 in s.users && n1 != n2 ==> s.users[n1].id != s.users[n2].id)
  }

  predicate IdInUse(s: Store, id: ObjectId) {
    exists name :: name in s.users && s.users[name].id == id
  }

  /**
   * `User.findOne({ username })`: in a well-formed collection it finds a
   * document exactly when one carries that username, and then it is that one.
   */
  function FindByUsername(s: Store, name: string): (r: Option<UserRecord>)
    ensures r.Some? ==> r.value in s.users.Values
    ensures WellFormed(s) ==>
              (r.Some? <==> exists n :: n in s.users && s.users[n].username == name)
    ensures WellFormed(s) && r.Some? ==> r.value.username == name
  {
    if name in s.users then Some(s.users[name]) else None
  }

  /**
   * `User.create(draft)` with the driver-assigned `_id`. It succeeds exactly
   * when the cast document passes the schema and neither its username nor its
   * `_id` is taken; a success adds exactly one document and keeps every other
   * one, and keeps the collection well-formed.
   */
  function Create(s: Store, d: UserDraft, id: ObjectId): (r: Result<(Store, UserRecord), CreateError>)
    ensures r.Ok? <==> SchemaAccepts(Cast(d)) && Trim(d.username) !in s.users && !IdInUse(s, id)
    ensures r.Err? ==> (r.error == SchemaRejected <==> !SchemaAccepts(Cast(d)))
    ensures r.Ok? ==>
              var (s', rec) := r.value;
              && rec.id == id && rec.username == Trim(d.username)
              && rec.passwordHash == d.passwordHash && rec.email == Cast(d).email
              && RecordValid(rec)
              && rec.username !in s.users
              && s'.users.Keys == s.users.Keys + {rec.username}
              && s'.users[rec.username] == rec
              && (forall n :: n in s.users ==> s'.users[n] == s.users[n])
    ensures r.Ok? && WellFormed(s) ==> WellFormed(r.value.0)
  {
    var doc := Cast(d);
    if !SchemaAccepts(doc) then Err(SchemaRejected)
    else if doc.username in s.users || IdInUse(s, id) then Err(DuplicateKey)
    else
      var rec := UserRecord(id, doc.username, doc.email, doc.passwordHash);
      var s' := Store(s.users[doc.username := rec]);
      AcceptedIsValid(d, rec);
      AddKeepsWellFormed(s, rec);
      AddKeepsOthers(s, rec);
      Ok((s', rec))
  }

  /** A document the schema accepts, stored as cast, satisfies the record constraints. */
  lemma AcceptedIsValid(d: UserDraft, rec: UserRecord)
    requires SchemaAccepts(Cast(d))
    requires rec.username == Cast(d).username && rec.email == Cast(d).email
    requires rec.passwordHash == Cast(d).passwordHash
    ensures RecordValid(rec)
  {
  }

  /** Filing a document under a fresh username adds that one key and keeps every other entry. */
  lemma AddKeepsOthers(s: Store, rec: UserRecord)
    requires rec.username !in s.users
    ensures var s' := Store(s.users[rec.username := rec]);
            && s'.users.Keys == s.users.Keys + {rec.username}
            && s'.users[rec.username] == rec
            && (forall n :: n in s.users ==> s'.users[n] == s.users[n])
  {
  }

  /** Filing a valid document under a fresh username with a fresh `_id` keeps the invariant. */
  lemma AddKeepsWellFormed(s: Store, rec: UserRecord)
    requires rec.username !in s.users && !IdInUse(s, rec.id) && RecordValid(rec)
    ensures WellFormed(s) ==> WellFormed(Store(s.users[rec.username := rec]))
  {
    var users := s.users[rec.username := rec];
    if WellFormed(s) {
      forall n1, n2 | n1 in users && n2 in users && n1 != n2
        ensures users[n1].id != users[n2].id
      {
        if n1 == rec.username {
          assert users[n2] == s.users[n2];
        } else if n2 == rec.username {
          assert users[n1] == s.users[n1];
        }
      }
    }
  }

  /** The schema's setters are idempotent: casting a cast document changes nothing. */
  lemma CastIdempotent(d: UserDraft)
    ensures Cast(Cast(d)) == Cast(d)
  {
  }
}
