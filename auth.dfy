/**
 * The request identity resolver of `src/auth.rs`: the `SessionUser` extractor
 * that turns a request's cookie jar into the id of the logged-in user or a
 * rejection, and `session_cookie`, the jar that carries a session secret.
 */
module Auth {
  import opened Wrappers
  import Sqlx
  import Base64Url
  import Users

  /** `COOKIE_NAME`. */
  const CookieName: string := "pss_session"

  const InternalServerError: nat := 500
  const Unauthorized: nat := 401

  datatype Cookie = Cookie(name: string, value: string, httpOnly: bool)

  /** A cookie jar: the cookies of a request, by name. */
  type CookieJar = map<string, Cookie>

  /** The authenticated identity handed to a handler: a user id, never the secret. */
  datatype SessionUser = SessionUser(id: Users.UserId)

  /** `(StatusCode, &'static str)`, the extractor's rejection. */
  datatype Rejection = Rejection(status: nat, message: string)

  /** The session lookup against the `sessions` table, with the driver failing or not. */
  function LookupIn(sessions: map<string, Users.Session>, fault: Option<Sqlx.Error>): string -> Result<Option<Users.UserId>, Sqlx.Error> {
    secret => Users.GetSessionUser(sessions, secret, fault)
  }

  /**
   * `SessionUser::from_request_parts`. `jar` is the cookie-jar extraction
   * (its error is the extractor's message) and `lookup` is `get_session_user`
   * on the request's database.
   */
  function FromRequestParts(jar: Result<CookieJar, string>,
                            lookup: string -> Result<Option<Users.UserId>, Sqlx.Error>): (r: Result<SessionUser, Rejection>)
    ensures jar.Err? ==> r == Err(Rejection(InternalServerError, "Cookies error"))
    ensures jar.Ok? && CookieName !in jar.value ==> r == Err(Rejection(Unauthorized, "Not authenticated"))
    ensures jar.Ok? && CookieName in jar.value && lookup(jar.value[CookieName].value).Err? ==>
      r == Err(Rejection(InternalServerError, "Session lookup error"))
    ensures jar.Ok? && CookieName in jar.value && lookup(jar.value[CookieName].value) == Ok(None) ==>
      r == Err(Rejection(Unauthorized, "Invalid session"))
    ensures r.Ok? ==> jar.Ok? && CookieName in jar.value && lookup(jar.value[CookieName].value) == Ok(Some(r.value.id))
    ensures (jar.Ok? && CookieName in jar.value && lookup(jar.value[CookieName].value).Ok? &&
             lookup(jar.value[CookieName].value).value.Some?) ==> r.Ok?
  {
    match jar
    case Err(_) => Err(Rejection(InternalServerError, "Cookies error"))
    case Ok(cookies) =>
      if CookieName in cookies then
        match lookup(cookies[CookieName].value)
        case Err(_) => Err(Rejection(InternalServerError, "Session lookup error"))
        case Ok(Some(userId)) => Ok(SessionUser(userId))
        case Ok(None) => Err(Rejection(Unauthorized, "Invalid session"))
      else
        Err(Rejection(Unauthorized, "Not authenticated"))
  }

  /**
   * The extractor run against the store: it looks the session up and changes
   * nothing (no `modifies`), so both tables, `last_used_at` included, stay as
   * they were.
   */
  method SessionUserFromRequest(store: Users.UserStore, jar: Result<CookieJar, string>,
                                fault: Option<Sqlx.Error>) returns (r: Result<SessionUser, Rejection>)
    ensures r == FromRequestParts(jar, LookupIn(store.sessions, fault))
    ensures r.Ok? ==> (jar.Ok? && CookieName in jar.value && jar.value[CookieName].value in store.sessions &&
      store.sessions[jar.value[CookieName].value].userId == r.value.id)
  {
    match jar {
      case Err(_) =>
        r := Err(Rejection(InternalServerError, "Cookies error"));
      case Ok(cookies) =>
        if CookieName in cookies {
          var found := Users.GetSessionUser(store.sessions, cookies[CookieName].value, fault);
          match found {
            case Err(_) => r := Err(Rejection(InternalServerError, "Session lookup error"));
            case Ok(Some(userId)) => r := Ok(SessionUser(userId));
            case Ok(None) => r := Err(Rejection(Unauthorized, "Invalid session"));
          }
        } else {
          r := Err(Rejection(Unauthorized, "Not authenticated"));
        }
    }
  }

  /** `session_cookie`: a jar with the one http-only cookie `pss_session=<secret>`. */
  function SessionCookie(secret: string): (jar: CookieJar)
    ensures jar.Keys == {CookieName}
    ensures jar[CookieName] == Cookie(CookieName, secret, true)
  {
    map[CookieName := Cookie(CookieName, secret, true)]
  }

  /** A request carrying `session_cookie(s)` is resolved by looking up exactly `s`. */
  lemma SessionCookieLooksUpSecret(secret: string, lookup: string -> Result<Option<Users.UserId>, Sqlx.Error>)
    ensures FromRequestParts(Ok(SessionCookie(secret)), lookup) ==
      match lookup(secret)
      case Ok(Some(id)) => Ok(SessionUser(id))
      case Ok(None) => Err(Rejection(Unauthorized, "Invalid session"))
      case Err(_) => Err(Rejection(InternalServerError, "Session lookup error"))
  {
  }

  /** After a session is inserted under `s`, a request carrying `session_cookie(s)` is that session's user. */
  lemma CreatedSessionResolves(sessions: map<string, Users.Session>, secret: string, session: Users.Session)
    ensures FromRequestParts(Ok(SessionCookie(secret)), LookupIn(sessions[secret := session], None)) ==
      Ok(SessionUser(session.userId))
  {
    SessionCookieLooksUpSecret(secret, LookupIn(sessions[secret := session], None));
  }

  /** A secret that was never issued is rejected as an invalid session. */
  lemma UnknownSecretRejected(sessions: map<string, Users.Session>, secret: string)
    requires secret !in sessions
    ensures FromRequestParts(Ok(SessionCookie(secret)), LookupIn(sessions, None)) ==
      Err(Rejection(Unauthorized, "Invalid session"))
  {
    SessionCookieLooksUpSecret(secret, LookupIn(sessions, None));
  }

  /**
   * The store, authentication and resolver together: add `alice` with password
   * `s3cret`, authenticate with the right and a wrong password, create a session
   * for her and resolve a request that carries its cookie.
   */
  method AliceScenario(argon: Users.Argon2, salt: string, now: Users.Timestamp, entropy: seq<Base64Url.byte>)
    returns (id: Users.UserId, right: Result<Option<Users.UserId>, Sqlx.Error>,
             wrong: Result<Option<Users.UserId>, Sqlx.Error>, resolved: Result<SessionUser, Rejection>)
    requires |entropy| == Users.SecretBytes
    requires argon.hash("s3cret", salt).Ok?
    requires var h := argon.hash("s3cret", salt).value;
      argon.parses(h) && argon.verify(h, "s3cret") == Users.Verified && argon.verify(h, "wrong") == Users.PasswordMismatch
    ensures right == Ok(Some(id)) && wrong == Ok(None)
    ensures resolved == Ok(SessionUser(id))
  {
    var store := new Users.UserStore();
    var added := store.AddUser(argon, "alice", "s3cret", salt, now, None);
    id := added.value;
    assert store.users == map[id := Users.User("alice", Some(argon.hash("s3cret", salt).value), now, now)];
    right := Users.AuthenticateUserByPassword(argon, store.users, "alice", "s3cret", None);
    wrong := Users.AuthenticateUserByPassword(argon, store.users, "alice", "wrong", None);
    var created := store.CreateSession(id, "test-agent", now, entropy, None);
    resolved := SessionUserFromRequest(store, Ok(SessionCookie(created.value)), None);
  }
}
