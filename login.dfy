/**
 * The login form handler of `src/controller/auth.rs`: authenticate the
 * submitted name and password, and on success create a session and answer
 * with a `Set-Cookie` header and a redirect to `/`.
 */
module LoginController {
  import opened Wrappers
  import Sqlx
  import Base64Url
  import Users
  import Auth

  /**
   * The handler's responses: the redirect with its `Set-Cookie` header value,
   * the login page rendered from `login.hbs` with the context
   * `{"username": ...}`, or the plain-text 500 of `into_500`.
   */
  datatype Response =
    | TemporaryRedirect(location: string, setCookie: string)
    | LoginPage(username: string)
    | ServerError(body: string)

  function Status(r: Response): nat {
    match r
    case TemporaryRedirect(_, _) => 307
    case LoginPage(_) => 200
    case ServerError(_) => 500
  }

  /** The body `into_500` gives an error whose text is `message`. */
  function InternalServerErrorBody(message: string): string {
    "Internal server error: " + message
  }

  /** The `Set-Cookie` value the handler emits for a new session. */
  function SessionHeader(secret: string): (h: string)
    ensures |h| == |secret| + 18
  {
    "session=" + secret + "; httponly"
  }

  /** The prefix of `s` before the first `c` (all of `s` when there is none). */
  function TakeUntil(s: string, c: char): (p: string)
    ensures |p| <= |s| && p == s[..|p|] && c !in p
    ensures |p| < |s| ==> s[|p|] == c
  {
    if s == [] || s[0] == c then [] else [s[0]] + TakeUntil(s[1..], c)
  }

  /**
   * How a browser reads a `Set-Cookie` value of the form
   * `name=value[; httponly]` (section 5.2 of RFC 6265, for this shape only):
   * None when the name-value pair has no `=`.
   */
  function ParseSetCookie(h: string): Option<Auth.Cookie> {
    var pair := TakeUntil(h, ';');
    var name := TakeUntil(pair, '=');
    if |name| == |pair| then None
    else Some(Auth.Cookie(name, pair[|name| + 1..], h[|pair|..] == "; httponly"))
  }

  /** The header round-trips: a browser stores an http-only cookie `session` holding the secret. */
  lemma SessionHeaderParses(secret: string)
    requires ';' !in secret && '=' !in secret
    ensures ParseSetCookie(SessionHeader(secret)) == Some(Auth.Cookie("session", secret, true))
  {
    var h := SessionHeader(secret);
    var tail := "=" + secret + "; httponly";
    assert h == "session" + tail;
    TakeUntilStops("session", tail, '=');
    TakeUntilStops("session=" + secret, "; httponly", ';');
    assert h == ("session=" + secret) + "; httponly";
    var pair := "session=" + secret;
    assert pair == "session" + ("=" + secret);
    TakeUntilStops("session", "=" + secret, '=');
  }

  lemma {:induction false} TakeUntilStops(p: string, rest: string, c: char)
    requires c !in p && |rest| > 0 && rest[0] == c
    ensures TakeUntil(p + rest, c) == p
  {
    if p != [] {
      assert (p + rest)[1..] == p[1..] + rest;
      TakeUntilStops(p[1..], rest, c);
    }
  }

  /** Session secrets contain neither `;` nor `=`, so the header parses as above. */
  lemma SecretHasNoDelimiters(entropy: seq<Base64Url.byte>)
    requires |entropy| == Users.SecretBytes
    ensures ';' !in Users.NewSessionSecret(entropy) && '=' !in Users.NewSessionSecret(entropy)
  {
  }

  /**
   * The cookie set at login is named `session`, but the resolver reads
   * `pss_session`: a browser that sends back only that cookie is rejected as
   * not authenticated, whatever the sessions table holds.
   */
  lemma LoginCookieIsNotTheSessionCookie(entropy: seq<Base64Url.byte>, lookup: string -> Result<Option<Users.UserId>, Sqlx.Error>)
    requires |entropy| == Users.SecretBytes
    ensures var secret := Users.NewSessionSecret(entropy);
      var c := Auth.Cookie("session", secret, true);
      && ParseSetCookie(SessionHeader(secret)) == Some(c)
      && Auth.FromRequestParts(Ok(map[c.name := c]), lookup) == Err(Auth.Rejection(Auth.Unauthorized, "Not authenticated"))
  {
    var secret := Users.NewSessionSecret(entropy);
    SecretHasNoDelimiters(entropy);
    SessionHeaderParses(secret);
    assert "session" != Auth.CookieName by {
      assert |"session"| != |Auth.CookieName|;
    }
  }

  /**
   * `login_submit`. The store changes only on a successful login, by the one
   * new session of the authenticated user; every error becomes a 500 whose
   * body is the error's text, and a failed login re-renders the page with the
   * submitted name and not the password.
   */
  method LoginSubmit(store: Users.UserStore, argon: Users.Argon2, username: string, password: string,
                     userAgent: string, now: Users.Timestamp, entropy: seq<Base64Url.byte>,
                     selectFault: Option<Sqlx.Error>, insertFault: Option<Sqlx.Error>,
                     renderFault: Option<string>) returns (resp: Response)
    requires store.Valid()
    requires |entropy| == Users.SecretBytes
    requires Users.AuthenticationCompletes(argon, store.users, username, password)
    modifies store
    ensures store.Valid()
    ensures store.users == old(store.users) && store.nextUserId == old(store.nextUserId)
    ensures resp.TemporaryRedirect? <==> store.sessions != old(store.sessions)
    ensures var auth := Users.AuthenticateUserByPassword(argon, old(store.users), username, password, selectFault);
      && (auth.Err? ==> resp == ServerError(InternalServerErrorBody(auth.error.message)))
      && (auth == Ok(None) && renderFault.None? ==> resp == LoginPage(username))
      && (auth == Ok(None) && renderFault.Some? ==> resp == ServerError(InternalServerErrorBody(renderFault.value)))
      && (auth.Ok? && auth.value.Some? ==>
            var secret := Users.NewSessionSecret(entropy);
            var failure := Users.SessionInsertError(old(store.sessions), secret, insertFault);
            && (failure.Some? ==> resp == ServerError(InternalServerErrorBody(failure.value.message)))
            && (failure.None? ==>
                  && resp == TemporaryRedirect("/", SessionHeader(secret))
                  && store.sessions == old(store.sessions)[secret := Users.Session(auth.value.value, userAgent, now, now)]))
    ensures resp.TemporaryRedirect? ==> Users.GetSessionUser(store.sessions, Users.NewSessionSecret(entropy), None).Ok?
  {
    var auth := Users.AuthenticateUserByPassword(argon, store.users, username, password, selectFault);
    if auth.Err? {
      return ServerError(InternalServerErrorBody(auth.error.message));
    }
    match auth.value {
      case Some(userId) =>
        var created := store.CreateSession(userId, userAgent, now, entropy, insertFault);
        if created.Err? {
          return ServerError(InternalServerErrorBody(created.error.message));
        }
        resp := TemporaryRedirect("/", SessionHeader(created.value));
      case None =>
        if renderFault.Some? {
          return ServerError(InternalServerErrorBody(renderFault.value));
        }
        resp := LoginPage(username);
    }
  }
}
