/**
 * The user and session store of `src/users.rs`: the `users` and `sessions`
 * tables, password checking against a stored Argon2 hash, and the session
 * secret.
 *
 * The database is the two tables as maps held by a `UserStore` object. Every
 * SQL statement may fail in the driver; each operation takes that failure as a
 * parameter (`fault`). Argon2 itself, its random salt, the random bytes of a
 * session secret and the clock are parameters too.
 */
module Users {
  import opened Wrappers
  import Sqlx
  import Base64Url

  /** A `users.id` rowid. */
  type UserId = int
  /** An `OffsetDateTime` as the database stores it. */
  type Timestamp = int

  /** A row of `users`; `password` is the PHC string of the Argon2 hash, or NULL. */
  datatype User = User(name: string, password: Option<string>, createdAt: Timestamp, updatedAt: Timestamp)

  /** A row of `sessions`, keyed by its secret. */
  datatype Session = Session(userId: UserId, createdUserAgent: string, createdAt: Timestamp, lastUsedAt: Timestamp)

  /** `UsersError`: a hashing failure, a failed SQL statement, or an update that matched no row. */
  datatype UsersError =
    | PasswordError(message: string)
    | SqlError(error: Sqlx.Error)
    | NoSuchUser(id: UserId)

  /** What `PasswordHash::verify_password` reports for a parsed hash and a password. */
  datatype Verification = Verified | PasswordMismatch | VerifierFailure(message: string)

  /**
   * The Argon2 library with its default parameters, as three functions:
   * `parses(h)` is whether `PasswordHash::new(h)` accepts the PHC string `h`,
   * `verify(h, pw)` is what verifying `pw` against the parsed `h` reports, and
   * `hash(pw, salt)` is the serialised PHC string of `pw` under `salt`, or the
   * library's error.
   */
  datatype Argon2 = Argon2(
    parses: string -> bool,
    verify: (string, string) -> Verification,
    hash: (string, string) -> Result<string, string>)

  /** Number of random bytes in a session secret. */
  const SecretBytes: nat := 12

  /** The driver error a duplicate `sessions.secret` produces. */
  const DuplicateSecret: Sqlx.Error := Sqlx.Error("UNIQUE constraint failed: sessions.secret")
  /** The driver error a duplicate `users.name` produces. */
  const DuplicateName: Sqlx.Error := Sqlx.Error("UNIQUE constraint failed: users.name")

  /** The `users.name` uniqueness the database enforces. */
  ghost predicate NamesUnique(users: map<UserId, User>) {
    forall a, b :: a in users && b in users && users[a].name == users[b].name ==> a == b
  }

  /** Checking `password` against `hash` does not reach the library's "should not happen" panic. */
  ghost predicate CheckCompletes(argon: Argon2, hash: string, password: string) {
    argon.parses(hash) ==> !argon.verify(hash, password).VerifierFailure?
  }

  /** `check_password_hash`: a malformed hash and a mismatch are both `false`. */
  function CheckPasswordHash(argon: Argon2, hash: string, password: string): (ok: bool)
    requires CheckCompletes(argon, hash, password)
    ensures !argon.parses(hash) ==> !ok
    ensures argon.parses(hash) && argon.verify(hash, password) == PasswordMismatch ==> !ok
    ensures ok <==> argon.parses(hash) && argon.verify(hash, password) == Verified
  {
    if argon.parses(hash) then
      match argon.verify(hash, password)
      case Verified => true
      case PasswordMismatch => false
    else
      false
  }

  /** The row `select ... from users where name = ?` finds. */
  function FindUserByName(users: map<UserId, User>, name: string): (r: Option<UserId>)
    requires NamesUnique(users)
    ensures r.Some? ==> r.value in users && users[r.value].name == name
    ensures r.None? ==> forall id :: id in users ==> users[id].name != name
  {
    if exists id :: id in users && users[id].name == name then
      var id :| id in users && users[id].name == name; Some(id)
    else
      None
  }

  /** `user_by_name`. */
  function UserByName(users: map<UserId, User>, name: string, fault: Option<Sqlx.Error>): (r: Result<Option<UserId>, UsersError>)
    requires NamesUnique(users)
    ensures fault.Some? ==> r == Err(SqlError(fault.value))
    ensures fault.None? ==> r.Ok?
    ensures r.Ok? && r.value.Some? ==> r.value.value in users && users[r.value.value].name == name
    ensures r.Ok? && r.value.None? ==> forall id :: id in users ==> users[id].name != name
  {
    if fault.Some? then Err(SqlError(fault.value)) else Ok(FindUserByName(users, name))
  }

  /** The stored hash of `u` exists and verifies `password`. */
  predicate Accepts(argon: Argon2, u: User, password: string) {
    u.password.Some? && argon.parses(u.password.value) && argon.verify(u.password.value, password) == Verified
  }

  /** No password check of a user named `username` reaches the panic. */
  ghost predicate AuthenticationCompletes(argon: Argon2, users: map<UserId, User>, username: string, password: string) {
    forall id :: id in users && users[id].name == username && users[id].password.Some? ==>
      CheckCompletes(argon, users[id].password.value, password)
  }

  /**
   * `authenticate_user_by_password`: the id of the user named `username` when
   * that user has a password hash that verifies `password`; None for an unknown
   * name, a NULL password and a failed check alike.
   */
  function AuthenticateUserByPassword(argon: Argon2, users: map<UserId, User>, username: string, password: string,
                                      fault: Option<Sqlx.Error>): (r: Result<Option<UserId>, Sqlx.Error>)
    requires NamesUnique(users)
    requires AuthenticationCompletes(argon, users, username, password)
    ensures fault.Some? ==> r == Err(fault.value)
    ensures fault.None? ==> r.Ok?
    ensures r.Ok? && r.value.Some? ==>
      r.value.value in users && users[r.value.value].name == username && Accepts(argon, users[r.value.value], password)
    ensures forall id :: fault.None? && id in users && users[id].name == username && Accepts(argon, users[id], password) ==>
      r == Ok(Some(id))
  {
    if fault.Some? then Err(fault.value)
    else
      match FindUserByName(users, username)
      case None => Ok(None)
      case Some(id) =>
        match users[id].password
        case Some(hash) => if CheckPasswordHash(argon, hash, password) then Ok(Some(id)) else Ok(None)
        case None => Ok(None)
  }

  /** `new_session_secret`: the URL-safe base64 text of 12 random bytes. */
  function NewSessionSecret(entropy: seq<Base64Url.byte>): (secret: string)
    requires |entropy| == SecretBytes
    ensures |secret| == 16
    ensures forall i :: 0 <= i < |secret| ==> Base64Url.IsUrlSafeChar(secret[i])
    ensures Base64Url.Decode(secret) == Some(entropy)
  {
    Base64Url.EncodeAlphabet(entropy);
    Base64Url.DecodeEncode(entropy);
    Base64Url.Encode(entropy)
  }

  /** `get_session_user`. */
  function GetSessionUser(sessions: map<string, Session>, secret: string, fault: Option<Sqlx.Error>): (r: Result<Option<UserId>, Sqlx.Error>)
    ensures fault.Some? ==> r == Err(fault.value)
    ensures fault.None? ==> r.Ok? && (r.value.Some? <==> secret in sessions)
    ensures r.Ok? && r.value.Some? ==> r.value.value == sessions[secret].userId
  {
    if fault.Some? then Err(fault.value)
    else if secret in sessions then Ok(Some(sessions[secret].userId))
    else Ok(None)
  }

  /** Why inserting a session row under `secret` fails, if it does. */
  function SessionInsertError(sessions: map<string, Session>, secret: string, fault: Option<Sqlx.Error>): Option<Sqlx.Error> {
    if fault.Some? then fault
    else if secret in sessions then Some(DuplicateSecret)
    else None
  }

  /** The database: the `users` and `sessions` tables. */
  class UserStore {
    var users: map<UserId, User>
    var sessions: map<string, Session>
    /** The rowid the next inserted user receives. */
    var nextUserId: UserId

    ghost predicate Valid()
      reads this
    {
      NamesUnique(users) && 1 <= nextUserId && forall id :: id in users ==> 1 <= id < nextUserId
    }

    constructor ()
      ensures Valid()
      ensures users == map[] && sessions == map[]
    {
      users, sessions, nextUserId := map[], map[], 1;
    }

    /** `add_user`: hashes the password, then inserts a row stamped with `now`. */
    method AddUser(argon: Argon2, username: string, password: string, salt: string, now: Timestamp,
                   fault: Option<Sqlx.Error>) returns (r: Result<UserId, UsersError>)
      requires Valid()
      modifies this
      ensures Valid()
      ensures sessions == old(sessions)
      ensures argon.hash(password, salt).Err? ==> r == Err(PasswordError(argon.hash(password, salt).error))
      ensures argon.hash(password, salt).Ok? && fault.Some? ==> r == Err(SqlError(fault.value))
      ensures argon.hash(password, salt).Ok? && fault.None? && FindUserByName(old(users), username).Some? ==>
        r == Err(SqlError(DuplicateName))
      ensures r.Err? ==> users == old(users)
      ensures r.Ok? <==> argon.hash(password, salt).Ok? && fault.None? && FindUserByName(old(users), username).None?
      ensures r.Ok? ==> (r.value !in old(users) &&
        users == old(users)[r.value := User(username, Some(argon.hash(password, salt).value), now, now)])
    {
      var hashed := argon.hash(password, salt);
      if hashed.Err? {
        return Err(PasswordError(hashed.error));
      }
      if fault.Some? {
        return Err(SqlError(fault.value));
      }
      if FindUserByName(users, username).Some? {
        return Err(SqlError(DuplicateName));
      }
      var id := nextUserId;
      users := users[id := User(username, Some(hashed.value), now, now)];
      nextUserId := nextUserId + 1;
      r := Ok(id);
    }

    /** `set_password`: replaces the hash of user `id` and nothing else, not even `updated_at`. */
    method SetPassword(argon: Argon2, id: UserId, password: string, salt: string,
                       fault: Option<Sqlx.Error>) returns (r: Result<Unit, UsersError>)
      requires Valid()
      modifies this
      ensures Valid()
      ensures sessions == old(sessions) && nextUserId == old(nextUserId)
      ensures argon.hash(password, salt).Err? ==> r == Err(PasswordError(argon.hash(password, salt).error))
      ensures argon.hash(password, salt).Ok? && fault.Some? ==> r == Err(SqlError(fault.value))
      ensures argon.hash(password, salt).Ok? && fault.None? && id !in old(users) ==> r == Err(NoSuchUser(id))
      ensures r.Err? ==> users == old(users)
      ensures r.Ok? <==> argon.hash(password, salt).Ok? && fault.None? && id in old(users)
      ensures r.Ok? ==> users == old(users)[id := old(users)[id].(password := Some(argon.hash(password, salt).value))]
    {
      var hashed := argon.hash(password, salt);
      if hashed.Err? {
        return Err(PasswordError(hashed.error));
      }
      if fault.Some? {
        return Err(SqlError(fault.value));
      }
      var rowsAffected := if id in users then 1 else 0;
      if rowsAffected == 1 {
        users := users[id := users[id].(password := Some(hashed.value))];
        r := Ok(Unit);
      } else {
        r := Err(NoSuchUser(id));
      }
    }

    /** `create_session`: inserts a fresh session for `userId`, created and last used at `now`. */
    method CreateSession(userId: UserId, userAgent: string, now: Timestamp, entropy: seq<Base64Url.byte>,
                         fault: Option<Sqlx.Error>) returns (r: Result<string, Sqlx.Error>)
      requires Valid()
      requires |entropy| == SecretBytes
      modifies this
      ensures Valid()
      ensures users == old(users) && nextUserId == old(nextUserId)
      ensures r.Err? ==> (sessions == old(sessions) &&
        Some(r.error) == SessionInsertError(old(sessions), NewSessionSecret(entropy), fault))
      ensures r.Ok? <==> SessionInsertError(old(sessions), NewSessionSecret(entropy), fault).None?
      ensures r.Ok? ==> (r.value == NewSessionSecret(entropy) && r.value !in old(sessions) &&
        sessions == old(sessions)[r.value := Session(userId, userAgent, now, now)])
      ensures r.Ok? ==> GetSessionUser(sessions, r.value, None) == Ok(Some(userId))
    {
      var secret := NewSessionSecret(entropy);
      var failure := SessionInsertError(sessions, secret, fault);
      if failure.Some? {
        return Err(failure.value);
      }
      sessions := sessions[secret := Session(userId, userAgent, now, now)];
      r := Ok(secret);
    }
  }

  /** An unknown name and a NULL password give None whatever Argon2 would say: the hash check is not run. */
  lemma HashCheckSkipped(a1: Argon2, a2: Argon2, users: map<UserId, User>, username: string, password: string)
    requires NamesUnique(users)
    requires forall id :: id in users && users[id].name == username ==> users[id].password.None?
    ensures AuthenticationCompletes(a1, users, username, password) && AuthenticationCompletes(a2, users, username, password)
    ensures AuthenticateUserByPassword(a1, users, username, password, None) == Ok(None)
    ensures AuthenticateUserByPassword(a1, users, username, password, None) ==
            AuthenticateUserByPassword(a2, users, username, password, None)
  {
  }

  /** For a user with a hash, authentication succeeds exactly when Argon2 verifies the password. */
  lemma AuthenticatesIffVerified(argon: Argon2, users: map<UserId, User>, id: UserId, password: string)
    requires NamesUnique(users) && id in users && users[id].password.Some?
    requires AuthenticationCompletes(argon, users, users[id].name, password)
    ensures AuthenticateUserByPassword(argon, users, users[id].name, password, None) ==
      if CheckPasswordHash(argon, users[id].password.value, password) then Ok(Some(id)) else Ok(None)
  {
  }

  /**
   * A password set with `set_password` (or `add_user`) authenticates its user:
   * an attempt succeeds with that id exactly when Argon2 verifies it against
   * the new hash, which, for a sound hasher, includes the password itself.
   */
  lemma AuthenticateAfterSetPassword(argon: Argon2, users: map<UserId, User>, id: UserId, hash: string, attempt: string)
    requires NamesUnique(users) && id in users
    requires CheckCompletes(argon, hash, attempt)
    ensures var after := users[id := users[id].(password := Some(hash))];
      NamesUnique(after) &&
      AuthenticateUserByPassword(argon, after, users[id].name, attempt, None) ==
        if argon.parses(hash) && argon.verify(hash, attempt) == Verified then Ok(Some(id)) else Ok(None)
  {
    var after := users[id := users[id].(password := Some(hash))];
    assert forall k :: k in after ==> after[k].name == users[k].name;
    assert after[id].name == users[id].name;
    assert AuthenticationCompletes(argon, after, users[id].name, attempt);
    AuthenticatesIffVerified(argon, after, id, attempt);
  }

  /** A lookup after an insert finds the inserted session; other secrets are unaffected. */
  lemma LookupAfterInsert(sessions: map<string, Session>, secret: string, s: Session, other: string)
    requires other != secret
    ensures GetSessionUser(sessions[secret := s], secret, None) == Ok(Some(s.userId))
    ensures GetSessionUser(sessions[secret := s], other, None) == GetSessionUser(sessions, other, None)
  {
  }

  /** Sessions made from different random bytes have different secrets. */
  lemma SecretsDistinct(e1: seq<Base64Url.byte>, e2: seq<Base64Url.byte>)
    requires |e1| == SecretBytes && |e2| == SecretBytes && e1 != e2
    ensures NewSessionSecret(e1) != NewSessionSecret(e2)
  {
  }
}
