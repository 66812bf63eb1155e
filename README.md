# pss authentication core, modelled in Dafny

This project models the credential and session core of `pss`, a small
vocabulary manager served over HTTP. The model covers:

- the user and session store of `src/users.rs`: the `users` and `sessions`
  tables, password checking against a stored Argon2 hash, and the session
  secret;
- the `SessionUser` extractor of `src/auth.rs`, which turns a request's cookie
  jar into a user id or a rejection, and `session_cookie`;
- the login form handler `login_submit` of `src/controller/auth.rs`;
- the schema installer `install_schema` of `src/schema.rs`.

Files and modules:

| file | module | models |
|---|---|---|
| `wrappers.dfy` | `Wrappers`, `Sqlx` | `Option`, `Result`, the driver's error value |
| `base64.dfy` | `Base64Url` | the padded URL-safe base64 encoding (section 5 of RFC 4648) used for secrets, with a decoder as its inverse |
| `users.dfy` | `Users` | `src/users.rs` |
| `auth.dfy` | `Auth` | `src/auth.rs` |
| `login.dfy` | `LoginController` | `src/controller/auth.rs` |
| `ruststr.dfy` | `RustStr` | `str::split` and `str::trim` from Rust's standard library |
| `schema.dfy` | `Schema` | `src/schema.rs` |

How the outside world enters the model:

- **Argon2** is a value of type `Users.Argon2`, made of three functions.
  `parses(h)` says whether `PasswordHash::new` accepts the PHC string `h`.
  `verify(h, pw)` is what verifying `pw` against `h` reports.
  `hash(pw, salt)` is the hash of `pw` under `salt`, or the library's error.
- Salt, the 12 random bytes of a secret (`entropy`) and the clock (`now`) are
  parameters.
- Each SQL statement takes a `fault: Option<Sqlx.Error>`: `Some(e)` means the
  driver fails that statement with `e`. In the same way, the schema installer
  takes an `Engine` that holds the driver's answers.
- The database is a `Users.UserStore` object with two map fields. `users` maps
  an id to a `User`, and `sessions` maps a secret to a `Session`. A third field,
  `nextUserId`, is the rowid the next insert gets. Users are never deleted, so
  this equals SQLite's "largest rowid plus one".

Behaviour of the code that the model keeps as written:

- The login handler sets a cookie named `session`
  (`src/controller/auth.rs:46`), but the extractor reads `pss_session`
  (`src/auth.rs:14`). `LoginController.LoginCookieIsNotTheSessionCookie`
  proves what follows: a browser that sends back the login cookie is
  rejected as "Not authenticated".
- A 500 from the login handler carries the error's own text as
  `Internal server error: <text>` (`src/controller/utils.rs:12-15`). Driver
  messages therefore reach the client.
- `set_password` changes only the `password` column. `updated_at` is not
  touched (`src/users.rs:128`).
- Neither cookie has a `Secure` or `SameSite` attribute.
- No session expires. The extractor only reads: it does not update
  `last_used_at`.

`schema.sql` is not part of this model. The model assumes two uniqueness
constraints from it: `users.name` is unique, and `sessions.secret` is unique.
Inserting a duplicate of either fails with a driver error, and the table stays
unchanged.

## Model

| member | source | states |
|---|---|---|
| `Users.CheckPasswordHash` | src/users.rs:20-36 | returns false for a hash that does not parse and false for a password mismatch; returns true exactly when the hash parses and verifies the password; the library's other errors (the panic) are excluded by the precondition |
| `Users.FindUserByName` | src/users.rs:50-52 | the id found has that name; None means no user has it |
| `Users.AuthenticateUserByPassword` | src/users.rs:45-68 | a driver error is passed on; `Some(id)` only for the user with that name whose stored hash verifies the password; every such user yields `Some(id)` |
| `Users.HashCheckSkipped` | src/users.rs:50-66 | for an unknown name or a NULL password the result is `Ok(None)` and the same for every Argon2, so no hash check runs |
| `Users.AuthenticatesIffVerified` | src/users.rs:57-62 | for a user with a hash, the result is `Some(id)` when `check_password_hash` is true and None otherwise |
| `Users.AuthenticateAfterSetPassword` | src/users.rs:128-135 | after a hash is stored for a user, authenticating by that user's name gives `Some(id)` exactly when Argon2 verifies the attempt against the new hash |
| `Users.NewSessionSecret` | src/users.rs:70-74 | the secret of 12 bytes is 16 characters, all from `A-Z a-z 0-9 - _` (so no padding), and decodes back to those bytes |
| `Base64Url.Encode` | src/users.rs:73 | an encoding is 4 characters per started 3-byte group |
| `Base64Url.DecodeEncode` | src/users.rs:73 | decoding the encoding gives back the bytes |
| `Base64Url.EncodeAlphabet` | src/users.rs:73 | input made of whole 3-byte groups encodes to URL-safe characters only |
| `Base64Url.EncodeInjective` | src/users.rs:73 | different byte strings encode differently |
| `Users.SecretsDistinct` | src/users.rs:70-74 | different random bytes give different secrets |
| `Users.GetSessionUser` | src/users.rs:88-92 | a driver error is passed on; otherwise `Some` exactly when the secret is a key of `sessions`, carrying that row's user id |
| `Users.LookupAfterInsert` | src/users.rs:83-92 | after inserting a session under a secret, looking that secret up gives the new row's user, and other secrets give what they gave before |
| `Users.UserByName` | src/users.rs:141-147 | a driver error becomes `SqlError`; otherwise the id of the user with that name, or None when there is none |
| `Users.UserStore.AddUser` | src/users.rs:102-122 | a hashing error gives `PasswordError`; a driver error or a taken name gives `SqlError`; on success a fresh id maps to the name, the hash and `created_at == updated_at == now`; on error nothing changes; sessions never change |
| `Users.UserStore.SetPassword` | src/users.rs:124-139 | a hashing error gives `PasswordError`; a driver error gives `SqlError`; an unknown id gives `NoSuchUser(id)`; in each error case `users` is unchanged; on success only that user's hash is replaced |
| `Users.UserStore.CreateSession` | src/users.rs:76-86 | the secret is `NewSessionSecret(entropy)`; the new row holds the user id and user agent, with `created_at == last_used_at == now`; looking the secret up then gives the user; on error (driver failure or duplicate secret) `sessions` is unchanged; `users` never changes |
| `Auth.FromRequestParts` | src/auth.rs:25-55 | a jar extraction error gives `(500, "Cookies error")`; no `pss_session` cookie gives `(401, "Not authenticated")`; a lookup error gives `(500, "Session lookup error")`; a lookup of None gives `(401, "Invalid session")`; `Ok(SessionUser(id))` exactly when the lookup of the cookie's value gives `Some(id)` |
| `Auth.SessionUserFromRequest` | src/auth.rs:33-51 | against the store, the result is `FromRequestParts` with `get_session_user` as the lookup, and a user id returned is the stored row's; the method has no `modifies` clause, so neither table changes |
| `Auth.SessionCookie` | src/auth.rs:58-61 | the jar holds exactly one cookie, named `pss_session`, with the secret as its value and http-only set |
| `Auth.SessionCookieLooksUpSecret` | src/auth.rs:58-61 | a request carrying `session_cookie(s)` is resolved by looking up exactly `s` |
| `Auth.CreatedSessionResolves` | src/auth.rs:40-48 | once a session is stored under `s`, a request with `session_cookie(s)` resolves to that session's user |
| `Auth.UnknownSecretRejected` | src/auth.rs:49-50 | a secret never issued is rejected with `(401, "Invalid session")` |
| `Auth.AliceScenario` | src/users.rs:45-92 | add `alice` with `s3cret`; the right password authenticates her id and `wrong` does not; a session created for her resolves to her id |
| `LoginController.LoginSubmit` | src/controller/auth.rs:28-62 | an authentication error, a session insert error and a render error each become a 500 with body `Internal server error: <text>`; a failed login re-renders the page with only the username; on success exactly one session `(id, user agent, now, now)` is added and the response is a temporary redirect to `/` with `Set-Cookie: session=<secret>; httponly`; the sessions table changes exactly when the response is that redirect; `users` never changes |
| `LoginController.SessionHeaderParses` | src/controller/auth.rs:43-50 | a secret without `;` or `=` gives a header that a browser reads as the http-only cookie `session=<secret>` |
| `LoginController.LoginCookieIsNotTheSessionCookie` | src/controller/auth.rs:46 | the cookie set at login is named `session`, and a request that carries only it is rejected as not authenticated, whatever the lookup would say |
| `RustStr.Split` | src/schema.rs:6 | splitting always gives at least one piece |
| `RustStr.JoinSplit` | src/schema.rs:6 | joining the pieces with `;` gives the script back |
| `RustStr.SplitJoin` | src/schema.rs:6 | splitting a join of `;`-free pieces gives those pieces |
| `RustStr.SplitPiecesLackSeparator` | src/schema.rs:6 | no piece contains `;` |
| `RustStr.TrimStartDropsWhitespace` | src/schema.rs:18 | `trim_start` removes only whitespace and leaves a suffix that does not start with whitespace |
| `RustStr.TrimEndDropsWhitespace` | src/schema.rs:18 | `trim_end` removes only whitespace and leaves a prefix that does not end with whitespace |
| `RustStr.TrimEmptyIffWhitespace` | src/schema.rs:18-19 | `trim` gives the empty string exactly when every character is Unicode whitespace |
| `Schema.NonBlankKeeps` | src/schema.rs:18-19 | a piece is executed exactly when it is non-blank |
| `Schema.CommandsOfSmallScript` | src/schema.rs:17-21 | for `a; ;\nb;` the statements executed are `a` and `\nb`: the blank and the empty pieces are skipped, and the leading newline stays because the untrimmed piece is sent |
| `Schema.RejectionAborts` | src/schema.rs:20 | a statement that fails is the first failure of the whole script |
| `Schema.ExecuteCommands` | src/schema.rs:17-22 | the loop fails with the first failing statement's error, if any; otherwise the transaction holds the non-blank pieces in order and the tables they created |
| `Schema.InstallSchema` | src/schema.rs:5-26 | errors from begin, the count query, a statement or commit are returned, and the database is unchanged; with a table already present the result is `Ok` and nothing runs; otherwise the database gains exactly the non-blank pieces, in order, and the tables they create |
| `Schema.InstallTwice` | src/schema.rs:9-15 | after an install that creates a table, a second install returns `Ok` and changes nothing |

## Left out

- `check_password_hash_in_worker` and the `spawn_blocking` calls: these only move work to another thread, and the `expect` on a failed join is a panic.
- Argon2 itself: hashing, verification, PHC parsing and salt generation are the parameter `Users.Argon2` plus a `salt` argument.
- `Users.CheckPasswordHash`: the panic for verifier errors other than a mismatch (`src/users.rs:28`) is a precondition (`CheckCompletes`), not a modelled outcome.
- `thread_rng().fill_bytes` is the `entropy` parameter. The in-place fill of the 12-byte buffer is not modelled, only the bytes it ends with.
- `OffsetDateTime::now_utc` is the `now` parameter.
- SQL text, sqlx, the connection pool and SQLite: tables are maps and driver failures are parameters. Two pieces of SQLite behaviour are not modelled: foreign keys, and what happens once `i64` rowids run out. Ids are unbounded integers.
- `Users.UserStore.SetPassword`: the `panic!()` for more than one affected row cannot happen, because `id` is the key.
- The display texts of `UsersError`: only the command-line tool uses them, and the tool is not part of this model.
- `Auth.FromRequestParts`: the `expect` on the missing database pool extension (`src/auth.rs:37`) is a panic and is not modelled. The logged error texts are not modelled either.
- Everything `tracing` logs (`warn!`, `error!`).
- `login_page`, Handlebars and the HTML. A rendered page is represented by the template context it is given. A render failure is the `renderFault` parameter.
- Axum extraction of `Form` and `TypedHeader<UserAgent>`: a request without them is rejected before the handler runs.
- `Schema.InstallSchema`: what each SQL statement does is reduced to "fails, or creates some tables" (the `Engine` parameter). `include_str!("schema.sql")` is the `script` parameter.
- The ownership guard for categories and words: the handlers in `src/controller/categories.rs` and `src/controller/words.rs` are stubs that return fixed values, so there is no rule to model.
- `src/main.rs`, `src/api_data.rs`, `src/seeds.rs`, `src/test_utils.rs` and `web/src/lib/server_api.ts`: routing, data structs, fixtures and the HTTP client. `src/controller/utils.rs` appears only as `LoginController.InternalServerErrorBody`.
