# OrçamentosOnline API: authentication and request validation

A Dafny model of the authentication slice of the OrçamentosOnline backend
(`services/api/src/index.js`). It covers four pieces:

- the registration validator: an ordered chain of first-failure checks on name, email, phone and password;
- the registration handler over a users table. The table is unique on the lower-cased email. A duplicate
  email gets 409, whether the handler's own lookup finds it or the database reports a unique violation;
- the `authenticateToken` gate: how it takes the token out of the `Authorization` header, and when it
  answers 401, answers 403, or stores the verified claims in `req.user`;
- the demo-only login decision and the profile echo.

Modules: `Wrappers` (Option), `JsText` (the JavaScript string semantics the handlers rely on),
`Validation`, `Tokens` and `Handlers`. Stateful parts are classes. `Handlers.UserStore` holds the
users table as a `map` from lower-cased email to row. Its `Register` method adds exactly one row when
the INSERT runs and succeeds, and otherwise leaves the table unchanged. A 201 always adds a row, but
the row is also kept on the 500 that follows when signing then throws. `Tokens.Request` holds `req.user`, which only `Authenticate`
writes. All other parts are functions.

Characters follow JavaScript where the results depend on it:
- `\s` and `trim` use the ECMAScript WhiteSpace and LineTerminator set;
- `\d`, `[A-Z]` and `[a-z]` are ASCII;
- `password.length` counts UTF-16 code units (`JsText.Utf16Length`). Dafny characters are Unicode
  scalar values.

The email and phone regular expressions each have two forms. One is the language it denotes, written as a ghost predicate
(`MatchesEmailRegex`, `MatchesPhoneRegex`). The other is the direct test the validator runs
(`IsValidEmail`, `IsValidPhone`). A lemma proves the two agree on every string, in both directions.

Values the code gets from outside are parameters:
- `jwt.sign`: a `Signer`;
- `jwt.verify`: a `Verifier`;
- `bcrypt.hash`: `hash`;
- the database clock: `createdAt`;
- `Date.now()`: `nowMs`;
- the environment variables: `Config`. Its `lifetimesValid` flag says whether `jwt.sign` accepts the
  configured token lifetimes. When it does not, at least one of the two `jwt.sign` calls of a handler
  throws, and the handler answers 500;
- errors from the two database queries: `StoreFault`.

`Tokens.SignerSound` says what the proofs assume of the signature scheme. A token verifies under the
secret that signed it and gives back its claims. Under any other secret, or no secret at all, it does
not verify. Compact tokens are non-empty and have no spaces.

Behaviours of the code worth noting:
- The gate never checks the `Bearer` scheme word. It takes the second space-separated field, so
  `Token abc` passes, and `Bearer  abc` (two spaces) gets 401.
- Validation stops at the first failure and reports exactly one error. It does not collect all the
  errors.
- Login compares the email exactly as given; it is not lower-cased. `DEMO@orcamentos.com` gets 401.
- The profile's `name` comes from the email claim alone; the store is never read. A registered user
  sees `User` unless the registered email is the demo address, never the registered name.

## Model

| member | source | states |
|---|---|---|
| `JsText.Utf16Length` | services/api/src/index.js:287 | `password.length` is at least the number of characters and at most twice it. It equals the number of characters exactly when no character lies outside the Basic Multilingual Plane. |
| `JsText.Trim` | services/api/src/index.js:331 | `name.trim()` is a contiguous middle slice of the name. Only whitespace is removed on either side, and the result neither starts nor ends with whitespace. |
| `JsText.Lower` | services/api/src/index.js:311 | `email.toLowerCase()` keeps the length and leaves no ASCII capital. Non-capitals are unchanged and each capital moves to its lower-case letter. |
| `JsText.LowerIsCanonical` | services/api/src/index.js:308-314 | Lower-casing is idempotent. Two emails map to the same table key exactly when they differ only in ASCII case, so the duplicate lookup ignores case. |
| `JsText.Split` | services/api/src/index.js:127 | `split(' ')` always gives at least one field, and no field contains the separator. |
| `JsText.SplitJoin` | services/api/src/index.js:127 | Joining the fields of `split` with the separator gives back the original string. |
| `JsText.SplitFirstField` | services/api/src/index.js:127 | The first field ends at the first separator, and the remaining fields are the fields of the text after it. |
| `Validation.EmailCheckMatchesRegex` | services/api/src/index.js:267-268 | An email is accepted by `^[^\s@]+@[^\s@]+\.[^\s@]+$` exactly when it has no whitespace, exactly one `@` with text before it, and a `.` after the `@` that is neither the first nor the last character there. Both directions are proved. |
| `Validation.PhoneCheckMatchesRegex` | services/api/src/index.js:277-278 | A phone is accepted by `^\(\d{2}\)\s9\d{4}-\d{4}$` exactly when it is, position by position: `(`, two digits, `)`, one whitespace character, `9`, four digits, `-`, four digits. Every accepted phone is 15 characters long. |
| `Validation.Validate` | services/api/src/index.js:258-306 | A missing or empty field gives the required-fields error before any other check. Given all four fields, the email error is reported iff the email regex fails. After that, the phone error iff the phone regex fails. Then the length error iff the password is under 8 UTF-16 units. Then the complexity error iff at least one of `A-Z`, `a-z`, `0-9` is missing. The form is accepted iff every check passes. |
| `Validation.IsValidEmail` | services/api/src/index.js:267-268 | Every accepted email has at least 5 characters and contains an `@` that is neither its first nor its last character. |
| `Validation.IsValidPhone` | services/api/src/index.js:277-278 | Every accepted phone is 15 characters long, has `9` right after the separator, and does not end in whitespace. |
| `Tokens.EnvOr` | services/api/src/index.js:209 | `process.env.X \|\| fallback` is never empty. It is the variable's value whenever that is set and non-empty. It is the fallback exactly when the variable is unset, empty, or equal to the fallback. |
| `Tokens.AccessSigningKey` | services/api/src/index.js:207-211 | Access tokens are signed with a non-empty secret: `JWT_SECRET` when it is set and non-empty, `fallback_secret` otherwise. |
| `Tokens.RefreshSigningKey` | services/api/src/index.js:213-217 | Refresh tokens are signed with a non-empty secret: `JWT_REFRESH_SECRET` when it is set and non-empty, `fallback_refresh_secret` otherwise. |
| `Tokens.AccessVerifyKeyAsWritten` | services/api/src/index.js:133 | The gate verifies with the raw `JWT_SECRET`, with no fallback. This is the access signing secret exactly when the variable is set and non-empty. |
| `Tokens.AccessVerifyKey` | services/api/src/index.js:133 | The corrected secret of the finding below: the access signing secret. It is always present and non-empty, and it equals `JWT_SECRET` whenever that variable is set and non-empty. Only `IssuedAccessTokenAuthorizes` uses it. |
| `Tokens.IssueTokens` | services/api/src/index.js:207-236 | The reported `expiresIn` is 900 s. `expiresAt` is exactly `expiresIn` seconds after the clock reading, which is the 15-minute offset. The access token signs `{userId, email, role}` with the access secret; the refresh token signs `{userId, type:'refresh'}` with the refresh secret. |
| `Tokens.AccessTokenOf` | services/api/src/index.js:126-127 | A token is extracted exactly when the header is present and contains a space. The token is the text after the first space, up to the next space or the end of the header, and contains no space. |
| `Tokens.BearerHeaderCarriesToken` | services/api/src/index.js:127 | From `Bearer <t>`, where `t` is a compact token, the extraction yields exactly `t`. |
| `Tokens.Gate` | services/api/src/index.js:125-140 | 401 exactly when the header is absent, has no space, or its first space is the last character or is followed by another space; whatever the verifier would say does not matter. Otherwise 403 when verification fails, and on success the claims the verifier returned, unchanged. The status (`GateResult.Status`) is 401 and 403 in exactly those cases, and the error text (`GateResult.Error`) is `Access token required` for the 401 and `Invalid or expired token` for the 403. |
| `Tokens.Request.Authenticate` | services/api/src/index.js:125-140 | Returns the `Gate` outcome for the request's header, verified with the raw `JWT_SECRET` as the code does. `req.user` becomes the verified claims on success and is untouched otherwise. |
| `Tokens.IssuedAccessTokenAtGate` | services/api/src/index.js:133-137 | At the gate as written, an access token just issued, sent as `Bearer <token>`, passes with exactly the claims it was issued for when `JWT_SECRET` is set and non-empty. With the variable unset or empty, it gets 403 (see Findings). |
| `Tokens.IssuedAccessTokenAuthorizes` | services/api/src/index.js:133-137 | With the corrected verification secret, an access token just issued, sent as `Bearer <token>`, always passes the gate with exactly the claims it was issued for. |
| `Tokens.RefreshTokenAtGate` | services/api/src/index.js:213-217 | At the gate as written, a refresh token passes iff `JWT_SECRET` is set and equals the refresh signing secret; it then carries the refresh claims. Otherwise it gets 403, in particular when neither variable is set. |
| `Handlers.Login` | services/api/src/index.js:188-249 | 400 iff the email or the password is missing or empty. For exactly the pair `demo@orcamentos.com` / `demo123`: 500 iff `jwt.sign` throws on the configured lifetimes, and otherwise 200 with user id 1, role `admin`, name `Demo User` and freshly issued tokens. 401 for every other pair. The same cases are stated on the status code (`LoginResponse.Status`): 200 iff the demo pair is given and signing works, 401 iff both fields are given but are not the demo pair. |
| `Handlers.ProfileOf` | services/api/src/index.js:393-404 | The profile echoes the `userId`, `email` and `role` claims. Its name is `Demo User` iff the email claim is the demo email, and `User` otherwise. |
| `Handlers.LoginThenProfile` | services/api/src/index.js:196-238 | When signing works, demo login followed by presenting its access token gives: with `JWT_SECRET` set, 200 and the profile id 1, the demo email, role `admin`, name `Demo User`; with it unset or empty, 403. |
| `Handlers.Public` | services/api/src/index.js:354-361 | The user object of the 201 response carries the row's id, email, name, phone, role and creation time. |
| `Handlers.PublicHidesHash` | services/api/src/index.js:354-361 | The user object of the response does not depend on the stored password hash. |
| `Handlers.NewRow` | services/api/src/index.js:327-334 | The inserted row has the trimmed name (no whitespace at either end), the email lower-cased and already in key form, the phone as given, the hash of the password, role `user`, the given id and creation time. |
| `Handlers.RegisterResponse.Errors` | services/api/src/index.js:258-388 | A 201 carries no errors. Every failure carries exactly one error message. |
| `Handlers.RegisterResponse.Message` | services/api/src/index.js:258-388 | The `message` is `Registration successful` iff the status is 201 and `Validation failed` iff it is 400, so a 409 or 500 carries neither text. |
| `Handlers.CaughtError` | services/api/src/index.js:372-389 | An error thrown by a query gives 409 iff its code is `23505`; every other code gives 500. |
| `Handlers.UserStore.Register` | services/api/src/index.js:253-390 | Keeps the table invariant: keys are the rows' own lower-cased emails, roles are `user`, ids are distinct. A validation failure is 400, and its single `errors` entry is that error's text (`ValidationError.Message`). A failing lookup is mapped by `CaughtError`. An email already present (ignoring ASCII case) is 409. A failing INSERT is mapped by `CaughtError`. Otherwise the table gains exactly one row, keyed by the lower-cased email, with the trimmed name, the phone, the password hash, role `user` and the next id. The response is then 201 with the row minus its hash, plus tokens, or 500 when `jwt.sign` throws, with the row kept. The response is 201 iff the submission is valid and new, both queries succeed and signing works. The table changes iff the submission is valid and new and both queries succeed. |
| `Handlers.RegisterTwice` | services/api/src/index.js:308-320 | When signing works, two valid registrations of the same email (up to ASCII case) give 201 then 409, and exactly the first one's row is added. |
| `Handlers.RegisteredUserProfile` | services/api/src/index.js:393-404 | With `JWT_SECRET` set, a new user's access token passes the gate. The profile then shows the stored id, email and role, and the name `User` unless the email is the demo address. With the variable unset or empty, the token gets 403. |

## Findings

| source | as written | input that shows it | evidently intended | confidence | as-written member | corrected member |
|---|---|---|---|---|---|---|
| services/api/src/index.js:133 | The gate verifies with the raw `JWT_SECRET` variable and has no fallback. Both handlers sign access tokens with `JWT_SECRET`, falling back to `'fallback_secret'` (lines 209 and 339). | Start with `JWT_SECRET` unset. Log in with the demo pair (200), then send the access token to `/api/v1/auth/profile`: the answer is 403. | Tokens verify under the same secret they were signed with, so the profile request gets 200. | not executed; medium (relies on `jwt.verify` refusing a signed token when no secret is given) | `Tokens.IssuedAccessTokenAtGate` | `Tokens.IssuedAccessTokenAuthorizes` |

The as-written key is `Tokens.AccessVerifyKeyAsWritten`. `Tokens.Request.Authenticate` and the
handler lemmas use it, as the code does. The corrected key is `Tokens.AccessVerifyKey`. The two agree
whenever `JWT_SECRET` is set and non-empty.

## Left out

- Request body fields are modelled as strings or absent (`undefined`/`null`). Non-string JSON values
  (numbers, arrays, objects) and the coercions and `TypeError`s they would cause are not modelled.
- `JsText.Lower`: only ASCII letters are lower-cased. The rest of Unicode's `toLowerCase` mapping
  (which can change the length) is not modelled; the proofs about the table do not depend on it.
- `jsonwebtoken` and `bcryptjs` are parameters. The model does not cover: token expiry and the
  `JWT_EXPIRES_IN` / `JWT_REFRESH_EXPIRES_IN` options; the registered claims `iat`/`exp` that
  `jwt.sign` adds; the salt and the `BCRYPT_ROUNDS` work factor; how unsigned (`alg: none`) tokens
  are treated.
- `Tokens.IssueTokens`: the reported `expiresIn`/`expiresAt` are fixed at 15 minutes, as in the code,
  even when `JWT_EXPIRES_IN` sets a different token lifetime. The model does not relate them.
- A throwing `jwt.sign` is modelled only as the `Config.lifetimesValid` flag, which covers invalid
  `JWT_EXPIRES_IN` / `JWT_REFRESH_EXPIRES_IN` values. Other causes of a throw are not modelled. Nor
  is a throw in `bcrypt.hash`, which would answer 500 before the INSERT.
- `Handlers.Login`: the `success` flags and the login `message`/`errors` texts are not modelled.
- Database and clock values are parameters: `createdAt` stands for `NOW()`, and `nowMs` for
  `Date.now()`. Ids come from a counter standing in for the id sequence. The schema itself is not
  part of this model.
- Concurrency is not modelled. The check-then-insert race appears only as its sequential outcome: an
  INSERT failing with `23505` while this table lacks the key (`StoreFault.InsertFails`).
- Not modelled: Express middleware configuration (helmet, CORS, rate limiter, compression, body
  limits, request logging); the health check; the PostgreSQL pool and Redis client; logging; the
  proposals endpoint's mock data and `parseInt` echo; the documentation and 404 routes; the global
  error handler; signal-driven shutdown; `app.listen`. They are library configuration, I/O or static
  data.
- `services/frontend/src/app/dashboard/page.tsx` is not modelled: it is presentational markup over
  mock arrays.
