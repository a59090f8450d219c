# Account layer of a multi-tenant call-analytics SaaS: request gates, registration and login

This Dafny project models the authorization core of the backend:

- **Request gate** (`authMiddleware`): the token is taken from the `Authorization`
  header as the second field of `header.split(' ')`, checked by the token codec,
  and on success the decoded `userId`, `companyId` and `email` are attached to
  the request before `next()` is called. Both failure paths answer 401.
- **Limit gate** (`checkLimits`): the company row of the request's `companyId`
  is read; a missing row is 404, a `suspended` status 403, `minutes_used >=
  minutes_limit` 403 with both counts in the body, otherwise `next()`.
- **Registration** (`POST /register`): input checks, an email pre-check, then a
  company insert with trial defaults, an owner-user insert, and a compensating
  delete of the company when the user insert fails; a signed token and a
  summary on success.
- **Login** (`POST /login`): a lookup by email, a password comparison, one
  generic 401 for both kinds of failure, and a token whose claims come from
  the stored user.

Modules, one per part of the program:

- `wrappers.dfy` (`Wrappers`): `Option`, `Result`.
- `records.dfy` (`Records`): company and user rows, session claims, the error
  kinds with their HTTP statuses, response bodies, `Next`/`Halt` for middleware.
- `store.dfy` (`Store`): the two tables as a class `Db` with fields
  `companies` and `users` (maps keyed by id) and the id counter; the insert
  and delete calls; `.single()` lookups by email.
- `middleware_auth.dfy` (`Middleware`): header splitting, `Authenticate`, the
  `Request` object and `AuthMiddleware`, and `CheckLimits`.
- `routes_auth.dfy` (`AuthRoutes`): `ValidateRegistration`, `Register`, `Login`
  and the lemmas that join registration, login and the request gate.

Collaborators are parameters: `verify: string -> Option<Claims>` is the token
codec (signature and expiry against the server secret and clock), `sign` the
token signer, `hash` and `compare` the password hasher, `now` the clock in
milliseconds, and one boolean per store write (and one for the registration
email pre-check read) says whether that call fails.
`next()` being called corresponds to a middleware returning `Next`; a single
result value means it is called at most once.

Two behaviours of the code worth knowing, which the model keeps:

- The header is meant to follow the Bearer scheme of section 2.1 of RFC 6750
  (`Bearer <token>`), but the code never looks at the first field, so
  `Basic <token>` or any other space-free word is accepted the same way
  (`AnySchemeAccepted`), and `Bearer  <token>` with two spaces yields an empty
  token and is refused.
- The email pre-check uses `.single()`, which returns no row when several rows
  match; `SingleUser` models that, and `SingleFindsUnique` shows it finds every
  registered email while emails are unique, which `Register` preserves.
- The handlers ignore the `error` of every read and look only at the returned
  data. A failed email pre-check in `/register` therefore reads as "no such
  user" and registration goes on to write; `Register` keeps emails unique
  only when that read succeeds, and shows that a failed read lets a second
  user with a taken email in.

## Model

| member | source | states |
|---|---|---|
| `Middleware.Split` | backend/middleware/auth.js:5 | `split(' ')` yields at least one field, no field contains a space, and there is exactly one field iff the header has no space |
| `Middleware.JoinSplit` | backend/middleware/auth.js:5 | joining the fields of a split with single spaces gives the header back |
| `Middleware.SplitJoin` | backend/middleware/auth.js:5 | splitting the space-join of space-free fields gives those fields back |
| `Middleware.SplitAfterWord` | backend/middleware/auth.js:5 | a space-free first word followed by a space is the first field, and the rest splits independently |
| `Middleware.SplitWord` | backend/middleware/auth.js:5 | a header without spaces is one field |
| `Middleware.TokenField` | backend/middleware/auth.js:5-7 | the token is absent exactly when the header is missing or has no space; a present token has no space |
| `Middleware.TokenIsSecondField` | backend/middleware/auth.js:5 | the token is exactly the text between the first and the second space (or the end) |
| `Middleware.SchemeNotInspected` | backend/middleware/auth.js:5 | any two space-free first fields give the same token |
| `Middleware.Authenticate` | backend/middleware/auth.js:5-18 | "authorization required" iff the token field is missing or empty; "invalid token" iff the codec rejects the token; success iff it accepts, with exactly the decoded claims |
| `Middleware.NoSecondFieldRejected` | backend/middleware/auth.js:5-9 | a missing header or one with no second field is refused as "authorization required" whatever the codec says |
| `Middleware.EmptyBearerRejected` | backend/middleware/auth.js:5-9 | `"Bearer "` yields the empty token, which is refused as "authorization required" |
| `Middleware.BearerTokenVerified` | backend/middleware/auth.js:5-18 | for `Bearer <token>` with a non-empty space-free token, the outcome is the codec's verdict on that token |
| `Middleware.AnySchemeAccepted` | backend/middleware/auth.js:5 | any space-free scheme word authenticates exactly like `Bearer` |
| `Middleware.AuthMiddleware` | backend/middleware/auth.js:3-20 | on success `next` is reached and `userId`, `companyId`, `userEmail` equal the claims `userId`, `companyId`, `email`; on failure 401 and the request is left unchanged |
| `Middleware.CheckLimits` | backend/middleware/auth.js:22-48 | `next` iff the company exists, is not suspended and `minutes_used < minutes_limit`; missing company 404 before any other check; suspended 403; exhausted quota 403 echoing both counts |
| `Middleware.SuspensionPrecedesQuota` | backend/middleware/auth.js:35-45 | a suspended company gets the suspension answer whatever its minute counts |
| `Middleware.QuotaBoundary` | backend/middleware/auth.js:39-47 | using exactly the limit is exhausted; one minute less passes |
| `Store.SingleUser` | backend/routes/auth.js:21-25 | `.single()` yields a user iff exactly one user has the email, and then that user's id |
| `Store.SingleFindsUnique` | backend/routes/auth.js:21-29 | while emails are unique, the pre-check finds a user iff some user has the email |
| `Store.Db.InsertCompany` | backend/routes/auth.js:35-47 | a failed insert changes nothing; a successful one stores the row under a fresh id and returns it |
| `Store.Db.InsertUser` | backend/routes/auth.js:55-65 | a failed insert changes nothing; a successful one stores the row under a fresh id and returns it |
| `Store.Db.DeleteCompany` | backend/routes/auth.js:69 | removes exactly the company with that id |
| `AuthRoutes.ValidateRegistration` | backend/routes/auth.js:12-18 | 400 "fill in all fields" iff companyName, email or password is falsy; otherwise 400 "too short" iff the password has fewer than 6 characters (6 passes) |
| `AuthRoutes.Register` | backend/routes/auth.js:8-102 | validation and a duplicate email found by the pre-check leave both tables unchanged; a failed pre-check read counts as "no user"; a failed company insert gives 500 with no user insert; a failed user insert gives 500 and both tables as before; success adds a trial company (plan trial, 100 minutes, 3 managers, trial end now + 14 days) and an owner linked to it named by `name`, or `companyName` when `name` is falsy, with token claims and summary carrying those ids; users-have-companies is preserved, email uniqueness too when the pre-check read succeeds, and a failed pre-check read with a taken email breaks uniqueness |
| `AuthRoutes.Login` | backend/routes/auth.js:105-159 | missing email or password 400; 401 iff the lookup finds no user or the password does not match, always with the one generic body; 500 when found and matched but the joined company row is missing; 200 iff found, matched and the company exists, with claims `userId`, `companyId = user.company_id`, `email`, `role` and the summary (name, company name, plan, minutes used and limit) from the stored row and its company |
| `AuthRoutes.LoginFailuresIndistinguishable` | backend/routes/auth.js:119-127 | an unknown email and a wrong password get identical 401 responses |
| `AuthRoutes.StoredUserLogsIn` | backend/routes/auth.js:113-153 | with unique emails, a stored user with a matching password logs in with claims and summary from that row and its company |
| `AuthRoutes.RegisteredTokenOpensGate` | backend/routes/auth.js:74-83 | a token signed at registration, presented as `Bearer <token>` to a codec that accepts what it signs, authenticates with the same claims |
| `AuthRoutes.RegisterTwice` | backend/routes/auth.js:20-29 | after a successful registration, registering the same email again is refused with 400 and emails stay unique |

## Left out

- `backend/server.js` (Express bootstrap, CORS and body parsing, the health route, `listen`): I/O wiring without decisions.
- Token signing and verification internals, including the expiry check against the clock: `verify` and `sign` are parameters; `RegisteredTokenOpensGate` assumes the codec accepts what it signs.
- bcrypt internals: `hash` is a function of the password and the work factor, so the random salt is not modelled; `compare` is an arbitrary predicate.
- The store client's asynchrony, its error reasons and its id scheme: each write, and the registration pre-check read, succeeds or fails as a flag says, and ids come from a counter.
- Failed reads in `checkLimits` and `/login`: the functions receive the table contents and so always read successfully. In the code a failed read returns no data and gets the answer for a missing row: 404 "company not found" in `checkLimits`, the generic 401 in `/login`.
- The race between the email pre-check and the user insert (two concurrent registrations of one email), and a failure of the compensating delete: the model is sequential and the delete succeeds.
- `minutes_used` of a new company: the insert does not set it; the model takes the column default to be 0.
- Logging, the Russian message texts (represented by `ErrorKind`), and ISO date formatting (`trial_ends_at` is integer milliseconds).
- The catch-all 500 answers for unexpected exceptions, except the one `Login` models: a user whose company row is missing, which makes `user.company.name` throw.
- An exception thrown by the downstream handler inside `next()`, which `authMiddleware`'s `try` would also turn into 401.
- Body fields and claims of other JavaScript types than strings and ids; the password length is counted in characters, not UTF-16 code units.
