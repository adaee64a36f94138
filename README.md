# Account service core: a Dafny model

This project models the account core of a small Rust authentication service. The core has two tables: `users` and `password_updates`, the reset tokens. It offers seven operations:

- **sign-up with a password:** validate the request, salt and hash the password, insert the account, and mail a confirmation;
- **password-less sign-up:** insert the account and a reset-token row in one transaction, and mail a link;
- **sign-in:** find an enabled account by username or email, verify the salted password, and sign a bearer token;
- **authenticate:** check a bearer token's signature, issuer, subject, audience and expiry;
- **identity check:** report the username and email of the first account matching an identity;
- **forgot-password:** disable the account and store a fresh reset token, in one transaction;
- **update-password:** find the account owning a reset token, then re-enable it with a new salt and hash and delete all its tokens, in one transaction.

Layout, one module per source file:

- `schema.dfy` (`Schema`): the two tables, as row datatypes and a `Db` value with its table constraints.
  - It has a `Db` function for each SQL statement the core runs (INSERT, UPDATE, DELETE).
  - It has the class `Store`. Its fields hold the tables. Its methods perform those statements in place, with rollback to a saved snapshot.
- `user.dfy` (`UserDomain`): the shared part of the core:
  - the request types and their field rules;
  - the three error kinds and their tags;
  - the token claims and the configuration;
  - `generate_random`;
  - the mails each operation hands to the mailer.
- `crypto.dfy` (`Crypto`): the bcrypt and JWT libraries as function-valued parameters, with the properties the proofs rely on stated as predicates (`Sound`, `RoundTrips`, `RejectsEmpty`).
- `sign_up.dfy`, `sign_up_without_password.dfy`, `forgot_my_password.dfy`, `update_password.dfy`: each of these state-changing operations has two parts:
  - a `Step` function that gives the response, the new tables and the mail for one call;
  - a module-level `Run` method that takes the `Store` as a parameter. It performs the same statements in the source's order, rolls the transaction back when the commit fails, and is proved equal to `Step`. It also preserves the store invariant.
- `sign_in.dfy`, `authenticate.dfy`, `identity_check.dfy`: these read-only operations are functions.
- `lifecycle.dfy` (`Lifecycle`): properties that span several operations:
  - sign-up then sign-in;
  - sign-in then authenticate;
  - password-less sign-up then update-password, then a replay of the token;
  - forgot-password then sign-in, and then update-password.

Parameters stand in for the outside world:

- the clock (`now`);
- the random number stream (`rng`);
- the e-mail syntax check (`isEmail`);
- bcrypt (`Hasher`) and JWT signing (`Signer`);
- the database driver's answer to an INSERT or a COMMIT (`Commit`).

A mail the operation sends is returned as a value and is not delivered.

## Model

| member | source | states |
|---|---|---|
| Schema.UserUpdate.Apply | src/domain/user/update_password.rs:35-41 | an UPDATE of `users` never changes a row's id, username or email. `SET enabled = 0` keeps salt and hash. `SET enabled = 1, password, salt` writes exactly the given salt and hash |
| Schema.FirstWhere | src/domain/user/forgot_my_password.rs:8-26 | the row a SELECT hands back first is the first row, in table order, that satisfies the WHERE clause; there is none exactly when no row satisfies it |
| Schema.UserIndex | src/domain/user/update_password.rs:10-12 | the join on `users.id` finds a row with that id, and finds none exactly when no user has that id |
| Schema.DeleteOwnedBy | src/domain/user/update_password.rs:44-46 | after the DELETE, a token row remains exactly when it was there before and belongs to another user |
| Schema.Db.InsertUser | src/domain/user/sign_up.rs:13-21 | appends one row with the next id and `enabled` true; the token table is unchanged; the table constraints are kept |
| Schema.Db.InsertPasswordUpdate | src/domain/user/sign_up_without_password.rs:21-27 | appends one token row for an existing user with the next id; the users table is unchanged; the constraints are kept |
| Schema.Db.UpdateUsers | src/domain/user/forgot_my_password.rs:30-33 | every row with the id is rewritten and every other row is kept; the set of ids and the token table are unchanged; the constraints are kept |
| Schema.Db.DeletePasswordUpdatesOf | src/domain/user/update_password.rs:44-46 | removes exactly the token rows of one user; the users table is unchanged; the constraints are kept |
| Schema.Db.Valid | src/database/schema.rs:1-23 | the table constraints: ids unique in both tables and below the auto-increment counters, and every token row's `user_id` names an existing user (`joinable!`) |
| Schema.Store.constructor | src/database/schema.rs:1-21 | both tables start empty, the auto-increment counters start at 1, and the constraints hold |
| Schema.Store.InsertUser | src/domain/user/sign_up.rs:13-21 | the store afterwards holds `Db.InsertUser` of what it held before; returns the new row's id |
| Schema.Store.InsertPasswordUpdate | src/domain/user/sign_up_without_password.rs:21-27 | the store afterwards holds `Db.InsertPasswordUpdate` of what it held before |
| Schema.Store.UpdateUsers | src/domain/user/forgot_my_password.rs:30-33 | the store afterwards holds `Db.UpdateUsers` of what it held before |
| Schema.Store.DeletePasswordUpdatesOf | src/domain/user/update_password.rs:44-46 | the store afterwards holds `Db.DeletePasswordUpdatesOf` of what it held before |
| Schema.Store.Rollback | src/domain/user/update_password.rs:29 | the store afterwards holds exactly the snapshot taken when the transaction started |
| UserDomain.LengthRule | src/domain/user/mod.rs:37 | a `length(min)` rule reports nothing exactly when the value is long enough, and otherwise reports one `length` error carrying the value and the minimum |
| UserDomain.EmailRule | src/domain/user/mod.rs:40 | an `email` rule reports nothing exactly when the address is well-formed, and otherwise reports one `email` error |
| UserDomain.SignUpWithoutPasswordDto.Violations | src/domain/user/mod.rs:35-42 | the username is reported exactly when it is shorter than 2; the email exactly when it is malformed; nothing is reported exactly when both rules hold |
| UserDomain.SignUpDto.Violations | src/domain/user/mod.rs:44-54 | the username is reported exactly when it is shorter than 2, the email exactly when it is malformed, the password exactly when it is shorter than 6; nothing is reported exactly when all three rules hold |
| UserDomain.SignInDto.Violations | src/domain/user/mod.rs:56-63 | `username_or_email` is reported exactly when it is empty; the password exactly when it is shorter than 6 |
| UserDomain.AuthenticateDto.Violations | src/domain/user/mod.rs:65-69 | the token is reported exactly when it is empty |
| UserDomain.UpdatePasswordDto.Violations | src/domain/user/mod.rs:71-78 | the token is reported exactly when it is empty; the password exactly when it is shorter than 6 |
| UserDomain.IdentityCheckDto.Violations | src/domain/user/mod.rs:80-84 | the identity is reported exactly when it is empty |
| UserDomain.ForgotMyPasswordDto.Violations | src/domain/user/mod.rs:86-90 | `username_or_email` is reported exactly when it is empty |
| UserDomain.UpdatePasswordReportsEveryViolation | src/domain/user/update_password.rs:72-115 | a blank token with a five-character password yields both the token error and the password error, with their values and minimums |
| UserDomain.Tag | src/domain/user/mod.rs:99-110 | an error is serialised under `validation`, `application` or `database` exactly when it is of that kind |
| UserDomain.TagIdentifiesKind | src/domain/user/mod.rs:104-108 | two errors share a tag (`validation`, `application`, `database`) exactly when they are the same kind of error |
| UserDomain.AlphanumericAt | src/domain/user/mod.rs:114 | each of the 62 positions of the alphabet is an ASCII letter or digit |
| UserDomain.GenerateRandom | src/domain/user/mod.rs:112-117 | `generate_random(count)` has exactly `count` characters, each alphanumeric |
| UserDomain.GenerateRandomReachesAll | src/domain/user/mod.rs:112-117 | every alphanumeric string of the given length is a possible outcome |
| UserDomain.Invariant | src/database/schema.rs:1-23 | the store invariant: the table constraints, and every stored token has 32 alphanumeric characters, as `generate_random(32)` produces |
| SignIn.Candidate | src/domain/user/sign_in.rs:10-27 | the row sign-in uses is enabled and matches the username or the email. No earlier row is both. There is none exactly when no enabled row matches |
| SignIn.Verification | src/domain/user/sign_in.rs:28-29 | `verify(password + salt, stored_hash)`: with a sound hasher, when the stored hash is `hash(input)`, the answer is `Ok(true)` exactly when `input` is the password followed by the stored salt, and `Ok(false)` otherwise |
| SignIn.IssuedClaims | src/domain/user/sign_in.rs:36-45 | the claims: issuer `domain`, audience `app_name`, subject `subject`, username and email from the stored row, and expiry `now + 86400 * token_exp` for lifetimes of 0 to 24855 days |
| SignIn.WrapI32 | src/domain/user/sign_in.rs:37 | the result is in the `i32` range, is congruent to the input modulo 2^32, and equals the input when the input is in range |
| SignIn.ExpiryOffset | src/domain/user/sign_in.rs:37 | `86400 * token_exp`, computed in `i32`, equals the exact product for lifetimes of 0 to 24855 days |
| SignIn.ExpiryOffsetOverflows | src/domain/user/sign_in.rs:37 | a lifetime of 24856 days yields the negative offset -2147408896 |
| SignIn.ExpiryOffsetIntended | src/domain/user/sign_in.rs:37 | the offset computed without overflow is non-negative exactly when the lifetime is, and is at least one day for a positive lifetime |
| SignIn.Run | src/domain/user/sign_in.rs:7-55 | validation errors come exactly from an invalid request. There is "Incorrect username." when there is no candidate, and "Incorrect password." when verify returns an error. A signing failure gives `ApplicationError` with the encoder's message. `Ok` comes exactly when verify returns any `Ok` and signing succeeds, with the token signed over the issued claims |
| SignIn.RunIntended | src/domain/user/sign_in.rs:31-34 | sign-in with the intended check: `Ok` only when the password verifies as `Ok(true)`; a verify result of `Ok(false)` gives "Incorrect password." |
| Authenticate.Accepts | src/domain/user/authenticate.rs:5-6 | the checks of the configured validation: issuer `domain`, subject `subject`, audience `app_name`, and the library's default expiry check with no leeway |
| Authenticate.Run | src/domain/user/authenticate.rs:4-12 | `Ok(true)` exactly when the token decodes under the secret and its issuer, subject, audience and expiry pass; every failure is the single error "Incorrect token." |
| Authenticate.RejectsEachMismatch | src/domain/user/authenticate.rs:5-10 | each of a wrong issuer, a wrong subject, a wrong audience or an elapsed expiry, taken alone, is rejected with "Incorrect token." |
| Authenticate.EmptyTokenReachesDecoder | src/domain/user/authenticate.rs:4-7 | the request rule is not applied: an empty token, which the rule would report, fails at the decoder with "Incorrect token." |
| IdentityCheck.Query | src/domain/user/identity_check.rs:5-16 | the query returns at most one pair, because of `LIMIT 1`. It is empty exactly when no row matches, with no `enabled` filter. Otherwise the pair is the username and email of the first matching row |
| IdentityCheck.Run | src/domain/user/identity_check.rs:4-23 | "Identity not found." exactly when no row matches, with no `enabled` filter; otherwise exactly one pair, the username and email of the first matching row |
| IdentityCheck.NeverValidates | src/domain/user/identity_check.rs:4-5 | no validation error is ever returned, not even for an empty identity |
| SignUp.Step | src/domain/user/sign_up.rs:6-36 | an invalid request gives the validation errors with the tables unchanged and no mail. An insert failure gives `DatabaseError` with the driver's message. Success gives `Ok(true)` and appends exactly one row: username, email, a 4-character salt and `hash(password + salt)`. The token table is unchanged, the confirmation is mailed, and the store invariant is kept |
| SignUp.DuplicateUsernameAccepted | src/domain/user/sign_up.rs:13-21 | no uniqueness lookup precedes the insert: a username already taken is accepted and then appears in two rows |
| SignUp.Run | src/domain/user/sign_up.rs:6-36 | the store afterwards holds what `Step` yields from the store before, and the method returns the same result and mail; the invariant is kept |
| SignUpWithoutPassword.Step | src/domain/user/sign_up_without_password.rs:5-43 | validation comes before the transaction. On commit, the account (no salt, no hash, enabled) and a token row for the new id, holding the generated token, are both inserted. On a commit failure neither is, with `DatabaseError` and no mail. The mailed link carries `"1234"` |
| SignUpWithoutPassword.Link | src/domain/user/sign_up_without_password.rs:32 | the link starts with the configured page and ends with the token it is given |
| SignUpWithoutPassword.Message | src/domain/user/sign_up_without_password.rs:33 | the message is the fixed text with the link embedded right after `href="` |
| SignUpWithoutPassword.IntendedMail | src/domain/user/sign_up_without_password.rs:32-34 | the intended mail goes to the new account, embeds the link to the generated token, and so contains that token |
| SignUpWithoutPassword.Run | src/domain/user/sign_up_without_password.rs:5-43 | the two inserts run in place in one transaction, rolled back on a commit failure, with the outcome of `Step`; the invariant is kept |
| ForgotMyPassword.Step | src/domain/user/forgot_my_password.rs:5-57 | validation comes first. "Username or email not found." is returned exactly when no row matches, with no `enabled` filter. On commit, every row of the first match's id is disabled and every other row is kept. One 32-character token row for it is appended and the earlier ones stay. A commit failure gives `DatabaseError` with the driver's message and changes nothing |
| ForgotMyPassword.ResetMailCarriesNoToken | src/domain/user/forgot_my_password.rs:47 | the reset mail's text contains no 32-character alphanumeric string, so it contains no reset token |
| ForgotMyPassword.ResetMailOmitsToken | src/domain/user/forgot_my_password.rs:35-48 | as written, a committed forgot-password stores the generated token but mails a message containing none of the stored tokens |
| ForgotMyPassword.IntendedMail | src/domain/user/forgot_my_password.rs:47-48 | the intended reset mail goes to the account's address and contains the token |
| ForgotMyPassword.Run | src/domain/user/forgot_my_password.rs:5-57 | the UPDATE and the INSERT run in place in one transaction, rolled back on a commit failure, with the outcome of `Step`; the invariant is kept |
| UpdatePassword.TokenOwner | src/domain/user/update_password.rs:9-27 | the account found is a row of `users` owning a token row that carries the token; there is none exactly when no token row with that token has an existing owner |
| UpdatePassword.Step | src/domain/user/update_password.rs:6-61 | validation comes first. "Incorrect password update token." is returned exactly when no owner is found. On commit, every row of the owner becomes enabled with one fresh 4-character salt and `hash(password + salt)`. Other rows are kept, and exactly the owner's token rows are deleted. A commit failure gives `DatabaseError` with the driver's message and changes nothing |
| UpdatePassword.Run | src/domain/user/update_password.rs:6-61 | the UPDATE and the DELETE run in place in one transaction, rolled back on a commit failure, with the outcome of `Step`; the invariant is kept |
| Lifecycle.SignedUpIsCandidate | src/domain/user/sign_in.rs:10-12 | when no enabled account already answers to the identity, the account a sign-up creates is the one sign-in picks |
| Lifecycle.SignUpThenSignIn | src/domain/user/sign_in.rs:28-49 | after sign-up, sign-in with the same password issues a token exactly when signing succeeds (sound hasher assumed) |
| Lifecycle.WrongPasswordSignsIn | src/domain/user/sign_in.rs:31-34 | as written, after sign-up, sign-in with a different valid password also issues a token whenever signing succeeds |
| Lifecycle.WrongPasswordRefusedIntended | src/domain/user/sign_in.rs:31-34 | with the intended check, that different password is refused with "Incorrect password." |
| Lifecycle.IssuedTokenAuthenticates | src/domain/user/authenticate.rs:5-7 | a token issued by sign-in is accepted by authenticate under the same configuration until its expiry (round-tripping signer assumed) |
| Lifecycle.IssuedTokenValidAtIssue | src/domain/user/sign_in.rs:36-42 | with a lifetime of 0 to 24855 days, the issued token is accepted at the moment of issue |
| Lifecycle.OverflowedTokenRejectedAtIssue | src/domain/user/sign_in.rs:37 | with a lifetime of 24856 days, the issued token is already rejected at the moment of issue |
| Lifecycle.IntendedExpiryValidAtIssue | src/domain/user/sign_in.rs:37 | with the offset computed without overflow, claims issued now pass authenticate's checks now, for every non-negative lifetime |
| Lifecycle.TokenIsSingleUse | src/domain/user/update_password.rs:44-46 | when a single row holds the token, a replay after a committed update is refused with "Incorrect password update token." and leaves the store unchanged |
| Lifecycle.LastRowOwnsToken | src/domain/user/update_password.rs:9-13 | a token carried only by the last token row leads to that row's account and to no other row |
| Lifecycle.NewAccountOwnsToken | src/domain/user/sign_up_without_password.rs:18-27 | a fresh token stored by a password-less sign-up is held by one row only and leads to the new account |
| Lifecycle.UpdateResetsOwner | src/domain/user/update_password.rs:31-46 | with a valid token, a committed update re-enables every row of its owner with one fresh salt and hash, and leaves the owner no token |
| Lifecycle.SetPasswordAfterSignUp | src/domain/user/update_password.rs:31-46 | after a password-less sign-up, the stored token sets a password: the account gains a 4-character salt and `hash(password + salt)`, stays enabled, and keeps no token |
| Lifecycle.SignUpTokenSingleUse | src/domain/user/update_password.rs:44-46 | the token of a password-less sign-up works once; its replay fails and leaves the store unchanged |
| Lifecycle.MailedTokenNeverMatches | src/domain/user/sign_up_without_password.rs:32 | following the mailed link with its `"1234"`, under the store invariant, always fails with "Incorrect password update token." and changes nothing |
| Lifecycle.IntendedLinkCompletesSignUp | src/domain/user/sign_up_without_password.rs:32 | with the intended mail, the message contains the stored token, and updating the password with it succeeds |
| Lifecycle.ForgottenAccountCannotSignIn | src/domain/user/forgot_my_password.rs:30-42 | for a valid request naming an existing account, a committed forgot-password returns `Ok(true)`; afterwards no sign-in picks any row of that account, whatever the identity, and the tokens issued before are all kept |
| Lifecycle.ForgotOwnerHoldsToken | src/domain/user/forgot_my_password.rs:35-42 | the fresh token stored by a committed forgot-password leads to the account it disabled, and the store invariant still holds |
| Lifecycle.IntendedResetMailCompletesReset | src/domain/user/forgot_my_password.rs:47-48 | with the intended reset mail, the owner receives the stored token, and updating the password with it succeeds |
| Lifecycle.ForgotThenUpdate | src/domain/user/update_password.rs:31-46 | a reset completes: with the forgot-password token, every row of the account is re-enabled with a new salt and hash, and all its tokens, older ones included, are deleted |

## Left out

- `send_email` (src/domain/user/mod.rs:119-156): the lettre file/SMTP transport is not modelled. Its outcome is only printed. The model returns the arguments of the call as a `Mail`.
- The HTTP/JSON-RPC layer (src/api/user.rs) and configuration loading and bootstrap (src/main.rs) are not part of this model.
- bcrypt and JWT are abstract function parameters.
  - Their cost factor, HMAC, header and constant-time comparison are not modelled.
  - A bcrypt hash failure (`expect`) and bcrypt's truncation of inputs after 72 bytes are not modelled. The `Sound` hypothesis idealises `verify` as exact.
  - The claim checks of the JWT library's default validation are written out (`Authenticate.Accepts`: no leeway, expiry rejected once `exp < now`). The `nbf` and `iat` checks do not apply, because the claims carry neither.
- `generate_random`: the RNG stream is a parameter, and each character is the stream value modulo 62. The rejection sampling of the `Alphanumeric` distribution is not modelled. Only the length and the alphabet are fixed, and `GenerateRandomReachesAll` shows that nothing else is.
- E-mail syntax (`validate(email)`) is the parameter `isEmail`.
- Driver panics are not modelled: the `unwrap` on a lost connection or a failed statement inside a transaction, and `from_row` on unexpected rows.
- The column `enabled` is assumed to default to true. schema.rs:17 declares it without a default, and neither sign-up writes it. True is the only reading under which sign-up followed by sign-in can succeed, since sign-in filters on `enabled = 1`. As a consequence, a password-less sign-up creates an enabled account with no salt and no hash: it is not disabled. It stays so until its password is set.
- SignIn.Run: requires that the candidate row, if there is one, holds a salt and a hash (`CredentialsPresent`). The source panics instead when it reads NULL from an account created by a password-less sign-up that has not yet set a password.
- SignIn.ExpiryOffset: models the wrap-around of a release build. A debug build panics on the overflow instead.
- The `i64` addition `now + offset` is taken as exact. It cannot overflow for real clock values.
- Timestamps are not modelled: `date_created` and `date_update` (schema.rs:6, 18-19) are set by the database and read by no operation.
- SQL `=` on VARCHAR columns is modelled as exact string equality, in `Matches` (username or email) and in the token lookup of `TokenOwner`. Under a case-insensitive MySQL collation, which is the usual default, "ANA" would also find the row "ana" and a token would match in any letter case. The collation is not part of the source. Every lemma that speaks of an identity matching a row reads "matches" as exact equality.
- Rows come back in table order. A SELECT without ORDER BY is assumed to return the first qualifying row in insertion order.
- Auto-increment counters are rolled back with the transaction. MySQL does not roll them back, so after a failed commit the real counter may skip ids. No property depends on the id values beyond uniqueness.
- Transaction isolation (SERIALIZABLE) and concurrency between requests are not modelled. Every call runs alone, and a transaction is the atomic body of a `Run` method.
- `sign_up` is not inside a transaction in the source. One INSERT either succeeds or fails, and the `Commit` parameter is the driver's answer to it.
- `UpdatePassword.Step` deletes the owner's token rows without checking that the user still exists. `TokenOwner` only considers token rows whose owner exists, which the foreign key guarantees anyway.

## Findings

| source | as written | input that shows it | evidently intended | confidence | as-written member | corrected member |
|---|---|---|---|---|---|---|
| src/domain/user/sign_in.rs:31-34 | any `Ok` from `verify` lets sign-in proceed, `Ok(false)` included | an existing account and any wrong password of at least 6 characters: `verify` returns `Ok(false)` and a token is issued | only `Ok(true)` proceeds; `Ok(false)` gives "Incorrect password." | high, not executed | Lifecycle.WrongPasswordSignsIn | Lifecycle.WrongPasswordRefusedIntended |
| src/domain/user/sign_up_without_password.rs:32 | the mailed link carries the literal `1234`, not the generated token | any password-less sign-up: the link's token is `1234`, which no stored token (32 characters) equals, so the link always fails | the link carries the generated token | high, not executed | Lifecycle.MailedTokenNeverMatches | Lifecycle.IntendedLinkCompletesSignUp |
| src/domain/user/sign_in.rs:37 | `86400 * config.token_exp` is computed in `i32` before it is widened | `TOKEN_EXPIRY=24856`: the offset wraps to -2147408896, so every token is expired at issue (a debug build panics instead) | the product is computed in `i64` | medium, not executed | Lifecycle.OverflowedTokenRejectedAtIssue | Lifecycle.IntendedExpiryValidAtIssue |
| src/domain/user/forgot_my_password.rs:47-48 | the reset mail says a token has been sent but carries neither the token nor a link | any committed forgot-password: the account is disabled, and the mailed text contains none of the stored 32-character tokens, so the owner cannot learn the token that would re-enable it | the mail carries the generated token | medium, not executed | ForgotMyPassword.ResetMailOmitsToken | Lifecycle.IntendedResetMailCompletesReset |
