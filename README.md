# immy_app authentication and ownership core, in Dafny

immy_app's PHP back end gives a client four JSON endpoints:

- `register.php` creates an account and hands out a token.
- `login.php` checks an email and password and hands out a token.
- `profile.php` returns the caller's own user row and children.
- `coach_data.php` returns coaching data for one of the caller's children.

All four share the helpers in `config.php`:

- the response envelope `sendResponse`;
- the OPTIONS preflight exit;
- the token functions `generateToken` and `verifyToken`.

This project models those five files:

- the token life cycle, covering issue, expiry and acceptance;
- the bearer guard of the two protected endpoints;
- the child-ownership check;
- the one write any endpoint makes, the insertion of a user row.

It also proves what the code promises, and the weaknesses the code actually has.

Modules, in dependency order:

- `Wrappers`: `Option` and `Result`.
- `PhpStrings`: PHP's `trim`, and `str_replace` with an empty replacement (`RemoveAll`). A stand-in for `filter_var(.., FILTER_VALIDATE_EMAIL)`.
- `ClaimsCodec`: a concrete text encoding of the claim set (`iat`, `exp`, `user_id`, `email`), and a total decoder. `DecodeEncode` proves the round trip.
- `Tokens`: `generateToken` and `verifyToken`. The clock is the parameter `now`.
- `Passwords`: `password_hash` and `password_verify`, with the salt as a parameter.
- `Store`:
  - the `users` and `children` tables as sequences in insertion order;
  - the integrity predicate `WellFormed`;
  - the lookups the endpoints run;
  - the `Database` class holding both tables and the AUTO_INCREMENT counter.
- `Responses`: the envelope and what an endpoint answers.
- `Http`: the request fields the endpoints read.
- `AuthGuard`: the shared guard of `profile.php` and `coach_data.php`.
- `CoachDataEndpoint`, `ProfileEndpoint`, `LoginEndpoint` and `RegisterEndpoint`: one module per script.
- `Scenarios`: properties across endpoints, such as register then log in, register then read the profile, and the behaviour of expired tokens everywhere.

Each endpoint script ends at its first `sendResponse`, because `sendResponse` calls `exit()`. So every endpoint is modelled as a function that returns the envelope it would print.

- `register.php` writes to the database. It is a module-level `method` that takes the `Database` object and `modifies` it, proved equal to the value-level `RegisterOutcome`.
- `profile.php` gathers the children in a `while` loop. Its method and loop are proved equal to the function `ProfileReply`.
- `login.php` and `coach_data.php` only read, and are functions.

## Where the code and the intended design differ

The intended design of this service, as stated for it, differs from the code in the places below. In each case the model follows the code.

- **Expiry.** The intended design rejects a token once its expiry is at or before now. `verifyToken` rejects only when `exp < time()` (config.php:76). A token is therefore still accepted at the instant `exp` (`Tokens.ExpiryBoundary`).
- **Bearer prefix.** The intended design strips an optional leading `Bearer `. `str_replace('Bearer ', '', ..)` (coach_data.php:16, profile.php:16) deletes every occurrence, anywhere, in one pass (`PhpStrings.RemoveAllInner`, `PhpStrings.RemoveAllSinglePass`).
- **Default child.** The intended design picks the first child by ascending id. The query `SELECT id FROM children WHERE user_id = ? LIMIT 1` (coach_data.php:42) has no `ORDER BY`. It is modelled as the first row in store order.
- **Subject must exist.** The intended design calls a token valid only if its subject exists. `coach_data.php` never looks the user up, so a valid token for a deleted or never-created id passes its guard. `profile.php` does look the user up, and answers `User not found` (`ProfileEndpoint.ProfileUserNotFound`).
- **Signature.** The intended design asks for signed tokens. The code's token is the plain encoding of the claims. `$secret_key` (config.php:50) is never used, so anyone can mint a token for any user (`Tokens.ForgedTokenVerifies`, `AuthGuard.GuardAcceptsForgedToken`).

## Model

| member | source | states |
|---|---|---|
| Responses.SendResponse | api/config.php:29-41 | The envelope always has `status` and `message` with the given values. It has `data` exactly when data is not null, carrying that value. It has no other keys. |
| Responses.FailureIsNotSuccess | api/config.php:29-41 | A failure envelope has `status` false and no `data` key. A success envelope has `status` true. |
| ClaimsCodec.DecodeEncode | api/config.php:54-63 | Decoding what `Encode` produced gives back exactly the encoded claim set, for every claim set. |
| ClaimsCodec.ParseEncodeNat | api/config.php:63 | A decimal digit run is read back whole when no digit follows it. This is the induction under the round trip. |
| ClaimsCodec.ParseEncodeChars | api/config.php:63 | An encoded email is read back whole, whatever text follows it. |
| ClaimsCodec.NoSpaceInEncoding | api/config.php:63 | Every token, whatever its claims hold, is written in a fixed alphabet of digits and `~ # - , .`. Like base64 text, a token never contains a space, so no `Bearer ` can occur inside it and stripping cannot damage it. |
| Tokens.GenerateToken | api/config.php:49-64 | The token decodes to `iat = now`, `exp = now + 86400`, and the given `user_id` and `email`. |
| Tokens.VerifyToken | api/config.php:67-84 | A token is accepted iff it decodes, has `exp` and `user_id`, and `now <= exp`. An accepted token returns exactly the decoded claim set. |
| Tokens.IssuedTokenVerifies | api/config.php:49-84 | An issued token is accepted iff `now <= issuedAt + 86400`. When accepted it yields the user and email it was issued for. |
| Tokens.ExpiryBoundary | api/config.php:75-78 | A token is still accepted at `now == exp`, and refused at any `now > exp`. |
| Tokens.RejectsIncomplete | api/config.php:69-73 | A token that does not decode, or lacks `exp` or `user_id`, is refused at every time. |
| Tokens.ForgedTokenVerifies | api/config.php:67-84 | Any claim set with `user_id` and an unexpired `exp` is accepted unchanged. Nothing checks who produced it. |
| Passwords.HashPassword | api/register.php:38 | The stored credential keeps the drawn salt. `password_verify` accepts a password against it iff it is the hashed password. |
| PhpStrings.Trim | api/register.php:17-18 | The result is one contiguous stretch of the input. Its first and last characters are not trim characters. Everything cut off on either side is a trim character. |
| PhpStrings.RemoveAll | api/coach_data.php:16 | The result is never longer than the input. An empty pattern leaves the input unchanged. |
| PhpStrings.RemoveAllAbsent | api/coach_data.php:16 | A string missing some character of the pattern comes back unchanged. |
| PhpStrings.RemoveAllKeepsPrefix | api/coach_data.php:16 | When no occurrence starts in the first `n` places, those `n` characters are kept verbatim. |
| PhpStrings.RemoveAllAfter | api/coach_data.php:16 | For all strings `a`, `b` and any non-empty pattern: if no occurrence starts inside `a`, then removing from `a + p + b` keeps `a`, deletes that `p`, and carries on with `b`. An occurrence is deleted wherever it stands, not only at the front. |
| PhpStrings.SinglePassRejoins | api/coach_data.php:16 | Deleting an occurrence of a suitable pattern from the middle of its own two halves rejoins the pattern, which then stays in the result. |
| PhpStrings.RemoveAllInner | api/coach_data.php:16 | An occurrence in the middle of the header is deleted too: `xBearer y` becomes `xy`. |
| PhpStrings.RemoveAllSinglePass | api/coach_data.php:16 | Deletion is one pass: `BearBearer er ` becomes `Bearer `, not the empty string. |
| Store.FirstIndex | api/login.php:21-30 | It gives the index of the first row the condition holds of, or reports correctly that it holds of none. This is the first row of a `WHERE` query in table order. |
| Store.UserIndexByEmail | api/login.php:21-30 | It finds the first row with the email, or reports correctly that no row has it. |
| Store.UserIndexById | api/profile.php:27-36 | It finds the first row with the id, or reports correctly that no row has it. |
| Store.FirstChildIndex | api/coach_data.php:42-52 | It finds the first child row the user owns in store order, or reports correctly that the user owns none. |
| Store.OwnRows | api/coach_data.php:31-52 | Every row returned is owned by the user, and there are no more rows than in the table. |
| Store.OwnRowsMembers | api/coach_data.php:31-52 | A row is among the user's own rows iff it is in the table and the user owns it. |
| Store.ChildrenOf | api/profile.php:40-48 | The listing has exactly one entry per row the user owns. |
| Store.ChildrenOfOwnRows | api/profile.php:40-48 | The k-th entry of the listing is the selected columns of the user's k-th own row, in store order. |
| Store.ChildrenOfAppend | api/profile.php:40-48 | The children listing of a concatenated table is the concatenation of the two listings. Store order is kept. |
| Store.ChildrenOfExact | api/profile.php:40-48 | A view is in the listing iff some row owned by the user selects to it. |
| Store.OwnsChildInOwnRows | api/coach_data.php:31-38 | The owner check of a child id depends on the user's own rows only. |
| Store.FirstChildIsFirstOwnRow | api/coach_data.php:42-52 | The default child is the first of the user's own rows. |
| AuthGuard.Guard | api/coach_data.php:4-24 | A non-GET gets `Method not allowed`. A missing header gets `Authorization required`. Otherwise the request is let through iff the stripped token verifies, with the subject set to the token's `user_id`; if not, it gets `Invalid or expired token`. |
| AuthGuard.ExtractToken | api/coach_data.php:16 | The extracted token is never longer than the header; it is RemoveAll of the prefix, which RemoveAllAfter characterises, and ExtractPlainToken shows a header without spaces is taken whole. |
| AuthGuard.ExtractPlainToken | api/coach_data.php:16 | A token without spaces comes out of the stripping intact, with or without the prefix. |
| AuthGuard.GuardOnIssuedToken | api/profile.php:4-24 | For any user and any email, a GET with `Bearer ` and an issued token is let through as its user while `now <= issuedAt + 86400`, and refused as invalid or expired otherwise. |
| AuthGuard.GuardAcceptsForgedToken | api/coach_data.php:15-24 | A self-made encoding naming any victim id with an unexpired `exp` is let through as the victim. |
| CoachDataEndpoint.RequestedChildId | api/coach_data.php:27 | A sent `child_id` is used as it is. An id other than 0 is always the one the client sent. With no `child_id`, the id is 0, which selects the default child. |
| CoachDataEndpoint.ResolveChild | api/coach_data.php:27-54 | A positive id resolves iff the subject owns that child, and then to that id; otherwise it gets `Child not found or not authorized`. A missing or non-positive id resolves iff the subject owns a child, and then to the first one in store order; otherwise it gets `No children found for this user`. |
| CoachDataEndpoint.CoachData | api/coach_data.php:1-94 | A success happens only for a non-preflight request whose guard authenticated a subject and whose requested child resolved for that subject, so only after the ownership check passes. Every success carries the fixed message and the constant coach payload. Conversely, for an authenticated non-preflight request a resolved child always gets that payload, and a resolver error reaches the client as its own message. |
| CoachDataEndpoint.CoachDataForOwner | api/coach_data.php:27-94 | For an authenticated caller: a requested child it owns gets the payload, and one it does not own gets `Child not found or not authorized`. With no child requested, a caller owning some child gets the payload, and one owning none gets `No children found for this user`. |
| CoachDataEndpoint.ResolveSeesOnlyOwnRows | api/coach_data.php:29-54 | Two stores that agree on the subject's own rows resolve every request alike. |
| CoachDataEndpoint.CoachDataSeesOnlyOwnRows | api/coach_data.php:1-94 | The endpoint's reply is determined by the authenticated caller's own children. |
| Store.OwnRowsAppend | api/coach_data.php:31-52 | The user's own rows of a concatenation are the concatenation of their own rows. |
| CoachDataEndpoint.ForeignChildInvisible | api/coach_data.php:30-38 | Inserting another user's child anywhere in the store changes no reply. A request for a foreign child reads exactly like one for a missing child. |
| ProfileEndpoint.ProfileReply | api/profile.php:1-57 | A successful profile reply implies a non-preflight request whose token authenticated a subject who has a user row. Its data is the first user row with the subject's id, without the password (all of id, name, email and created_at), and that subject's children listing. So it is never another user's. |
| ProfileEndpoint.FetchChildren | api/profile.php:39-49 | The loop collects exactly the selected columns of every child the user owns, in store order. |
| ProfileEndpoint.Profile | api/profile.php:1-57 | The script's reply, step by step against the database, is `ProfileReply` of the tables. The database is left as it was. |
| ProfileEndpoint.ProfileUserNotFound | api/profile.php:26-34 | A valid token whose subject has no user row gets `User not found`. |
| ProfileEndpoint.ProfileOfSubject | api/profile.php:26-57 | For an existing subject, the reply is its row without the password and exactly its own children (both directions), in store order. |
| LoginEndpoint.Login | api/login.php:1-49 | A successful login was a well-formed POST. The first row with the trimmed email verifies the password. The reply is that row's account with a fresh token for its id and email. |
| LoginEndpoint.LoginUnknownEmail | api/login.php:20-28 | An email no row has gets `Invalid email or password`. |
| LoginEndpoint.LoginKnownEmail | api/login.php:20-49 | For a registered email, the right password gives the row's account and token. A wrong one gives the same message as an unknown email. |
| LoginEndpoint.LoginRejectsMalformed | api/login.php:4-15 | A non-POST gets `Method not allowed`. A POST without email or password gets `Missing required fields`. |
| RegisterEndpoint.RegisterOutcome | api/register.php:1-61 | The users table is either unchanged or grows by exactly one row at the end. The reply is a success iff it grew. The new row takes the next id, and the counter moves by one exactly then. |
| RegisterEndpoint.RegisterRejectsMalformed | api/register.php:4-24 | A non-POST gets `Method not allowed`. A POST without name, email or password gets `Missing required fields`. A complete request whose trimmed email fails validation gets `Invalid email format`. Each leaves table and counter unchanged. |
| RegisterEndpoint.RegisterRejectsDuplicate | api/register.php:26-34 | A valid email that is already present gets `Email already registered`, and the table and counter are unchanged. |
| RegisterEndpoint.RegisterAppendsNewUser | api/register.php:37-58 | An accepted registration appends the row with the trimmed name and email, the hashed password and the next id. The reply's token decodes to that id and email with a 24-hour window. |
| RegisterEndpoint.RegisterInsertFails | api/register.php:44-61 | A failed INSERT leaves the table alone and reports `Registration failed: ` followed by the database's error text. |
| RegisterEndpoint.RegisterPreservesWellFormed | api/register.php:26-45 | Registration keeps the tables well formed: unique ids and emails, ids below the counter, and every child owned by an existing user. |
| RegisterEndpoint.Register | api/register.php:1-61 | Run against the database, the script keeps it well formed and never touches the children. The reply, new users table and counter are exactly `RegisterOutcome` of the old state. |
| Scenarios.RegisterThenLogin | api/login.php:20-49 | Registering and then logging in with the same email and password logs in as the new row. |
| Scenarios.NoChildrenForFreshId | api/register.php:44-45 | In a well-formed store, no child belongs to the id the next registration gets. |
| Scenarios.RegisterThenProfile | api/profile.php:1-57 | Within 24 hours, a new registrant's token gets their own row back from the profile, with no children. |
| Scenarios.CrossAccountChildRefused | api/coach_data.php:30-38 | Asking for another user's child gets `Child not found or not authorized`. |
| Scenarios.ExpiredTokenRefusedEverywhere | api/config.php:75-78 | A token whose `exp` has passed gets `Invalid or expired token` from both protected endpoints. |
| Scenarios.GuardRefusalsAlike | api/profile.php:4-22 | Whatever the guard refuses, `profile.php` and `coach_data.php` answer identically. |

## Left out

- The MySQL connection and its failure (`die`), `mysqli` statement handling, and `$conn->close()`. The tables are values or `Database` fields, and queries are lookups over them.
- The CORS and content-type headers (config.php:17-20), `http_response_code`, `echo` and `json_encode` of the envelope. A reply is the envelope map, with `Preflight` for the OPTIONS exit.
- `php://input` and `json_decode` of the request body. The body is the map of string fields that `isset` sees. Non-string JSON values and PHP type juggling are not modelled.
- ClaimsCodec.Decode: it stands in for `json_decode(base64_decode(..))` using a concrete self-delimiting format. The round trip is proved for it, not for base64 and JSON. Its alphabet (digits and `~ # - , .`) is not base64's. Like base64 text, a token never contains a space, so no `Bearer ` can occur inside it. base64_decode's skipping of characters outside its alphabet is not modelled. A token with stray whitespace, such as a doubled space after `Bearer` or a trailing newline, is accepted by the source and refused by the model. Extra JSON keys in a token, and non-integer `exp` or `user_id` values, cannot be expressed.
- Tokens.VerifyToken: the `try`/`catch` (config.php:81-83) is not modelled, because the modelled decoder is total and never throws.
- Passwords.HashPassword: the digest is a stand-in that is not one-way, and verifying accepts exactly the hashed password. `PASSWORD_DEFAULT` (bcrypt) reads only the first 72 bytes of a password. So in the source, two passwords sharing those bytes log in alike at login.php:34; the model does not capture this. bcrypt's cost is not modelled either.
- PhpStrings.IsValidEmail: it stands in for `filter_var(.., FILTER_VALIDATE_EMAIL)` with a simpler rule: exactly one `@` with characters on both sides, and no whitespace.
- `real_escape_string` (register.php:17-18, login.php:17) is treated as the identity. In the source, a name or email containing a quote, backslash or NUL is stored and returned escaped, because the value is escaped and then bound as a prepared-statement parameter as well.
- `intval` of the `child_id` query parameter: the query map already holds the converted integers.
- The contents of the constant coach payload (coach_data.php:57-92): the model has one constant `CoachPayload`.
- MySQL's case-insensitive collation of `email`: the model compares emails exactly.
- Concurrency: the check-then-insert race in register.php, where two simultaneous registrations with one email both pass the check.
- RegisterEndpoint.Register: an AUTO_INCREMENT value consumed by a failed INSERT is not modelled, so the counter moves only when a row is added.
- `NOW()` in the INSERT and `time()` in `generateToken` are both the single parameter `now`.
- `getallheaders()` is an exact-key map. Case-insensitive header lookup is not modelled.
- The unused `$secret_key` (config.php:50) has no counterpart. The `isValidEmail` wrapper (config.php:44-46) has no counterpart beyond `PhpStrings.IsValidEmail`, which register.php:22 uses directly.
