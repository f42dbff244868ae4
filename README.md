# CursorPool server core in Dafny

CursorPool's Node/Express server keeps a small SQLite store of paying
users, code-activation entitlements and a pool of shared accounts:

- activation codes raise a user's level, extend their expiry and add to their request quota;
- an entitled user draws pool accounts, one request of quota each;
- six-digit email codes gate registration and password resets;
- administrators add pool accounts and activation codes behind an API key.

This project models that core as Dafny. The database is one `Store` class
whose fields are the tables, kept as sequences of rows in rowid order.
Each controller that writes is a method with a `modifies` frame, proved
against a pure function that gives its checks in source order. Read-only
controllers and the middleware are functions. bcrypt and JWT are passed
in as uninterpreted functions (`Identity.Crypto`, the `verify`
parameter of `AuthMiddleware.Authenticate`). The clock is a `now`
parameter in integer milliseconds.

Each module follows one source file:

| module | file |
|---|---|
| `Common` | shared helpers: `Option`, JavaScript truthiness, `String.prototype.trim`, SQLite's second-resolution clock |
| `ApiResponse` | server/src/utils/response.js |
| `ErrorHandler` | server/src/middleware/errorHandler.js |
| `Validator` | server/src/middleware/validator.js |
| `Identity`, `AuthMiddleware` | server/src/services/tokenService.js (abstract), server/src/middleware/auth.js |
| `Database` | the tables and the `db.get` lookups of the controllers |
| `EmailService` | server/src/services/emailService.js |
| `UserController`, `AccountPoolController`, `AuthController`, `AdminController`, `SystemController` | the controllers of the same names |

Every writing method requires and ensures `Store.Valid()`. That invariant says:

- user ids and emails are unique;
- no user has used more requests than their total;
- pool ids and account names are unique;
- code ids and code strings are unique;
- no code is used more often than `max_uses` allows, and no code carries a negative quota;
- verification-code ids are unique.

## Model

| member | source | states |
|---|---|---|
| Common.SqliteNow | server/src/controllers/authController.js:63-67 | `datetime('now')` and `CURRENT_TIMESTAMP` give a whole second no later than the instant and less than a second before it |
| Common.TrimStart | server/src/controllers/userController.js:89-95 | a suffix of the input whose removed prefix is all whitespace and which starts with non-whitespace, if not empty |
| Common.TrimEnd | server/src/controllers/userController.js:89-95 | a prefix of the input whose removed suffix is all whitespace and which ends with non-whitespace, if not empty |
| Common.Trim | server/src/controllers/userController.js:89-95 | `trim()`: the result is the slice of the input left after removing its whole leading and trailing whitespace runs, and starts and ends with non-whitespace |
| Common.TrimEmptyIffBlank | server/src/controllers/userController.js:89-91 | `code.trim() === ''` exactly when every character of the code is whitespace; otherwise the trimmed code is a slice of it |
| Common.Utf16Length | server/src/middleware/validator.js:6-12 | JavaScript `.length`: between the number of characters and twice it, equal to it exactly when no character lies above U+FFFF |
| ApiResponse.Success | server/src/utils/response.js:2-9 | status 200, data passed through, `msg` defaults to "Success" and `code` to "0" |
| ApiResponse.Error | server/src/utils/response.js:11-18 | data is null, `status` defaults to 400, `msg` to "Error", `code` to "-1" |
| ApiResponse.Unauthorized | server/src/utils/response.js:20-27 | status 401, null data, defaults "Unauthorized"/"UNAUTHORIZED" |
| ApiResponse.Forbidden | server/src/utils/response.js:29-36 | status 403, null data, defaults "Forbidden"/"FORBIDDEN" |
| ApiResponse.NotFound | server/src/utils/response.js:38-45 | status 404, null data, defaults "Not Found"/"NOT_FOUND" |
| ApiResponse.ValidationError | server/src/utils/response.js:47-54 | status 400, null data, defaults "Validation Error"/"VALIDATION_ERROR" |
| ApiResponse.SendSuccess | server/src/utils/response.js:57-59 | the HTTP status is 200 and equals the body's `status` |
| ApiResponse.SendError | server/src/utils/response.js:61-63 | the HTTP status equals the body's `status` (400 by default); the message is passed through and data is null |
| ApiResponse.SendersAreConsistent | server/src/utils/response.js:57-63 | both senders give an HTTP status equal to the body status, with codes "0" and "-1" by default |
| ErrorHandler.KindOf | server/src/middleware/errorHandler.js:13-31 | each of the six kinds holds exactly when its test is the first to match: name ValidationError; name UnauthorizedError or message "Unauthorized"; JsonWebTokenError; TokenExpiredError; status 404; none of these |
| ErrorHandler.FallbackStatus | server/src/middleware/errorHandler.js:33 | `err.status` when non-zero, else `err.statusCode` when non-zero, else 500 |
| ErrorHandler.Handle | server/src/middleware/errorHandler.js:13-36 | the intended reply for each kind: 400 VALIDATION_ERROR with the error's message; 401 UNAUTHORIZED, INVALID_TOKEN or TOKEN_EXPIRED; 404 NOT_FOUND; otherwise the fallback status with INTERNAL_ERROR |
| ErrorHandler.EarlierRuleWins | server/src/middleware/errorHandler.js:13-36 | a ValidationError or JWT error keeps its own status whatever `status`/`statusCode` it carries |
| ErrorHandler.ProductionHidesMessages | server/src/middleware/errorHandler.js:13-36 | in production only a validation error's own message reaches the client; every other reply carries one of five fixed messages |
| ErrorHandler.HandleAsWritten | server/src/middleware/errorHandler.js:1-36 | as written, every branch sets the intended status line and then throws a TypeError instead of sending the JSON body |
| ErrorHandler.AsWrittenLosesEnvelope | server/src/middleware/errorHandler.js:1-15 | a validation error gets status 400 as written, but the handler throws before the intended `VALIDATION_ERROR` envelope is sent |
| Validator.ValidEmailIsPattern | server/src/middleware/validator.js:1-4 | the structural email test (one '@' at position > 0, no whitespace or other '@', a '.' with a character on each side in the domain) holds exactly when the string matches the regular expression's three runs |
| Validator.ValidEmail | server/src/middleware/validator.js:1-4 | `validateEmail`: exactly one '@', not first, no whitespace, and a '.' in the domain with a character on each side (proved equal to the regular expression by ValidEmailIsPattern) |
| Validator.ValidPassword | server/src/middleware/validator.js:6-8 | `validatePassword`: present with a `.length` (UTF-16 code units) of at least 6 |
| Validator.ValidUsername | server/src/middleware/validator.js:10-12 | `validateUsername`: present with a `.length` (UTF-16 code units) from 3 to 20 |
| Validator.AcceptsSimpleAddress | server/src/middleware/validator.js:1-4 | "a@b.c" is accepted; a missing dot, an empty local part, a second '@' and a space are each rejected |
| Validator.CheckEmail | server/src/middleware/validator.js:14-34 | `next()` exactly when the email is present and valid; otherwise "Email is required" or "Invalid email format", in that order |
| Validator.CheckRegistration | server/src/middleware/validator.js:36-64 | `next()` exactly when the email is valid and the password is present with a `.length` of at least 6 UTF-16 code units; rejections in source order |
| Validator.RejectionsAreUniform | server/src/middleware/validator.js:17-30 | every rejection is HTTP 400 with body `{status: false, code: 400}` |
| Validator.AstralCharactersCountTwice | server/src/middleware/validator.js:6-8 | a password of three characters above U+FFFF has length 6 and is accepted; one of two such characters is refused |
| AuthMiddleware.BearerToken | server/src/middleware/auth.js:8-12 | a token exists exactly when the header starts with "Bearer ", and the header is that prefix followed by the token |
| AuthMiddleware.BearerRoundTrip | server/src/middleware/auth.js:8-12 | the token is recovered exactly from "Bearer " + token |
| AuthMiddleware.SchemeIsCaseSensitive | server/src/middleware/auth.js:8 | a lower-case "bearer " header is refused |
| AuthMiddleware.Authenticate | server/src/middleware/auth.js:4-27 | no bearer token gives 401 "No token provided"; a verified token yields exactly the four claims; a failure gives 401 with the error's message, or "Invalid token" when it is empty |
| AuthMiddleware.AuthenticatedOnlyWithBearer | server/src/middleware/auth.js:8-23 | `next()` runs only for a "Bearer " header whose remainder verifies |
| Database.First | server/src/config/database.js:85-95 | `db.get` returns the first matching row, and no row when none matches |
| Database.NextId | server/src/config/database.js:73-83 | the id an insert gets (`lastID`) is larger than every existing id |
| Database.FindUserById | server/src/controllers/userController.js:113 | the row found has the id; none is found exactly when no row has it |
| Database.FindUserByEmail | server/src/controllers/authController.js:11 | the row found has the email; none is found exactly when no row has it |
| Database.FindActiveCode | server/src/controllers/userController.js:93-96 | the row found has the code and status 1; none is found exactly when no such row exists |
| Database.FindCode | server/src/controllers/adminController.js:72-74 | the row found has the code string; none exactly when no row has it |
| Database.FindAccount | server/src/controllers/adminController.js:28-30 | the row found has the account string; none exactly when no row has it |
| Database.FindActiveAccount | server/src/controllers/accountPoolController.js:34-36 | the row found has the account string and status 1; none exactly when no such row exists |
| Database.LeastUsedActive | server/src/controllers/accountPoolController.js:38-40 | an active account used no more often than any other active account; none exactly when no account is active |
| Database.IdSinglesOutUser | server/src/controllers/authController.js:181-184 | with unique ids and emails, `WHERE id = ?` and `WHERE email = ?` each single out exactly the row the lookup finds |
| EmailService.DecimalString | server/src/services/emailService.js:4 | `toString()` of a natural number is a non-empty string of decimal digits |
| EmailService.DecimalRoundTrip | server/src/services/emailService.js:4 | reading the printed digits back gives the number |
| EmailService.DecimalLength | server/src/services/emailService.js:4 | a number with k + 1 digits prints as k + 1 characters |
| EmailService.GenerateVerificationCode | server/src/services/emailService.js:3-5 | every generated code is six decimal digits denoting a value in 100000..999999 |
| EmailService.NewestMatch | server/src/services/emailService.js:25-29 | the row chosen is unused, matches email, code and type, and was created no earlier than any other such row; none exactly when no row matches |
| EmailService.Check | server/src/services/emailService.js:31-38 | no match gives "Invalid or expired verification code"; a newest match past `expires_at` gives "Verification code has expired"; valid exactly when the newest match has not expired |
| EmailService.AfterCheck | server/src/services/emailService.js:35-42 | a successful check marks exactly the chosen row used and leaves every other row alone; a failed check changes nothing |
| EmailService.NoneOutstanding | server/src/services/emailService.js:25-29 | no outstanding row is left exactly when no row matches |
| EmailService.MarkingUsedConsumesOne | server/src/services/emailService.js:40 | marking a matching row used lowers the number of outstanding matches by one |
| EmailService.VerifiesAtMostOnce | server/src/services/emailService.js:40-42 | each success consumes one outstanding row; with only one, every later check of the same triple fails at any instant |
| EmailService.SendVerificationCode | server/src/services/emailService.js:7-21 | appends one unused row with the generated code, type defaulting to "register", expiry ten minutes on, and returns that code; the existing rows are unchanged |
| EmailService.VerifyCode | server/src/services/emailService.js:23-43 | returns `Check` of the old table and leaves the table as `AfterCheck` says |
| UserController.DurationDays | server/src/controllers/userController.js:119 | a missing or zero duration grants 30 days, any other the duration itself |
| UserController.NewExpireTime | server/src/controllers/userController.js:119-128 | the days are added to the current expiry while it lies in the future, and to now otherwise (its properties are ExpiryStacks) |
| UserController.ExpiryStacks | server/src/controllers/userController.js:119-128 | the new expiry is the later of current expiry and now, plus the days; a future expiry is extended, a past or missing one restarts from now |
| UserController.Activated | server/src/controllers/userController.js:130-142 | only level, expiry and total change: level becomes the max of both levels, total grows by the quota (0 if absent), used count untouched |
| UserController.Redeemed | server/src/controllers/userController.js:144-149 | only the code's used count (+1) and activation time change |
| UserController.Redeemable | server/src/controllers/userController.js:102-111 | a code is usable while its used count is below `max_uses` and now is not after its `expired_at`, if one is set |
| UserController.ActivationDecision | server/src/controllers/userController.js:89-117 | refusals in source order with their messages; a grant happens exactly when the trimmed code names an active, unexhausted, unexpired code and the user exists, and names those two rows |
| UserController.GrantKeepsInvariants | server/src/controllers/userController.js:130-149 | a grant keeps used ≤ total for users, used ≤ max_uses for codes, and uniqueness; the level never drops |
| UserController.WorkedExample | server/src/controllers/userController.js:119-132 | a 5/5 level-0 user redeeming a 30-day, 10-request, level-1 code ends at 15 requests, level 1, and 30 days after the later of old expiry and now |
| UserController.Activate | server/src/controllers/userController.js:84-162 | refusals change no table; a grant updates exactly the user row and the code row together |
| UserController.PasswordChangeRefusal | server/src/controllers/userController.js:46-68 | the first failing check in order: missing field, mismatch, a new password shorter than 6 UTF-16 code units, 404 unknown user, wrong old password |
| UserController.UpdatePassword | server/src/controllers/userController.js:41-82 | exactly the refusal of PasswordChangeRefusal (length in UTF-16 code units) changes nothing; success replaces only that user's password hash, with the hash of the new password |
| UserController.GetUserInfo | server/src/controllers/userController.js:5-39 | 404 for an unknown user; otherwise one usage summary of used and total requests and zero tokens |
| UserController.SummaryWithinQuota | server/src/controllers/userController.js:24-32 | in a valid store the summary never shows more requests used than granted |
| AccountPoolController.DistributionDecision | server/src/controllers/accountPoolController.js:9-45 | 404 unknown user, 403 expired (no expiry counts as expired), 403 quota exhausted, 404 nothing eligible, in that order; a grant names a named-and-active account or a least-used active one |
| AccountPoolController.Entitled | server/src/controllers/accountPoolController.js:20-26 | a user is entitled while an expiry is recorded and now is not after it; no expiry counts as expired |
| AccountPoolController.Selected | server/src/controllers/accountPoolController.js:32-41 | a truthy requested name selects the active account of that name; otherwise the least used active account |
| AccountPoolController.Dispensed | server/src/controllers/accountPoolController.js:50-53 | only the account's usage count (+1) and distribution time change |
| AccountPoolController.Charged | server/src/controllers/accountPoolController.js:55-58 | only the user's used count changes, by +1 |
| AccountPoolController.Describe | server/src/controllers/accountPoolController.js:62-72 | the reply shows the usage count after the increment and an empty token when none is stored |
| AccountPoolController.GrantKeepsInvariants | server/src/controllers/accountPoolController.js:47-60 | serving keeps used ≤ total and the uniqueness of ids and account names |
| AccountPoolController.GetAccount | server/src/controllers/accountPoolController.js:4-87 | refusals change nothing; a grant increments exactly the chosen account and the caller, and replies with the account |
| AccountPoolController.NewUserIsRefused | server/src/controllers/accountPoolController.js:20-30 | a user with no quota is refused with 403 whatever account is asked for |
| AccountPoolController.QuotaBoundsGrants | server/src/controllers/accountPoolController.js:28-58 | from any valid state, however many requests follow, a user receives at most `total_count - used_count` accounts; an unknown user receives none |
| AuthController.CheckUser | server/src/controllers/authController.js:7-18 | `exists` is true exactly when some user has the email |
| AuthController.EmailCodeRefusal | server/src/controllers/authController.js:22-34 | with type "register" (the default), refused exactly when the email is taken; with "reset", exactly when it is unknown; any other type is never refused |
| AuthController.SendEmailCode | server/src/controllers/authController.js:20-43 | a refusal stores no code; otherwise exactly one new six-digit code row is appended |
| AuthController.LocalPart | server/src/controllers/authController.js:61 | `split('@')[0]` is the longest prefix without '@' |
| AuthController.UsernameRuleNotApplied | server/src/middleware/validator.js:10-12 | `validateUsername` (3 to 20 characters) is not applied: the valid email "ab@c.d" makes the username "ab" |
| AuthController.NewUser | server/src/controllers/authController.js:61-67 | the inserted user has a fresh id, the local part as username, level and counters 0, and expires at creation |
| AuthController.Register | server/src/controllers/authController.js:45-92 | a taken email is refused before the code is consumed; a failed verification inserts nothing; success appends the new user and replies with a session token and a seven-day expiry in seconds |
| AuthController.TierLabel | server/src/controllers/authController.js:138-145 | levels 0, 1, 2 are Free, Basic, Pro; every other level is Premium |
| AuthController.Describe | server/src/controllers/authController.js:124-147 | the login `user_info` copies the user's counters, level and name; a missing expiry counts as the epoch |
| Common.OrElse | server/src/controllers/authController.js:96-97 | `a || b` on request fields: the first when truthy, else the second; the result is truthy iff either is (also the header-then-query rule of adminController.js:6) |
| AuthController.Login | server/src/controllers/authController.js:94-155 | 400 when identifier or password is missing; an unknown email and a wrong password get the same 401; success signs the user's four claims |
| AuthController.LoginAcceptsStoredPassword | server/src/controllers/authController.js:103-127 | a stored hash of the password logs in when hash and compare agree |
| AuthController.AppendedUserIsFound | server/src/controllers/authController.js:63-67 | the appended user is the row its email finds |
| AuthController.RegisteredUserCanLogIn | server/src/controllers/authController.js:59-67 | after registering, the same email and password log in, at tier Free |
| AuthController.ResetRefusal | server/src/controllers/authController.js:161-172 | the first failing check in order: missing field, a password shorter than 6 UTF-16 code units, 404 unknown email |
| AuthController.ResetPassword | server/src/controllers/authController.js:157-191 | exactly the refusal of ResetRefusal (length in UTF-16 code units) changes nothing; a failed "reset" verification changes no user; success replaces only that user's hash |
| AuthController.ResetUserCanLogIn | server/src/controllers/authController.js:179-184 | after a reset the new password logs in |
| AdminController.AuthenticateAdmin | server/src/controllers/adminController.js:5-17 | 401 "API key required" for no key, 401 "Invalid API key" for a mismatch; passes exactly on the configured key |
| AdminController.UnsetKeyLocksAdmin | server/src/controllers/adminController.js:8-14 | with no (or an empty) configured key nothing passes |
| AdminController.HeaderTakesPrecedence | server/src/controllers/adminController.js:6 | a correct header passes whatever the query parameter says |
| AdminController.NullIfEmpty | server/src/controllers/adminController.js:40 | `x || null` keeps exactly the non-empty strings |
| AdminController.NewAccount | server/src/controllers/adminController.js:37-41 | the new account has a fresh id, status 1, no uses, and NULL token/notes when absent |
| AdminController.AccountRefusal | server/src/controllers/adminController.js:23-34 | 400 for a missing account or password; otherwise 409 exactly when the account exists |
| AdminController.CreateAccount | server/src/controllers/adminController.js:19-54 | a refusal changes nothing; otherwise exactly the new account is appended |
| AdminController.CreatedAccountIsRequestable | server/src/controllers/adminController.js:28-41 | a new account name is what the named-account lookup of `getAccount` finds |
| AdminController.CodeExpiry | server/src/controllers/adminController.js:81-86 | `expired_at` is set exactly when the duration is positive, that many days from now |
| AdminController.NewCode | server/src/controllers/adminController.js:89-94 | the new code has a fresh id, status 1, no uses, no quota, NULL name/notes when absent, and is within its limits |
| AdminController.CodeRefusal | server/src/controllers/adminController.js:60-78 | 400 for a missing code or type; otherwise 409 exactly when the code string exists |
| AdminController.CreateActivationCode | server/src/controllers/adminController.js:56-112 | defaults level 0, duration 0, max_uses 1; a refusal changes nothing; otherwise exactly the new code is appended |
| AdminController.AppendedCodeIsFound | server/src/controllers/adminController.js:72-78 | a new code string is what the active-code lookup finds |
| AdminController.CreatedCodeIsRedeemable | server/src/controllers/adminController.js:89-94 | a new code with a use left, submitted exactly before it expires, is granted to any existing user |
| SystemController.GetPublicInfo | server/src/controllers/systemController.js:4-28 | the first active announcement row decides; with no such row, or a NULL value, the fixed default is sent |
| SystemController.Published | server/src/controllers/systemController.js:36-42 | exactly the articles with status 1, each as many times as it occurs in the table, so `COUNT(*)` is its length |
| SystemController.Insert | server/src/controllers/systemController.js:37 | inserting into a newest-first sequence keeps it newest-first and adds exactly that row |
| SystemController.SortNewestFirst | server/src/controllers/systemController.js:37 | `ORDER BY created_at DESC` gives newest first with the same rows |
| SystemController.Window | server/src/controllers/systemController.js:33-38 | at most 10 rows, the ones from the offset on, with a negative offset read as 0 |
| SystemController.Summaries | server/src/controllers/systemController.js:37 | each listed article shows its id, title and content |
| SystemController.PageNumber | server/src/controllers/systemController.js:32 | an unparsable or zero page is page 1 |
| SystemController.GetArticleList | server/src/controllers/systemController.js:30-53 | at most 10 articles from offset (page - 1) * 10 of the ranking, the page echoed, page size 10, and the count of published articles |
| SystemController.ListedArticlesArePublished | server/src/controllers/systemController.js:36-39 | every listed article is a published article of the table |
| SystemController.PagesTile | server/src/controllers/systemController.js:33-38 | pages 1 to n together are exactly the first 10n ranked articles, in order |
| SystemController.NegativePageShowsFirstPage | server/src/controllers/systemController.js:32-38 | a negative page lists the first page but echoes the negative number |
| SystemController.ReportBug | server/src/controllers/systemController.js:55-100 | a missing required field gives 400 and stores nothing; otherwise one open report (status 0) with the fields, default no screenshots, is appended |
| SystemController.Complete | server/src/controllers/systemController.js:69-79 | the seven required fields of `reportBug` are all truthy |
| SystemController.GetVersion | server/src/controllers/systemController.js:102-104 | the version is "1.0.0", sent without the envelope |

## Left out

- server/src/config/database.js: the sqlite3 driver, directory creation and the schema loader are not modelled. The tables are the `Store` fields.
- schema.sql is not part of this model. The model takes it that counters default to 0 and that `distributed_time` and `activated_at` start NULL.
- server/src/app.js mounts only `/health` and the error handler. The routers under server/src/routes are never mounted. The model treats each controller as reachable with the middleware its router names.
- server/src/middleware/rateLimiter.js is left out: it only configures a third-party library.
- tokenService and bcrypt internals are left out. Signing, verifying, hashing and comparing are uninterpreted functions, and no property of them is taken for granted.
- Concurrency is left out. Each request runs alone; each BEGIN…COMMIT is one atomic assignment; the ROLLBACK and `catch` paths that send 500 are not modelled.
- Date strings are left out: their parsing and formatting, and the mixing of ISO and SQLite formats. Times are integer milliseconds.
- AccountPoolController.Entitled: compares against the expiry cut to the second, as UTC. The source's `new Date("YYYY-MM-DD HH:MM:SS")` reads that string as local time. The same holds for the expiry `register` stores, which `login` reads.
- AdminController.CodeExpiry: adds `duration` × 86400000 ms. `Date.setDate` on the local calendar can differ by an hour across a daylight-saving change.
- SystemController.PageNumber: takes the page already parsed. `parseInt` of the path segment is not modelled.
- EmailService.GenerateVerificationCode: `Math.random` and `Math.floor` become a nondeterministic choice of an integer in 100000..999999.
- EmailService.NewestMatch: breaks ties toward the earliest row. Database.LeastUsedActive does the same. SQLite leaves the order of tied rows open.
- SystemController.SortNewestFirst: gives one of the orders SQLite may return when articles share a creation time.
- SystemController.GetPublicInfo: the stored value is kept already parsed, as an announcement. `JSON.parse` and a malformed value (which sends 500) are not modelled.
- SystemController.ReportBug: the description is kept as a record. `JSON.stringify` is not modelled.
- Audit columns (`created_at`, `updated_at`, `create_time`, `update_time`) are not modelled. Logging is not modelled.
- Strings holding an unpaired surrogate are not modelled: JavaScript allows them, a Dafny string cannot hold one. Every other character counts as one or two UTF-16 code units, as `.length` counts it.
- Request fields that are not strings (numbers or objects where strings are expected) are not modelled. Absent and empty fields are modelled exactly.
- The random-code branch of `createActivationCode` (adminController.js:65-69) has no counterpart. It can never run, because a missing code is refused on line 60.

## Findings

| source | as written | input that shows it | evidently intended | confidence | as-written member | corrected member |
|---|---|---|---|---|---|---|
| server/src/middleware/errorHandler.js:1 | binds `ApiResponse` to the exports object of response.js, which has no `validationError`, `unauthorized`, `notFound` or `error` member, so every branch throws a TypeError | any error reaching the handler, e.g. `{name: "ValidationError", message: "bad"}`: the status line is set, then the builder call throws, and Express's own final handler answers in place of the JSON envelope | import the class (`require('../utils/response').ApiResponse`) so the chain replies 400/401/404/fallback with the envelope | high (not executed) | ErrorHandler.HandleAsWritten | ErrorHandler.Handle |
