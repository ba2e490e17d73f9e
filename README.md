# User accounts and guards of the apartment-rental API

This project models the user core of an Express/Mongoose REST service:

- **Listing users** (`GET /easy-rent/api/v1/users`). The handler copies the query string and drops the reserved
  keys `sort`, `page`, `pageSize` and `fields`. It turns the rest into a Mongo filter by writing
  the keys out as JSON and putting `$` in front of every stand-alone `gte`, `lte`, `gt` and `lt`.
  It then reads the sort order, the projection, the page and the page size, with their defaults
  (`-createdAt`, `-__v -password`, 1 and 50). It answers 404 when a page is asked for that starts
  at or after the number of users.
- **The user document.** The role and subscription enumerations and their defaults. The two
  pre-save hooks: one hashes a modified password and drops the confirmation; the other stamps
  `passwordChangedAt` one second in the past. Also the "password changed after this token"
  check and the ten-minute password-reset token.
- **The account routes that write users.** Forgot-password issues a reset token and takes it
  back when the mail cannot be sent. Reset-password redeems the token. Update-me builds its
  update data: it refuses a body whose top-level `password`, `confirmPassword` or `role` is
  set, and strips the protected top-level fields.
- **The guards.** `authenticate` reads the `Bearer` token, verifies it, loads the user and checks
  that the password was not changed after the token was issued. `authorize(...roles)` refuses
  any role it does not list.

Modules: `Runtime` holds the JavaScript behaviour the handlers rely on: truthiness, `x * 1`,
`split`/`join`, hex encoding, and the error answers. `OperatorRewrite` holds the filter's
regular-expression rewrite, `UserListQuery` the listing, `UserModel` the document and
`UserRoutes` the account routes. `Auth` holds the guards.

The listing's rewrite is given two readings. `OperatorRewrite.Scan` follows the regex engine
character by character. `OperatorRewrite.TokenwiseRewrite` rewrites whole word tokens.
`OperatorRewrite.RewriteOperators` states, and `OperatorRewrite.ScanTokenStart` proves by
induction, that the two agree on every string.

Stateful parts are modelled as classes:

- `UserModel.User` is a document whose setters and hooks change its fields. Its `Save` is
  proved against `UserModel.SaveStep`.
- `UserRoutes.UserCollection` holds the users collection. Its two route methods are proved
  against `UserRoutes.ForgotPasswordFor` and `UserRoutes.ResetPasswordFor`.
- `Auth.Request` is a request that `authenticate` attaches a user to. Its method takes the
  reading of the stale-password guard as a parameter: `AsWritten` is the code as it stands,
  and `Intended` is the corrected guard.

Where the code and its stated intent differ, the model follows the code:

- The page-not-found test compares the skip with the count of *all* users
  (`countDocuments()` without the filter), not with the number of matching users
  (`routes/api/user.js:82-83`).
- `page` and `pageSize` are not checked to be positive. A negative value gets through
  `x * 1 || default` unchanged (`routes/api/user.js:76-77`).
- `authenticate` never rejects a token for a later password change (see Findings). Even
  with the guard corrected, a token signed up to two seconds before the change stays valid:
  the change is stamped 1000 ms early and the token's `iat` is in whole seconds
  (`UserModel.StampedChangeStaleIff`). A token "issued at T, changed at T+1" is therefore
  accepted.

## Model

| member | source | states |
|---|---|---|
| `Runtime.SplitJoinReplaces` | routes/api/user.js:57 | `split(',').join(' ')` replaces every comma by a space and changes nothing else |
| `Runtime.SplitJoinRoundTrip` | routes/api/user.js:57 | splitting on a separator and joining with the same separator gives back the string |
| `Runtime.NumberOfIntString` | routes/api/user.js:76-77 | `x * 1` on the decimal text of an integer is that integer |
| `Runtime.HexRoundTrip` | models/Users.js:152 | `toString('hex')` loses nothing: the hex text decodes back to the bytes |
| `Runtime.StringToNumber` | routes/api/user.js:76-77 | `Number(text)` ignores surrounding white space, so a blank text is 0; a number it gives comes from a signed decimal integer, and a negative one from a leading minus |
| `Runtime.ToNumber` | routes/api/user.js:76-77 | only a text or an array of at most one element converts to a number; a longer array or an object is NaN |
| `Runtime.TrimPadding` | routes/api/user.js:76-77 | trimming removes exactly the white space around a text that begins and ends with something else |
| `Runtime.PaddedNumber` | routes/api/user.js:76-77 | white space around an integer's decimal text does not change its value, e.g. `?page=%202` is page 2 |
| `Runtime.LowerCase` | models/Users.js:16 | the `lowercase` setter maps every character to its lower case and keeps the length |
| `Runtime.SplitFirstPiece` | middlewares/auth.js:17 | the first field of a split is the text before the first separator; the remaining fields are the split of the text after it |
| `OperatorRewrite.Scan` | routes/api/user.js:46-49 | the regex engine's scan never shortens the text and makes it at most half as long again (each `$` it adds goes before a match of at least two characters); what it adds is stated by `RewriteOperators` |
| `OperatorRewrite.ScanTokenStart` | routes/api/user.js:46-49 | wherever the text does not continue a word, the regex engine's scan equals the whole-word rewrite of the rest |
| `OperatorRewrite.RewriteOperators` | routes/api/user.js:46-49 | the global replacement of the words `gte`, `lte`, `gt` and `lt` between word boundaries equals rewriting each whole word token on its own, on every string |
| `OperatorRewrite.TokenwiseAppend` | routes/api/user.js:46-49 | the token rewrite distributes over a concatenation that does not split a word |
| `OperatorRewrite.OperatorTokenPrefixed` | routes/api/user.js:46-49 | an operator that stands as its own word gains a `$`, and the text around it is rewritten independently |
| `OperatorRewrite.OtherWordKept` | routes/api/user.js:46-49 | any other whole word is copied unchanged, e.g. `gtx` or `price_gt` |
| `OperatorRewrite.RewriteUnchangedIff` | routes/api/user.js:46-49 | the rewrite leaves a string unchanged exactly when no word of it is an operator |
| `UserListQuery.WithoutKeys` | routes/api/user.js:36-42 | the copy holds exactly the keys of the query that are not reserved, with their values |
| `UserListQuery.DeleteKeys` | routes/api/user.js:36-42 | deleting the keys one by one from a copy yields `WithoutKeys` |
| `UserListQuery.CommaListParam` | routes/api/user.js:54-71 | an absent or falsy `sort`/`fields` gives the default; a string has its commas replaced by spaces; a truthy non-string answers 400 |
| `UserListQuery.NumericParam` | routes/api/user.js:76-77 | `x * 1`, falling back to the default on a falsy result, is never 0; it is the default exactly when the parameter is missing, not a number, zero, or equal to the default, and any other number given is used as it is |
| `UserListQuery.ListQueryFor` | routes/api/user.js:36-89 | the listing fails with 400 exactly when `sort` or `fields` is a truthy non-string, and with 404 exactly when they are text, a `page` is given and (page-1)·pageSize reaches the number of users; a built query has limit pageSize (never 0), skips (page-1)·pageSize users, and has a sort and projection without commas |
| `UserListQuery.BuildListQuery` | routes/api/user.js:36-89 | the handler's steps yield the filter, sort, projection, skip and limit of `ListQueryFor`, or its 400/404 |
| `UserListQuery.FilterIgnoresReservedKeys` | routes/api/user.js:36-49 | two queries that agree outside the reserved keys get the same filter |
| `UserListQuery.OutcomeIgnoresFilterKeys` | routes/api/user.js:54-89 | two queries that agree on the reserved keys get the same sort, projection, skip, limit and page-not-found decision |
| `UserListQuery.NoPageNoMissingPage` | routes/api/user.js:76-89 | without a truthy `page` there is no 404, and without any `page` the skip is 0 |
| `UserListQuery.WindowNeverUnbounded` | routes/api/user.js:76-79 | the limit is never 0 (which Mongo reads as "no limit") and neither is the page |
| `UserListQuery.MissingPageIff` | routes/api/user.js:76-89 | for page k and size s (both at least 1) the answer is 404 exactly when (k-1)·s ≥ total, i.e. when k > ⌈total/s⌉ |
| `UserListQuery.DefaultSizeMissingPageIff` | routes/api/user.js:76-89 | `?page=k` without a page size, even padded with white space, skips (k-1)·50 users and answers 404 exactly when (k-1)·50 ≥ total |
| `UserListQuery.FirstPageOfEmptyCollection` | routes/api/user.js:82-88 | `?page=1` on an empty collection answers 404 |
| `UserListQuery.ListParamsSpaced` | routes/api/user.js:54-71 | the sort and projection handed to Mongo never contain a comma |
| `UserModel.ParseRole` | models/Users.js:57-61 | the role validator accepts exactly `user`, `admin` and `developer` |
| `UserModel.ParseSubscription` | models/Users.js:78-82 | the subscription validator accepts exactly `basic`, `silver`, `gold` and `diamond` |
| `UserModel.EnumNamesRoundTrip` | models/Users.js:57-82 | every role and subscription type parses back from its name |
| `UserModel.NewRecord` | models/Users.js:12-82 | the email is stored lower-cased; a new user is valid exactly when its given role and subscription are in the enumerations; the defaults are role `user`, subscription `basic`, not active and subscribed |
| `UserModel.ChangedPasswordAfter` | models/Users.js:133-148 | no change time means not stale; for a change time on or after the epoch, a token is stale exactly when (iat+1)·1000 ≤ the change time |
| `UserModel.ChangedPasswordAfterIff` | models/Users.js:133-148 | a token from the change's own second is not stale, and one from the second before is |
| `UserModel.StampedChangeStaleIff` | models/Users.js:115-148 | with the change stamped at now−1000, a token is stale exactly when (iat+2)·1000 ≤ now |
| `UserModel.TokenSignedAfterChangeNotStale` | models/Users.js:115-121 | a token signed at or after the stamped change time is not stale |
| `UserModel.HashPasswordStep` | models/Users.js:107-112 | an unmodified password is left alone; a modified one is replaced by its hash and the confirmation dropped; hashing a missing password fails |
| `UserModel.StampStep` | models/Users.js:115-121 | the change time becomes now−1000 exactly for a modified password of a stored document, and nothing else changes |
| `UserModel.SaveStep` | models/Users.js:107-121 | a save fails exactly on a modified missing password; otherwise it hashes and stamps as above and leaves a clean, stored document |
| `UserModel.SaveIdempotent` | models/Users.js:107-121 | saving right after a save changes nothing: the password is hashed once |
| `UserModel.User.SetPassword` | routes/api/user.js:533 | assigning the password changes only it and marks it modified exactly when the value differs |
| `UserModel.User.SetConfirmPassword` | routes/api/user.js:534 | assigning the confirmation changes only it |
| `UserModel.User.ClearResetToken` | routes/api/user.js:535-536 | both reset-token fields become undefined and nothing else changes |
| `UserModel.User.HashPasswordHook` | models/Users.js:107-112 | the document's fields become `HashPasswordStep` of the old ones, or stay when it fails |
| `UserModel.User.StampPasswordChangeHook` | models/Users.js:115-121 | the document's fields become `StampStep` of the old ones |
| `UserModel.User.Save` | models/Users.js:107-121 | the document becomes `SaveStep` of its old state and the saved record is returned; a failed save changes nothing |
| `UserModel.User.GeneratePasswordResetToken` | models/Users.js:151-161 | returns the hex of the 32 random bytes; stores only its SHA-256 digest and an expiry ten minutes ahead |
| `UserModel.IssueResetToken` | models/Users.js:155-158 | the issued record holds the digest and now+600000 as expiry, and is otherwise unchanged |
| `UserModel.IssuedTokenRedeemableIff` | models/Users.js:158 | a fresh token is found by its own digest exactly until ten minutes have passed, and never by another digest |
| `UserModel.ResetTokenEncodesEntropy` | models/Users.js:152 | the plaintext token is 64 hex characters that decode to the random bytes |
| `UserRoutes.IndexOfEmail` | routes/api/user.js:391 | `findOne({ email })`, with the email already cast, finds the first user with that email, and none when no user has it |
| `UserRoutes.IndexHoldingToken` | routes/api/user.js:520-525 | the reset lookup finds the first user whose digest matches and whose expiry is still in the future |
| `UserRoutes.UpdateMeData` | routes/api/user.js:638-658 | the handler's steps yield `UpdateMeDataFor` of the body |
| `UserRoutes.UpdateMeDataFor` | routes/api/user.js:638-658 | the update is refused exactly when the top-level `password`, `confirmPassword` or `role` is truthy; otherwise it drops the six protected top-level fields, forces `isActiveUser` true and copies every other field |
| `UserRoutes.UpdateOperatorSetsRole` | routes/api/user.js:638-659 | a body `{"$set": {"role": "admin"}}` is accepted and keeps its `$set`, so the role check does not see a role set through an update operator |
| `UserRoutes.ForgotPasswordFor` | routes/api/user.js:384-499 | forgot-password succeeds exactly when a non-empty email, lower-cased, is a stored user's and the mail goes out, and then mails the token (the member returns it as the mailed value; the response itself is only a success message); a refused request changes no record |
| `UserRoutes.ResetPasswordFor` | routes/api/user.js:512-537 | the token is refused exactly when no user holds its digest unexpired; a refused or failed reset writes nothing; a successful one replaces only the holder's record, by one without reset token |
| `UserRoutes.UserCollection.ForgotPassword` | routes/api/user.js:384-499 | the route's answer and the new collection are those of `ForgotPasswordFor`, with the hex of the random bytes as the mailed token |
| `UserRoutes.UserCollection.ResetPassword` | routes/api/user.js:512-537 | the route's answer and the new collection are those of `ResetPasswordFor` |
| `UserRoutes.ForgotPasswordTouchesOnlyToken` | routes/api/user.js:384-499 | forgot-password changes only the reset-token fields, and every record other than the requester's stays exactly as it was |
| `UserRoutes.MailFailureRevokesToken` | routes/api/user.js:491-499 | when the mail fails the answer is 500, the user's record is the original with both reset-token fields cleared, and the generated token redeems nothing |
| `UserRoutes.EmailLookupIgnoresCase` | routes/api/user.js:391 | two spellings of an address that differ only in letter case find the same account and change the collection alike |
| `UserRoutes.SignedUpEmailFound` | routes/api/user.js:384-402 | a user created with an address is found by forgot-password under any letter case of it |
| `UserRoutes.MailedTokenResets` | routes/api/user.js:399-537 | the token mailed by forgot-password, used within ten minutes, resets that user's password to the hash of the new one and clears the token |
| `UserRoutes.ResetPasswordSuccess` | routes/api/user.js:518-537 | a matched reset stores the hash, drops the confirmation and the token, stamps the change time, and changes no other user |
| `UserRoutes.ResetWithoutPasswordKeepsToken` | routes/api/user.js:533-537 | for a user with a stored password, a reset without a password fails in the hashing hook with 400 and writes nothing (with no stored password nothing is modified, and the reset succeeds) |
| `UserRoutes.SecondRedemptionRejected` | routes/api/user.js:518-531 | a redeemed token is refused the second time |
| `Auth.ExtractToken` | middlewares/auth.js:13-18 | a token is read only from a header that starts with `Bearer`, and holds no space |
| `Auth.AuthenticateWith` | middlewares/auth.js:5-61 | under any reading of the guard: no token gives the missing-token 401; every refusal is one of the four 401s; an accepted request's token names the attached user; only a guard that fires gives the stale-password answer |
| `Auth.Authenticate` | middlewares/auth.js:5-61 | with the guard corrected, an accepted token names the attached user and was issued no earlier than that user's last password change |
| `Auth.AuthenticateAsWrittenAcceptsIff` | middlewares/auth.js:5-61 | the code as written accepts exactly a verified token naming an existing user, however stale, and attaches that user |
| `Auth.BearerHeaderYieldsToken` | middlewares/auth.js:13-18 | `Bearer <token>` yields the token |
| `Auth.BareBearerYieldsNothing` | middlewares/auth.js:13-18 | a bare `Bearer` yields no token |
| `Auth.ExtractTokenIsSecondField` | middlewares/auth.js:13-18 | the token is the header's second space-separated field when the header starts with `Bearer`, and there is none otherwise |
| `Auth.NoTokenDecidedFirst` | middlewares/auth.js:21-26 | without a token the answer is the 401 for a missing token, whatever the verifier and the database would say |
| `Auth.UnverifiedTokenInvalid` | middlewares/auth.js:28-60 | a token that fails verification is answered "Invalid token" |
| `Auth.AuthenticateAsWritten` | middlewares/auth.js:39-45 | the code as written never gives the stale-password answer |
| `Auth.AsWrittenAdmitsStaleTokens` | middlewares/auth.js:39-45 | the code as written and the corrected guard differ only where the corrected guard rejects a stale token, which the code admits |
| `Auth.SynchronousGuardInverted` | middlewares/auth.js:39-45 | for a token naming an existing user, the guard read synchronously answers the stale-password 401 exactly when the token is not stale and admits exactly the stale ones; the corrected guard does the reverse |
| `Auth.StaleTokenAdmittedExample` | middlewares/auth.js:39-45 | a token from second 5000 for a password changed at 10,000,000 ms is admitted as written and rejected when corrected |
| `Auth.AuthenticateAcceptsIff` | middlewares/auth.js:5-61 | with the guard corrected, `authenticate` would accept exactly a verified token naming an existing user whose password did not change after the token was issued, and attaches that user |
| `Auth.Request.AuthenticateRequest` | middlewares/auth.js:47-52 | under the given reading of the guard (the code as it stands, or corrected), the request's answer is `AuthenticateWith`'s; on success the user is attached, otherwise the request is unchanged |
| `Auth.Authorize` | middlewares/auth.js:63-78 | the user passes exactly when their role is listed, and is otherwise answered 403 |
| `Auth.ListingRolesAdmit` | routes/api/user.js:29 | the user listing admits administrators and developers and refuses plain users |

## Left out

- `JSON.stringify` of the filter object is a parameter of the listing. `JSON.parse` of the rewritten text is not modelled: the filter is kept as the rewritten text.
- Executing a query is not modelled: `find`, `sort`, `select`, `skip`, `limit`, `countDocuments` and `findByIdAndUpdate` belong to the database. The model stops at the values handed to them.
- `x * 1` is modelled for decimal integer text with an optional sign; white space around it is ignored, as JavaScript does. Fractions, exponents, hex literals and `Infinity` read as not-a-number here.
- `Runtime.LowerCase`: it maps only the ASCII letters, while `toLowerCase` also maps other scripts, because Unicode case tables are out of scope.
- bcrypt, SHA-256, `crypto.randomBytes`, `jwt.verify`, `jwt.sign` and the clock are parameters. One clock reading is used per request.
- Sending the reset mail is the parameter `mailFails`. `sendEmailWithNodeMailer` (utils/email.js:7-31) catches and logs every transport error, so in the program the compensation runs only when building the mail itself throws, for example on a user without a name. The mail text and the response bodies are not modelled; an error keeps only its status and message.
- A database error thrown during a route (the outer `catch` that answers 400) is not modelled. The exception is a failed hashing hook, which gives `Failed(400)`.
- Non-string `email` and `password` values in a body, and Mongoose's casting of them, are not modelled. Strings are assumed.
- Fields selected out by `select: false` are modelled as loaded: the document holds all its fields.
- Fields the modelled code does not decide on are not modelled: `name` (read only to address the reset mail), `phone`, `address`, `avatar`, the OAuth ids and `createdAt`. Their validators (`name` and `phone` required, the email format) are not modelled either.
- `Runtime.StringToNumber`: it reads every integer exactly, while JavaScript rounds integers above 2^53 to the nearest double (`?page=9007199254740993` is page 9007199254740992 there), because floating point is out of scope.
- `findByIdAndUpdate` applies the update operators (`$set`, `$unset`, ...) of an update-me body that the route does not inspect. `UserRoutes.UpdateOperatorSetsRole` shows such a body passing the route's checks; the database update that then changes the role is not modelled.
- The other routes of `routes/api/user.js` (sign-up, log-in, change-password, the admin update, delete) and the apartment routes are not modelled.
- `authorize` running without an attached user (a `TypeError`) is not modelled: it always runs after `authenticate`.
- The rate limiter, logging and the HTTP layer are not modelled. An error answer is modelled by the `statusCode` and `errMessage` of its JSON body, so the HTTP status the handler sets is not captured. Several handlers answer with the default 200 and a 400 or 404 in the body.
- `UserModel.User.GeneratePasswordResetToken`: it does not state that the plaintext is never stored, because SHA-256 is an arbitrary function here.
- `UserRoutes.MailedTokenResets`: it states the reset only when the new password differs from the stored one and no other user holds the same digest, because the route cannot tell them apart otherwise.

## Findings

| source | as written | input that shows it | evidently intended | confidence | as-written member | corrected member |
|---|---|---|---|---|---|---|
| middlewares/auth.js:39-45 | `checkIfUserChangedPasswordAfterJWTToken` is `async`, so the guard negates a Promise, which is always truthy; the guard never fires and every stale token is admitted | a user whose password changed at 10,000,000 ms presents a valid token with `iat` 5000 | reject a token issued before the last password change | high; not executed | `Auth.AuthenticateAsWritten` | `Auth.AuthenticateAcceptsIff` |
