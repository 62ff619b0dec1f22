# OTP-gated registration, sessions and articles: a Dafny model

This project models the logic of a small content-management application:

- **Registration and sessions** (`AuthService`). A would-be user asks for a
  one-time code. The service keeps a pending registration per email in an
  in-memory table (`otpCache`): the six-digit code, the bcrypt digest of the
  chosen password, and a deadline ten minutes ahead. Verifying the right code
  before the deadline creates the account and consumes the entry. Expired
  entries are deleted when a verification meets them, and by a periodic sweep.
  Login, refresh and logout maintain one stored refresh token per user. A
  refresh rotates it; a logout clears it.
- **Articles** (`ArticlesService`). Create, list, fetch, update and delete over
  the articles table. An ADMIN lists every article; anyone else lists only
  published ones. Both lists are newest first. Every answer goes through one
  response projection, whose author email falls back to `'Unknown'`.
- **The article list page**: the all/published/draft filter, the list
  updates after a delete or a publish toggle, and the 200-character preview.
- **The registration page**: the password checks and their order, the
  sanitiser of the code field, and the two-step `credentials → otp` flow with
  resend and back.

Files and modules:

| file | module | models |
|---|---|---|
| `outcomes.dfy` | `Outcomes` | `Option`, and `Result` standing for a value returned or an exception raised |
| `seqs.dfy` | `Seqs` | `Array.prototype.filter` and its order and partition properties |
| `identity.dfy` | `Identity` | user ids, the `UserRole` enum, bcrypt digests, JWT claims and tokens |
| `bcrypt_limit.dfy` | `BcryptLimit` | bcrypt's 72-byte input limit, base64url and the compact form of a JWT (see Findings) |
| `otp_code.dfy` | `OtpCode` | `toString` of the drawn code; every draw gives six digits |
| `users.dfy` | `Users` | the users repository the service calls (a map plus a unique email index) |
| `auth_service.dfy` | `Auth` | `AuthService` as a class whose fields are `otpCache` and the users store |
| `auth_scenarios.dfy` | `AuthScenarios` | request sequences and what the contracts guarantee about them |
| `articles_service.dfy` | `Articles` | `ArticlesService` as a class over a map from id to row |
| `article_list.dfy` | `ArticleList` | the pure list logic of the article list page |
| `register_page.dfy` | `RegisterPage` | the checks, and a class holding the page's state and handlers |
| `js_text.dfy` | `JsText` | JavaScript string lengths, which count UTF-16 code units |

How the model stands in for the outside world:

- Time is a parameter `now`, in milliseconds.
- The random code is a parameter `code`, any integer in [100000, 999999].
  `Math.floor(100000 + Math.random() * 900000)` ranges over exactly these integers.
- The outcome of mailing the code is a parameter `delivered`.
- A reply from the backend to a page is a parameter `reply`.
- bcrypt and JWT signing are idealised symbolically. A digest is
  `Bcrypt(secret)`, and `Compare` accepts exactly the password it was made
  from. Real bcrypt reads only the first 72 bytes of its input; `BcryptLimit`
  models that, and the Findings section shows what it does to refresh
  tokens. A token is its claims, the secret that signed it (access or
  refresh) and its issued-at second. So tokens over the same claims, of the same kind
  and issued in the same second are equal, as signed JWTs are.
- The pages' `.length` and `substring` count UTF-16 code units, where a
  Dafny string counts characters. A character outside the Basic
  Multilingual Plane (an emoji) counts two. The page checks are modelled with
  `JsText.Utf16Length`.
- The users store and the articles table are maps. Their generated uuids are
  modelled as counters.

Two points where the program's stated intent and its code part ways; the
model follows the code:

- The controller passes the admin's all/published/draft filter on to
  `findAll` (backend/src/articles/articles.controller.ts:64-66), as if the
  server narrowed the list, but `findAll` takes only the role. The model's
  `FindAll` therefore depends only on the role, and the three-way filter
  exists only on the page (`ArticleList.FilteredArticles`).
- The five-minute sweep is meant to keep a pending entry from outliving its
  deadline by more than the sweep interval. That depends on the timer, which
  is left out. The model proves what one sweep removes.

## Model

| member | source | states |
|---|---|---|
| `Identity.Hash` | src/auth/auth.service.ts:66 | the digest of a password is accepted by `Compare` for that password |
| `Identity.Compare` | src/auth/auth.service.ts:173-179 | `bcrypt.compare`, idealised: a digest accepts a password exactly when it is the digest made from that password (see Left out) |
| `Identity.CompareAcceptsOnlyItsPassword` | src/auth/auth.service.ts:173-179 | `Compare(p, Hash(q))` holds exactly when `p == q` (idealised bcrypt; see Left out) |
| `BcryptLimit.Truncated` | src/auth/auth.service.ts:200-203 | what bcrypt reads of its input: a prefix, of at most 72 characters |
| `BcryptLimit.CompareAsWritten` | src/auth/auth.service.ts:200-203 | `bcrypt.compare` as the library computes it: the hashed text itself is accepted; when either text is shorter than 72 bytes only that text is; otherwise exactly the texts agreeing with it on the first 72 bytes |
| `BcryptLimit.CompareAsWrittenWithinLimit` | src/auth/auth.service.ts:173-179 | for inputs of at most 72 bytes, the library's compare agrees with the idealised `Compare` |
| `BcryptLimit.CompareAsWrittenIgnoresTail` | src/auth/auth.service.ts:173-179 | two inputs that agree on their first 72 bytes are accepted by the library's compare, even when `Compare` tells them apart |
| `BcryptLimit.Base64Url` | src/auth/auth.service.ts:218-242 | base64url without padding has length ceil(4n/3) for n bytes |
| `BcryptLimit.Base64UrlPrefix` | src/auth/auth.service.ts:218-242 | the first 4k characters of an encoding depend only on the first 3k bytes |
| `BcryptLimit.Payload` | src/auth/auth.service.ts:220-225 | a token's payload opens with `{"sub":"` and the subject, ahead of the other claims |
| `BcryptLimit.TokenText` | src/auth/auth.service.ts:218-242 | the compact form header.payload.signature and its length |
| `BcryptLimit.TokenStart` | src/auth/auth.service.ts:200-203 | what bcrypt reads of a token is the header, the dot and 35 characters of the encoded payload |
| `BcryptLimit.SharedPayloadStartSharedPrefix` | src/auth/auth.service.ts:200-203 | two tokens whose payloads share their first 27 bytes look the same to bcrypt |
| `BcryptLimit.SignatureTells` | src/auth/auth.service.ts:218-242 | tokens of equal-length parts differ when their signatures do |
| `BcryptLimit.SameSubjectPayloads` | src/auth/auth.service.ts:220-225 | two payloads for one subject of at least 19 bytes share their first 27 bytes |
| `BcryptLimit.RefreshCheckAsWritten` | src/auth/auth.service.ts:196-206 | the check as written: refused without a stored token, and always accepts the stored token itself |
| `BcryptLimit.RotatedOutTokenAccepted` | src/auth/auth.service.ts:194-212 | as written, a token of the same user that rotation replaced still passes, although it differs from the stored one |
| `OtpCode.Decimal` | src/auth/auth.service.ts:63 | `toString` of a non-negative integer is a non-empty string of decimal digits |
| `OtpCode.ParseDecimalOfDecimal` | src/auth/auth.service.ts:63 | reading the printed code back gives the drawn integer (round trip) |
| `OtpCode.DecimalInjective` | src/auth/auth.service.ts:63 | distinct draws print as distinct codes |
| `OtpCode.DecimalLength` | src/auth/auth.service.ts:63 | a number with k digits prints as k characters |
| `OtpCode.CodeIsSixDigits` | src/auth/auth.service.ts:62-63 | every draw in [100000, 999999] prints as exactly six digits, never with a leading zero |
| `Users.UserStore.FindByEmail` | src/auth/auth.service.ts:57 | finds a user exactly when some row holds that email, and returns that row |
| `Users.UserStore.FindById` | src/auth/auth.service.ts:195 | finds a user exactly when the id has a row, and returns that row |
| `Users.UserStore.CreateWithHashedPassword` | src/auth/auth.service.ts:113-119 | adds one USER row under a fresh id, with the given digest stored as is and no refresh token; the email index stays unique |
| `Users.UserStore.UpdateRefreshToken` | src/auth/auth.service.ts:133 | overwrites that user's stored token only; every other row, the key set and the email index are unchanged |
| `Auth.Unexpired` | src/auth/auth.service.ts:44-51 | what a sweep leaves; `SweepRemovesExactlyExpired` and `SweepIdempotent` state its properties |
| `Auth.SweepRemovesExactlyExpired` | src/auth/auth.service.ts:44-51 | an entry survives the sweep exactly when `now` is not past its deadline, and survives unchanged |
| `Auth.SweepIdempotent` | src/auth/auth.service.ts:44-51 | a second sweep at the same or an earlier time removes nothing more |
| `Auth.GetTokens` | src/auth/auth.service.ts:218-248 | both tokens carry the claims `{sub, email, role}`; one is signed as access and one as refresh, so they differ |
| `Auth.RotationChangesToken` | src/auth/auth.service.ts:208-209 | a rotated refresh token differs from the old one exactly when the clock has reached another second |
| `Auth.AuthService.constructor` | src/auth/auth.service.ts:29-41 | the service starts with an empty `otpCache` over a consistent users store |
| `Auth.AuthService.CleanupExpiredOtps` | src/auth/auth.service.ts:44-51 | afterwards `otpCache` holds exactly the entries whose deadline `now` has not passed, unchanged; users untouched |
| `Auth.AuthService.SendOtp` | src/auth/auth.service.ts:53-90 | an email with an account gets Conflict and `otpCache` is unchanged. Otherwise the entry becomes (six-digit code, digest, now + 10 min), replacing any earlier one; other emails are untouched. A failed mail gives BadRequest and leaves no entry for the email, even if one existed before |
| `Auth.AuthService.VerifyOtpAndRegister` | src/auth/auth.service.ts:92-143 | no entry: NotFound, nothing changes. Past the deadline (strictly): the entry is deleted, BadRequest. Wrong code: BadRequest, entry kept. Right code: a USER row under a fresh id with the stored digest and the new refresh token; the entry is consumed; returns the token pair and `{id, email, role}` |
| `Auth.AuthService.Login` | src/auth/auth.service.ts:167-192 | fails exactly for an unknown email or a wrong password, with the same Unauthorized error and no change; otherwise returns the new pair and user view and stores the refresh token |
| `Auth.AuthService.RefreshTokens` | src/auth/auth.service.ts:194-212 | fails with Access Denied exactly when the user is missing, has no stored token, or presents another token; otherwise returns a new pair and stores its refresh token |
| `Auth.AuthService.Logout` | src/auth/auth.service.ts:214-216 | the user's stored token becomes null; nothing else changes |
| `AuthScenarios.WrongCodeThenRightCode` | src/auth/auth.service.ts:96-122 | a wrong guess keeps the entry, so the right code still registers up to and including the deadline |
| `AuthScenarios.ResendReplacesCode` | src/auth/auth.service.ts:72-77 | after a second send the first code is refused and the second registers |
| `AuthScenarios.LateCodeIsGone` | src/auth/auth.service.ts:98-106 | a late verification deletes the entry, so the right code then meets NotFound |
| `AuthScenarios.RegisteredEmailConflicts` | src/auth/auth.service.ts:56-60 | once an email has registered, a new send for it gets Conflict |
| `AuthScenarios.LogoutEndsRefresh` | src/auth/auth.service.ts:194-216 | after logout every refresh attempt for that user is denied |
| `AuthScenarios.LoginThenRefresh` | src/auth/auth.service.ts:167-212 | the refresh token from login is accepted once; after rotation in a later second, replaying it is denied |
| `Articles.ToResponseDto` | backend/src/articles/articles.service.ts:78-89 | copies id, title, content, isPublished, authorId and both timestamps; the author email is the author's, else `'Unknown'`, and is never empty |
| `Articles.Merge` | backend/src/articles/articles.service.ts:66 | each supplied field (title, content, isPublished) replaces the row's; id, author and createdAt are kept |
| `Articles.MergeIdempotent` | backend/src/articles/articles.service.ts:66 | applying the same update twice equals applying it once |
| `Articles.InsertPosition` | backend/src/articles/articles.service.ts:36-43 | in a newest-first list, everything before the position is strictly newer and everything from it on is not newer |
| `Articles.InsertKeepsNewestFirst` | backend/src/articles/articles.service.ts:36-43 | inserting at that position keeps the list newest first and adds exactly the new element |
| `Articles.ListingStep` | backend/src/articles/articles.service.ts:35-46 | one step of the listing loop keeps the list newest first, made of projections, with distinct ids covering the visible rows seen so far |
| `Articles.VisibleToUserIsPublished` | backend/src/articles/articles.service.ts:39-44 | a list holding exactly a non-admin's visible rows holds only published articles |
| `Articles.ArticlesService.constructor` | backend/src/articles/articles.service.ts:15-18 | the service works over the table it is given, rows and all (each row filed under its own id), with id generation continuing past every existing id |
| `Articles.ArticlesService.Create` | backend/src/articles/articles.service.ts:20-30 | adds one row under a fresh id, authored by the caller, unpublished unless requested, created and updated now; responds with its projection (author `'Unknown'`) |
| `Articles.ArticlesService.FindAll` | backend/src/articles/articles.service.ts:32-47 | newest first; each visible article exactly once (ADMIN: all, others: published only), as its projection |
| `Articles.ArticlesService.FindOne` | backend/src/articles/articles.service.ts:49-55 | NotFound exactly when the id is absent; otherwise the projection, whatever its published state |
| `Articles.ArticlesService.Update` | backend/src/articles/articles.service.ts:57-69 | NotFound and no change when the id is absent; otherwise only that row changes, to the merge of the supplied fields |
| `Articles.ArticlesService.Remove` | backend/src/articles/articles.service.ts:71-76 | the id is gone afterwards; NotFound exactly when no row was deleted |
| `ArticleList.FilteredArticles` | app/page.tsx:80-85 | the page's filter; `AllShowsEverything`, `PublishedAndDraftPartition`, `FilteredIsSubsequence` and `PublishedListFilters` state its properties |
| `ArticleList.AllShowsEverything` | app/page.tsx:80-81 | `'all'` keeps the whole list |
| `ArticleList.PublishedAndDraftPartition` | app/page.tsx:82-83 | `'published'` keeps exactly the published articles and `'draft'` exactly the others; together they make up the list |
| `ArticleList.FilteredIsSubsequence` | app/page.tsx:80-85 | every filter result is an order-preserving subsequence of the list |
| `ArticleList.PublishedListFilters` | app/page.tsx:80-85 | on a list of published articles, `'draft'` shows nothing and `'published'` shows all |
| `ArticleList.DeleteById` | app/page.tsx:61 | the list after a delete; `DeleteRemovesExactlyThatId` and `DeleteAfterReplace` state its properties |
| `ArticleList.DeleteRemovesExactlyThatId` | app/page.tsx:61 | no article with the id remains, every other stays in order, and the list shrinks by the number of matches |
| `ArticleList.RejectedIsCount` | app/page.tsx:61 | the filter in the delete drops one element per article carrying the id |
| `ArticleList.ReplaceById` | app/page.tsx:73 | the toggle keeps the list's length |
| `ArticleList.ReplaceKeepsIds` | app/page.tsx:73 | with the server's article under the same id, the id sequence is unchanged, other positions are untouched, and matching positions hold the server's article |
| `ArticleList.ReplaceAbsentIsIdentity` | app/page.tsx:73 | toggling an id not in the list leaves the list unchanged |
| `ArticleList.DeleteAfterReplace` | app/page.tsx:61-73 | deleting an article after toggling it gives the same list as deleting it outright |
| `ArticleList.Preview` | app/page.tsx:196-197 | content of at most 200 code units is shown whole; longer content as a proper prefix of 199 or 200 code units followed by `'...'` |
| `ArticleList.PreviewShape` | app/page.tsx:196-197 | the preview is at most 203 code units; on text in the Basic Multilingual Plane it is the content when that has at most 200 characters, else its first 200 characters followed by `'...'` |
| `JsText.CodeUnits` | app/page.tsx:197 | a character takes one code unit exactly when it is in the Basic Multilingual Plane, otherwise two |
| `JsText.Utf16Length` | app/page.tsx:197 | `.length` lies between the character count and twice it |
| `JsText.BmpLengthAgrees` | app/page.tsx:197 | on text in the Basic Multilingual Plane, `.length` is the character count |
| `JsText.Utf16LengthConcat` | app/page.tsx:196-197 | code units add up over concatenation |
| `JsText.Utf16Prefix` | app/page.tsx:196 | `substring(0, n)` on whole characters: a prefix within n code units, all of the text when it fits, otherwise stopping where the next character would not fit (so at most one unit short) |
| `JsText.Utf16PrefixOfBmp` | app/page.tsx:196 | on text in the Basic Multilingual Plane, that prefix is the first n characters |
| `RegisterPage.ReplyError` | frontend/app/register/page.tsx:44-46 | the server's message when it is present and non-empty, else the fallback text |
| `RegisterPage.CredentialsError` | frontend/app/register/page.tsx:27-35 | the credential checks in their order; `CredentialsCheck` states their outcome |
| `RegisterPage.CredentialsCheck` | frontend/app/register/page.tsx:27-35 | the credentials pass exactly when the passwords agree and are at least 6 code units long; a mismatch is reported before the length; on text in the Basic Multilingual Plane the bound is 6 characters |
| `RegisterPage.KeepDigits` | frontend/app/register/page.tsx:188 | the digits of the typed text: only digits, never more characters than typed |
| `RegisterPage.OnOtpInput` | frontend/app/register/page.tsx:187-190 | the code field after typing; `OtpInputSanitised` and `DigitsPassThrough` state its properties |
| `RegisterPage.OtpInputSanitised` | frontend/app/register/page.tsx:188-189 | the field keeps only digits and at most six; more than six typed digits leave the old value |
| `RegisterPage.DigitsPassThrough` | frontend/app/register/page.tsx:188 | typed text that is all digits passes the sanitiser unchanged |
| `RegisterPage.OtpCodeError` | frontend/app/register/page.tsx:57-60 | the code check before the call; `OtpCodeCheck` states its outcome |
| `RegisterPage.OtpCodeCheck` | frontend/app/register/page.tsx:57-60 | a code passes exactly when it is six code units long, which for digits is six characters; otherwise the 6-digit error is shown |
| `RegisterPage.RegisterForm.constructor` | frontend/app/register/page.tsx:13-20 | every field starts empty, with no notices, not loading, on the credentials step |
| `RegisterPage.RegisterForm.OnEmailChange` | frontend/app/register/page.tsx:111 | the email field takes the typed value |
| `RegisterPage.RegisterForm.OnPasswordChange` | frontend/app/register/page.tsx:122 | the password field takes the typed value |
| `RegisterPage.RegisterForm.OnConfirmPasswordChange` | frontend/app/register/page.tsx:134 | the confirmation field takes the typed value |
| `RegisterPage.RegisterForm.OnOtpChange` | frontend/app/register/page.tsx:187-190 | the code field becomes the sanitised input and stays at most six digits |
| `RegisterPage.RegisterForm.HandleSendOtp` | frontend/app/register/page.tsx:22-50 | a failed check sets its error and makes no call. Otherwise one call: success moves to the OTP step and shows the notice; failure shows the error and keeps the step |
| `RegisterPage.RegisterForm.HandleVerifyOtp` | frontend/app/register/page.tsx:52-75 | a code that is not six characters is refused before any call; otherwise the user is signed in exactly when the server accepts; email, both passwords, the code and the step are unchanged |
| `RegisterPage.RegisterForm.HandleResendOtp` | frontend/app/register/page.tsx:77-93 | on success the notice shows and the code field is cleared; on failure the error shows; email, both passwords and the step never change |
| `RegisterPage.RegisterForm.Back` | frontend/app/register/page.tsx:256-261 | returns to the credentials step with the code, the error and the notice cleared |
| `RegisterPage.HappyPath` | frontend/app/register/page.tsx:22-75 | matching passwords of at least six code units, an accepted send, six typed digits and an accepted verification sign the user in from the OTP step |

## Findings

| source | as written | input that shows it | evidently intended | confidence | as-written member | corrected member |
|---|---|---|---|---|---|---|
| src/auth/auth.service.ts:200-206 | the refresh token is checked with `bcrypt.compare`, which reads only the first 72 bytes, against the digest of the stored token | a user logs in, refreshes once (the stored token is replaced), then presents the first token. Both tokens start with the same 36-character header, a dot and 35 characters that depend only on `{"sub":"` and the first 19 characters of the user's 36-character uuid (src/users/entities/user.entity.ts:14-15), so the old, still unexpired token is accepted | only the stored refresh token is accepted, and rotation retires the previous one | not executed; follows from bcrypt's documented 72-byte limit and the JWT compact form | `BcryptLimit.RotatedOutTokenAccepted` | `Auth.AuthService.RefreshTokens` (replay refused: `AuthScenarios.LoginThenRefresh`) |

## Left out

- Mail delivery (src/mail/mail.service.ts) is SMTP I/O. Sending the code is the `delivered` parameter. The welcome mail's failure is only logged, so it is not modelled at all.
- bcrypt's salt and cost factor, and JWT secrets, expirations and signature checking, are foreign cryptography. They are idealised symbolically (see above).
- `Math.random` is floating point; the drawn code is a parameter in [100000, 999999].
- `new Date()` and `setMinutes` are the clock. `now` is a parameter in milliseconds, and local-time (daylight-saving) effects of `setMinutes` are not modelled.
- The five-minute `setInterval` timer and concurrency between requests are left out. The sweep is an explicit call, and each request runs to completion.
- `register` (src/auth/auth.service.ts:145-165), the deprecated path that creates a user without a code, is left out. Its user creation hashes inside `UsersService.create`, which is not part of this model. Without it, no account can appear for an email that has a pending entry, and `AuthService.Valid` records this. With it, a registration racing a pending one would reach `createWithHashedPassword` with a taken email; verification does not check for that again.
- Identity.Compare, and with it Identity.CompareAcceptsOnlyItsPassword: idealised; the latter holds of this `Compare` only. bcrypt reads the first 72 bytes, so the program also accepts any password that shares them with the right one (`BcryptLimit.CompareAsWrittenIgnoresTail`).
- Auth.AuthService.RefreshTokens: accepts only the stored token, the evidently intended check. As written, `bcrypt.compare` reads only 72 bytes, which every token of one user shares, so the replay guarantee of `AuthScenarios.LoginThenRefresh` holds of this corrected check, not of the program; see Findings. Logout still ends refreshing as written, since no token is stored then.
- BcryptLimit.Truncated: counts characters. They are bytes for ASCII text such as a token, but a password with non-ASCII characters reaches 72 bytes sooner.
- BcryptLimit.TokenText: the signature is a parameter, since HMAC is not modelled. The header constant is written out, not derived by `Base64Url`.
- ArticleList.Preview: when the 200th code unit is the first half of a surrogate pair, `substring` keeps that lone half, and the model stops before the character instead. The same happens when 200 code units would cut an astral character.
- RegisterPage.CredentialsCheck: counts code units like the page. Lone surrogates cannot occur in a Dafny string, so the model does not cover text containing them.
- Users.UserStore.UpdateRefreshToken: records the token itself. Whatever hashing `UsersService.updateRefreshToken` does is not part of this model. `RefreshTokens` compares the presented token with the recorded one by equality.
- Auth.AuthService.VerifyOtpAndRegister: requires a six-character code and does not check the email's syntax. Those are the request DTO's validation (backend/src/auth/dto/verify-otp.dto.ts:9-18).
- The users table's timestamps, and the article entity's relation-loading settings, are left out. The entity file is not part of this model. A row of the table the service is given carries its author's email when the relation is loaded, and then every read of it names that email.
- Articles.ArticlesService.Create: the row it stores never gets its author's email, so `create` answers `'Unknown'` and later reads of that row (`FindOne`, `Update`, `FindAll`) do too. That matches the program only if the author relation is not eagerly loaded; the entity file that decides it is not part of this model.
- Articles.ArticlesService.Update: sets `updatedAt` to `now` on every save. The database's own rule for `@UpdateDateColumn` is not modelled.
- Articles.ArticlesService.FindAll: among articles created at the same time, the order is not specified, as with the database.
- Routing, guards, Swagger and DTO decorators are left out. The controllers, modules and DTO classes contribute only preconditions (`Create` requires a non-empty title and content).
- On the pages, the following are left out: rendering, the inputs' HTML constraints (frontend/app/register/page.tsx:108-192: `type="email"` and `required` on the fields, `minLength={6}` on both password fields, `maxLength={6}` on the code field), which decide whether the browser submits the form to `handleSendOtp` at all and cap what the code field's `onChange` receives, translations, `localStorage` (`setAuthData`), navigation, `confirm`/`alert` dialogs and the `disabled` state of buttons. `loading` is modelled only as set before a call and cleared when the handler ends.
- The second copy of the list page (frontend/app/page.tsx) duplicates the list updates modelled here. The profile, login and article form pages only forward to the API. The HTTP client (lib/api.ts) and the language switcher are I/O and display.
