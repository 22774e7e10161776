# Accounts, credentials and rights of the ECF Express/React back office

This project is a Dafny model of the account and credential core of an Express back office. The
back office serves three kinds of account: administrators, partners, and structures attached to a
partner. The model covers:

- the account store services and their three token slots (`access_token`, `passwordlost_token`,
  `activation_token`);
- the `authenticate` middleware;
- the guard chains of the account route handlers;
- the credential validators and the random password generator;
- the rights join-table services;
- the client helpers for capitalisation, delays, durations and tokens.

The sqlite database is an in-memory `Store.Db` object with three tables held as sequences of raw
rows. A `SELECT ... WHERE` is a `Filter`; an `UPDATE` or `DELETE` reassigns the table.

Modules, one file each:

| module | file | what it models |
|---|---|---|
| `Wrappers` | wrappers.dfy | `Option` |
| `JsText` | jstext.dfy | the JavaScript string semantics the code relies on |
| `Store` | store.dfy | rows, tables, the `Db` object, `Filter` |
| `Credentials` | credentials.dfy | `functions.js` validators and `securePassword` |
| `AccountServices` | accountservices.dfy | `controllers/accounts/services.js` |
| `Http` | http.dfy | status/body responses |
| `Middleware` | middleware.dfy | `controllers/accounts/middleware.js` |
| `AccountRoutes` | accountroutes.dfy | `controllers/accounts/index.js` |
| `RightsServices` | rightsservices.dfy | `controllers/rights/services.js` |
| `ClientHelpers` | clienthelpers.dfy | `ui/src/js/functions.js` |

`JsText` covers `trim` and `\s`, `\w`, `parseInt`, `String(n)`, `Buffer.toString("hex")` and
`split`.

How the model is laid out:

- **Pure source code** (projections, filters, validators, the lookup cascade) is written as
  functions. Lemmas state what the code promises.
- **Code that updates tables in place** (`generateToken`, `clearToken`, `refreshToken`,
  `deleteAccount`, `deleteAccountRights`, `assignDefaultRights`, and every route handler except
  `POST /emailexists`, which only reads and is the function `AccountRoutes.EmailExists`) is a
  `method` on `Db` with a `modifies` clause. Each method's `ensures` ties the new tables and the
  response to a specification function of the old tables (`...Plan`, `AfterIssue`,
  `AfterDelete`, `AssignedRights`). Lemmas then prove the guard properties about those
  functions.
- **Loops the source writes** are `while`/`for` loops with invariants:
  - the rejection loop of `securePassword.generate`;
  - the insert loop of `assignDefaultRights`;
  - the `levels` accumulation of `secondsToHuman`.
- **Code not shown in the repository** is abstract. That covers `createAccount`, `activate`,
  `changePassword`, `accountExists`, `nameExists`, `verifyHashedPassword`, `formatAccountDatas`,
  `jwt.sign`/`jwt.verify`, the mailer and `getGravatarUrl`. Each is a function-valued field of
  `AccountRoutes.Services` or a function parameter, so every proof holds for any implementation.
- **Inputs the source reads from the outside world** are parameters:
  - the 64 random bytes of a token;
  - the random byte stream of the password generator;
  - the clock, as integer seconds or milliseconds;
  - the environment: `ITEMS_PER_PAGE`, `PARTNERS_CAN_DELETE_STRUCTS`, `SEND_MAILS_ON_DELETE`,
    `JWT_EXPIRE`, `FRONTEND_NEWPASSWORD_LINK` and `TOKENS_LENGTH`.

Points of the code's behaviour that the model keeps as they are:

- **Token issuance needs an active account.** `generateToken` looks the account up with the
  lookup that refuses inactive accounts, so an inactive account gets no token
  (`AccountServices.GenerateToken`).
- **Generated passwords are not re-drawn.** `securePassword.generate` returns the first password
  it draws, which need not pass the strong predicate (`Credentials.GeneratedPasswordMayBeWeak`).
- **A wrong password at login is 401.** The refused password predicate of `getAccount` answers
  401 (`AccountServices.GetAccountCascade`).
- **`authenticate` reveals whether an account exists.** After a valid token, `authenticate`
  passes the lookup's 404 (no such account) and 403 (inactive) to the client before it compares
  the stored token (`Middleware.AccountChecksBeforeSecret`).
- **Default rights come from a truthy filter.** `getDefaultRights` keeps rows whose
  `is_default` is truthy, while `cleanRight` maps only `1` to true
  (`RightsServices.TruthyDefaultCleansToFalse`).
- **The `cleanAccount` and `cleanRight` maps are discarded.** `getAccounts` and `getRights` throw
  away the result of their maps and return raw rows. The model returns raw rows too.
- **The route handlers run the code as written.** Where the Findings below name a correction,
  the routes still use the as-written member, and the corrected member stands beside it.

## Model

| member | source | states |
|---|---|---|
| AccountServices.CleanAccountRoles | controllers/accounts/services.js:14-24 | with `is_admin` in {0,1} and `partner_id` >= 0, exactly one of admin, partner, structure holds |
| AccountServices.CleanAccountNoRole | controllers/accounts/services.js:15-21 | an `is_admin` other than 0 or 1 gives no role at all |
| AccountServices.CleanAccountRoundTrip | controllers/accounts/services.js:14-24 | for 0/1 flags, `active` and `is_admin` become `raw === 1` and the row can be rebuilt from the cleaned account |
| AccountServices.SecureAccountData | controllers/accounts/services.js:8-12 | a stored avatar URL is kept; a null one is replaced by the gravatar of the email |
| AccountServices.SecureAccountDataKeepsTheRest | controllers/accounts/services.js:8-12 | every field except the three secrets survives: putting the secrets back gives the account again |
| AccountServices.SecureAccountDataHidesSecrets | controllers/accounts/services.js:9 | the result does not depend on the password, access token or password-lost token |
| AccountServices.WithSlot | controllers/accounts/services.js:144-147 | `SET ${tokenType} = value` sets that slot and leaves the other two slots as they were |
| AccountServices.WithSlotKeepsColumns | controllers/accounts/services.js:144-147 | the update changes no other column, and writing the old value back restores the row |
| AccountServices.UpdateSlotRows | controllers/accounts/services.js:144-147 | `UPDATE ... WHERE email` changes exactly the rows with that email, and the table keeps its length |
| AccountServices.UpdateSlotIdempotent | controllers/accounts/services.js:160 | performing the same update twice gives the same table as performing it once |
| AccountServices.GetAccount | controllers/accounts/services.js:26-43 | every failure is one of 404 "Account not found.", 403 "Account is not yet activated." or 401 "Unauthorized." |
| AccountServices.GetAccountCascade | controllers/accounts/services.js:26-43 | 404 iff no single row has the email; then 403 iff not `onlyExists` and inactive; then 401 iff the predicate refuses the raw row; otherwise the cleaned row |
| AccountServices.GetAccountFound | controllers/accounts/services.js:39-42 | a found account has the requested email and is the cleaned form of the only row with it |
| AccountServices.OnlyExistsLiftsActivation | controllers/accounts/services.js:33-35 | `onlyExists` only skips the activation check: both lookups agree on 404 and on every success |
| AccountServices.GetById | controllers/accounts/services.js:58-62 | `getPartner`, `getStructure` and `getAdministrator` return exactly the rows with that id |
| AccountServices.GetPartners | controllers/accounts/services.js:64-68 | exactly the raw rows with `is_admin` 0 and `partner_id` 0 |
| AccountServices.GetPartnerStructures | controllers/accounts/services.js:76-80 | exactly the raw rows whose `partner_id` is the id, in table order |
| AccountServices.GetAdministrators | controllers/accounts/services.js:88-92 | exactly the raw rows with `is_admin` 1 |
| AccountServices.HasLeastOneAdmin | controllers/accounts/services.js:186-192 | true exactly when at least two rows have `is_admin` 1 |
| AccountServices.CanIssueMeans | controllers/accounts/services.js:140-141 | a token can be issued exactly when one row has the email and it is active |
| AccountServices.GenerateToken | controllers/accounts/services.js:139-153 | a missing or inactive account changes nothing and gives `{token: "", expires: 0}`; otherwise only that slot receives the hex of the 64 random bytes, and the signed envelope with its expiry comes back |
| AccountServices.IssuedSecretIsHex | controllers/accounts/services.js:143-147 | after issuing, the slot holds 128 hex characters; no other row and no other slot changes |
| AccountServices.IssueKeepsCanIssue | controllers/accounts/services.js:139-147 | issuing does not change whether the account can be issued a token |
| AccountServices.ClearToken | controllers/accounts/services.js:155-167 | false and no change for a missing or inactive account; otherwise true and the slot becomes '' |
| AccountServices.ClearTokenIdempotent | controllers/accounts/services.js:155-167 | clearing twice equals clearing once |
| AccountServices.ClearedSlotIsEmpty | controllers/accounts/services.js:160 | after a clear the account's slot is the empty string |
| AccountServices.FoundWithCheckCanIssue | controllers/accounts/services.js:176-179 | a lookup that passes the secret check also passes the plain lookup `generateToken` runs |
| AccountServices.RefreshToken | controllers/accounts/services.js:169-184 | a verification error rejects without change; a lookup failure rejects with its code; otherwise the slot is rotated to a fresh secret and the secured account comes back with the new envelope |
| AccountServices.RefreshNeedsStoredSecret | controllers/accounts/services.js:176 | a refresh succeeds only when the stored slot equals the envelope's secret and the account is active |
| AccountServices.RotationInvalidatesOldSecret | controllers/accounts/services.js:176-179 | after rotation to a different secret, the old envelope's secret gets 401 |
| AccountServices.StructureMails | controllers/accounts/services.js:102-108 | one "account-deleted" mail per structure, in order |
| AccountServices.DeleteAccount | controllers/accounts/services.js:94-137 | deletes a partner's structures and then the account, never touches the rights tables, returns the outbox, and dispatches it only when `SEND_MAILS_ON_DELETE` is "true" |
| AccountServices.DeletePartnerCascades | controllers/accounts/services.js:97-100 | after deleting a partner, no row names it as partner and no row has its email; every other row survives |
| AccountServices.DeleteOtherRemovesEmail | controllers/accounts/services.js:122 | deleting a non-partner removes exactly the rows with its email |
| AccountServices.DeletePartnerMails | controllers/accounts/services.js:97-128 | a partner's outbox holds one mail per former structure, followed by the partner's own mail |
| AccountServices.DeleteStructureMails | controllers/accounts/services.js:111-128 | a structure's outbox ends with its own mail, and its partner is told only when the partner exists |
| Middleware.BearerTokenOf | controllers/accounts/middleware.js:19 | the token is the second space-separated field of `scheme token` |
| Middleware.BearerTokenNeedsSpace | controllers/accounts/middleware.js:19 | a header without a space yields no token |
| Middleware.Authenticate | controllers/accounts/middleware.js:15-44 | on rejection the response is set and `next` is not called; on acceptance `req.auth` is set and `next` is called exactly once |
| Middleware.Exchange.constructor | controllers/accounts/middleware.js:15-16 | a fresh exchange has no `auth`, no response and no `next` call |
| Middleware.NoHeaderIsUnauthorized | controllers/accounts/middleware.js:41-43 | a missing or empty `Authorization` header gives 403 "Unauthorized." |
| Middleware.VerificationErrors | controllers/accounts/middleware.js:22-26 | an absent or empty token gives 403 "Bad credentials.", as `jwt.verify` refuses it; an expired envelope gives 401 "Session expired."; any other verification error gives 403 "Bad credentials." |
| Middleware.SchemeOnlyIsBadCredentials | controllers/accounts/middleware.js:19-25 | a header holding only "Bearer" presents no token and gets 403 "Bad credentials." |
| Middleware.AccountChecksBeforeSecret | controllers/accounts/middleware.js:28-31 | once a presented token verifies, a missing account gives 404 and an inactive one 403, both before the secret comparison; a stored `access_token` that differs from the secret gives 401 |
| Middleware.AcceptedMeans | controllers/accounts/middleware.js:30-37 | acceptance means a presented, non-empty token with a valid envelope whose secret is the active account's stored access token; `req.auth` holds the formatted account, the presented token, and `exp`, or now when `exp` is absent |
| AccountRoutes.DeleteRoute | controllers/accounts/index.js:44-76 | the response, tables and outbox are those of `DeletePlan` on the old table |
| AccountRoutes.DeleteByStructureRefused | controllers/accounts/index.js:48-54 | a structure actor always gets 403 and nothing changes |
| AccountRoutes.DeleteSucceedsWhen | controllers/accounts/index.js:48-75 | 202 iff the target exists, the actor is not a structure, a partner actor is allowed by the flag and targets its own structure, and an admin target needs at least two admins to exist; every refusal leaves the table and outbox untouched |
| AccountRoutes.AdminSurvivesDelete | controllers/accounts/index.js:64-72 | when at least two admins exist, deleting one leaves an admin |
| AccountRoutes.SurvivesDelete | controllers/accounts/services.js:97-122 | a row that neither has the target's email nor, for a partner target, names it as partner survives the delete |
| AccountRoutes.DeleteKeepsAnAdmin | controllers/accounts/index.js:44-76 | when admins are not partners and ids are positive, no DELETE request removes the last admin |
| AccountRoutes.PartnerCheckAsWrittenAcceptsNaN | controllers/accounts/index.js:90-96 | a structure with a non-numeric `partner_id` passes both partner checks as written |
| AccountRoutes.PartnerCheckAsWrittenMeans | controllers/accounts/index.js:90-96 | as written, a structure passes exactly when its `partner_id` is not a number, or is >= 1 and the id of an existing account |
| AccountRoutes.PartnerCheck | controllers/accounts/index.js:90-96 | a structure passes only with a numeric `partner_id` >= 1 naming an existing account |
| AccountRoutes.PartnerCheckAgreesOnNumbers | controllers/accounts/index.js:91-96 | for numeric ids the corrected check answers exactly as the written one |
| AccountRoutes.CreateRoute | controllers/accounts/index.js:82-118 | the response and tables are those of `CreatePlan`, whose partner checks are the ones written: the abstract `createAccount` runs only after the whole cascade passes |
| AccountRoutes.CreateGuards | controllers/accounts/index.js:82-117 | every answer other than 201/500 leaves the tables unchanged; 201/500 iff admin, known type, a structure's `partner_id` either not a number or a positive id of an existing account, valid email and name, email and name both free |
| AccountRoutes.CreateRefusalMeans | controllers/accounts/index.js:84-117 | a non-administrator gets 403 "Account not allowed." and every check an administrator fails answers 400; the cascade lets the request through exactly under the conditions above, a non-numeric `partner_id` included |
| AccountRoutes.CreateAcceptsNaNPartner | controllers/accounts/index.js:90-111 | an admin's request for a structure with `partner_id` "abc", valid and free email and name reaches `createAccount` (201 or 500) |
| AccountRoutes.CreateCheckOrder | controllers/accounts/index.js:84-109 | for an administrator each check answers its 400 only when every earlier one passed, with the table unchanged, in the order: account type, the partner checks, email format, name format, email in use, name in use |
| AccountRoutes.CreateByNonAdminRefused | controllers/accounts/index.js:117 | a non-admin gets 403 "Account not allowed." and nothing changes |
| AccountRoutes.SelfActivation | controllers/accounts/index.js:213-224 | the response and table are those of `SelfActivationPlan` |
| AccountRoutes.SelfActivationNeedsToken | controllers/accounts/index.js:216-221 | `activate` runs (204/500) iff one row, active or not, has the email and its `activation_token` equals the supplied token; otherwise nothing changes |
| AccountRoutes.ActivationStateOfNumber | controllers/accounts/index.js:241-242 | an `active` value that is a number activates exactly when it is 1 |
| AccountRoutes.ActivateRoute | controllers/accounts/index.js:230-250 | the response and table are those of `ActivatePlan` |
| AccountRoutes.ActivateGuards | controllers/accounts/index.js:235-246 | an admin targeting its own email gets 400 and nothing changes; otherwise an existing target is activated exactly when `parseInt(active)` is 1 |
| AccountRoutes.Login | controllers/accounts/index.js:256-269 | the response and table are those of `LoginPlan` |
| AccountRoutes.LoginIssuesAndClears | controllers/accounts/index.js:259-268 | a 200 needs the only row with the email to be active with a verified password; that row then holds the fresh access token and an empty password-lost token, and no other row changes |
| AccountRoutes.IssueThenClear | controllers/accounts/index.js:262-266 | issuing the access token and then clearing the password-lost token changes only those two slots of that one row |
| AccountRoutes.LoginLookupIssuable | controllers/accounts/index.js:259-265 | an account found by the login lookup can be issued a token, before and after issuing |
| AccountRoutes.LoginClearNeverFails | controllers/accounts/index.js:262-266 | once the lookup succeeds, login answers 500 exactly when the signer returns "" |
| AccountRoutes.LogoutSelf | controllers/accounts/index.js:275-282 | the caller's access token is cleared; 204 when the caller's account is active and unique, 500 otherwise |
| AccountRoutes.LogoutOther | controllers/accounts/index.js:288-303 | the response and table are those of `LogoutOtherPlan` |
| AccountRoutes.LogoutOtherClears | controllers/accounts/index.js:290-299 | an admin logging out an active account gets 204; that account's access token becomes '' and nothing else changes |
| AccountRoutes.Refresh | controllers/accounts/index.js:309-320 | the response and table are those of `RefreshPlan` |
| AccountRoutes.RefreshRotates | controllers/accounts/index.js:309-319 | a 200 needs a valid envelope matching the stored access token, and afterwards the old envelope is refused with 401 |
| AccountRoutes.ResetLinkAsWrittenIsUndefined | controllers/accounts/index.js:332-337 | as written, the mailed link ends in `?token=undefined`, never in the stored secret |
| AccountRoutes.ResetLinkToken | controllers/accounts/index.js:337 | the corrected link carries the stored secret, which reads back from the link |
| AccountRoutes.PasswordLost | controllers/accounts/index.js:326-348 | the response, table and mail are those of `PasswordLostPlan`: issue the password-lost secret, mail the link as written, then clear the access token |
| AccountRoutes.PasswordLostGuards | controllers/accounts/index.js:326-348 | an account that cannot be issued a token gets no mail, a non-204 answer and an unchanged table; otherwise that one row holds the fresh password-lost secret, the mail goes to the email with a link ending in `?token=undefined`, and a delivered mail gives 204 with the access token cleared |
| AccountRoutes.EmptyTokenAcceptedAfterLogin | controllers/accounts/index.js:360 | as written, after a successful login the empty token passes the new-password check for that account |
| AccountRoutes.EmptyTokenChangesPasswordAfterLogin | controllers/accounts/index.js:354-369 | as written, right after a successful login, POST /newpassword with the token "" and a valid password changes that account's password (204 or 500) |
| AccountRoutes.ResetTokenAcceptedMeans | controllers/accounts/index.js:360 | the corrected check accepts no token when no reset is pending, accepts the mailed secret, and accepts only what the written check accepts |
| AccountRoutes.ChangeAndClear | controllers/accounts/index.js:365-368 | the response and table are those of `ChangeThenClear`: `changePassword` and then `clearToken` |
| AccountRoutes.ChangeThenClearEmptiesAccessToken | controllers/accounts/index.js:365-366 | a 204 means the password changed and the account's access token is now '' |
| AccountRoutes.ChangeThenClearCodes | controllers/accounts/index.js:365-368 | the shared tail answers only 204 or 500 |
| AccountRoutes.NewPasswordRoute | controllers/accounts/index.js:354-369 | the response and table are those of `NewPasswordPlan`, which compares the token as written |
| AccountRoutes.NewPasswordGuards | controllers/accounts/index.js:357-366 | the password is changed (204/500) iff the account is active and unique, its `passwordlost_token` slot equals the supplied token (an empty slot and an empty token included), and the password is valid; otherwise nothing changes |
| AccountRoutes.ChangePasswordRoute | controllers/accounts/index.js:375-393 | the response and table are those of `ChangePasswordPlan` |
| AccountRoutes.ChangePasswordGuards | controllers/accounts/index.js:378-389 | an unknown email gives 404 and nothing changes; a change happens only for the account itself or an admin, and only with a valid password |
| AccountRoutes.ResetPasswordRoute | controllers/accounts/index.js:399-416 | the response and table are those of `ResetPasswordPlan`, with the password drawn from the byte stream |
| AccountRoutes.ResetPasswordGives16Chars | controllers/accounts/index.js:402-415 | a non-administrator leaves the table unchanged; a 200 is given only to an admin, carries a 16-character password of allowed characters with no padding for the requested email, means `changePassword` stored that password, and leaves the account's access token empty |
| AccountRoutes.EmailExists | controllers/accounts/index.js:422-427 | always 200, with `exists` true exactly when one active row has the email |
| AccountRoutes.EmailExistsHidesInactive | controllers/accounts/index.js:425-426 | an inactive account is reported as not existing |
| Credentials.ValidateName | functions.js:105-107 | an accepted name is longer than 3 characters |
| Credentials.ValidateNameIgnoresPadding | functions.js:106 | surrounding whitespace does not change the verdict, since only the trimmed length counts |
| JsText.TrimIdentity | functions.js:128 | `s.trim() === s` exactly when `s` neither starts nor ends with whitespace |
| Credentials.ValidateEmail | functions.js:109-111 | an accepted address has exactly one '@', starts with a word character and ends with '.' and 2-3 word characters |
| Credentials.EmailShape | functions.js:110 | any string matching the pattern's local part, '@' and domain has that shape |
| Credentials.ClampLevel | functions.js:128 | the requested level is clamped to [0,2] |
| Credentials.ValidatePassword | functions.js:113-129 | an accepted password has no leading or trailing whitespace and its computed level equals the clamped requested level |
| Credentials.PaddedPasswordRefused | functions.js:128 | a password with leading or trailing whitespace is refused at every level |
| Credentials.StrongPasswordFailsLowerLevels | functions.js:128 | a strong password is refused at levels below 2 |
| Credentials.LevelZero | functions.js:121-128 | level 0 accepts exactly the unpadded passwords that are neither medium nor strong |
| Credentials.EmptyPasswordAtLevelZero | functions.js:128 | "" is accepted at level 0 |
| Credentials.WeakPasswordExample | functions.js:117-128 | "Pa55w0rd!" (9 characters) is refused at the default level |
| Credentials.Password1Refused | functions.js:113-128 | "password1" has no upper-case letter and is refused at the default level |
| Credentials.UnpaddedStrongAccepted | functions.js:106-128 | an unpadded strong password passes the default level |
| Credentials.StrongPasswordExample | functions.js:117-128 | "Str0ng!Pass" is accepted at the default level |
| Credentials.Kept | functions.js:82-93 | the rejection loop keeps only allowed characters, never more than the bytes it reads |
| Credentials.KeptConcat | functions.js:86-91 | bytes are kept or skipped one at a time, so the kept text of a concatenation is the concatenation of kept texts |
| Credentials.GeneratePassword | functions.js:69-95 | succeeds iff the stream yields `length` allowed characters; the password is the first `length` of them, each in `[A-Za-z0-9_\-+.]` |
| Credentials.GeneratedPasswordIsUnpadded | functions.js:70 | a generated password trims to itself |
| Credentials.GeneratedPasswordMayBeWeak | functions.js:82-94 | sixteen 'a' bytes give a generated password that `validatePassword` refuses |
| RightsServices.CleanRightKernel | controllers/rights/services.js:8-15 | two rows clean alike exactly when they agree on every other field and on `is_default === 1` |
| RightsServices.TruthyDefaultCleansToFalse | controllers/rights/services.js:8-15 | an `is_default` of 2 is truthy for the `getDefaultRights` filter but cleans to `is_default` false |
| RightsServices.WithoutAccountMembers | controllers/rights/services.js:24 | the delete keeps exactly the join rows of other accounts |
| RightsServices.WithoutAccountKeepsOthers | controllers/rights/services.js:24 | another account's join rows are unchanged, in order |
| RightsServices.DeleteAccountRights | controllers/rights/services.js:22-31 | returns true, and the join table becomes the one without the account's rows |
| RightsServices.AllRowsStart | controllers/rights/services.js:39-40 | the default start -1 selects all rows |
| RightsServices.WindowMeans | controllers/rights/services.js:42 | `LIMIT l OFFSET s` gives the contiguous rows from s on, as many as l allows |
| RightsServices.GetRightsAll | controllers/rights/services.js:39-54 | a start that is NaN or negative gives all rows (after the callback, if one is given) |
| RightsServices.GetRightsPage | controllers/rights/services.js:40-46 | a start s >= 0 gives at most `ITEMS_PER_PAGE` rows, contiguous from offset s, and stops early only at the end of the table |
| RightsServices.FilterAfterPage | controllers/rights/services.js:42-49 | a filter callback runs on the page, after the window is taken |
| RightsServices.DefaultPageCanBeEmpty | controllers/rights/services.js:61-63 | a page with no default rows gives [] even when the table holds a default right |
| RightsServices.DefaultRightsSound | controllers/rights/services.js:61-63 | every returned default right is a row of the table whose raw `is_default` is truthy |
| RightsServices.DefaultRightsAll | controllers/rights/services.js:61-63 | with no start they are exactly the truthy rows, in order |
| RightsServices.PageWithin | controllers/rights/services.js:42-44 | a page holds only rows of the table |
| RightsServices.LinkedIds | controllers/rights/services.js:72-78 | a right's id is among the collected ids iff a join row links it to the account |
| RightsServices.AccountRightsSound | controllers/rights/services.js:71-81 | no join rows for the account give []; every returned right is a table row linked to the account |
| RightsServices.AccountRightsComplete | controllers/rights/services.js:71-81 | with no start every linked right is returned |
| RightsServices.DefaultRightIdsAll | controllers/rights/services.js:89 | the ids inserted are those of every truthy row, whatever `ITEMS_PER_PAGE` is |
| RightsServices.AssignDefaultRights | controllers/rights/services.js:88-106 | returns true; the join table is the one without the account's rows, plus one row per default id |
| RightsServices.InsertLinks | controllers/rights/services.js:94-99 | the loop appends one join row per id, in order |
| RightsServices.AssignedRowsOfAccount | controllers/rights/services.js:88-106 | afterwards the account's join rows are exactly one per default id |
| RightsServices.AssignKeepsOthers | controllers/rights/services.js:88-106 | other accounts' join rows are unchanged |
| RightsServices.AssignIdempotent | controllers/rights/services.js:88-106 | assigning twice gives the same table as assigning once |
| ClientHelpers.CapitalizeMeans | ui/src/js/functions.js:10-12 | the length is kept; a word character at position 0 or right after whitespace is upper-cased; every other character stays |
| ClientHelpers.CapitalizeFromMeans | ui/src/js/functions.js:11 | the left-to-right scan for `(^\w{1})\|(\s+\w{1})` changes exactly those positions |
| ClientHelpers.CapitalizeIdempotent | ui/src/js/functions.js:10-12 | capitalising twice equals capitalising once |
| ClientHelpers.GetDelay | ui/src/js/functions.js:28-34 | the delay is never negative |
| ClientHelpers.GetDelayMeans | ui/src/js/functions.js:24-34 | the delay is 0 iff expired, otherwise the seconds left (`expires - now`), and it never grows as time passes |
| ClientHelpers.JsRem | ui/src/js/functions.js:43-48 | JavaScript `%` agrees with the mathematical remainder on non-negative operands |
| ClientHelpers.LevelsDecompose | ui/src/js/functions.js:41-49 | with seconds shown: days < 365, hours < 24, minutes < 60, seconds < 60, and the weighted sum is the input |
| ClientHelpers.Singular | ui/src/js/functions.js:59 | the singular label is the label without its last character |
| ClientHelpers.SingularPiece | ui/src/js/functions.js:54-59 | a count of 1 is written " 01 " followed by the singular label |
| ClientHelpers.PaddedReadsBack | ui/src/js/functions.js:56-57 | a positive count is written with at least two digits and reads back as itself |
| ClientHelpers.SecondsToHuman | ui/src/js/functions.js:36-63 | the method's text is the trimmed rendering of the levels |
| ClientHelpers.Accumulate | ui/src/js/functions.js:50-60 | the loop's `returntext` is the rendering of the levels, zero counts skipped |
| ClientHelpers.RenderSkipsZeros | ui/src/js/functions.js:53 | zero components add nothing to the text |
| ClientHelpers.RenderConcat | ui/src/js/functions.js:52-60 | rendering distributes over concatenated level lists |
| ClientHelpers.HumanTextOfZero | ui/src/js/functions.js:36-63 | 0 seconds, with seconds shown, give "" |
| ClientHelpers.ZeroWithoutSecondsIsAMinute | ui/src/js/functions.js:45 | without seconds, the +60 shift makes 0 seconds a one-minute level |
| ClientHelpers.JustUnderAnHourWithoutSeconds | ui/src/js/functions.js:44-45 | without seconds, 3599 gives "": the shifted minutes wrap to 0 while the hours are still 0 |
| ClientHelpers.HourMinuteSecondExample | ui/src/js/functions.js:36-63 | 3661 seconds give "01 hour 01 minute 01 second" in singular forms, years and days left out |
| ClientHelpers.HexOnlyMeans | ui/src/js/functions.js:94 | `/^[0-9a-fA-F]+$/` holds iff the token is non-empty and all hex |
| ClientHelpers.IsValidTokenMeans | ui/src/js/functions.js:93-95 | valid iff non-empty, of length `2 * TOKENS_LENGTH` and all hex |
| ClientHelpers.IssuedSecretIsValidToken | ui/src/js/functions.js:93-95 | the hex of n random bytes, as the server issues it, is a valid client token for `TOKENS_LENGTH` n |
| JsText.TrimIgnoresPadding | functions.js:106 | `trim` ignores any whitespace added around a string |
| JsText.ParseIntOfIntToString | controllers/accounts/index.js:90 | `parseInt(String(n))` is n for every integer |
| JsText.ParseIntRejectsNonDigit | controllers/accounts/index.js:90 | text starting with a character that is not a sign, a digit or whitespace parses to NaN |
| JsText.HexEncode | controllers/accounts/services.js:143 | `toString("hex")` gives two hex characters per byte |
| JsText.HexRoundTrip | controllers/accounts/services.js:143 | decoding the hex gives the bytes back |
| JsText.SplitJoin | controllers/accounts/middleware.js:19 | `split` of fields joined with a separator they do not contain gives the fields back |
| JsText.JoinSplit | controllers/accounts/middleware.js:19 | joining the fields of a split gives the string back |

## Left out

- JWT signing and verification are an abstract signer and verifier (`Services.sign`, `Services.verify`, the `verify` parameter of `Middleware.Decide`). No cryptography is modelled.
- Randomness is a parameter: 64 bytes for a token, a finite byte stream for `securePassword.generate`.
- Password hashing (`verifyHashedPassword`) is an abstract predicate.
- Mail, SMTP, template files and jsdom are left out. `deleteAccount`'s outbox is a returned list and `passwordlost`'s mail a returned value; the mailer's outcome is an abstract `sendMail`.
- The sqlite connection is left out. Tables are sequences, and store calls never fail, so these paths are unreachable in the model:
  - `deleteAccount`'s `catch` answering 500;
  - the rights services' `catch` answering false;
  - a partially completed cascade.
- The clock is an integer parameter. `ms(JWT_EXPIRE)`, `Date` objects and the ISO expiry string of `req.auth` are integer seconds here.
- A `refreshToken` verification error falls through to dereference `credentials`. The model only rejects.
- `createAccount`, `activate`, `changePassword`, `accountExists`, `nameExists` and `formatAccountDatas` are arbitrary functions. They are not part of this model, since their code is not in the repository.
- `PUT /` is left out, because it references an undefined `accountId`.
- `GET /:page?`, the rights router and the bootstrap are left out: they are string/number coercion and HTTP plumbing.
- `POST /nameexists` is left out: it only forwards `nameExists`.
- The client copy of `securePassword` (ui/src/js/functions.js:65-91) is the same code as the server's and has no separate member: `Credentials.GeneratePassword` models both.
- React components and pages, `wait`, `isMdBreakpoint` and `getGravatarUrl` are left out, as are concurrency and transactions. Requests run one at a time.
- Body fields are strings. A missing field, and the `TypeError` it raises, is not modelled.
- `ITEMS_PER_PAGE` is a natural number; unset or negative values are not modelled.
- `getRights`'s start is its decimal text, parsed with the model of `parseInt`.
- Lengths and indices count code points: a `string` is a sequence of characters, where JavaScript counts UTF-16 code units. A character outside the Basic Multilingual Plane counts once here and twice in the source, so `ValidateName`, `ValidatePassword` (`.{8,}`, `.{10,}`), `IsValidToken` and the `substr` of `Singular` may answer differently for such strings (`validateName("😀😀")`); those strings are not modelled.
- `parseInt` results are exact integers. Values too large for a double are not rounded.
- AccountRoutes.ResetPasswordRoute: requires a stream that yields 16 allowed characters, where the source's random source never runs dry.
- Credentials.GeneratePassword: reports failure on a stream that runs dry, where the source loops forever on its endless random source.
- ClientHelpers.GetDelay: `expires` is whole seconds. Fractional or string values and `Math.floor` on them are not modelled.
- ClientHelpers.SecondsToHuman: `seconds` is an integer. Fractional inputs are not modelled.
- ClientHelpers.FrenchLabels: the default years label is the source file's double-encoded text, kept as it is.

## Findings

| source | as written | input that shows it | evidently intended | confidence | as-written member | corrected member |
|---|---|---|---|---|---|---|
| controllers/accounts/index.js:360 | `token !== account.passwordlost_token` accepts a supplied "" whenever the slot is empty, and login empties it (index.js:265) | log in as an active account, then POST /newpassword with that email, token "" and any valid password | a reset token is accepted only while a reset is pending and only when it equals the stored secret | high, not executed | AccountRoutes.EmptyTokenChangesPasswordAfterLogin | AccountRoutes.ResetTokenAcceptedMeans |
| controllers/accounts/index.js:332-337 | `const { token } = await generateToken(...)` reads a `token` field; the route reaches this call only for an account already found active (index.js:329), and for such an account `generateToken` returns `{ jwtToken, expires }` (services.js:152), which has no `token` field, so the link ends in `?token=undefined` | POST /passwordlost for any active account | the link carries the stored password-lost secret that /newpassword compares against | high, not executed | AccountRoutes.ResetLinkAsWrittenIsUndefined | AccountRoutes.ResetLinkToken |
| controllers/accounts/index.js:90-96 | for `partner_id` "abc", `parseInt` gives NaN; `NaN < 1` and `NaN > 0` are both false, so neither partner check refuses | POST / by an admin with type "structure" and `partner_id` "abc" | a structure must name an existing partner with a numeric id >= 1 | high, not executed | AccountRoutes.CreateAcceptsNaNPartner | AccountRoutes.PartnerCheck |
