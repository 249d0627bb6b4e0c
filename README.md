# Feets Infra lead backend — a Dafny model

This project models the engineered part of the Feets Infra construction-company
website: the Express backend that takes contact-form leads into the
`contact_requests` table and lets an admin triage them, the `admin_users`
account store with its login decision and the two start-up routines that seed
it, the `authenticateToken` middleware, the contact form of the two web pages
(its check, typing into a field, submitting) and the navigation bar's notion
of the current page.

Modules, one per source file or component:

- `Wrappers` — `Option`, the `Reply` a handler writes, the database errors, and
  `Outcome` (a reply, or a rejected handler promise).
- `JsText` — the JavaScript string behaviour the code relies on: `\s`, `trim`,
  truthiness, `x || null`, ASCII `toLowerCase`, `split`, number-to-text,
  `parseInt` and `decodeURIComponent`.
- `EmailPatterns` — the intake route's anchored pattern
  `^[^\s@]+@[^\s@]+\.[^\s@]+$` and the pages' unanchored `\S+@\S+\.\S+`, each
  as the set of ways to cut the text into the pattern's pieces.
- `LeadTable` — `contact_requests` as a class over a sequence of rows, with the
  statements the backend runs (insert, look-up by id, update status, delete,
  counts, newest first).
- `ListQuery` — the listing's SQL builder (the text and the parameter list with
  `$n` placeholders) and what PostgreSQL does with it: WHERE, ILIKE,
  ORDER BY created_at DESC, LIMIT/OFFSET, COUNT.
- `AdminRoutes` — the dashboard handlers: listing, fetch by id, status update,
  delete, statistics.
- `ContactRoute` — the public intake route.
- `AdminAccounts` — `admin_users` with its unique usernames, and bcrypt and JWT
  as oracles (`hash`, `compare`, `sign`, `verify`).
- `AuthRoutes` — `create-user` and `login`.
- `AuthMiddleware` — the token taken from the `Authorization` header and the
  401 / 403 / pass decision.
- `DefaultAdmin` — the server's `createDefaultAdmin` and the stand-alone
  utility.
- `Server` — start-up, the route table as Express matches it (ignoring case
  and a trailing `/`, decoding the `:id`, serving `HEAD` by `GET`), the token
  guard, `asyncHandler` with the global 500 handler, and the 404 fallback.
- `ContactForm` — the contact page of the application and of the site.
- `Nav` — `getCurrentPage` and the highlighted menu item.

Assumptions of the table model: ids come from a serial counter (`nextId`);
`CURRENT_TIMESTAMP` is the parameter `now`; a new lead's `status` is `'new'`
and its `updated_at` starts equal to `created_at`; `admin_users.username` is
unique (the constraint whose violation is error 23505). Rows with equal
`created_at` come out of `ORDER BY created_at DESC` in table order, one of the
orders PostgreSQL may choose. The `id` column is a 32-bit `integer` (a
`SERIAL`), read with the integer syntax of PostgreSQL before version 16 (an
optional sign and decimal digits; no `_` separators, no `0x` prefix). Each
handler runs as one atomic step on the tables. The database can fail during
any handler that uses it: each such handler takes a `fault` (a lost
connection or another error no statement causes by itself, never a unique
violation), and a fault ends the handler with the error and the tables as
they were, which the server answers with its fixed 500.

Three behaviours of the code worth knowing: the intake route checks required
fields by truthiness without trimming, so a blank name passes
(`ContactRoute.BlankNameAccepted`); the server's bootstrap looks for
`'admin1'` but inserts `'admin'`, so every start-up tries the insert again
(`DefaultAdmin.ServerBootstrapMismatch`); and the two login routes sign tokens
for 10 minutes (`backend/routes/auth.js`) and for 24 hours
(`backend/server.js`), both modelled (`Server.LoginCopiesAgree`).

## Model

| member | source | states |
|---|---|---|
| `JsText.BlankIffAllSpace` | Frontend/src/contact.jsx:26 | `!s.trim()` holds exactly when the text is white space only |
| `JsText.OrNull` | backend/routes/contact.js:27 | `v \|\| null` stores NULL exactly for an absent or empty value and the value itself otherwise |
| `JsText.JoinSplit` | backend/middleware/auth.js:8 | `split(' ')` loses nothing: joining the pieces with the separator gives the text back |
| `JsText.DecRoundTrip` | backend/routes/admin.js:25 | the decimal text written into a `$n` placeholder reads back as `n` |
| `JsText.ParseIntDec` | backend/routes/admin.js:13-14 | `parseInt` reads a number's decimal text back, also with non-digit text after it |
| `JsText.ParseIntNoDigits` | backend/routes/admin.js:13-14 | text without digits is `NaN` to `parseInt` |
| `JsText.DecodeUriComponent` | backend/server.js:250-251 | text without `%` decodes to itself, and decoding never lengthens the text |
| `JsText.DecodeEscapeAll` | backend/server.js:250-251 | decoding the `%XX` escapes of ASCII text gives the text back |
| `EmailPatterns.ServerEmailRegexIffShape` | backend/routes/contact.js:18-21 | the anchored pattern accepts exactly: no white space, one `@` with text before it, and after it a `.` with text on both sides |
| `EmailPatterns.ServerAcceptedPassesClient` | Frontend/src/contact.jsx:29 | every address the server accepts also passes the pages' unanchored check |
| `EmailPatterns.ClientAcceptsSecondAt` | Frontend/src/contact.jsx:29 | the pages accept `a@@b.c`, which the server refuses |
| `EmailPatterns.ClientAcceptsLeadingWord` | src/contact.jsx:41 | the pages accept `x y@b.c`, which the server refuses |
| `EmailPatterns.ClientMatchIffRegex` | src/contact.jsx:41 | the left-to-right search finds a match exactly when `\S+@\S+\.\S+` matches somewhere in the text |
| `LeadTable.ParseStatusExact` | backend/routes/admin.js:72-76 | exactly the five status names are valid, each naming its own status |
| `LeadTable.Find` | backend/routes/admin.js:60 | `WHERE id = $1` finds a row of the table with that id, and finds nothing exactly when no row has it |
| `LeadTable.SetStatusAt` | backend/routes/admin.js:78-83 | the UPDATE changes only the rows with that id, and of those only `status` and `updated_at` |
| `LeadTable.FindAfterSetStatus` | backend/routes/admin.js:78-93 | after the update the id reads as the old row with the new status and time; other ids read as before |
| `LeadTable.Remove` | backend/routes/admin.js:99 | DELETE keeps exactly the rows with another id, and keeps ids increasing |
| `LeadTable.FindAfterRemove` | backend/routes/admin.js:97-106 | after a delete the id is not found and every other id reads as before |
| `LeadTable.RemoveAbsent` | backend/routes/admin.js:99-103 | deleting an id no row has leaves the table unchanged |
| `LeadTable.RemoveAt` | backend/routes/admin.js:99 | with unique ids the delete removes exactly one row and keeps the others in order |
| `LeadTable.SortNewest` | backend/routes/admin.js:40 | ORDER BY created_at DESC gives the same rows (as a multiset), newest first |
| `LeadTable.CountStatus` | backend/routes/admin.js:112-114 | the count for a status is how often that status occurs in the `status` column |
| `LeadTable.StatusCountsPartition` | backend/routes/admin.js:111-114 | the five per-status counts add up to the row count |
| `LeadTable.NewestAreNewest` | backend/routes/admin.js:115 | the recent list holds summaries of table rows, and every row left out is no newer than any listed one |
| `LeadTable.Table.Insert` | backend/routes/contact.js:23-27 | one row appended with the next id, status `'new'` and time `now`; ids stay increasing |
| `LeadTable.Table.UpdateStatus` | backend/routes/admin.js:78-83 | the table becomes the updated table and the returned row is the one with the id after the update |
| `LeadTable.Table.DeleteById` | backend/routes/admin.js:99 | the table loses the rows with the id; the answer says whether there was one |
| `ListQuery.BuildQuery` | backend/routes/admin.js:19-41 | the step-by-step builder produces the page and count texts of the conditions, and the page query gets the filter parameters followed by `limit` and `offset` |
| `ListQuery.PlaceholdersAppend` | backend/routes/admin.js:35-40 | appending text that does not start with a digit cannot extend a placeholder number |
| `ListQuery.RenderSlots` | backend/routes/admin.js:24-32 | the status condition names its slot once, the search condition twice |
| `ListQuery.JoinSlots` | backend/routes/admin.js:35 | the conditions joined with AND name exactly their slots, in order |
| `ListQuery.PageSqlSlots` | backend/routes/admin.js:40 | the page query names the WHERE slots, then `n+1` (LIMIT) and `n+2` (OFFSET) |
| `ListQuery.CountSqlSlots` | backend/routes/admin.js:37 | the count query names only the WHERE slots |
| `ListQuery.Numbering` | backend/routes/admin.js:24-46 | status gets `$1`, the search the next number used twice, LIMIT/OFFSET the two after the filter parameters, and each parameter holds what its condition compares |
| `ListQuery.FiltersSlots` | backend/routes/admin.js:24-32 | the status condition exists only for a truthy status other than `'all'`, the search condition only for a non-empty search |
| `ListQuery.SearchMeaning` | backend/routes/admin.js:30-31 | without wildcards in the search text, `ILIKE '%x%'` is case-insensitive substring |
| `ListQuery.LikePrefix` | backend/routes/admin.js:31 | `LIKE x%` holds exactly when `x` is a prefix |
| `ListQuery.EscapedWildcard` | backend/routes/admin.js:29-31 | the default escape `\` makes a wildcard literal: `%a\%b%` matches `a%b` and not `axb` |
| `ListQuery.Window` | backend/routes/admin.js:40 | LIMIT/OFFSET returns at most `limit` rows, the ones from position `offset` on |
| `ListQuery.ExecPage` | backend/routes/admin.js:40-44 | the page query runs exactly when the LIMIT and OFFSET parameters are integers from 0 to the largest `bigint`, and returns at most LIMIT rows |
| `ListQuery.Select` | backend/routes/admin.js:44-45 | the rows kept are exactly the table rows satisfying the WHERE clause |
| `ListQuery.WhereMeansFilter` | backend/routes/admin.js:24-38 | the built WHERE clause holds of a row exactly when the row has the status (unless absent or `'all'`) and the search text in its name or e-mail, under both queries' parameter lists |
| `ListQuery.SelectIsMatching` | backend/routes/admin.js:43-46 | page and count queries select the same filtered rows |
| `ListQuery.Matching` | backend/routes/admin.js:24-38 | the filtered rows are exactly the table rows that pass the dashboard's filter |
| `AdminRoutes.IntParam` | backend/routes/admin.js:13-14 | `parseInt(v) \|\| d` never gives 0 and gives `d` for an absent value |
| `AdminRoutes.IntParamDefaults` | backend/routes/admin.js:13-14 | the default applies exactly to an absent, non-numeric or zero value (or the default itself) |
| `AdminRoutes.IntParamReads` | backend/routes/admin.js:13-14 | a positive decimal number is taken as written |
| `AdminRoutes.CeilDivBounds` | backend/routes/admin.js:49 | `totalPages` is the least page count holding every match, and 0 only for no matches |
| `AdminRoutes.GetRequestsMeaning` | backend/routes/admin.js:12-55 | a failing database: 500; otherwise 500 exactly for a limit or offset that is negative or beyond `bigint`, and else 200 with the newest-first matches from `offset`, at most `limit`, the match count, `ceil(total/limit)` pages, and the echoed page and limit |
| `AdminRoutes.OffsetBeyondBigint` | backend/routes/admin.js:12-43 | a page so far out that `(page - 1) * limit` exceeds `bigint` makes the listing fail, as PostgreSQL refuses the OFFSET |
| `AdminRoutes.GetRequestsRowsMatch` | backend/routes/admin.js:40-54 | every listed row is a table row passing the filter, rows are newest first, at most `limit` |
| `AdminRoutes.PagePartition` | backend/routes/admin.js:17 | with `offset = (page-1)*limit`, row `j` of the full result is on page `j/limit + 1` |
| `AdminRoutes.PgIntDec` | backend/routes/admin.js:60 | the decimal text of an id reads back as that id |
| `AdminRoutes.GetRequest` | backend/routes/admin.js:58-66 | 200 with the table row of that id, 404 when none, and a thrown error (hence 500) for an id that is not a 32-bit integer or a failing database; the reply is written exactly when neither happens |
| `AdminRoutes.RequestedStatus` | backend/routes/admin.js:71-74 | a status is accepted exactly when present and one of the five names |
| `AdminRoutes.PatchStatus` | backend/routes/admin.js:69-94 | invalid status: 400 and no change; an id that is not an integer or a failing database: thrown error and no change; unknown id: 404; otherwise only that row's status and `updated_at` change and the updated row is returned |
| `AdminRoutes.DeleteRequest` | backend/routes/admin.js:97-106 | an id that is not an integer or a failing database: thrown error and no change; unknown id: 404 and no change; otherwise that row is removed and the reply confirms |
| `AdminRoutes.DeleteThenGet` | backend/routes/admin.js:58-66 | after a delete, fetching the same id gives 404 |
| `AdminRoutes.DeleteRemovesOne` | backend/routes/admin.js:97-106 | deleting the id of one row removes exactly that row and keeps the rest in order |
| `AdminRoutes.GetStats` | backend/routes/admin.js:109-127 | a failing database: thrown error; otherwise 200 with `totalRequests` the row count, `newRequests`, `inProgressRequests` and `completedRequests` each the number of rows with that status, and the five newest rows' summaries |
| `AdminRoutes.StatsBounds` | backend/routes/admin.js:111-125 | new + in_progress + completed equals total minus contacted and cancelled, so never exceeds it; the recent list holds the newest rows |
| `ContactRoute.Check` | backend/routes/contact.js:8-27 | missing-fields error exactly when a required field is absent or empty; invalid-email error exactly when all are present and the pattern fails; otherwise the fields verbatim and company, budget, timeline NULL when absent or empty |
| `ContactRoute.AcceptedEmailShape` | backend/routes/contact.js:18-21 | an accepted address has the shape the pattern describes |
| `ContactRoute.BlankNameAccepted` | backend/routes/contact.js:12 | the required-field check does not trim: a name of blanks passes |
| `ContactRoute.SubmitContact` | backend/routes/contact.js:10-35 | a refused body: 400 and no insert; a failing database: thrown error and no insert; otherwise exactly one new row with a fresh id, and 201 with its id and time stamp |
| `AdminAccounts.CountUser` | backend/routes/auth.js:53 | no row has the username exactly when the count is 0 |
| `AdminAccounts.UniqueCountsAtMostOne` | backend/routes/auth.js:38 | under unique usernames at most one row has a username |
| `AdminAccounts.FindUser` | backend/routes/auth.js:53-58 | the row found has the username; none found exactly when no row has it |
| `AdminAccounts.AddUser` | backend/routes/auth.js:25-29 | an insert of a taken username raises the unique violation and changes nothing; otherwise the row is appended |
| `AdminAccounts.AddUserKeepsUnique` | backend/routes/auth.js:38 | an insert keeps usernames unique and leaves exactly one row with the inserted username |
| `AdminAccounts.AdminTable.Insert` | backend/routes/auth.js:25-29 | the table becomes the insert's result and the serial counter moves on |
| `AdminAccounts.AdminTable.Lookup` | backend/routes/auth.js:53 | the row found has the username; none found means no row has it |
| `AuthRoutes.CreateReply` | backend/routes/auth.js:31-42 | 201 with id, username, email and role of the new row; 409 exactly for a unique violation; any other error thrown on |
| `AuthRoutes.CreateUser` | backend/routes/auth.js:12-43 | no username or password: 400 and no insert; a failing database: the error thrown on and no change; otherwise one insert of the password's hash, role `'admin'`, email or NULL, answered as that insert's result (409 only for a username the table holds) |
| `AuthRoutes.CheckPassword` | backend/routes/auth.js:61-73 | the password is accepted exactly when the comparison says so, or it throws and the stored value equals the password |
| `AuthRoutes.Login` | backend/routes/auth.js:46-95 | without both fields: 400; a failing database during the look-up: thrown error; otherwise the answer the login decision gives over the table |
| `AuthRoutes.LoginNeedsBothFields` | backend/routes/auth.js:49-51 | without username or password the answer is 400 whatever the table holds |
| `AuthRoutes.LoginFailuresAlike` | backend/routes/auth.js:53-77 | 401 with the same body exactly for an unknown username or a rejected password; those are the only failures |
| `AuthRoutes.LoginSuccess` | backend/routes/auth.js:79-94 | success signs exactly id, username and role with the given lifetime and returns id, username, email and role |
| `AuthRoutes.ReplyHidesHash` | backend/routes/auth.js:85-94 | two rows differing only in the stored hash that both accept the password get the same reply: the hash does not reach it |
| `AuthRoutes.PlainTextFallback` | backend/routes/auth.js:66-73 | when the comparison throws, exactly the password equal to the stored value gets in |
| `AuthMiddleware.Token` | backend/middleware/auth.js:7-8 | a token, when there is one, is non-empty and has no space |
| `AuthMiddleware.TokenIsSecondWord` | backend/middleware/auth.js:8 | the token is the word after the first space, whatever the scheme word is |
| `AuthMiddleware.NoToken` | backend/middleware/auth.js:8-11 | no header, no space, or an empty second piece gives no token |
| `AuthMiddleware.GateCases` | backend/middleware/auth.js:9-19 | 401 exactly without a token, without consulting the verifier; 403 exactly for a token the verifier rejects; pass exactly with the decoded payload |
| `AuthMiddleware.AuthenticateToken` | backend/middleware/auth.js:6-20 | 401 or 403 written without calling `next`; on success `req.user` is the payload, nothing written and `next` called once |
| `DefaultAdmin.CreateDefaultAdminServer` | backend/server.js:343-368 | nothing inserted when `'admin1'` exists; otherwise one insert of `'admin'`; a database failure is swallowed |
| `DefaultAdmin.CreateDefaultAdminUtility` | backend/utils/createDefaultAdmin.js:3-16 | exactly one insert of `'zoola'` with the hash of `'zoola123'`, no look-up, failures swallowed |
| `DefaultAdmin.ServerBootstrapMismatch` | backend/server.js:346-356 | the routine never creates `'admin1'`, so every start-up retries the `'admin'` insert, which leaves one `'admin'` row |
| `DefaultAdmin.UtilityTwiceOneRow` | backend/utils/createDefaultAdmin.js:9-16 | running the utility twice leaves exactly one `'zoola'` row, the second insert refused |
| `DefaultAdmin.FindAppended` | backend/utils/createDefaultAdmin.js:9-12 | after inserting a free username, the lookup finds the new row |
| `Server.StartServer` | backend/server.js:12-15 | no `JWT_SECRET`: exit before anything; failed connection test: exit; otherwise the bootstrap runs, its failure swallowed, and the server listens |
| `Server.Settle` | backend/server.js:36-38 | a thrown handler becomes 500 with the fixed message; written replies go out unchanged |
| `Server.SettleHidesCause` | backend/server.js:331-334 | every internal failure gives the same 500 body |
| `Server.LoginCopiesAgree` | backend/server.js:150-199 | the server's login answers as the router's, differing only in the token's lifetime, 24h against 10min |
| `Server.GuardedUnderAdmin` | backend/server.js:204-301 | every guarded route's path reads, ignoring case and a trailing `/`, as `/api/admin/stats` or as a path under `/api/admin/requests` |
| `Server.OpenOutsideAdmin` | backend/server.js:87-326 | create-user, login, intake and health need no token and their paths read as neither of those |
| `Server.RequestsId` | backend/server.js:250-289 | an `:id` is a non-empty piece without `/` of a path, its trailing `/` dropped, that lies under `/api/admin/requests/` ignoring case |
| `Server.IdRoute` | backend/server.js:250-301 | on an `:id` path without `/status`, an `:id` that does not decode gives `Undecodable` for every method; otherwise `GET` fetches and `DELETE` deletes the decoded id, and every other method matches nothing |
| `Server.HeadIsGet` | backend/server.js:204-326 | a `HEAD` request is routed as the `GET` request for the same path |
| `Server.TrailingSlashIgnored` | backend/server.js:87-326 | one trailing `/` does not change the route |
| `Server.LenientPaths` | backend/server.js:204-326 | `/api/admin/stats/`, `/API/HEALTH` and `/api/admin/requests/` reach their routes, `%31` is id `1`, and an escape that does not decode ends any method's request on an `:id` path |
| `Server.Backend.ServeDashboard` | backend/server.js:204-324 | past the guard, listing, fetch and statistics answer what their handlers compute over the table as it is and change nothing; the status update answers 400 for an unknown status, 500 for a bad id or a failing database (no change), 404 for a missing row, and else 200 with the row after `SetStatus`; the delete answers 500 with no change, or removes the id's rows and answers 404 or 200; the admin table is never touched |
| `Server.Backend.ServeOpen` | backend/server.js:87-199 | the intake answers 400 or 500 with no new row, or appends one `'new'` row with the next id and answers 201 with that id; account creation answers 400 or 500 with no change, or runs the insert and answers 201 or 409 as its outcome says; login answers as `LoginReply`, or 500 on a failing lookup; the undecodable `:id` gives 500; the intake leaves the accounts alone and account creation the leads |
| `Server.Backend.Handle` | backend/server.js:87-339 | unmatched: 404; an `:id` that does not decode: 500 before the guard; guarded route without a token: 401, with a rejected one: 403, no table changed; listing, fetch, statistics, login and health answer what their handlers say, including the 500 of a failing database, and change nothing; a refused lead: 400, an accepted lead on a failing database: 500, both with no change; the intake never touches the accounts, create-user never the leads, guarded routes never the accounts |
| `ContactForm.Put` | Frontend/src/contact.jsx:42-45 | the named field takes the value and every other field is unchanged |
| `ContactForm.Clear` | Frontend/src/contact.jsx:49-52 | the named field's message becomes empty and the others are unchanged |
| `ContactForm.ErrorsOfReports` | Frontend/src/contact.jsx:23-38 | the messages are the check's report and the only one: required fields blank after trimming, service empty, address required or invalid |
| `ContactForm.ErrorsOfEmptyIffValid` | Frontend/src/contact.jsx:36-37 | no message exactly when the form is valid |
| `ContactForm.CollectErrors` | src/contact.jsx:35-49 | the local `errors` object filled field by field is the report, and empty exactly for a valid form |
| `ContactForm.EmailMessagesExclusive` | src/contact.jsx:39-43 | the address gets one of the two messages, the invalid one only when not blank |
| `ContactForm.OptionalFieldsIgnored` | Frontend/src/contact.jsx:26-34 | company, budget and timeline affect neither the verdict nor the report |
| `ContactForm.SubmitMessage` | Frontend/src/contact.jsx:102 | the `submit` message is never empty and is the error's message when it has one |
| `ContactForm.FailureCases` | Frontend/src/contact.jsx:75-77 | a status outside 200-299 always fails with a message naming it; an accepted status fails only on a non-JSON body |
| `ContactForm.ContactPage.HandleInputChange` | src/contact.jsx:52-66 | only the named field changes, and only its message is cleared when it had one |
| `ContactForm.ContactPage.ValidateForm` | Frontend/src/contact.jsx:23-38 | the messages become the report and the answer is whether the form is valid |
| `ContactForm.ContactPage.HandleSubmit` | Frontend/src/contact.jsx:56-113 | invalid: messages shown, nothing sent; valid: posted once, then reset to empty fields with the success note, or only the `submit` message |
| `ContactForm.ContactPage.HandleDemoSubmit` | src/contact.jsx:68-96 | invalid: returns early; valid: nothing sent, all eight fields reset and success shown |
| `ContactForm.ContactPage.SuccessShown` | Frontend/src/contact.jsx:95 | the success note goes away and nothing else changes |
| `ContactForm.ContactPage.SubmitErrorShown` | Frontend/src/contact.jsx:106-108 | the `submit` message becomes empty, the rest unchanged |
| `Nav.CurrentPageOfPath` | Frontend/src/components/Nav.jsx:3-10 | `/` and `/home` read as `home`, any other `/x` as `x` |
| `Nav.CurrentPage` | Frontend/src/components/Nav.jsx:3-10 | without a window the page is `home` |
| `Nav.ActiveFlags` | Frontend/src/components/Nav.jsx:25-26 | item `i` is highlighted exactly when its lower-cased label equals the lower-cased page |
| `Nav.AtMostOneActive` | Frontend/src/components/Nav.jsx:25-26 | the labels differ ignoring case, so at most one item is highlighted |
| `Nav.LinkHighlightsItsItem` | Frontend/src/components/Nav.jsx:24-30 | following an item's link highlights that item and no other |
| `Nav.HomeAndAdmin` | Frontend/src/components/Nav.jsx:6-9 | root, `/home` and no window highlight Home only; `/admin` highlights nothing |

## Left out

- Rate limiting: the fixed-window counting lives in the `express-rate-limit` library; the code only passes a configuration (15 minutes, 5 requests, a 429 body), so 429 answers are not modelled.
- Cryptography: bcrypt and JWT are oracles (`AdminAccounts.Crypto`); the random salt and the clock are parameters, and what `verify` does with expiry is the oracle's business.
- Concurrency: `Promise.all` over the page and count queries and interleaving of requests; each handler is one atomic step.
- Logging: every `console` call, including the server's start-up lines, which announce the password `admin123` while the routine hashes `admin1234`.
- The health route's ISO timestamp text: the time is the parameter `now`.
- JSON bodies whose fields are not strings (numbers, booleans, objects), and query values that are not strings: Express's query parser turns a repeated key (`?page=2&page=3`) into an array and a bracketed key (`?search[a]=x`) into an object, which `parseInt` and the template string then convert; request fields and query values are modelled as text or absent.
- Unicode case folding: `toLowerCase` and ILIKE are modelled on ASCII letters only.
- `ListQuery.WhereMeansFilter`: the link between ILIKE and substring search holds only for search text without `%`, `_` or `\`; the query itself is modelled with full LIKE matching, escapes included.
- `ListQuery.LikeMatch`: a pattern ending in a lone `\`, which PostgreSQL refuses with an error, is modelled as matching nothing; the listing's patterns always end in `%` and never reach that case.
- `JsText.ParseIntDec`: numbers are unbounded integers here, while `parseInt` returns a double, exact only up to 2^53; a longer digit run is read exactly by the model and rounded by JavaScript.
- `AdminRoutes.IntParamReads`: a `page` or `limit` above 2^53 is taken as written by the model, while JavaScript rounds it to a nearby double (`9007199254740993` becomes `9007199254740992`), which is then echoed and used.
- `AdminRoutes.GetRequestsMeaning`: `offset = (page - 1) * limit` is computed exactly, while JavaScript computes a double that is inexact above 2^53; a value above 2^63 - 1 is refused either way, and the model refuses it as PostgreSQL does.
- `AdminRoutes.PgInt`: white space around an id, which PostgreSQL's integer input accepts, is treated as an error.
- The ORDER BY tie order: rows with equal `created_at` keep table order, one of the orders the database may choose.
- `ContactForm.ContactPage.HandleInputChange`: the error object is modelled as the message shown per field, so a key set to `''` and a missing key are the same.
- The pages' rendering, animation, scroll and mouse tracking, and the navigation bar's markup.
- `backend/config/database.js` and `backend/middleware/errorHandler.js` are not part of this model; the 500 and 404 behaviour comes from the copies in `backend/server.js`.
- `JsText.DecodeUriComponent`: each `%XX` escape becomes the one character with that code. `decodeURIComponent` instead reads escapes above `0x7F` as UTF-8 sequences (`%C3%A9` is one character, `é`) and throws `URIError` for an escape sequence that is not valid UTF-8 (`%FF`); the model gives two characters for the first and a character for the second.
- `Server.Backend.Handle`: a `%XX` escape in an `:id` for a byte above `0x7F` decodes to the character with that code, not as UTF-8, so an escape that is not valid UTF-8 goes on to the guard instead of ending the request with 500 (such an id is never a number, so a request that passes the guard gets 500 either way); the CORS middleware's answer to `OPTIONS` and the 500 for a body that is not valid JSON are not modelled.
- `Server.Backend.Handle`: for the status update, the delete, an accepted lead and account creation the answer and the table change are stated by `Server.Backend.ServeDashboard` and `Server.Backend.ServeOpen`, which `Handle` calls once the route and the token are settled, not repeated in `Handle`'s own contract.
- The router modules' mounting: `backend/routes/*.js` are modelled through the server's own copies of the same routes, plus `AuthRoutes.RouterExpiry` for the router's login.
