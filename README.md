# Kamoa shift reporting — a Dafny model

This project models the core of a small Next.js application that operators of the Kamoa 1
conveyor belts use to log stop and restart events during a shift, and that administrators
use to manage accounts.

- **The operator screen** (`pages/index.tsx`) has two parts.
  - Pure text logic in `ReportText`: the message of one event, the event record, the shift
    report built from the history, the fault library grouped by category, and the event each
    report button files.
  - Screen state in the class `HomeScreen.Home`. Each handler is a method: fetching units,
    the library and the history, the live insert feed, filing an event, queueing it in the
    browser's `localStorage` (the class `HomeScreen.LocalStorage`) when the store refuses
    it, adding a fault, building the report and clearing the history.
- **The API routes** (`pages/api/...`) are pure functions. Each returns its HTTP answer
  and, for the routes that insert, the table afterwards.
  - `CreateUser`: an admin creates an account.
  - `ListUsers`: an admin lists accounts.
  - `Login`: login with bcrypt and a JWT.
  - `InitAdmin`: bootstraps the first administrator.
  - `ReportsApi`: files a report.
  - `AdminReports`: lists reports behind an API key.
  - `Users` holds the bearer-token guard that the two admin routes share. `Common` holds
    JavaScript truthiness, `String.prototype.trim`, the UTF-16 `.length`, and the answer
    shapes.
- **The administrators' page** (`pages/admin/users.tsx`) is the class
  `AdminUsersForm.UsersPage`. It holds the create-user form's checks, its state before and
  after the request, the reload of the user list, and the labels of the user table.

The store (Supabase), bcrypt, JWT signing and verification, the clock, the confirmation
dialog and `localStorage` write failures are parameters. A store query is a `Query` (rows
or failure), and an insert is an `Insertion`. `jwt.verify` is a function that returns
`None` where the library throws.

Behaviours of the code worth knowing:

- A `localStorage` slot that does not hold a JSON array is left unchanged by `enqueueLocal`
  (`pages/index.tsx:124-132`): the parse or the push throws, the exception is caught, and
  the event is lost rather than queued in a fresh `[]`.
- The check `!currentUnit` in `fetchUnits` reads the value captured when the screen first
  rendered, which is null. A successful non-empty answer therefore always selects its
  first unit (`HomeScreen.Home.FetchUnits`).
- The history can grow past 200 rows. The live feed prepends without a limit; only
  `fetchReports` caps the history at 200.
- The two "Starting" buttons file `STOPPED` with the ⛔ icon, exactly like "REPORT STOP"
  (`ReportText.ButtonEvent`).
- The bootstrap administrator's email `johnym@kamoacopper` has no `.` after its `@`. The
  create-user route's email check would refuse it (`InitAdmin.AdminEmailFailsCreateUserFormat`).

## Model

| member | source | states |
|---|---|---|
| Common.TrimShape | pages/index.tsx:91 | `trim` removes only a whitespace prefix and a whitespace suffix, keeping the text between them |
| Common.TrimEnds | pages/index.tsx:91 | a trimmed text neither starts nor ends with whitespace |
| Common.TrimEmptyIff | pages/index.tsx:92 | the trimmed text is empty exactly when the input is whitespace only, so `!desc` refuses exactly blank descriptions |
| Common.TrimIdempotent | pages/index.tsx:81 | trimming an already trimmed text changes nothing |
| Common.Utf16Length | pages/admin/users.tsx:87 | JavaScript `.length` lies between the number of code points and twice that |
| Common.Utf16LengthBmp | pages/api/admin/create-user.ts:54 | for text inside the Basic Multilingual Plane, `.length` is the number of characters |
| Common.Utf16LengthAstral | pages/admin/users.tsx:87 | for text outside the Basic Multilingual Plane, `.length` is twice the number of characters |
| Common.Take | pages/index.tsx:75 | `.limit(n)` keeps a prefix of exactly `n` rows when there are more, and all rows otherwise |
| Users.SummaryHidesOnlyHash | pages/api/admin/list-users.ts:41 | the six selected columns tell two rows apart exactly when they differ in something other than `password_hash` |
| Users.AdmittedIff | pages/api/admin/create-user.ts:13-37 | a request passes the guard exactly when its header is `Bearer ` plus a token that the configured secret verifies with role `admin` |
| Users.GuardOrder | pages/api/admin/create-user.ts:14-24 | a missing or non-bearer header gets 401 whatever the secret; a missing secret gets 500 before the token is verified |
| Users.GuardCodes | pages/api/admin/list-users.ts:13-36 | refusals are 401, 403 or 500; 403 is exactly a verified token without the admin role |
| Users.FindByEmail | pages/api/auth/login.ts:20-35 | the lookup returns a row with that email, and none exactly when no row has it |
| Users.AdminCountPositive | pages/api/auth/init-admin.ts:12-25 | the table has an administrator exactly when the count of `admin` rows is positive |
| CreateUser.IndexOfAt | pages/api/admin/create-user.ts:48 | locates the first `@`; there is none before it |
| CreateUser.EmailValidIffPattern | pages/api/admin/create-user.ts:48-51 | the email test accepts exactly the strings matching `^[^\s@]+@[^\s@]+\.[^\s@]+$` |
| CreateUser.NoDotRefused | pages/api/admin/create-user.ts:48-51 | an address with no `.` after its `@` is refused |
| CreateUser.EmailValidHasOneAt | pages/api/admin/create-user.ts:48 | an accepted email contains exactly one `@` |
| CreateUser.Handle | pages/api/admin/create-user.ts:6-118 | non-POST gets 405 and changes nothing; 200 exactly when one row is appended; that row is active, carries the hash, and the answer is the row without its hash |
| CreateUser.CreatedIff | pages/api/admin/create-user.ts:40-113 | a user is created exactly when every check passes and the insert succeeds; the stored row and the answer are given field by field |
| CreateUser.DuplicateEmailRejected | pages/api/admin/create-user.ts:63-77 | a registered email never creates a row; once the earlier checks pass, the answer is 400 "Cet email est déjà utilisé" |
| CreateUser.ValidationOrder | pages/api/admin/create-user.ts:42-61 | missing fields, then email format, then password length, then role; a refused body gets the same answer whatever the store holds |
| CreateUser.AnswerHidesHash | pages/api/admin/create-user.ts:102-113 | the answer does not depend on the password hash |
| CreateUser.KeepsEmailsUnique | pages/api/admin/create-user.ts:63-100 | for requests handled one at a time, the route keeps emails unique in the table, and a stored email has exactly one `@` |
| ListUsers.Summaries | pages/api/admin/list-users.ts:39-42 | one summary per selected row, in the same order, each with the row's six public columns |
| ListUsers.Handle | pages/api/admin/list-users.ts:5-8 | a method other than GET gets 405 |
| ListUsers.Outcomes | pages/api/admin/list-users.ts:10-49 | guard refusal, 500 on a failed query, or 200 with exactly one six-column summary per row, in the rows' order, newest first when the store sorts them so |
| ListUsers.AnswerHidesHashes | pages/api/admin/list-users.ts:38-49 | the answer does not depend on any password hash |
| Login.Handle | pages/api/auth/login.ts:6-17 | non-POST gets 405, missing email or password gets 400, and every answer is 200, 400, 401, 405 or 500 |
| Login.GrantedIff | pages/api/auth/login.ts:31-76 | a token is issued exactly for an active account whose hash matches the password, with a configured secret; it carries that account's id, email, name and role and expires in 24h |
| Login.UnknownAndWrongPasswordAlike | pages/api/auth/login.ts:31-47 | an unknown email and a wrong password get the same 401 answer |
| Login.InactiveBeforePassword | pages/api/auth/login.ts:37-47 | an inactive account gets 401 "Compte inactif" whatever the password comparison says |
| Login.SecretCheckedLast | pages/api/auth/login.ts:49-54 | a missing secret is reported exactly to correct credentials; wrong credentials get the same answer with or without a secret |
| Login.AnswerHidesHash | pages/api/auth/login.ts:43-76 | the answer depends on stored hashes only through the bcrypt comparison |
| InitAdmin.Handle | pages/api/auth/init-admin.ts:5-67 | the table is unchanged or gains exactly one `admin` row at its end, and it gains one exactly when the answer reports a creation |
| InitAdmin.NoInsertCases | pages/api/auth/init-admin.ts:6-25 | 405 for non-POST, 500 on a failed query, and 200 "Admin already exists" when an administrator exists, and 500 when the insert fails, all without change |
| InitAdmin.InsertsIff | pages/api/auth/init-admin.ts:23-62 | the bootstrap row is inserted exactly when no administrator exists and the query and insert succeed; the answer gives its id, email, name and role |
| InitAdmin.Idempotent | pages/api/auth/init-admin.ts:11-46 | two calls handled one after the other add at most the one bootstrap row, never change a table that has an administrator, and leave at most one administrator in a table that had none |
| InitAdmin.AdminEmailFailsCreateUserFormat | pages/api/auth/init-admin.ts:38 | the bootstrap email fails the create-user route's email test |
| Reports.NewestFirstTake | pages/api/admin/reports.ts:18 | limiting a newest-first list keeps it newest-first |
| Reports.NewestFirstPrepend | pages/index.tsx:45-47 | prepending a row keeps the history newest-first exactly when the row is at least as recent as the first row |
| ReportsApi.Handle | pages/api/reports.ts:5-26 | the table is unchanged or gains exactly one row at its end; every answer is 201, 400, 405 or 500 |
| ReportsApi.StoredIff | pages/api/reports.ts:8-21 | a report is stored exactly for a POST with non-empty unit and status and a successful insert; missing optional fields become null, the timestamp is the server's, and the 201 answer carries the row or null |
| ReportsApi.Rejections | pages/api/reports.ts:6-19 | 405, 400 "unit_id and status are required" and 500 with the store's message, none changing the table |
| ReportsApi.ClientTimestampIgnored | pages/api/reports.ts:12-13 | a `created_at` sent by the client has no effect |
| ReportsApi.KeepsNewestLast | pages/api/reports.ts:12-15 | for requests handled one at a time and a server clock that does not run backwards, a stored row goes last stamped `now`, no row is later than it, and a table in time order stays in time order |
| AdminReports.Handle | pages/api/admin/reports.ts:7 | a method other than GET gets 405 |
| AdminReports.KeyCheck | pages/api/admin/reports.ts:10-15 | a GET passes exactly with a non-empty key equal to the configured one; with no key configured every request gets 401 |
| AdminReports.Listing | pages/api/admin/reports.ts:17-20 | an admitted request gets the first 1000 rows of the store's newest-first order (all of them when there are fewer), or 500 with the query's message |
| ReportText.RawMessageShape | pages/index.tsx:97-101 | both templates are the headline `*{emoji} {unit} {status}* {time}`, a line break, `- `, then `Fixed: ` for RUNNING only, then the description |
| ReportText.RawMessageLines | pages/index.tsx:97-101 | splitting the message at its first line break gives back the headline and the marked description, when icon, unit and time are single lines |
| ReportText.MakePayload | pages/index.tsx:103-110 | the record carries the unit, status, icon, trimmed description, composed message and client timestamp |
| ReportText.ButtonEvent | pages/index.tsx:181-198 | only the start buttons file RUNNING, with ✅; REPORT STOP and the Starting buttons, and only they, file STOPPED with ⛔; only the end-of-shift button uses 🛑 |
| ReportText.BlankFieldsDefault | pages/index.tsx:141-143 | an empty operator, tonnage or notes is printed as `N/A`, `0` and `N/A` |
| ReportText.EntriesAppend | pages/index.tsx:142 | the report body of two stretches of history is their bodies concatenated |
| ReportText.EntryInPlace | pages/index.tsx:140-147 | the report holds each history row's `raw_message` and a blank line, in history order, between header and footer |
| ReportText.LiveRowOnTop | pages/index.tsx:45-47 | a row from the live feed appears first in the next report |
| ReportText.GroupStep | pages/index.tsx:67-70 | one step of the grouping loop appends the row to its category's list and leaves the other lists alone |
| ReportText.InCategoryCounts | pages/index.tsx:66-70 | a category's group holds each row of that category as often as the input does, and no other row |
| ReportText.GroupsPartition | pages/index.tsx:66-71 | every row is in its own category's group, there is one non-empty group per category, and groups hold only input rows of their category |
| ReportText.GroupRows | pages/index.tsx:66-70 | the loop builds exactly the grouping by category, each group in input order |
| HomeScreen.EnqueuedKeepsOrder | pages/index.tsx:124-132 | the queue written keeps the stored events in order and ends with the new one; an absent or empty slot gives `[item]`; a slot that is not an array gives nothing |
| HomeScreen.EnqueueTwice | pages/index.tsx:124-132 | two events queued in turn end the queue in the order they were queued |
| HomeScreen.LocalStorage.constructor | pages/index.tsx:126 | storage starts with the given slots |
| HomeScreen.Home.constructor | pages/index.tsx:11-30 | the first render's state: empty lists, no unit, blank fields, clock placeholders |
| HomeScreen.Home.FetchUnits | pages/index.tsx:56-61 | a failed query changes nothing; otherwise the units are replaced and the first one is selected |
| HomeScreen.Home.FetchLibrary | pages/index.tsx:63-72 | a failed query changes nothing; otherwise the library becomes the rows grouped by category |
| HomeScreen.Home.FetchReports | pages/index.tsx:74-78 | a failed query changes nothing; otherwise the history is the first 200 rows, newest first when the store's rows are |
| HomeScreen.Home.OnReportInserted | pages/index.tsx:45-47 | the new row is prepended; the history stays newest-first exactly when the row is at least as recent as the first |
| HomeScreen.Home.Tick | pages/index.tsx:36-40 | the timer sets the displayed time and date and nothing else |
| HomeScreen.Home.AddNewFault | pages/index.tsx:80-88 | a blank text files nothing; otherwise the trimmed text is filed under the selected category (or `Safety`), and on success the input is cleared and the library reloaded |
| HomeScreen.Home.EnqueueLocal | pages/index.tsx:124-132 | storage gains the extended queue under `kamoa_local_queue_v1`, or is unchanged when the slot is unreadable or the write fails |
| HomeScreen.Home.ProcessReport | pages/index.tsx:90-112 | nothing happens without a unit or with a blank description; otherwise the composed record is sent, and either the message is shown and the description cleared, or the record is queued locally; the history is never touched |
| HomeScreen.Home.Deliver | pages/index.tsx:113-121 | on an accepted insert the message is shown for copying and the description emptied; on a refused one the event is queued locally and the screen is unchanged; nothing else changes |
| HomeScreen.Home.GenerateFullReport | pages/index.tsx:140-147 | the output is the full report of the current history, and the preview is shown |
| HomeScreen.Home.ClearHistory | pages/index.tsx:149-152 | a confirmed clear empties the history; a cancelled one leaves it |
| HomeScreen.Home.SelectUnit | pages/index.tsx:245 | clicking a card selects that unit |
| HomeScreen.Home.PickFault | pages/index.tsx:312 | clicking a library entry copies its text into the description |
| HomeScreen.Home.EditFields | pages/index.tsx:262-335 | typing sets the description, operator, tonnage and notes fields |
| HomeScreen.Home.EditNewFault | pages/index.tsx:288-300 | typing a new fault and choosing one of the four categories sets only those two inputs, so the Safety fallback of `addNewFault` never applies through the page |
| HomeScreen.Home.ToggleHistory | pages/index.tsx:204 | the history panel toggles |
| HomeScreen.SentMessageReadsBack | pages/index.tsx:97-110 | a filed record's message splits back into its headline and its marked description |
| HomeScreen.SentDescriptionTrimmed | pages/index.tsx:91-92 | a filed description is not blank and has no surrounding whitespace |
| AdminUsersForm.Validate | pages/admin/users.tsx:82-90 | `handleCreateUser` lets the request through exactly when the confirmation equals the password and the password has at least 8 UTF-16 units |
| AdminUsersForm.ValidationOrder | pages/admin/users.tsx:82-90 | a mismatch is reported before the length; the length message means the two agreed |
| AdminUsersForm.LengthInUnits | pages/admin/users.tsx:87 | 8 characters always pass; inside the Basic Multilingual Plane passing takes at least 8 characters, outside it 4 are enough |
| AdminUsersForm.ChecksReadOnlyPasswords | pages/admin/users.tsx:82-90 | the checks do not depend on email, name or role |
| AdminUsersForm.CreateError | pages/admin/users.tsx:111-134 | a refused creation shows the route's `error`, or `Erreur lors de la création` when there is none; an exception shows its message |
| AdminUsersForm.RoleLabel | pages/admin/users.tsx:257 | `Admin` exactly for role `admin`, else `User` |
| AdminUsersForm.StatusLabel | pages/admin/users.tsx:268 | `Actif` exactly for status `active`, else `Inactif` |
| AdminUsersForm.UsersPage.constructor | pages/admin/users.tsx:18-33 | the page starts with an empty form (role `user`), no messages, and the list loading |
| AdminUsersForm.UsersPage.EditForm | pages/admin/users.tsx:323-385 | typing replaces the form data only |
| AdminUsersForm.UsersPage.Submit | pages/admin/users.tsx:76-109 | both messages are cleared; a failing check shows its message and sends nothing; otherwise the loading flag is raised and the four fields are sent |
| AdminUsersForm.UsersPage.LoadUsers | pages/admin/users.tsx:53-74 | the list becomes the answer's users (or `[]`), or the error is shown; loading ends either way |
| AdminUsersForm.UsersPage.Complete | pages/admin/users.tsx:111-137 | success shows the confirmation, resets the form and reloads the list, with the reload's outcome (new list, or unchanged list and its error message); failure shows the error and keeps the form and list; loading ends either way |

## Left out

- Rendering, CSS, themes (`setTheme`), the clipboard copy, and the setup and teardown of the live feed and the timer. Only the timer's tick and the feed's insert callback are modelled.
- `pages/login.tsx`, `lib/useAuth.tsx`, `lib/supabaseServer.ts`, `pages/_app.tsx` and `next.config.js` are not part of this model. They are a sign-in form over a foreign service, session plumbing and configuration.
- The page's admin redirect and the "Accès refusé" message (`pages/admin/users.tsx:36-51`) are not modelled. They depend on the session hook, which is not part of this model.
- The modal's delayed close after a creation (`pages/admin/users.tsx:129-132`) is a timer, which the model leaves out.
- bcrypt, JWT signing and verification, `JSON.parse`/`stringify`, `Date` formatting and the store are parameters. Their internals are not modelled.
- The API routes' outer `try`/`catch`, which answers 500 on an unexpected exception, is not modelled. The model has no source of exceptions other than the ones it passes in.
- Non-string JSON values in request bodies (numbers, objects) are not modelled. Fields are strings or absent.
- `HomeScreen.Home.FetchUnits`: the guard `!currentUnit` is modelled as the value captured at the first render, which is always null, rather than as the current selection.
- `CreateUser.KeepsEmailsUnique`, `InitAdmin.Idempotent`, `ReportsApi.KeepsNewestLast`: each API route is modelled as one indivisible step, but its handler awaits between lookup, hashing and insert (`pages/api/admin/create-user.ts:64-84`, `pages/api/auth/init-admin.ts:12-34`) and between taking the time and inserting (`pages/api/reports.ts:12-15`). Concurrent requests can interleave there. No unique constraint on `users.email` is part of this model, so two simultaneous requests can insert the same email or two bootstrap administrators, and two simultaneous reports can be stored out of time order. Uniqueness, the single bootstrap administrator and time order hold only for requests handled one at a time.
- `HomeScreen.Home.EnqueueLocal`: the read-modify-write race between two browser tabs is not modelled. The model has one sequential client.
- `HomeScreen.Home.ProcessReport`: the `await` on the insert (`pages/index.tsx:112`) is a suspension point that the model does not have: the method runs atomically. Text typed while the insert is pending, which `setDescription('')` then wipes, and two quick clicks that send two events built from one description are not captured.
- `AdminUsersForm.UsersPage.Submit`: the browser's own constraint validation (`required`, `type="email"`, `minLength={8}` at `pages/admin/users.tsx:319-375`) runs before `onSubmit` and is not modelled. The contract describes `handleCreateUser` called on any form data, not only what the page lets a user submit; through the page, its length branch is not reached.
- `ReportText.GroupByCategory`: the grouping is a map. A category named like an `Object.prototype` member (`constructor`, say) would behave differently in JavaScript.
