# Medisafe core in Dafny

Medisafe is a medication tracker. It has three parts:

- a browser client (`script.js`) that stores medications, reminders and goals, checks once a minute which doses are due, and draws badges;
- an Express back end (`backend/src`) with express-validator chains, a JWT middleware and an authentication controller;
- two stand-alone REST servers over the same resources:
  - `server-sqlite.js`, on SQLite;
  - `scripts/server.js`, on PostgreSQL with the schema of `init-database.js`.

This project models that core as pure Dafny functions over immutable data and proves what each operation promises.

Modelling choices:

- A database table is a map from id to row. Each row carries its owner's id.
- A request body is a record of optional strings; an absent field (`undefined`) is `None`. JavaScript truthiness of a field is "present and non-empty".
- bcrypt and JSON Web Tokens are function-valued parameters (`Crypto.Bcrypt`, `Crypto.Jwt`). Every property holds for every hashing and signing function.
- The clock (`now`), the current weekday and minute, and the `isEmail` / `isISO8601` / `normalizeEmail` validators are parameters.

Modules, one per file:

| file | module | models |
|---|---|---|
| wrappers.dfy | Wrappers | `Option` |
| text.dfy | Text | the JavaScript string primitives the core uses: `trim`, `split`/`join`, `parseInt`, `Number`, decimal printing |
| http.dfy | Http | JSON values, responses, `Step` (a middleware either calls `next` or answers) |
| crypto.dfy | Crypto | token claims, the verdict of `jwt.verify`, bcrypt and JWT as parameters |
| validation.dfy | Validation | the express-validator chains and `handleValidationErrors` |
| users.dfy | Users | the `users` table with its unique user name |
| auth_middleware.dfy | AuthMiddleware | `authenticateToken`, `optionalAuth` and the servers' own `authenticateToken` |
| auth_controller.dfy | AuthController | `register`, `login`, `getProfile` |
| auth_routes.dfy | AuthRoutes | the three routes: validation chain, then controller |
| records.dfy | Records | an owner-scoped record table: get, list newest first, insert, update, delete |
| server_common.dfy | ServerCommon | login and the medication handlers that both servers share |
| sqlite_server.dfy | SqliteServer | every endpoint of `server-sqlite.js`, as written, and the corrected goal update beside it |
| pg_server.dfy | PgServer | every endpoint of `scripts/server.js`, as written, including `NOT NULL`, `VARCHAR` and foreign-key failures, the id a failed insert uses up, and the reminder cascade; the corrected reminder insert beside it |
| server_divergence.dfy | ServerDivergence | where the two servers answer the same request differently |
| reminder_checker.dfy | ReminderChecker | `checkReminders`, the five-minute cooldown, `getReminderStats`, the reminder form |
| display.dfy | Display | `formatTimeToAMPM`, expiry marks, goal badges, deadline text, `toggleGoalCompletion` |

## Model

| member | source | states |
|---|---|---|
| Text.TrimWindow | backend/src/middleware/validation.js:5-7 | the trimmed text is a contiguous window of the input; everything cut off on either side is white space |
| Text.TrimEnds | backend/src/middleware/validation.js:5-7 | a trimmed non-empty text neither starts nor ends with white space |
| Text.TrimUnique | backend/src/middleware/validation.js:5-7 | any window of the input with white space outside it and none at its ends is the trimmed text |
| Text.TrimIdempotent | backend/src/middleware/validation.js:38-56 | trimming twice gives the same text as trimming once |
| Text.SplitThenJoin | backend/src/middleware/auth.js:5 | joining the pieces of a split with the separator gives back the original text |
| Text.JoinThenSplit | script.js:1682 | splitting a join of separator-free pieces gives back the pieces |
| Text.SplitPair | script.js:1682 | `"h" + ":" + "m"` with no colon in either part splits into exactly those two parts |
| Text.NatToStringRoundTrip | script.js:776 | the decimal text of a natural number reads back as that number |
| Text.NatToStringInjective | script.js:776 | distinct numbers print as distinct texts, so `Date.now().toString()` ids differ when the times differ |
| Text.TwoDigits | script.js:29-37 | a two-character, all-digit text whose value is the number below 100 |
| Text.ParseInt | script.js:766 | `parseInt` gives `NaN` exactly when no digit follows the leading white space and the sign |
| Text.ParseIntOfDigits | script.js:766 | `parseInt` of digits followed by a non-digit reads the digits' decimal value and ignores the rest |
| Text.ParseIntSkipsSpaces | script.js:32 | `parseInt` ignores leading white space |
| Text.ParseIntOfSignedNumeral | script.js:32 | `parseInt` of a sign, digits and a non-digit tail is the digits' value with the sign applied |
| Text.ParseIntOfSigned | script.js:32 | `parseInt(" -7", 10)` and the like: white space, an optional sign, digits and any non-digit tail read as the signed value of the digits |
| Text.IntToString | script.js:36 | `${h}` prints a minus sign exactly for a negative number, then decimal digits |
| Text.IntToStringRoundTrip | script.js:36 | `parseInt` reads every printed integer back as that integer |
| Text.ToNumber | script.js:1682 | `Number` reads blank text as 0 and a digit string as its decimal value |
| Validation.NoFailedFields | backend/src/middleware/validation.js:116-118 | an error list is empty exactly when it names no field |
| Validation.FailedFieldsAppend | backend/src/middleware/validation.js:4-23 | the fields failing in a concatenation of chains are the union of each chain's |
| Validation.Check | backend/src/middleware/validation.js:26-29 | a validator yields no error exactly when it passes; when it fails, it reports its own field |
| Validation.Check2 | backend/src/middleware/validation.js:5-10 | a two-validator chain that does not bail reports its field iff either validator fails; the first error carries the first message |
| Validation.CheckOptional | backend/src/middleware/validation.js:18-22 | `optional()` skips an absent field; a present field fails only when the validator rejects it |
| Validation.SelectorFreeCount | backend/src/middleware/validation.js:7 | a text without variation selectors counts every character toward its length |
| Validation.FirstLineStops | backend/src/middleware/validation.js:15 | the pattern's `.` covers exactly the characters before the first line terminator |
| Validation.UsernameErrors | backend/src/middleware/validation.js:5-10 | the username fails iff its trimmed form is outside 3..50 characters or holds a character outside letters, digits and `_`; a length failure comes first; every error reports the trimmed value, and an absent username as `""` |
| Validation.PasswordErrors | backend/src/middleware/validation.js:12-16 | the password fails iff it is shorter than 6 or its first line lacks a lower-case letter, an upper-case letter or a digit |
| Validation.ValidateRegister | backend/src/middleware/validation.js:4-23 | the failing fields are exactly the broken rules; the sanitised body has the trimmed name (`""` when absent), the same password, and the normalised email exactly when one was sent; a short or long name's error comes first and reports the trimmed name |
| Validation.ValidateLogin | backend/src/middleware/validation.js:25-34 | the failing fields are exactly the empty trimmed name and the empty password; the sanitised name is trimmed, and `""` when absent |
| Validation.TrimmedTextErrors | backend/src/middleware/validation.js:38-41 | a `trim` + `isLength` chain fails iff the trimmed length is outside 1..max, with one error that reports the trimmed value (`""` for an absent field) |
| Validation.RequiredErrors | backend/src/middleware/validation.js:53-56 | a `trim` + `notEmpty` chain fails iff the trimmed text is empty, with one error that reports the trimmed value (`""` for an absent field) |
| Validation.AtMostErrors | backend/src/middleware/validation.js:63-66 | an optional length cap fails only for a present text that is too long, reporting the text as sent |
| Validation.OptionalErrors | backend/src/middleware/validation.js:58-61 | an optional format check fails only for a present value the check rejects, reporting the value as sent |
| Validation.ValidateMedication | backend/src/middleware/validation.js:37-67 | the failing fields are exactly name, dose and frequency outside 1..100 after trimming, an empty time, a non-ISO expiry date and notes over 500; the four trimmed fields leave trimmed and present, `""` when absent |
| Validation.ValidateReminder | backend/src/middleware/validation.js:70-90 | the failing fields are exactly a title outside 1..100, a description over 500, a non-ISO date and an empty time; title, date and time leave trimmed and present, `""` when absent |
| Validation.ValidateGoal | backend/src/middleware/validation.js:93-113 | the failing fields are exactly a title outside 1..200, a description over 1000, a non-ISO deadline and a priority other than baja/media/alta; the title leaves trimmed and present, `""` when absent |
| Validation.RegisterErrorValues | backend/src/middleware/validation.js:4-23 | every error reports the value its chain checked: the trimmed username, the password, the email before `normalizeEmail` |
| Validation.LoginErrorValues | backend/src/middleware/validation.js:25-34 | every error reports its field's value in the sanitised body |
| Validation.MedicationErrorValues | backend/src/middleware/validation.js:37-67 | every error reports its field's value in the sanitised body, trimmed fields trimmed |
| Validation.ReminderErrorValues | backend/src/middleware/validation.js:70-90 | every error reports its field's value in the sanitised body, trimmed fields trimmed |
| Validation.GoalErrorValues | backend/src/middleware/validation.js:93-113 | every error reports its field's value in the sanitised body, the title trimmed |
| Validation.ParseFieldKey | backend/src/middleware/validation.js:122 | every field's reported name reads back as that field |
| Validation.DetailRoundTrip | backend/src/middleware/validation.js:121-125 | a detail entry carries its field, message and value in full |
| Validation.DetailsJson | backend/src/middleware/validation.js:121-125 | one detail per error, in order, each decoding back to its error |
| Validation.HandleValidationErrors | backend/src/middleware/validation.js:116-129 | the request goes on iff there are no errors; otherwise 400 with the invalid-input error and every error in the details |
| Users.NameIndex | backend/src/controllers/auth.controller.js:11-14 | the first row with the name, or the row count when no row has it |
| Users.ByName | backend/src/controllers/auth.controller.js:69-72 | a found user is in the table under that name; none is found iff no row has the name |
| Users.ById | backend/src/controllers/auth.controller.js:129-132 | a found user is in the table with that id; none is found iff no row has the id |
| Users.Insert | backend/src/controllers/auth.controller.js:28-31 | refused iff the name is taken (the `UNIQUE` constraint); otherwise the new row gets the next id, is found by id and by name, and no other row changes |
| Users.Touch | backend/src/controllers/auth.controller.js:101-105 | only the given user's `updated_at` changes; ids and names keep their rows |
| Users.SameNamesSameIndex | backend/src/controllers/auth.controller.js:101-105 | tables that agree on names find a name at the same position |
| AuthMiddleware.ExtractToken | backend/src/middleware/auth.js:4-5 | the token is the second space-separated word: non-empty, without spaces, and absent when the header has no space |
| AuthMiddleware.ExtractTokenAnyScheme | backend/src/middleware/auth.js:5 | any scheme word followed by a space and a token gives that token, whatever follows |
| AuthMiddleware.AuthenticateToken | backend/src/middleware/auth.js:3-31 | the request goes on iff a token is present and verifies, carrying its claims; no token gives 401 with the required-token body; an invalid token gives 403; an expired one 401 |
| AuthMiddleware.OptionalAuth | backend/src/middleware/auth.js:33-47 | claims are attached only from a token that verifies to them |
| AuthMiddleware.OptionalAuthAgrees | backend/src/middleware/auth.js:33-47 | optional authentication attaches claims exactly when strict authentication would let the request through, and the same claims |
| AuthMiddleware.ServerAuthenticateToken | server-sqlite.js:128-143 | the servers answer with a one-member error body; 401 iff no token |
| AuthMiddleware.ServerAuthenticateDiffersOnExpiry | scripts/server.js:38-53 | the servers' check passes the same requests, with the same claims, as the back end's; the refusal status differs exactly on an expired token (403 against 401) |
| AuthController.EmailOrNull | backend/src/controllers/auth.controller.js:30 | an empty or absent email is stored as NULL; any other email as given |
| AuthController.Register | backend/src/controllers/auth.controller.js:6-62 | 400 iff the name is taken, with nothing stored; otherwise 201, the user stored under the next id with the 12-round hash, and the response carries the row and a token for its id and name |
| AuthController.LoginRowWithoutHash | backend/src/controllers/auth.controller.js:108 | removing `password_hash` leaves id, user name and email in order |
| AuthController.Login | backend/src/controllers/auth.controller.js:64-123 | 200 iff the name exists and bcrypt accepts the password; every refusal is the same 401 with the table unchanged; success bumps only that user's `updated_at` and signs its id and name |
| AuthController.GetProfile | backend/src/controllers/auth.controller.js:125-153 | 200 with the profile row iff the token's user exists, else 404 |
| AuthController.RegisterThenLogin | backend/src/controllers/auth.controller.js:6-123 | a fresh name registered with a password then logs in with it and receives a token for the new id |
| AuthController.RegisterTwiceRefused | backend/src/controllers/auth.controller.js:11-21 | registering the same name again is refused with 400 and changes nothing |
| AuthRoutes.UsernameOkPresent | backend/src/routes/auth.routes.js:9-13 | a body that passes the username rule carries a username |
| AuthRoutes.RegisterRoute | backend/src/routes/auth.routes.js:9-13 | a body breaking any rule gets 400 with nothing stored; a valid one reaches `register` with the trimmed name and normalised email |
| AuthRoutes.LoginRoute | backend/src/routes/auth.routes.js:16-20 | an empty name or password gets 400; otherwise `login` runs on the trimmed name |
| AuthRoutes.ProfileRoute | backend/src/routes/auth.routes.js:23-26 | 200 iff a token verifies and its user exists; a refused token gets the middleware's answer |
| AuthRoutes.ProfileAfterRegister | backend/src/routes/auth.routes.js:9-26 | the token a registration returns opens the profile of the new user |
| Http.WithoutSpec | backend/src/controllers/auth.controller.js:108 | removing a key drops exactly its members and keeps every other lookup |
| Http.LookupFinds | backend/src/controllers/auth.controller.js:108 | a lookup finds a member under the key iff one is present, and the first such |
| Records.Get | server-sqlite.js:337 | a row is found iff its id is in the table |
| Records.GetOwned | scripts/server.js:168-183 | a row is found for a user iff it exists and belongs to that user |
| Records.CollectMembers | server-sqlite.js:278-289 | the scan keeps exactly the user's rows below the bound |
| Records.OwnedMembers | server-sqlite.js:278-289 | the user's rows are exactly the rows of the table owned by the user |
| Records.InsertByDate | server-sqlite.js:280 | inserting into an ordered list adds exactly one row and keeps the others |
| Records.InsertByDateSorted | server-sqlite.js:280 | insertion keeps a newest-first list ordered |
| Records.SortNewestFirst | server-sqlite.js:280 | the result is ordered newest first and a permutation of the input |
| Records.List | server-sqlite.js:278-289 | `WHERE user_id = ? ORDER BY created_at DESC`: newest first and a permutation of the user's rows |
| Records.ListMembers | scripts/server.js:154-165 | a row is listed for a user iff it is in the table and owned by that user |
| Records.Burn | init-database.js:32 | a failed PostgreSQL insert changes no row and no listing, but the next id moves on |
| Records.Insert | server-sqlite.js:291-315 | the new row gets the next unused id and the caller as owner; no other row changes; the caller's rows grow by that row and other users' rows are unchanged |
| Records.Update | server-sqlite.js:317-346 | changes the row iff the caller owns it: the edited data with a fresh `updated_at`; no other row and no other user's rows change |
| Records.Delete | server-sqlite.js:348-366 | removes the row iff the caller owns it; nothing else changes |
| Records.RemoveIf | init-database.js:48-53 | a cascade keeps exactly the rows the condition spares, unchanged |
| ServerCommon.Login | server-sqlite.js:198-248 | also `scripts/server.js:106-151`: 400 iff a credential is missing or empty; 200 iff the name exists and bcrypt accepts the password, with the stored id and name signed; every other case is the same 401 |
| ServerCommon.LoginRefusalsAlike | server-sqlite.js:214-223 | an unknown name and a wrong password get identical answers |
| ServerCommon.MedicationOf | server-sqlite.js:298-300 | the stored medication holds exactly the body's fields |
| ServerCommon.RowsJson | server-sqlite.js:369-380 | a result set is sent as one JSON object per row, in order |
| ServerCommon.ListOwned | server-sqlite.js:278-289 | also the reminder and goal lists of both servers: 200 with one entry per row of `Records.List`, each a stored row the caller owns, in that newest-first order |
| ServerCommon.DeleteMedication | server-sqlite.js:348-366 | 404 iff the caller owns no such row, with nothing changed; otherwise the row is gone, with a message, and nothing else changes |
| SqliteServer.Register | server-sqlite.js:146-196 | 400 iff a credential is missing or the name is taken, with nothing stored; otherwise 201 with the 10-round hash stored under the next id, the row and a token |
| SqliteServer.VerifyUser | server-sqlite.js:251-275 | 200 with the user iff the token's user exists, else 404 |
| SqliteServer.CreateMedication | server-sqlite.js:291-315 | 400 iff name, dose, frequency or time is missing or empty, with nothing stored; otherwise 201 with the new owned row appended to the caller's list; no other row changes |
| SqliteServer.UpdateMedication | server-sqlite.js:317-346 | 400 iff a required field is missing or empty; 404 iff the caller owns no such row; otherwise 200 with the edited row; no other row changes |
| SqliteServer.CreateReminder | server-sqlite.js:382-406 | 400 iff title, description, date or reminder time is missing or empty, with nothing stored; otherwise 201 with the new owned row appended to the caller's list; no other row changes |
| SqliteServer.CreateGoal | server-sqlite.js:422-446 | 400 iff the title is missing or empty, with nothing stored; otherwise 201 with a new, not completed goal appended to the caller's list; no other row changes |
| SqliteServer.CompletedAt | server-sqlite.js:456 | the intended completion time: set, to the update time, exactly when completed |
| SqliteServer.EditGoal | server-sqlite.js:458-461 | an update sets title, description, deadline, the completion flag and time, and keeps the priority |
| SqliteServer.UpdateGoalWith | server-sqlite.js:448-479 | 400 iff no title; 404 iff the caller owns no such goal; otherwise 200 with the edited row; nothing else changes |
| SqliteServer.UpdateGoalAsWritten | server-sqlite.js:456-461 | as written: the stored `completed_at` is the literal text `CURRENT_TIMESTAMP` or `NULL` |
| SqliteServer.UpdateGoalAsWrittenBreaksCompletion | server-sqlite.js:456-461 | every successful update as written leaves the completion flag and time inconsistent |
| SqliteServer.UpdateGoal | server-sqlite.js:448-479 | corrected: a successful update leaves the goal's completion flag and time consistent and the flag as sent |
| SqliteServer.UpdateGoalsAgreeElsewhere | server-sqlite.js:448-479 | the written and the corrected update differ only in the `completed_at` of the goal |
| SqliteServer.DeleteGoal | server-sqlite.js:481-499 | 404 iff the caller owns no such goal, with nothing changed; otherwise the goal is gone and nothing else changes |
| SqliteServer.Handle | server-sqlite.js:251-499 | every authenticated endpoint, the goal update as written, keeps the tables valid and the users unchanged |
| SqliteServer.Serve | server-sqlite.js:128-143 | a refused token reaches no handler and changes nothing; login never changes state |
| SqliteServer.OnlyOpenEndpointsWithoutToken | server-sqlite.js:128-143 | without a token only register and login answer, and they ignore the header |
| SqliteServer.OtherUsersUntouched | server-sqlite.js:278-499 | no request changes another user's medications, reminders or goals |
| PgServer.Cut | init-database.js:20-22 | a `VARCHAR(n)` column keeps a value's first `n` characters: a prefix, no longer than `n`, the value itself when short enough, and only spaces cut from a value the column accepts |
| PgServer.Register | scripts/server.js:56-104 | 400 iff a credential is missing or the name as sent is taken; 500 iff a name or email breaks its column width or the name cut to 50 is taken; otherwise 201 with the user stored under the next id with the cut name and email, and a token; nothing stored unless 201 |
| PgServer.StoredMedication | init-database.js:34-36 | the stored medication is the body with name, dose and frequency cut to 100 characters, and exactly the body when nothing needs a cut |
| PgServer.CreateMedication | scripts/server.js:185-203 | 400 iff a required field is falsy, with nothing changed; 500 iff a text does not fit its column, with nothing changed (the width fails while planning), or else the owner is gone, with only the id counter advanced; otherwise 201 with the new owned row; no other row and no other table changes |
| PgServer.MedicationsGrow | init-database.js:51 | adding medications keeps every reminder's medication reference resolvable |
| PgServer.GetMedication | scripts/server.js:168-183 | 200 with the row iff the caller owns it, else 404 |
| PgServer.UpdateMedication | scripts/server.js:205-224 | 500 iff a text does not fit its column, whoever owns the row (the width fails while planning); otherwise 404 iff the caller owns no such row, and 500 iff it does and a field is missing; otherwise 200 with the edited row; no other row, no other user's rows and no other table change |
| PgServer.DeleteMedication | scripts/server.js:226-244 | 404 iff the caller owns no such row, with nothing changed; otherwise the row is gone, the reminders that named it are gone whoever owns them, every other reminder and medication is as it was, and users and goals are unchanged |
| PgServer.JoinedReminders | scripts/server.js:250-254 | the inner join yields at most one entry per reminder |
| PgServer.JoinKeepsAll | scripts/server.js:250-254 | when every medication resolves, the join yields every reminder with its medication's name |
| PgServer.ListedRemindersResolve | init-database.js:51 | the foreign key makes every listed reminder's medication resolvable |
| PgServer.ListReminders | scripts/server.js:247-262 | 200 with one entry per owned reminder, newest first, each with its medication's name |
| PgServer.NewReminder | scripts/server.js:272-275 | a new reminder has the medication and time sent, the days sent or every day, and is active |
| PgServer.CreateReminder | scripts/server.js:264-282 | 400 iff no medication or time, with nothing changed; 500 iff the owner or the medication is missing, with only the id counter advanced; otherwise 201 with the new reminder owned by the caller, on any user's medication; no other row and no other table changes |
| PgServer.CrossUserCascade | scripts/server.js:268-276 | as written: a user's reminder on another user's medication is accepted, and that user's delete of the medication removes it |
| PgServer.CreateOwnReminder | scripts/server.js:264-282 | corrected: another user's medication is not found and nothing is stored; otherwise as written; every reminder keeps naming a medication of its own owner |
| PgServer.OwnRemindersStayHome | init-database.js:51 | when every reminder names its owner's medication, a medication delete leaves every other user's reminders as they were |
| PgServer.UpdateReminder | scripts/server.js:284-303 | 404 iff the caller owns no such reminder; 500 iff the time is missing; otherwise 200 with time, days and active flag replaced; no other row, no other user's rows and no other table change |
| PgServer.DeleteReminder | scripts/server.js:305-323 | 404 iff the caller owns no such reminder, with nothing changed; otherwise only that reminder is gone |
| PgServer.CreateGoal | scripts/server.js:339-357 | 400 iff the title is falsy, with nothing changed; 500 iff the title does not fit `VARCHAR(200)`, with nothing changed (the width fails while planning), or else the owner is gone, with only the id counter advanced; otherwise 201 with a new, not completed goal and the title cut to 200; no other row and no other table changes |
| PgServer.EditGoal | scripts/server.js:365 | an update sets the fields sent, the title cut to 200; `completed_at` becomes the update time when completed and otherwise keeps its old value |
| PgServer.UpdateGoal | scripts/server.js:359-378 | 500 iff the title does not fit, whoever owns the goal (the width fails while planning); otherwise 404 iff the caller owns no such goal, and 500 iff it does and the title is missing; otherwise 200 with the edited row; no other row, no other user's rows and no other table change |
| PgServer.UncompleteKeepsCompletedAt | scripts/server.js:365 | marking a goal not completed keeps its old completion time |
| PgServer.DeleteGoal | scripts/server.js:380-398 | 404 iff the caller owns no such goal, with nothing changed; otherwise only that goal is gone |
| PgServer.Handle | scripts/server.js:154-398 | every authenticated endpoint keeps the tables and the foreign keys valid and the users unchanged |
| PgServer.Serve | scripts/server.js:38-53 | a refused token reaches no handler and changes nothing; login never changes state |
| PgServer.CascadeOfOthers | init-database.js:51 | after a medication delete, another user keeps exactly the reminders that did not name that medication |
| PgServer.OtherUsersUntouched | scripts/server.js:154-398 | no request changes another user's medications or goals |
| PgServer.OtherUsersRemindersUntouched | scripts/server.js:154-398 | no request changes another user's reminders, except that a medication delete removes the reminders another user attached to that medication |
| ServerDivergence.MissingFieldOnUpdate | scripts/server.js:205-224 | a medication update missing a field: SQLite answers 400; PostgreSQL answers 500 for an owned row or an overflowing field and 404 otherwise; neither changes anything |
| ServerDivergence.EmptyFieldOnUpdate | server-sqlite.js:321-323 | an empty medication name: SQLite refuses it, PostgreSQL stores it |
| ServerDivergence.UpdatesAgreeOnGoodBody | server-sqlite.js:317-346 | on a body both servers accept and PostgreSQL need not cut, both medication updates give the same answer and table |
| ServerDivergence.TrailingSpaceCut | scripts/server.js:210-213 | a 100-character name with a trailing space: SQLite stores it whole, PostgreSQL without the space |
| ServerDivergence.UncompleteDiverges | scripts/server.js:365 | un-completing a goal: PostgreSQL keeps the old time, SQLite as written stores the text `NULL`, corrected SQLite clears it |
| ReminderChecker.FindMed | script.js:1678 | a found medication is in the list with that id; none is found iff no medication has the id |
| ReminderChecker.FindMedFirst | script.js:1678 | `find` returns the first medication with the id |
| ReminderChecker.ClockMinutes | script.js:1682-1683 | a time of day is read only when it has a colon-separated minute part |
| ReminderChecker.ClockMinutesNeedsColon | script.js:1682-1683 | a time without a colon is never a valid time (its minute is `NaN`) |
| ReminderChecker.ClockMinutesOfText | script.js:1682-1683 | an `HH:MM` text is read as minutes since midnight |
| ReminderChecker.Classify | script.js:1689-1699 | due iff 0..5 minutes late, overdue iff 6..60, very overdue iff over 60, and nothing when early |
| ReminderChecker.ClassifyMonotone | script.js:1689-1699 | the later a dose, the more pressing its class |
| ReminderChecker.Evaluate | script.js:1671-1699 | no notice for an inactive reminder, another weekday or an unknown medication; a notice carries the reminder, its medication and the class of the delay |
| ReminderChecker.EvaluateFires | script.js:1686-1699 | an active reminder for today with a known medication fires iff its time has come |
| ReminderChecker.EvaluateDue | script.js:1689-1691 | at its exact minute an eligible reminder is due |
| ReminderChecker.Candidates | script.js:1671-1701 | exactly the notices of the reminders that fire, each from the list |
| ReminderChecker.KeyInjective | script.js:1705 | reminders with dash-free ids share a cooldown key only if they share id and time |
| ReminderChecker.Show | script.js:1704-1746 | a notice is shown iff its key is not cooling; showing records the time; otherwise nothing is recorded |
| ReminderChecker.CooldownWindow | script.js:1710 | after a notice, the next one for the same key shows iff at least 300000 ms have passed |
| ReminderChecker.NotifyAll | script.js:1704-1753 | shown notices are from the pass and record the time; afterwards every key of the pass is cooling; other keys keep their entry; a pass whose keys are all cooling shows nothing |
| ReminderChecker.SecondPassSilent | script.js:1704-1753 | a second check at the same instant shows nothing and changes nothing |
| ReminderChecker.CheckReminders | script.js:1658-1701 | every shown notice is one that fires and records the time; afterwards every reminder that fires is cooling |
| ReminderChecker.Total | script.js:1833-1840 | today's count is at most the number of reminders |
| ReminderChecker.Taken | script.js:1843-1848 | doses taken today are at most today's count |
| ReminderChecker.Late | script.js:1851-1857 | late doses are at most today's count |
| ReminderChecker.Compliance | script.js:1865 | a percentage in 0..100: 0 with nothing scheduled or taken, 100 when all are taken, and the nearest integer to 100·taken/total |
| ReminderChecker.ReminderStats | script.js:1823-1867 | the counts are today's reminders, those taken and those late, and compliance is their rounded percentage |
| ReminderChecker.ParseDays | script.js:763-767 | one parsed day per ticked box, in order |
| ReminderChecker.SubmitReminder | script.js:754-784 | the "fill all fields" error iff medication or time is empty; the "pick a day" error iff no day is ticked; otherwise the stored list grows by one active reminder with a timestamp id and the parsed days |
| ReminderChecker.SavedReminderDue | script.js:754-1699 | a reminder saved from the form is due at its own minute on a ticked day |
| Display.JsRem | script.js:33 | JavaScript `%`: the remainder of truncating division, with the sign of the dividend |
| Display.Hour12 | script.js:32-33 | the 12-hour face of an hour is 1..12 and agrees with it modulo 12 |
| Display.FormatTimeToAMPM | script.js:29-37 | a missing or empty time shows `-`; any other time gives at least an hour, a colon, a minute and the AM/PM suffix (five characters or more) |
| Display.FormatOfParts | script.js:29-37 | a time whose hour part reads as `h` shows as the 12-hour text of `h`, its minute part unchanged and the half of the day |
| Display.FormatClock | script.js:29-37 | an `HH:MM` time shows as its 12-hour hour, the minute and AM before noon or PM from noon |
| Display.FormatClockLandmarks | script.js:29-37 | midnight shows as 12 AM, noon as 12 PM, 13:00 as 1 PM |
| Display.FormatClockInjective | script.js:29-37 | different times of day never show the same text |
| Display.ExpiryClass | script.js:378-382 | expired iff the expiry day is past; warning iff it is 0..7 days away |
| Display.ExpiryMonotone | script.js:378-382 | the closer the expiry day, the stronger the mark |
| Display.GoalStatus | script.js:1381-1435 | completed iff the goal is completed; overdue iff pending with a deadline in the past; urgent iff pending with a deadline 0..3 days away |
| Display.FormatDaysUntilDeadline | script.js:1450-1460 | the deadline text is never empty |
| Display.FormatDaysInjective | script.js:1450-1460 | different day counts give different texts |
| Display.BadgeMatchesDeadlineText | script.js:1381-1460 | the overdue badge and the "days overdue" text agree; "today" and "tomorrow" only show on urgent goals |
| Display.FindGoal | script.js:1475 | `findIndex`: the first goal with the id, or the count when there is none |
| Display.ToggleGoalCompletion | script.js:1473-1495 | refused iff no goal has the id; otherwise only that goal changes, its flag flips, it gets the time when completed and loses it when pending, and nothing else about it changes |
| Display.ToggleKeepsConsistent | script.js:1482-1487 | toggling keeps every goal's flag and completion time consistent |
| Display.ToggleTwice | script.js:1473-1495 | completing a pending goal and toggling it back restores the list |

## Left out

- JSON serialisation of timestamps: times are integers.
- The tie order of rows with equal `created_at`: the model lists them in one fixed order.
- PostgreSQL `TIME` and `DATE` parsing: these columns are texts.
- Non-string request values (numbers, booleans, arrays): each body field is an optional string, except these. In the PostgreSQL server, a reminder's `medication_id` is an integer, its `days_of_week` a list of integers, its `is_active` a boolean, and a goal's `is_completed` a boolean. In the SQLite server, only the truthiness of a goal's `is_completed` is kept.
- Validation.CheckOptional: an absent field is `undefined`. A field sent as JSON `null` is not modelled. `optional()` skips only `undefined`, so the source checks `null` as the empty text. An `email`, `expiry_date`, `deadline` or `priority` of `null` then fails its validator, while a `null` `notes` or `description` passes. The model has no such value.
- Non-numeric path ids: ids are integers.
- Concurrency between requests: each request runs alone against one state.
- The SQLite driver's handling of bound values: `completed_at` is stored as the text the code binds.
- `VARCHAR` widths count characters of the Dafny string, not bytes or UTF-16 units.
- PgServer.Register: a failed user insert still uses up a `SERIAL` id in PostgreSQL. The model's user ids stay 1 to n, because the `users` table model is shared with the SQLite server and the back end. The medication, reminder and goal inserts do model the used-up id.
- PgServer.Register: the bcrypt hash is taken to fit `password_hash VARCHAR(255)`, as a 60-character bcrypt hash does. The hash is a parameter.
- Text.ParseInt: reads an exact unbounded integer. JavaScript's `parseInt` returns a double, which is exact only up to 2^53, so a longer numeral is rounded first: `formatTimeToAMPM("99999999999999999999:00")` shows `4:00 PM` in the browser, and `3:00 PM` in the model.
- Text.IntToString: prints every digit of any integer. A template literal prints a number of 1e21 or more in exponent form. The display prints this way only a 12-hour face, at most 12 in magnitude, so that form never shows.
- ReminderChecker.ParseDays: `parseInt` without a radix, as the form calls it, reads text starting with `0x` as hexadecimal. The model reads every checkbox value in base 10, as `parseInt(hour, 10)` does.
- Timers (`setInterval` in `startReminderChecker`/`stopReminderChecker`), the DOM, browser notifications and `localStorage`: the checker is a function of the stored lists and the current time.
- The internals of bcrypt and JSON Web Tokens: they are parameters.
- `isEmail`, `isISO8601` and `normalizeEmail`: they are parameters.
- Text.ToNumber: handles optional white space, a sign and decimal digits; fractions, exponents, hexadecimal and `Infinity` read as `NaN`.
- ReminderChecker.Compliance: `Math.round` on a floating-point quotient is modelled as exact rounding of the rational, half up.
- Date arithmetic (`daysToExpiry`, `getDaysUntilDeadline`, `getDay`, `setHours`, daylight saving): day counts, the weekday and the minute of the day are parameters.
- The few milliseconds between the `new Date()` calls of one checker pass: one instant is used for the whole pass.
- HTML checkbox values are not part of this model: the ticked values are texts read with `parseInt`. The client's Monday-first day numbering against `getDay()`'s Sunday-first numbering is not modelled.
- `markReminderAsTaken` and `snoozeReminder` are not part of the named core; `lastTaken` is an input.
- Display.FormatDaysUntilDeadline: days are an integer, so the `NaN` days of an unparsable deadline are not modelled.
- Server error paths that depend only on a database failure (`500` on a failed `db.run` or pool query): the model's database never fails, except for the constraint violations that `scripts/server.js` actually meets.
- Express routing, CORS, the health endpoint, the 404 fallback and the server start-up.

## Findings

| source | as written | input that shows it | evidently intended | confidence | as-written member | corrected member |
|---|---|---|---|---|---|---|
| scripts/server.js:272-275 | the reminder insert accepts any existing `medication_id` and never checks that the caller owns that medication | user 2 posts `{"medication_id":1,"reminder_time":"08:00"}` where medication 1 is user 1's: 201. User 2's `GET /api/reminders` then shows user 1's medication name, and user 1's `DELETE /api/medications/1` deletes user 2's reminder through the cascade (PgServer.CrossUserCascade) | a reminder names only a medication of its own owner, as every other route limits rows to the caller's `user_id` | medium, not executed | PgServer.CreateReminder | PgServer.CreateOwnReminder |
| server-sqlite.js:456-461 | the goal update binds the text `'CURRENT_TIMESTAMP'` or `'NULL'` as a parameter, so the column receives that text rather than a time or NULL | `PUT /api/goals/1` with `{"title":"t","is_completed":false}` on an owned goal stores `completed_at = 'NULL'`, a non-NULL value, for a goal marked not completed | `completed_at` is the update time when completed and NULL otherwise | high, not executed | SqliteServer.UpdateGoalAsWritten | SqliteServer.UpdateGoal |

`SqliteServer.Handle` and `PgServer.Handle` run each request as the source does, so they use the as-written members. The corrected members stand beside them, each with its property proved: `SqliteServer.UpdateGoal` and `PgServer.CreateOwnReminder` (with `PgServer.OwnRemindersStayHome`). `ServerDivergence.UncompleteDiverges` compares the corrected goal update with the as-written one and with PostgreSQL's.
