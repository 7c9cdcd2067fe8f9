# Grievance redressal portal — a verified model of its core

This project models the core of a small grievance redressal portal. The
backend is an Express application over MongoDB. Users register and log in
with email and password, get a JSON Web Token, and file grievances with up
to five attachments. Administrators see every grievance and change its
status; other users see only their own. The React client validates the
login form, filters the list through stat cards and offers status actions.

The model covers:

- the account routes: register, login, debug, reset-password and
  setup-accounts;
- the start-up seed of the two default accounts;
- the authentication and authorisation middleware;
- the grievance schema with its defaults and pre-save hook;
- the grievance routes: list with its status filter and paging, create,
  stats, get one, status update, file download and delete;
- the client-side rules of the dashboard and the login form.

Modules, one per file:

- `Common` (`common.dfy`): `Option`, `Response`, ids, and `FindFirst`
  (`findOne` / `findById` over a collection read in natural order). It also
  holds `Filter` and `Count`, with their lemmas.
- `Text` (`text.dfy`): ASCII lowercasing, `trim`, `split` on one character
  and `replace` of the first occurrence.
- `Users` (`users.dfy`): the user collection as a class, and the
  `/api/auth` routes.
- `Bootstrap` (`seed.dfy`): the seed block that runs at server start.
- `GrievanceModel` (`grievance_model.dfy`): the schema, validation,
  defaults and the pre-save hook.
- `Query` (`query.dfy`): the parsed `?status=` tokens and the Mongo filter
  built from them. It proves that filter equivalent to an independent
  selection rule, then covers sort, skip and limit, the paging clamps, and
  the `/stats` aggregation with its two reduces.
- `Auth` (`auth.dfy`): `authenticate`, `authorize` and
  `authorizeOwnerOrAdmin`.
- `GrievanceRoutes` (`grievance_routes.dfy`): the grievance collection and
  the uploads directory as classes, and each grievance route as a method.
- `Dashboard` (`dashboard.dfy`): the dashboard's state handlers, admin
  actions, tracking normalisation and the Open stat card.
- `LoginForm` (`login_form.dfy`): the form's validation, including the
  email pattern, its error messages and the mode toggle.

Modelling conventions:

- A MongoDB collection is a sequence in natural (insertion) order, and ids
  are handed out by a counter.
- bcrypt is `Bcrypt(secret, salt)`: a hash compares equal to exactly the
  password it was made from.
- `jwt.verify` is a parameter `string -> TokenCheck`. It stands for the
  secret and the clock. `jwt.sign` yields the claims record.
- A missing request field is the empty string. A stored status that is
  missing or `null` is `None`.
- The clock, the salt, and a store failure on create are parameters.
- The uploads directory is a set of file names.

## Model

| member | source | states |
|---|---|---|
| Text.Lower | backend/routes/grievanceRoutes.js:34 | `toLowerCase` keeps the length and lowercases each character |
| Text.LowerIdempotent | backend/routes/grievanceRoutes.js:34 | lowercasing twice is lowercasing once, so tokens are already in their lowercase form |
| Text.Trim | backend/routes/grievanceRoutes.js:34 | `trim` returns the contiguous middle of the input, with only whitespace cut at either end, and the result neither starts nor ends with whitespace |
| Text.Split | backend/routes/grievanceRoutes.js:34 | `split(',')` returns at least one part and no part contains the separator |
| Text.JoinSplit | backend/routes/grievanceRoutes.js:34 | joining the parts of a split with the separator gives back the original string |
| Text.SplitJoin | backend/routes/grievanceRoutes.js:34 | splitting a join of separator-free parts gives back the parts |
| Text.IndexOf | backend/middleware/auth.js:10 | the first position where the pattern occurs, or none when it occurs nowhere |
| Text.ReplaceFirst | backend/middleware/auth.js:10 | `replace` with a string pattern leaves a string in which the pattern occurs nowhere unchanged; otherwise it replaces the occurrence at the least position where the pattern occurs, and only that one |
| Common.FindFirst | backend/routes/authRoutes.js:17 | `findOne` returns the first document in natural order that matches, and nothing iff none matches |
| Common.Filter | backend/routes/grievanceRoutes.js:59 | `find` returns only matching documents, each of the input, and every matching document |
| Common.Count | backend/routes/grievanceRoutes.js:63 | `countDocuments` counts at most the whole collection; `Common.CountIsFilterLength` ties it to the length of `find`'s result |
| Common.FindFirstIs | backend/routes/authRoutes.js:17 | the position that matches with no earlier match is the one `findOne` returns |
| Common.FindFirstAppend | backend/routes/authRoutes.js:17 | searching a collection that grew at its end finds the old first match, or else the first match among the new documents |
| Common.CountIsFilterLength | backend/routes/grievanceRoutes.js:59-63 | `countDocuments` with a filter equals the number of documents `find` returns for it |
| Users.Login | backend/routes/authRoutes.js:32-55 | 400 without email or password; otherwise 401 with one shared message for an unknown email and a wrong password; success iff the first account with that email has a matching hash, and then the token signs its id, email and role for seven days and the reply omits the hash |
| Users.FindByEmail | backend/routes/authRoutes.js:38 | `User.findOne({ email })` gives the first account with exactly that email, and nothing iff no account has it |
| Users.FindById | backend/middleware/auth.js:17 | `User.findById` gives an account with that id, and nothing iff no account has it |
| Users.RequestedRole | backend/routes/authRoutes.js:80-81 | a role is taken iff it is `user` or `admin`, and it is the admin role iff `admin` was asked for |
| Users.Hash | backend/routes/authRoutes.js:21 | `bcrypt.hash`: the hash of a password with a salt |
| Users.Compare | backend/routes/authRoutes.js:42 | `bcrypt.compare`: a hash matches exactly the password it was made from |
| Users.View | backend/middleware/auth.js:17 | `select('-passwordHash')`: the account with every field but the hash |
| Users.WellFormed | backend/routes/authRoutes.js:11-128 | the invariant the account routes keep: unique emails, unique ids, and ids below the counter |
| Users.Debug | backend/routes/authRoutes.js:63-68 | the reply lists the emails of the first min(20, n) users in order, and its count is their number |
| Users.LoginFindsStoredAccount | backend/routes/authRoutes.js:38-53 | in a table with unique emails, any stored account logs in exactly with its own password, and the reply shows that account |
| Users.UserTable.Add | backend/routes/authRoutes.js:22-23 | appending under a fresh id for an unused email keeps emails and ids unique |
| Users.UserTable.Register | backend/routes/authRoutes.js:11-29 | 400 for a missing field and 409 for a taken email, both leaving the table unchanged; otherwise exactly one new `user` record with the hashed password, answered with 201 without the hash |
| Users.UserTable.ResetPassword | backend/routes/authRoutes.js:72-94 | an existing account always gets the new hash and takes the role only when `user` or `admin` is requested (200); an absent one is created with that role, or `user`, and no name (201); the table stays well formed |
| Users.UserTable.SetupAccounts | backend/routes/authRoutes.js:98-128 | with type `admin` or no type, the admin account exists afterwards with role admin and the default password: it is updated in place or created; any other type changes nothing; the reply is always the same |
| Users.FindAfterUpdate | backend/routes/authRoutes.js:104-108 | rewriting a record without changing its email keeps it the first match for that email |
| Users.FindAfterAppend | backend/routes/authRoutes.js:110-116 | an account appended for an unused email is then found under that email |
| Bootstrap.FindByEmailAppend | backend/index.js:72-83 | appending an account for another email does not change which account an email finds |
| Bootstrap.Seeded | backend/index.js:49-90 | the state the seed establishes: the admin email finds an admin and the demo email finds an account |
| Bootstrap.SeedAdmin | backend/index.js:53-70 | the admin is created when absent, promoted and re-hashed when not admin, and left untouched when already admin; afterwards the admin email finds an admin; no other record changes |
| Bootstrap.SeedDemoUser | backend/index.js:72-83 | the demo user is created with role `user` only when absent and an existing one is never modified; earlier records and the admin lookup are unchanged |
| Bootstrap.SeedDefaultUsers | backend/index.js:49-90 | afterwards both default accounts exist and the admin one is an admin; an already seeded table is left exactly as it was, so the seed is idempotent; at most two records are added and only the admin record can change |
| GrievanceModel.Instantiate | backend/models/Grievance.js:3-22 | a new document keeps the given fields, takes status `open` when none is given, and sets createdAt, updatedAt and every file's uploadedAt to the creation time |
| GrievanceModel.ValidatedDocument | backend/models/Grievance.js:4-19 | a document that passed validation has a non-empty title and description, a status in the enum, and complete file entries |
| GrievanceModel.Validates | backend/models/Grievance.js:4-19 | the schema's checks: title, description and owner required, status in the enum when given, and every file entry complete |
| GrievanceModel.FileInputValid | backend/models/Grievance.js:6-13 | a file entry is complete when its required strings are non-empty |
| GrievanceModel.Attach | backend/models/Grievance.js:6-13 | a saved file entry keeps the given fields and gets `uploadedAt` from the clock |
| GrievanceModel.FindGrievance | backend/middleware/auth.js:54 | `Grievance.findById`: the position of the record with that id, if any |
| GrievanceModel.Document.PreSave | backend/models/Grievance.js:24-29 | only a modified document that is already stored gets `updatedAt := now`; nothing else changes |
| Query.CleanTokens | backend/routes/grievanceRoutes.js:34 | every kept token is non-empty and already lowercase, and there are no more tokens than parts |
| Query.CleanTokensMembers | backend/routes/grievanceRoutes.js:34 | a string is a token iff it is non-empty and some part trims and lowercases to it |
| Query.Visible | backend/routes/grievanceRoutes.js:29-31 | an admin sees every record and anyone else only the records they created; the stats `$match` at lines 122-124 uses the same rule |
| Query.StatusSelected | backend/routes/grievanceRoutes.js:14-17 | the documented status rule: with `open` requested, a missing status, open or pending in any case, or another requested token; otherwise a present status equal to a requested token ignoring case |
| Query.Selected | backend/routes/grievanceRoutes.js:18-56 | a record is listed iff the caller may see it and, when `?status=` is given, its status satisfies the rule |
| Query.Matches | backend/routes/grievanceRoutes.js:59 | the database returns a record for a filter iff its owner clause and its status clause hold |
| Query.MatchingRecords | backend/routes/grievanceRoutes.js:59 | the selected records in store order |
| Query.VisibleRecords | backend/routes/grievanceRoutes.js:122-124 | the `$match` stage: the records the caller may see, in store order |
| Query.StatusTokens | backend/routes/grievanceRoutes.js:34 | the requested statuses are non-empty lowercase tokens |
| Query.OpenClauseMeaning | backend/routes/grievanceRoutes.js:37-50 | when `open` is requested, the `$or` clause matches a status iff it is missing or null, is open or pending in any case, or equals another requested token ignoring case |
| Query.OpenClauseSound | backend/routes/grievanceRoutes.js:38-48 | whatever one of the `$or` alternatives matches, the selection rule selects |
| Query.LikeTokenSound | backend/routes/grievanceRoutes.js:47 | a status that matches a requested token's anchored, case-insensitive regex is, once lowercased, that token |
| Query.OpenClauseComplete | backend/routes/grievanceRoutes.js:38-48 | whatever the selection rule selects, some `$or` alternative matches |
| Query.InTokensMeaning | backend/routes/grievanceRoutes.js:51-54 | without `open`, the `$in` of anchored case-insensitive regexes matches a status iff it is present and equals a requested token ignoring case |
| Query.OpenAlternativesFor | backend/routes/grievanceRoutes.js:38-48 | the `$or` list is the three fixed alternatives followed by one per other token, in order |
| Query.StatusClauseFor | backend/routes/grievanceRoutes.js:33-56 | for a non-empty `?status=`, the status clause matches a stored status iff the selection rule selects it |
| Query.BuildFilter | backend/routes/grievanceRoutes.js:26-56 | the filter is owner-scoped exactly for non-admins, has no status part without `?status=`, and matches a record iff the selection rule selects it |
| Query.BlankTokensSelectNothing | backend/routes/grievanceRoutes.js:34-54 | `?status=,` yields no tokens, and the resulting empty `$in` matches no record |
| Query.BlankPartsSelectNothing | backend/routes/grievanceRoutes.js:34-54 | any non-empty `?status=` whose comma-separated parts are all blank yields no tokens and selects no record |
| Query.BlankPartsNoTokens | backend/routes/grievanceRoutes.js:34 | parts that all trim to nothing give no tokens |
| Query.InsertKeepsOrder | backend/routes/grievanceRoutes.js:59 | inserting into a newest-first list keeps it newest first |
| Query.InsertPermutes | backend/routes/grievanceRoutes.js:59 | inserting adds exactly that record |
| Query.NewestFirst | backend/routes/grievanceRoutes.js:59 | the order `sort({ createdAt: -1 })` produces: no record is older than one after it |
| Query.SortNewestFirst | backend/routes/grievanceRoutes.js:59 | `sort({ createdAt: -1 })` returns a permutation of its input that is newest first |
| Query.Window | backend/routes/grievanceRoutes.js:59 | `skip(skip).limit(limit)` returns the records starting at position `skip`: none when `skip` is past the end, otherwise min(`limit`, what remains) of them |
| Query.ClampLimit | backend/routes/grievanceRoutes.js:22 | the limit is in [1, 200], is 20 when absent, is kept when in range, and otherwise is clamped to the nearer bound |
| Query.ClampPage | backend/routes/grievanceRoutes.js:23 | the page is at least 1, is 1 when absent or below 1, and is otherwise kept |
| Query.SkipFor | backend/routes/grievanceRoutes.js:24 | page 1 skips nothing |
| Query.NextPageFollows | backend/routes/grievanceRoutes.js:24 | each later page skips one more full page, and two consecutive pages together are the window of twice the limit, so paging neither repeats nor misses a record |
| Query.MatchingIsFiltered | backend/routes/grievanceRoutes.js:59-63 | with a filter equivalent to the rule, `find` returns the selected records and `countDocuments` returns their number |
| Query.MatchingCount | backend/routes/grievanceRoutes.js:63 | the total is the number of records the selection rule selects |
| Query.Tally | backend/routes/grievanceRoutes.js:129 | the `$group` accumulator keeps distinct keys with positive counts |
| Query.GroupByStatus | backend/routes/grievanceRoutes.js:126-130 | the groups have distinct keys and positive counts |
| Query.CountOf | backend/routes/grievanceRoutes.js:129 | the count a list of groups records under one key |
| Query.StatsKey | backend/routes/grievanceRoutes.js:128 | the key a record is counted under is already lowercase and, for a present status, equals it ignoring case |
| Query.Stats | backend/routes/grievanceRoutes.js:116-139 | `total` counts the visible records; `byStatus` never has the key `__proto__`, and `total` is the sum of `byStatus` plus the visible records normalised to `__proto__`; each key in `byStatus` holds the positive number of visible records whose status, defaulted to `open` and lowercased, is that key; every visible record's key other than `__proto__` is present |
| Query.StatsCorrected | backend/routes/grievanceRoutes.js:126-137 | reduced into an object without inherited keys, `total` counts the visible records and equals the sum of `byStatus`, each key holds its positive count, and every visible record's key is present |
| Query.ProtoStatusUncounted | backend/routes/grievanceRoutes.js:132-137 | as written, one visible record whose status normalises to `__proto__` makes `total` exceed the sum of `byStatus` |
| Query.StatsTotal | backend/routes/grievanceRoutes.js:126-137 | the summed group counts equal the number of visible records and the sum of the full group map, which keeps every key |
| Query.StatsProtoTotal | backend/routes/grievanceRoutes.js:126-137 | the summed group counts equal the sum of the object the route builds plus the number of visible records normalised to `__proto__` |
| Query.StatsCount | backend/routes/grievanceRoutes.js:126-135 | each count in the full group map equals the number of visible records normalised to its key, and it is positive |
| Query.StatsKeyPresent | backend/routes/grievanceRoutes.js:126-135 | every visible record's normalised status is a key of the full group map |
| Query.TallySum | backend/routes/grievanceRoutes.js:129 | counting one record adds one to the sum of the counts |
| Query.TallyCountOf | backend/routes/grievanceRoutes.js:129 | counting one record adds one under its key and nothing under any other key |
| Query.GroupSum | backend/routes/grievanceRoutes.js:126-130 | the groups count every record once |
| Query.GroupCountOf | backend/routes/grievanceRoutes.js:126-130 | under each key, the groups count the records whose normalised status is that key |
| Query.ByStatusKeys | backend/routes/grievanceRoutes.js:132-135 | the route's object has a key iff some group has it and the key is not `__proto__` |
| Query.ByStatusIsCountOf | backend/routes/grievanceRoutes.js:132-135 | with distinct keys, each key of the route's object holds that group's count |
| Query.ByStatusSum | backend/routes/grievanceRoutes.js:132-137 | with distinct keys, the values of the route's object plus the count under `__proto__` sum to the route's `total` |
| Query.ByStatus | backend/routes/grievanceRoutes.js:132-135 | the object the reduce builds never holds the key `__proto__`, whose assignment the inherited setter swallows |
| Query.ByStatusDropsProto | backend/routes/grievanceRoutes.js:132-135 | the route's object is the full group map with the key `__proto__` removed |
| Query.GroupMapKeys | backend/routes/grievanceRoutes.js:132-135 | the full group map has a key iff some group has it |
| Query.GroupMapIsCountOf | backend/routes/grievanceRoutes.js:132-135 | with distinct keys, the full group map holds each group's count |
| Query.GroupMapSum | backend/routes/grievanceRoutes.js:132-137 | with distinct keys, the values of the full group map sum to the summed group counts |
| Query.SumCounts | backend/routes/grievanceRoutes.js:137 | the summed counts; with the groups of the visible records it is the number of visible records, as `Query.StatsTotal` states |
| Auth.BearerToken | backend/middleware/auth.js:10 | no header gives no token; a header starting `Bearer ` gives the rest; a header with its first `Bearer ` further in gives the header with that occurrence cut out; a header without `Bearer ` anywhere is used as it is |
| Auth.Identify | backend/middleware/auth.js:8-34 | the request is authenticated iff a non-empty token verifies and its id names a stored user, whose stored view (not the claimed role) is put on the request; otherwise 401 for a missing token, an invalid token, an expired token or an unknown user, and 500 for any other verification error |
| Auth.ClaimedRoleIgnored | backend/middleware/auth.js:16-21 | two verified tokens with the same id authenticate alike, whatever email and role they claim |
| Auth.LoginTokenAuthenticates | backend/middleware/auth.js:10-24 | a token signed at login, sent as `Bearer <token>` and verified, authenticates as the account that logged in |
| Auth.RequestContext.Authenticate | backend/middleware/auth.js:8-34 | on success `req.user` is set and the chain continues; otherwise the request is answered with the rejection and `req.user` is unchanged |
| Auth.Authorize | backend/middleware/auth.js:37-49 | 401 without a user, 403 for a role not allowed, and pass iff the user's role is allowed |
| Auth.AuthorizeOwnerOrAdmin | backend/middleware/auth.js:52-74 | 404 for an absent grievance, before any role check; pass iff an admin or the owner asks; 403 for anyone else |
| Auth.OwnershipGateIsVisibility | backend/middleware/auth.js:60-70 | for an existing grievance the gate passes iff the list route would show it to the caller |
| Auth.AbsentIsNotFoundForAll | backend/middleware/auth.js:54-58 | an absent grievance gets the same 404 whoever asks |
| GrievanceRoutes.BuildEntries | backend/routes/grievanceRoutes.js:78-88 | one file entry per upload, in upload order, served under `/api/grievances/files/` |
| GrievanceRoutes.EntryFor | backend/routes/grievanceRoutes.js:80-86 | the file entry for one upload keeps its stored name, original name, size and type, and is served under `/api/grievances/files/` |
| GrievanceRoutes.ListsFile | backend/routes/grievanceRoutes.js:188-190 | `{ 'files.filename': filename }`: some attachment of the record has that name |
| GrievanceRoutes.DraftFor | backend/routes/grievanceRoutes.js:90-95 | a create gives no status, sets the caller as owner, and gives one entry per upload |
| GrievanceRoutes.CreatedRecord | backend/routes/grievanceRoutes.js:78-98 | the stored record belongs to the caller, starts `open`, was created and updated at `now`, and keeps the uploads in order with their served paths |
| GrievanceRoutes.PageOfMatching | backend/routes/grievanceRoutes.js:59-64 | a page holds no more than the matching records, its length is min(limit, matching - skip) or 0 past the end, and each of its records is stored and selected |
| GrievanceRoutes.RemovedRecord | backend/routes/grievanceRoutes.js:235 | removing the record found for an id keeps ids unique and leaves no record with that id |
| GrievanceRoutes.AppendedRecord | backend/routes/grievanceRoutes.js:96 | saving a record under the next id keeps ids unique, and the record is then found under its id |
| GrievanceRoutes.UploadDir.Unlink | backend/routes/grievanceRoutes.js:103-109 | after an unlink whose error is only logged, the name is gone from the directory |
| GrievanceRoutes.UploadDir.RemoveUploads | backend/routes/grievanceRoutes.js:99-110 | the cleanup after a failed create removes exactly the request's uploads from disk |
| GrievanceRoutes.UploadDir.RemoveAttachments | backend/routes/grievanceRoutes.js:221-233 | delete removes exactly the grievance's attachments from disk, skipping names already missing |
| GrievanceRoutes.GrievanceStore.List | backend/routes/grievanceRoutes.js:18-64 | the reply carries the clamped page and limit; `total` is the number of selected records; the list is the page of them sorted newest first, holding min(limit, total - skip) records, or none when the page starts past the total, and every entry is stored and selected |
| GrievanceRoutes.GrievanceStore.Create | backend/routes/grievanceRoutes.js:72-113 | a valid draft that is stored appends exactly the instantiated record under the next id and answers 201; otherwise the collection is unchanged, every upload is removed from disk, and the answer is 400 |
| GrievanceRoutes.GrievanceStore.GetOne | backend/routes/grievanceRoutes.js:147-157 | 404 for an unknown id, 403 for a record the caller may not see, and otherwise the record, so success iff the record exists and is visible |
| GrievanceRoutes.GrievanceStore.UpdateStatus | backend/routes/grievanceRoutes.js:160-174 | non-admins get 403 and an unknown id gets 404, both with nothing changed; otherwise exactly that record gets the given status, unchecked, and `updatedAt := now` |
| GrievanceRoutes.GrievanceStore.FetchFile | backend/routes/grievanceRoutes.js:177-205 | 404 unless the file is on disk and some record lists it; 403 unless the first such record is visible; success exactly when all three hold |
| GrievanceRoutes.GrievanceStore.Delete | backend/routes/grievanceRoutes.js:208-238 | 404 or 403 with nothing changed; otherwise the attachments are unlinked and exactly that record is removed, so it is no longer found and ids stay unique |
| Dashboard.KeepOthers | frontend/src/Dashboard.jsx:53-55 | the filter drops the element at the given position, when there is one, and keeps the others in order |
| Dashboard.RemoveAt | frontend/src/Dashboard.jsx:53-55 | an index inside the selection removes exactly that file and shifts the rest; any other index removes nothing |
| Dashboard.TrackingStatus | frontend/src/Dashboard.jsx:489 | a falsy status, whether missing, null or empty, shows as `open`, and any other status shows lowercased |
| Dashboard.Truthy | frontend/src/Dashboard.jsx:489 | a status is truthy iff it is present and not empty |
| Dashboard.TimelineStage | frontend/src/Dashboard.jsx:552-561 | pending, resolved and rejected show their own stage, and everything else falls back to the open stage |
| Dashboard.AdminActions | frontend/src/Dashboard.jsx:401-413 | Resolve/Reject are offered iff the status is falsy or open/pending in any case, and Re-open iff it is resolved/rejected in any case |
| Dashboard.ActionsExclusive | frontend/src/Dashboard.jsx:401-413 | the two sets of buttons never show together, and an unknown status gets neither |
| Dashboard.ActionsMatchTimeline | frontend/src/Dashboard.jsx:401-413 | for a known status, Resolve/Reject show while the timeline is at open or pending, and Re-open once it is at resolved or rejected |
| Dashboard.OpenCard | frontend/src/Dashboard.jsx:186 | the card shows `byStatus.open` if present, else `byStatus.pending`, else a local count over the list shown |
| Dashboard.CountUnder | frontend/src/Dashboard.jsx:186 | `byStatus[key]`, read as 0 when the key is absent |
| Dashboard.OpenCardCorrected | frontend/src/Dashboard.jsx:186 | the corrected card is at least each of the open and pending counts |
| Dashboard.OpenTokens | backend/routes/grievanceRoutes.js:34 | `?status=open` parses to the single token `open` |
| Dashboard.OpenListIsOpenOrPendingKey | backend/routes/grievanceRoutes.js:37-50 | the Open list selects exactly the visible records that `/stats` counts under `open` or `pending` |
| Dashboard.CountUnderStats | backend/routes/grievanceRoutes.js:126-135 | for any key other than `__proto__`, the stats count under the key, or 0 when it is absent, is the number of visible records with that key; under `__proto__` it is always 0 |
| Dashboard.OpenCardCorrectedMatchesList | frontend/src/Dashboard.jsx:186 | the corrected card equals the total the Open filter lists |
| Dashboard.OpenCardUndercounts | frontend/src/Dashboard.jsx:186 | with one visible open record and one visible pending record, the card as written is below the Open list's total |
| Dashboard.DashboardState.HandleFileChange | frontend/src/Dashboard.jsx:44-51 | more than five files leaves the selection unchanged and alerts; five or fewer replace it |
| Dashboard.DashboardState.RemoveFile | frontend/src/Dashboard.jsx:53-55 | the selection loses exactly the indexed file, and nothing else changes |
| Dashboard.DashboardState.Submit | frontend/src/Dashboard.jsx:58-68 | nothing is sent while the title or the description is empty; otherwise both are sent with the selected files |
| Dashboard.DashboardState.Submitted | frontend/src/Dashboard.jsx:80-83 | after a successful create, the title, the description and the selection are cleared |
| Dashboard.DashboardState.HandleFilter | frontend/src/Dashboard.jsx:94-104 | `Total`, in any case, clears the filter and lists everything; any other label, lowercased, becomes the active filter and the requested status; an empty label sends no status |
| LoginForm.FirstCharFrom | frontend/src/Login.jsx:20 | the first position from `k` holding the character, or none |
| LoginForm.LastCharBefore | frontend/src/Login.jsx:20 | the last position before `n` holding the character, or none |
| LoginForm.LooksLikeEmailIsShape | frontend/src/Login.jsx:20 | the decision procedure accepts exactly the strings `^\S+@\S+\.\S+$` matches |
| LoginForm.LooksLikeEmail | frontend/src/Login.jsx:20 | the decision procedure for `^\S+@\S+\.\S+$`; `LoginForm.LooksLikeEmailIsShape` proves it accepts exactly the matching strings |
| LoginForm.ErrorMessage | frontend/src/Login.jsx:40-54 | no response gives the network message; sign-up 409 and sign-in 401 and 500 give fixed messages; otherwise the server's error is shown, or, without one, a per-mode fallback: the invalid-input or credentials-required message for a 400, and registration-failed or login-failed for any other status; the message is never empty |
| LoginForm.ErrorOr | frontend/src/Login.jsx:47 | `err.response?.data?.error` with a fallback: the server's error when non-empty, else the fallback |
| LoginForm.SignInShowsLoginError | frontend/src/Login.jsx:49-54 | every refusal of the login route reaches the sign-in form with the route's own message |
| LoginForm.LoginFormState.constructor | frontend/src/Login.jsx:5-12 | the form starts in sign-in mode with the given email and empty fields and errors |
| LoginForm.LoginFormState.Submit | frontend/src/Login.jsx:15-39 | each field error is set iff its check fails, with the message for that failure; a request is sent iff there is no field error; sign-up registers then signs in |
| LoginForm.LoginFormState.Failed | frontend/src/Login.jsx:40-54 | the shown error is the message for the failure, and nothing else changes |
| LoginForm.LoginFormState.ToggleMode | frontend/src/Login.jsx:184-188 | the mode flips, and the error and field errors are cleared |
| LoginForm.ValidFormHasCredentials | frontend/src/Login.jsx:19-22 | a form that passes validation never gets the login route's missing-credentials 400 |

## Left out

- Database I/O errors are not modelled. The one exception is create, whose
  failed save is the `storeError` parameter. The other `catch` paths that
  answer 400 or 500 are not modelled.
- `populate` is left out. Replies carry the owner's id, not their name and
  email.
- Invalid ObjectId strings are left out. Ids are numbers, so the cast
  failures that answer 400 or 500 do not arise.
- Concurrency between requests is left out. Each route runs atomically on
  the state.
- The internals of bcrypt and JWT are abstracted. Signing is the claims
  record, and verification is a parameter.
- multer is left out: its storage, its generated file names and its
  five-file cap on the server. An upload arrives already on disk under its
  name.
- Mongoose's exact validation messages are reduced to their common prefix,
  `ValidationFailed`.
- `Text.Lower` lowercases ASCII letters only. That matches MongoDB's
  `$toLower`, which `/stats` uses. JavaScript's `toLowerCase`, which the
  list route applies to the `?status=` tokens and the client to a status,
  also folds letters outside ASCII, and so may the case-insensitive regex
  match. For such a status the model and the application can differ, and
  PATCH stores any string, so such statuses can exist.
- The password length of 6 is counted in characters of the model's string,
  not in UTF-16 code units.
- Regex metacharacters inside status tokens are left out. A token is
  matched literally and case-insensitively. The route interpolates it into
  a regex unescaped.
- `parseInt` producing `NaN` is left out. An unparsable limit or page is
  not modelled: the parameter is an integer or absent.
- The order of records with equal `createdAt` is left out. The sort keeps
  insertion order, while MongoDB promises none.
- A PATCH without a `status` key is left out. It is modelled as writing
  `None` (null).
- The file route's path handling is left out. A name is a set member, so
  traversal through `..` is not modelled.
- The Delete route's own 403 "Access denied" check is left out. It re-tests
  exactly what the ownership gate already refused, so it cannot be reached.
- The 500 answer `authorizeOwnerOrAdmin` gives without `req.user` is left
  out. The gate always runs after `authenticate`.
- JSX rendering, `changeStatus`, the tracking lookup fetch and the file
  size formatting are left out. They are display or plain I/O with no rule
  to state.
- `Dashboard.TimelineStage` ignores JavaScript prototype keys. For a status
  such as `constructor`, `statusInfo[normalized]` is an inherited function,
  not the open fallback.
- An empty stored status `""` is falsy in the client: `TrackingStatus` and
  `AdminActions` treat it as open. The backend's open filter does not
  select it, and `/stats` counts it under `""`. The model states both
  behaviours as written.

## Findings

| source | as written | input that shows it | evidently intended | confidence | as-written member | corrected member |
|---|---|---|---|---|---|---|
| frontend/src/Dashboard.jsx:186 | The Open card shows `byStatus.open ?? byStatus.pending ?? local count`. When both keys exist it shows only the open count. | The caller sees one record with status `open` and one with status `pending`. The card shows 1. Clicking it lists both records, total 2. | The card shows open plus pending, which matches what its filter lists. | not executed | Dashboard.OpenCardUndercounts | Dashboard.OpenCardCorrectedMatchesList |
| backend/routes/grievanceRoutes.js:132-137 | `byStatus` is built by assigning `acc[cur._id] = cur.count` on a plain `{}`. For the key `__proto__` that assignment goes to the inherited setter, which ignores a number, while `total` still adds the group. | PATCH stores any status unchecked, so an admin can set the status of the only stored record to `__proto__`. `/stats` then answers `total` 1 with an empty `byStatus`. | `byStatus` holds every group, so `total` equals the sum of its values. | not executed | Query.ProtoStatusUncounted | Query.StatsCorrected |
