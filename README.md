# Laundry tracker — a verified model

The laundry tracker is a campus laundry service. A worker records each student's drop-off as an
entry with a list of items, which starts as `received`. The worker marks it `completed` when
it is ready, and the student marks it `picked_up` when they collect it. The backend works over
three collections: users, sessions and entries. It handles these requests:

- a student signs in through Google, and only institute addresses are accepted;
- a worker logs in with a password;
- a worker creates, lists and completes entries;
- a student lists their own entries and picks them up.

Both front-end dashboards derive their views from the fetched entries:

- the student dashboard shows one entry ready for pickup and a history list;
- the worker dashboard shows a status filter, per-status counts, an entry form and its
  item-list editing.

Each app keeps its signed-in user in component state and its session in the browser's local
storage.

The model is written in Dafny, one module per part of the program:

| module | file | models |
|---|---|---|
| `Common` | common.dfy | `Option`, `Result` |
| `LaundryData` | laundry_data.dfy | items, entries, statuses, the item total; status filters (`entries.filter(e => e.status === s)`) and what they preserve |
| `Server` | server.dfy | the request handlers, as class `LaundryServer` over its three collections |
| `StudentDashboard` | student_dashboard.dfy | the active/history split loop, the pickup button and the history badge |
| `WorkerDashboard` | worker_dashboard.dfy | `filteredEntries`, `stats`, the dashboard's item-list handlers and its component state (class `Dashboard`) |
| `WorkerEntryForm` | worker_entry_form.dfy | the stand-alone form's loop- and array-based handlers, proved equal to the dashboard's, and the remove-button rule |
| `SessionStore` | session_store.dfy | `StudentApp` and `WorkerApp`: local storage (class `LocalStorage`) and the app component (class `PortalApp`) |

These choices shape the model:

- **Collections as sequences.** Each database collection is a `seq` in natural (insertion)
  order, and `find_one` and `update_one` act on the first matching document.
- **Parameters.** Generated ids, the current time, bcrypt's password check and JWT signing are
  all parameters. A token that does not verify reaches `CurrentUser` as `None`.
- **Timestamps.** They are integers. The server's ISO-8601 strings compare in the same order.
- **Field types.** Statuses are strings, so a status the server never writes can still be
  represented. Quantities arrive as already-parsed integers.

## Model

| member | source | states |
|---|---|---|
| `LaundryData.SumQuantitiesAtLeastLines` | backend/server.py:227 | with every quantity at least one, the item total is at least the number of item lines |
| `LaundryData.Matching` | frontend/src/WorkerDashboard.js:91 | a status filter is no longer than its input, and everything it keeps is an input entry with (or without) the status |
| `LaundryData.MatchingComplete` | frontend/src/WorkerDashboard.js:91 | every input entry with (or without) the status is kept by the filter |
| `LaundryData.MatchingAppend` | frontend/src/WorkerDashboard.js:91 | filtering a concatenation is concatenating the filtered parts (the filter keeps relative order) |
| `LaundryData.MatchingIsSubsequence` | frontend/src/WorkerDashboard.js:91 | the filter's result is the entries at a strictly increasing list of positions, which are exactly the positions of the matching entries |
| `LaundryData.WithStatusTwice` | frontend/src/WorkerDashboard.js:91 | filtering by one status and then another gives the first filter's result when the statuses agree, and nothing when they differ |
| `LaundryData.MatchingPartition` | frontend/src/StudentDashboard.js:45-51 | every entry is either kept or dropped by a status test |
| `LaundryData.UnknownCountZero` | frontend/src/WorkerDashboard.js:94-99 | no entry has an unknown status exactly when every status is one of the three |
| `LaundryData.StatusPartition` | frontend/src/WorkerDashboard.js:94-99 | the three per-status counts plus the unknown-status count equal the number of entries |
| `Server.ReceivedEntry` | backend/server.py:227-240 | a created entry copies the request's fields, totals its quantities, is `received` with no completion date, carries the worker's id and is well formed |
| `Server.StudentReadsOnlyOwn` | backend/server.py:255-256 | a student may read a student id's entries exactly when it is their own |
| `Server.FirstIndex` | backend/server.py:122 | `find_one` finds the first document that satisfies the query, and none when no document does |
| `Server.FindEntry` | backend/server.py:266 | the first entry with the id, or none when no entry has it |
| `Server.FindUserById` | backend/server.py:122 | the first user with the id, or none when no user has it |
| `Server.FindUserByEmail` | backend/server.py:144 | the first user with the email, or none when no user has it |
| `Server.FindWorker` | backend/server.py:200 | the first user with the email and role `worker`, or none when no user has both |
| `Server.InsertNewestFirst` | backend/server.py:250 | inserting adds exactly the one entry, and the head is that entry or the old head |
| `Server.InsertKeepsNewestFirst` | backend/server.py:250 | insertion keeps a list sorted newest first |
| `Server.SortNewestFirst` | backend/server.py:250 | the sort is a permutation of the input, ordered by submission date newest first |
| `Server.NewestIsTopByDate` | backend/server.py:250 | `sort(-1).to_list(limit)` returns at most `limit` entries, newest first, drawn from the input; it returns all of them when the input fits; every entry it leaves out is no newer than any it returns |
| `Server.OfStudent` | backend/server.py:258 | the query keeps exactly the entries with the student id, each as many times as it occurs in the collection |
| `Server.LocalPart` | backend/server.py:156 | `split('@')[0]` is a prefix with no '@', followed by '@' when it stops short of the end |
| `Server.UpperRaisesLetters` | backend/server.py:156 | after `upper()` no lower-case ASCII letter is left: each becomes its capital, every other character is unchanged, and raising twice equals raising once |
| `Server.StudentIdOfInstituteEmail` | backend/server.py:140-156 | for an address that passes the domain check, the student id is the text before the first '@', upper-cased, with no lower-case ASCII letter |
| `Server.LocalPartOfAddress` | backend/server.py:156 | the local part of `name@rest` is `name` when `name` has no '@' |
| `Server.StudentIdExample` | backend/server.py:156 | "21bcs001@iiitdwd.ac.in" gives student id "21BCS001" |
| `Server.AdmittedUsers` | backend/server.py:144-168 | a new email appends exactly one student whose student id is derived from the email; an existing email changes no user's id, email, role, student id or password hash, rewrites only the name and picture of the first user with the found user's id, and leaves every other user as it was; the admitted id is then in the table |
| `Server.AdmittedUserCarriesProfile` | backend/server.py:147-165 | the admitted user's record carries the profile's name and picture |
| `Server.TotalItemsExample` | backend/server.py:227 | two shirts and one pair of trousers total three items |
| `Server.LaundryServer.constructor` | backend/server.py:21-23 | a fresh store holds the seeded users, no sessions, no entries, and satisfies the invariant |
| `Server.LaundryServer.CurrentUser` | backend/server.py:113-125 | a bad token gives 401 "Invalid token"; an unknown user id gives 401 "User not found"; otherwise the first stored user with that id, as `find_one` returns it |
| `Server.LaundryServer.WorkerLogin` | backend/server.py:199-219 | 401 "Worker not found", then "Invalid authentication method", then "Invalid credentials", in that order; when the first worker with the email has a hash that accepts the password, the login succeeds for that worker, with a token over its id, email and role |
| `Server.LaundryServer.CreateLaundryEntry` | backend/server.py:223-243 | a non-worker gets 403 and nothing changes; a worker's request appends exactly the received entry; the entry invariant is kept |
| `Server.LaundryServer.GetAllLaundry` | backend/server.py:246-251 | a non-worker gets 403; a worker gets at most 1000 entries, newest first, all of them when there are no more than 1000, and none left out that is newer than one returned; with the store's invariant, every returned entry is well formed (its total is the sum of its quantities) |
| `Server.LaundryServer.GetStudentLaundry` | backend/server.py:254-259 | a student asking for another student id gets 403; otherwise at most 1000 of that student's entries, newest first, drawn from them as a sub-multiset, all of them when they fit, and none left out that is newer than one returned; with the invariant, each is well formed |
| `Server.LaundryServer.CompleteLaundry` | backend/server.py:262-274 | 403 for a non-worker, then 404 for an unknown id; otherwise the first entry with the id becomes `completed` with the completion date, whatever its status was, and nothing else changes |
| `Server.LaundryServer.PickupLaundry` | backend/server.py:328-341 | 404 for an unknown id comes before the student-ownership 403; success changes only the status, to `picked_up`, and keeps the completion date |
| `Server.LaundryServer.AdmitStudent` | backend/server.py:143-168 | the users table becomes the admission result, and the returned id is the existing user's or the new one; the entry invariant is kept |
| `Server.LaundryServer.StudentGoogleAuth` | backend/server.py:138-177 | as written: a non-institute address gets 403 and nothing changes; an institute address updates the users table, and then the request fails with 500 and no session is stored; the entry invariant is kept |
| `Server.LaundryServer.StudentGoogleAuthWithSession` | backend/server.py:138-191 | as intended: after admission one seven-day session is appended for the admitted user, and the response carries the session token and the record that a lookup by the admitted id finds in the updated table (with `AdmittedUserCarriesProfile`, the profile's name and picture); a brand-new student comes back with role `student` and the derived student id; the entry invariant is kept |
| `Server.GoogleAuthAsWrittenFails` | backend/server.py:174 | a first-time student with a valid address is stored as a student with id "21BCS001", and the sign-in answers 500 |
| `Server.CompleteAfterPickupAccepted` | backend/server.py:261-339 | a received entry can be picked up without ever being completed, and the picked-up entry can then be completed: the request succeeds and the entry becomes `completed` with the new date |
| `StudentDashboard.FirstIndexWithStatus` | frontend/src/StudentDashboard.js:45-47 | the position of the first entry with the status, or none when no entry has it |
| `StudentDashboard.SplitEntries` | frontend/src/StudentDashboard.js:42-51 | the loop's outputs are the first completed entry and the non-completed entries; the active entry is completed, no history entry is, and empty input gives neither |
| `StudentDashboard.ActiveEntryIsFirstCompleted` | frontend/src/StudentDashboard.js:45-47 | there is an active entry exactly when some entry is completed, and it is the first completed one |
| `StudentDashboard.HistoryIsNotCompleted` | frontend/src/StudentDashboard.js:48-49 | the history holds exactly the non-completed entries, as an order-preserving subsequence |
| `StudentDashboard.SplitAccountsForEntries` | frontend/src/StudentDashboard.js:45-51 | history size + (1 if active) + the later completed entries that neither output shows = the number of entries; history size + (1 if active) never exceeds it |
| `StudentDashboard.PickupTargetsFirstCompleted` | frontend/src/StudentDashboard.js:82-141 | the pickup button exists exactly when some entry is completed, and it sends the first completed entry's id |
| `StudentDashboard.HistoryBadgesMatchStatus` | frontend/src/StudentDashboard.js:170 | a history card reads "In Progress" exactly for a received entry; with known statuses, "Picked Up" exactly for a picked-up one |
| `StudentDashboard.SplitExample` | frontend/src/StudentDashboard.js:42-51 | a completed entry followed by a received one: the first is active, the second is the history |
| `WorkerDashboard.FilterSelectsStatus` | frontend/src/WorkerDashboard.js:89-92 | filter `all` shows the input; any other filter shows exactly the entries with that status, as an order-preserving subsequence |
| `WorkerDashboard.WithStatusCountsOccurrences` | frontend/src/WorkerDashboard.js:96-98 | a status filter's length is the number of occurrences of that status |
| `WorkerDashboard.ComputeStats` | frontend/src/WorkerDashboard.js:94-99 | the total is the entry count; each status count is how often that status occurs among the entries |
| `WorkerDashboard.StatsPartitionTotal` | frontend/src/WorkerDashboard.js:94-99 | the three counts sum to at most the total, and to exactly the total when every status is one of the three |
| `WorkerDashboard.EmptyDashboard` | frontend/src/WorkerDashboard.js:89-99 | no entries: all counts zero and every filter empty |
| `WorkerDashboard.CompleteButtonsMatchReceived` | frontend/src/WorkerDashboard.js:373 | Complete is offered only on received entries; under `all` or `received` there is one button per received entry, under any other filter none |
| `WorkerDashboard.AddItemAppendsDefault` | frontend/src/WorkerDashboard.js:38-43 | adding keeps earlier items and appends one default item; the total grows by one |
| `WorkerDashboard.RemoveItemDeletesPosition` | frontend/src/WorkerDashboard.js:45-48 | removal deletes exactly the item at a valid index and keeps the order; an out-of-range index changes nothing |
| `WorkerDashboard.ChangeItemTouchesOneField` | frontend/src/WorkerDashboard.js:50-54 | a change sets only the named field of the item at the index; the other field and the other items are unchanged |
| `WorkerDashboard.Dashboard.constructor` | frontend/src/WorkerDashboard.js:13-20 | no entries, filter `all`, the empty form, the form closed |
| `WorkerDashboard.Dashboard.EntriesFetched` | frontend/src/WorkerDashboard.js:26-32 | a fetch replaces the entries and nothing else |
| `WorkerDashboard.Dashboard.SelectFilter` | frontend/src/WorkerDashboard.js:290-321 | a filter button sets the filter and nothing else |
| `WorkerDashboard.Dashboard.ToggleAddForm` | frontend/src/WorkerDashboard.js:148 | the add button flips whether the form is shown, and nothing else |
| `WorkerDashboard.Dashboard.HandleAddItem` | frontend/src/WorkerDashboard.js:38-43 | the form's items become the add result; nothing else changes |
| `WorkerDashboard.Dashboard.HandleRemoveItem` | frontend/src/WorkerDashboard.js:45-48 | the form's items become the removal result; nothing else changes |
| `WorkerDashboard.Dashboard.HandleItemChange` | frontend/src/WorkerDashboard.js:50-54 | the form's items become the change result; nothing else changes |
| `WorkerDashboard.Dashboard.SubmitSucceeded` | frontend/src/WorkerDashboard.js:64-69 | after a successful submit the form is closed and reset to empty id and name and one default item |
| `WorkerEntryForm.HandleAddItem` | frontend/src/components/WorkerEntryForm.js:8-12 | the old items followed by one default item; id and name unchanged |
| `WorkerEntryForm.HandleRemoveItem` | frontend/src/components/WorkerEntryForm.js:14-22 | the loop yields the items with a valid index's position deleted, or the items unchanged for an index out of range; this equals the dashboard's filter-based removal |
| `WorkerEntryForm.HandleItemChange` | frontend/src/components/WorkerEntryForm.js:24-32 | the array write sets only the named field of the item at the index; it equals the dashboard's change |
| `WorkerEntryForm.StepKeepsALine` | frontend/src/components/WorkerEntryForm.js:74-104 | an offered action on a non-empty list: a removal shortens it by one without emptying it; add and change do not shorten it |
| `WorkerEntryForm.RunKeepsALine` | frontend/src/components/WorkerEntryForm.js:74-104 | any sequence of actions through the rendered controls keeps a non-empty item list non-empty |
| `WorkerEntryForm.FreshFormNeverEmpty` | frontend/src/WorkerDashboard.js:253 | starting from the empty form, the items never become an empty list |
| `SessionStore.SessionKeysDistinct` | frontend/src/StudentApp.js:11-12 | the student's and the worker's token and user keys are four different keys |
| `SessionStore.RestoredUserNeedsBothKeys` | frontend/src/StudentApp.js:10-16 | a user is restored exactly when both keys hold non-empty values, and it is the stored user |
| `SessionStore.LogoutRemovesOnlySession` | frontend/src/StudentApp.js:22-26 | logout removes exactly the two keys, keeps every other key and value, and leaves nothing to restore |
| `SessionStore.LogoutKeepsOtherAppSession` | frontend/src/WorkerApp.js:22-26 | logging out of one app leaves the other app's restorable session as it was |
| `SessionStore.LookupAfterRemove` | frontend/src/StudentApp.js:23-24 | after a removal the key looks up as missing, and every other key looks up as before |
| `SessionStore.LocalStorage.RemoveItem` | frontend/src/StudentApp.js:23-24 | `removeItem` deletes the key, and only it: afterwards `getItem` finds nothing under it and the same as before under every other key |
| `SessionStore.PortalApp.constructor` | frontend/src/StudentApp.js:8 | the first render has no user |
| `SessionStore.PortalApp.Restore` | frontend/src/WorkerApp.js:10-16 | the user becomes the restored one when both keys are truthy, and is kept otherwise; storage is not touched |
| `SessionStore.PortalApp.LoginSuccess` | frontend/src/StudentApp.js:18-20 | the user is set to the given data; storage is not touched |
| `SessionStore.PortalApp.Logout` | frontend/src/WorkerApp.js:22-26 | storage loses exactly the app's two keys, and the user is cleared |
| `SessionStore.Mount` | frontend/src/StudentApp.js:8-16 | a mounted app's user is the restored one, or none; the dashboard shows exactly when a user was restored |
| `SessionStore.ReloadAfterLogout` | frontend/src/StudentApp.js:22-34 | after logout both the component and a freshly mounted one show the login screen |

## Left out

- HTTP, async and the database driver. Requests are method calls. Errors are `Result.Failure`
  values carrying the status and detail that `HTTPException` sends.
- bcrypt and JWT. The password check and the token minting are function parameters, and token
  decoding arrives as the user id it yields (or `None`).
- uuid generation and `datetime.now()`. They are parameters.
- The email receipt sent on completion (backend/server.py:276-323). It is HTML building,
  `strftime` date formatting and a third-party send.
- `Server.LaundryServer.CompleteLaundry`: its contract covers the status update and its error
  order. It says nothing about the email receipt.
- Request-body validation by pydantic (`EmailStr`) and the HTML `required`/`min="1"`
  attributes on the form inputs. These are checks the browser and the web framework make
  outside the program's code.
- The dashboards' fetch calls and the token keys they read. The student dashboard fetches
  with `student_token` (frontend/src/StudentDashboard.js:19), but its pickup request reads
  `token` (frontend/src/StudentDashboard.js:31). The worker dashboard reads `token` for every
  request (frontend/src/WorkerDashboard.js:28, 59, 78). The login screens write the tokens;
  the apps only read and remove them. The requests are not modelled, so these key
  mismatches are not modelled either.
- Rendering, styling and routing. The stats cards are display only and are not modelled.
- `JSON.parse` of the stored user (frontend/src/StudentApp.js:14, frontend/src/WorkerApp.js:14).
  The user is the stored text itself. A stored value that parses to a falsy value is not
  modelled. Neither is a value that is not valid JSON: there `JSON.parse` throws inside the
  mount effect, but the model restores the raw text and shows the dashboard.
- `WorkerEntryForm.HandleItemChange` and `WorkerDashboard.ChangeItem`: `[...items]` copies
  only the array, so `newItems[index][field] = …` also changes the item object that the old
  form state shares. Items here are values, so this sharing is not modelled. A change at an
  index with no rendered line throws in JavaScript; the model requires an index in range.
- `WorkerDashboard.Dashboard.HandleItemChange`: quantities come from `parseInt`, which can give NaN. The
  model takes quantities as already-parsed integers.
- `Server.Upper`, `Server.UpperRaisesLetters` and `Server.StudentIdOfInstituteEmail`:
  Python's `upper()` covers all of Unicode. The model raises ASCII letters only, so these
  contracts speak about ASCII letters only.
- `Server.NewestIsTopByDate`: ties in submission date come back in no particular order.
- The code allows more than its screens suggest in these places; the model follows the code:
  - **Completing or picking up in any state.** The code accepts `complete` and `pickup` in
    any status. `Server.CompleteAfterPickupAccepted` exhibits this.
  - **Empty item list.** The code sends a create request with whatever items the form holds.
    There is no client-side empty-items check. Instead, `WorkerEntryForm.RunKeepsALine`
    proves that the rendered controls never let the list become empty.
  - **Session restore.** It needs both keys to be truthy, so an empty string counts as
    missing.

## Findings

| source | as written | input that shows it | evidently intended | confidence | as-written member | corrected member |
|---|---|---|---|---|---|---|
| backend/server.py:174 | the session document is built with `timedelta(days=7)`, but only `datetime` and `timezone` are imported, so a `NameError` ends the request with a 500 after the users table was written and before any session is stored | a Google sign-in with profile email "21bcs001@iiitdwd.ac.in" | store a session that expires seven days later and return the session token with the user | not executed | `Server.GoogleAuthAsWrittenFails` | `Server.LaundryServer.StudentGoogleAuthWithSession` |
