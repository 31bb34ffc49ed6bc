# Digital Nexus dashboard state, in Dafny

This project models the state layer of the Digital Nexus time-tracking dashboard. That layer is the
top-level `App` component. It keeps an in-memory store of users, time records and chat messages,
plus the logged-in user (the session), the interface language, a screen phase and the active tab.
Its handlers replace these slots.

- `types.dfy` (module `Types`) holds the entities of `types.ts`: `User`, `TimeRecord`, `ChatMessage`
  and the 12 interface languages. Optional fields are `Option` values (`wrappers.dfy`).
- `seqs.dfy` (module `Seqs`) holds the three array operations the handlers are built from (filter,
  map, find) as pure functions on sequences. It also holds their laws: order and multiplicity of
  what a filter keeps, distribution over concatenation, idempotence, and "find returns the first match".
- `records.dfy` (module `RecordStore`) holds the record collection. Upsert is keyed by date: every
  record with that date is dropped, then the new record is appended. The single-user backup merge
  drops every record whose date occurs in the backup, then appends the backup's records. The date is
  a flat key: records have no owner.
- `users.dfy` (module `UserTable`) holds the user table: replace by id, delete by id, the password
  change, and lookup by id.
- `app.dfy` (module `App`) holds the class `AppState`. Its fields are the state slots and its
  methods are the handlers. Each method states the whole new state in terms of the old one and the
  functions above. The backup is a tagged union: `Full`, `Single`, and `Unknown` for any other
  discriminant.

Three behaviours of the code a reader might not expect:
- A full-system restore is refused only when someone is logged in and is not the master. With nobody
  logged in it goes through, and the session stays empty, because the code re-resolves the session
  only when one exists.
- When a full restore removes the logged-in user, the session becomes empty but the phase is left
  as it was, because the code does not change the phase.
- Nothing makes the restore all-or-nothing for malformed payloads. The model takes only
  well-formed payloads.

## Model

| member | source | states |
|---|---|---|
| `Seqs.Filter` | App.tsx:139 | the result holds only elements of the input that pass the test, and every input element that passes is in the result |
| `Seqs.FilterCount` | App.tsx:139 | each element passing the test keeps its multiplicity; each failing one is gone |
| `Seqs.FilterIsSubsequence` | App.tsx:139 | what a filter keeps stays in its original relative order |
| `Seqs.Map` | App.tsx:112 | length kept, and each position holds the function applied to the input at that position |
| `Seqs.Find` | App.tsx:168 | nothing is found exactly when no element passes; a found element is in the input and passes |
| `Seqs.FindFirst` | App.tsx:168 | what is found is the element at the first passing position |
| `RecordStore.WithoutDate` | App.tsx:139 | every kept record was in the input and has another date; every input record with another date is kept |
| `RecordStore.UpsertByDate` | App.tsx:137-142 | the new record is last, and no other record has its date |
| `RecordStore.UpsertKeepsOthers` | App.tsx:139-140 | every record with another date survives, in its original order and with its multiplicity |
| `RecordStore.UpsertIdempotent` | App.tsx:137-142 | upserting the same record twice gives the same collection as once |
| `RecordStore.UpsertLatestWins` | App.tsx:137-142 | two upserts with the same date equal the second upsert alone, whatever the ids |
| `RecordStore.UpsertKeepsDatesUnique` | App.tsx:137-142 | if no two records share a date before an upsert, none do after |
| `RecordStore.DatesOf` | App.tsx:183 | the backup's dates, one per record, position by position |
| `RecordStore.MergeByDates` | App.tsx:183-187 | the backup's records come last, in order, and no record before them has a date the backup has |
| `RecordStore.MergeKeepsOthers` | App.tsx:185 | the kept prefix is a subsequence of the old records; every record whose date is not in the backup keeps its multiplicity |
| `RecordStore.MergeSingleIsUpsert` | App.tsx:183-187 | merging a one-record backup is the same as upserting that record |
| `RecordStore.MergeEmptyIsNoop` | App.tsx:183-187 | merging an empty backup changes nothing |
| `RecordStore.MergeIdempotent` | App.tsx:183-187 | merging the same backup twice gives the same collection as once |
| `RecordStore.MergeKeepsDatesUnique` | App.tsx:183-187 | with date-unique records and a date-unique backup, the merge is date-unique |
| `UserTable.ReplaceById` | App.tsx:112 | length kept; every entry with the edited id becomes the edited user; all others are unchanged |
| `UserTable.ReplaceKeepsIds` | App.tsx:112 | the ids stay the same at every position |
| `UserTable.ReplaceKeepsIdsUnique` | App.tsx:112 | unique ids stay unique |
| `UserTable.ReplaceAbsentIsNoop` | App.tsx:112 | replacing with an id nobody has changes nothing |
| `UserTable.ReplaceIdempotent` | App.tsx:112 | applying the same edit twice equals applying it once |
| `UserTable.FindAfterReplace` | App.tsx:175 | after replacing a present id, looking it up finds the new user |
| `UserTable.DeleteById` | App.tsx:128 | no remaining user has the id, and every remaining user was there before |
| `UserTable.DeleteKeepsOthers` | App.tsx:128 | the others stay in order (subsequence) with their multiplicity; users with the id are gone |
| `UserTable.DeleteAbsentIsNoop` | App.tsx:128 | deleting an id nobody has changes nothing |
| `UserTable.DeleteKeepsIdsUnique` | App.tsx:128 | unique ids stay unique, and the deleted id can no longer be found |
| `UserTable.WithNewPassword` | App.tsx:133 | the new password is set, the provisional flag is false, and every other field is unchanged |
| `UserTable.ChangePassword` | App.tsx:131-135 | matching users get the new password and a non-provisional flag, with every other field unchanged; other users are unchanged |
| `UserTable.ChangePasswordKeepsIds` | App.tsx:131-135 | ids stay the same at every position, so unique ids stay unique |
| `UserTable.FindAfterPasswordChange` | App.tsx:131-135 | after a change for a present id, that user is found with the new, non-provisional password |
| `UserTable.FindById` | App.tsx:168 | a found user is in the table and has the id; nothing is found exactly when no user has the id |
| `UserTable.FindStored` | App.tsx:168 | with unique ids, looking up a stored user's id finds that user |
| `App.InitialTab` | App.tsx:95 | the admin tab exactly for the master role, the dashboard tab exactly for employees |
| `App.FullRestoreAllowed` | App.tsx:160 | refused exactly when a session exists and its role is not master; allowed with no session |
| `App.SessionAfterFullRestore` | App.tsx:166-171 | no session stays none; otherwise the result is the restored user with the same id, or none exactly when no restored user has that id |
| `App.FullRestoreOfCurrentKeepsSession` | App.tsx:164-171 | restoring the current users (unique ids, session user among them) keeps the session as it was |
| `App.AppState.constructor` | App.tsx:75-88 | initial state: given users, no records or messages, no session, Portuguese, splash phase, dashboard tab |
| `App.AppState.Login` | App.tsx:90-97 | sets the session, the language from the user, the tab by role and the greeting phase; the collections are unchanged |
| `App.AppState.Logout` | App.tsx:432-436 | login phase, no session; everything else unchanged |
| `App.AppState.Register` | App.tsx:99-105 | appends the user and shows the login screen |
| `App.AppState.AddUser` | App.tsx:107-109 | appends the user; nothing else changes |
| `App.AppState.EditUser` | App.tsx:111-118 | replaces by id; session and language change only when the session id matches; unique ids are kept |
| `App.AppState.UpdateUserProfile` | App.tsx:121-125 | replaces by id and always sets the session and language |
| `App.AppState.DeleteUser` | App.tsx:127-129 | filters by id; an absent id is a no-op; records and session are untouched; unique ids are kept |
| `App.AppState.ChangeUserPassword` | App.tsx:131-135 | users become the password-changed table; nothing else changes; unique ids are kept |
| `App.AppState.UpdateRecord` | App.tsx:137-142 | records become the upsert; nothing else changes; date-uniqueness is kept |
| `App.AppState.SendMessage` | App.tsx:144-154 | no session: nothing changes; otherwise exactly one message is appended, carrying the sender's id and language |
| `App.AppState.SwitchLanguage` | App.tsx:399-405 | sets the language; with a session, saves the new language in that user through the edit-user transform |
| `App.AppState.SwitchCurrency` | App.tsx:421 | only the session copy of the user gets the new currency; the user table is unchanged |
| `App.AppState.RestoreData` | App.tsx:157-190 | full: denied for a logged-in non-master (nothing changes), else both lists are replaced verbatim and the session is re-resolved; single: replace by id, merge by dates, session and language follow on an id match; unknown: nothing changes; a full restore never changes the language |

## Left out

- Rendering, navigation buttons, screen switches between splash, sales and login, and the tab
  buttons (App.tsx:211-651): view code with no state logic beyond setting one slot.
- The greeting timers that fade the greeting and then move to the app phase (App.tsx:198-207):
  time-based and asynchronous.
- Alerts, console logging, translated strings, date and time formatting, and the greeting text:
  side effects or code that is not part of this model. Restore returns an outcome
  (`Restored`, `Denied`, `Invalid`) in place of its two alerts.
- Message ids and timestamps come from the clock (App.tsx:147,150). They are parameters of `SendMessage`.
- Credentials checking at login and registration payment flow: they live in the login and sales
  screens, which are not part of this model. `Login` receives the already-accepted user.
- Payroll figures (hours, gross pay, deductions, net pay): computed in components and helpers that
  are not part of this model.
- Malformed or untyped backup payloads and the exception path (App.tsx:191-194). A throw part-way
  through can leave some slots updated. Only well-formed payloads and `Unknown` are modelled, and
  no atomicity is claimed for malformed input.
- The seed users and the language and currency display tables (types.ts:85-112, App.tsx:17-72).
  The constructor takes the initial users as a parameter.
- Numbers are Dafny reals: no floating-point rounding.
- App.AppState.SwitchCurrency: requires a session, because the selector is shown only to a
  logged-in user (App.tsx:279). Its behaviour with no session is not modelled.
- React batches state updates and handlers read the state of the last render. The model runs each
  handler to completion on the current state, which matches the source for one event at a time.
