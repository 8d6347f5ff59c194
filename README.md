# Team To-Do: data access, session and task list, in Dafny

A model of the core of a shared to-do web application. Users log in with a name and a
password, then create, edit, complete, delete and search tasks. Every operation on tasks
and users asks a remote REST server first and mirrors its answer into the browser's
`localStorage`. When a request fails, the operation works on `localStorage` alone.

The model has three parts, one module per source file, plus shared modules:

- `Api` (`api.dfy`) is the data-access layer of `src/api/Index.jsx`. Its operations are
  top-level methods over a `Storage.LocalStorage` object. That class holds the string-keyed
  slots `"team-todo-tasks"`, `"team-todo-users"`, the legacy `"users_db"` and `"auth_user"`.
  Each HTTP request is a parameter of type `Remote<T>`: either `Reply(data)` or `NoReply`.
  A mutation and the re-fetch after it are separate parameters. The `catch` covers both,
  so when a POST reaches the server but the re-fetch fails, the local fallback runs as
  well (`Synced` says when it does not).
- `Auth` (`auth.dfy`) is the session of `src/context/AuthContext.jsx`: a `Session` class
  whose `user` field and the `auth_user` slot change together.
- `Home` (`home.dfy`) is `src/pages/Home.jsx`: the search/filter predicate and the list
  updates as functions, and a `HomePage` class for the page state and its handlers.
- Shared modules: `Wrappers` (Option, Result, Remote), `Seqs` (`findIndex`, `find`,
  `filter`), `Text` (`trim`, ASCII `toLowerCase`, `includes`), `Records` (the `Task` and
  `User` records, lookup by id and by trimmed name) and `Storage` (slot values and the
  store). `scenarios.dfy` states three offline sequences end to end.

Slot contents are a datatype `Json`. `Blank` is the empty string, which the code treats as
falsy. `Garbled` is text that `JSON.parse` rejects. The other cases are a task list, a user
list and one user record. Record fields that a JSON object may lack are `Option`s.

What the proofs establish, beyond each operation's contract:

- The second, local search in `findUserByName` never finds anything the first search missed.
  By then the cache mirrors the list just searched, either because it was written from the
  server's reply or because the migration is one-time. So the result is always the first
  match in the list `getUsers` returned (`Api.FindUserByName`, `Api.ServedUsersAreCached`,
  `Api.MigrationIsOneTime`). This rests on every `localStorage` write succeeding, as the
  model assumes throughout. When `saveUsersToStorage` swallows a failed write
  (`src/api/Index.jsx` lines 117-121), the cache keeps its older list, and the second search
  can return a user that the server's list lacks.
- An account registered offline is found by the next offline lookup of the same typed
  name, unless that name trims to the empty string (`Auth.Session.Login`,
  `Auth.OfflineRegistrationIsFound`, `Auth.RegisteredUserIsFound`).
- The page's list update replaces every task with the id. The cache fallback replaces only
  the first one. The two agree when the id occurs once (`Home.ViewAndCacheUpdatesAgree`).
  They differ on a list with a repeated id (`Home.RepeatedIdMakesViewAndCacheDiverge`).
- A stored password with white space at either end can never be matched. The typed
  password is trimmed, but the stored one is not (`Auth.PaddedPasswordNeverMatches`).

Three behaviours of the code worth knowing:

- The mount effect of `AuthContext.jsx` (lines 11-16) does not catch `JSON.parse` errors.
  An unreadable `auth_user` slot makes it throw; it is not treated as "no session".
  `Session.Restore` reports this as `threw`.
- `login` runs whether or not a user is already logged in.
- `getUsersFromStorage` reads a non-empty but unreadable canonical slot as the empty list,
  without looking at the legacy key.

## Model

| member | source | states |
|---|---|---|
| Seqs.FindIndex | src/api/Index.jsx:68 | the index of the first element satisfying the predicate, every earlier one failing it; -1 exactly when none satisfies it |
| Seqs.Find | src/pages/Home.jsx:41 | the first element satisfying the predicate; absent exactly when none does |
| Seqs.Filter | src/api/Index.jsx:86 | every kept element comes from the list and satisfies the predicate; every satisfying element is kept; never longer than the list |
| Seqs.FilterCount | src/api/Index.jsx:86 | each element occurs in the result exactly as often as in the list when it satisfies the predicate, and not at all otherwise |
| Seqs.FilterIsSubsequence | src/pages/Home.jsx:90-99 | a filtered list is an order-preserving subsequence of the list |
| Seqs.FilterIdempotent | src/api/Index.jsx:86 | filtering twice with one predicate equals filtering once |
| Seqs.FilterKeepsAll | src/pages/Home.jsx:90-99 | a predicate that holds everywhere gives back the whole list |
| Seqs.FilterKeepsNone | src/pages/Home.jsx:94-97 | a predicate that holds nowhere gives the empty list |
| Seqs.FilterAppend | src/api/Index.jsx:53 | filtering a concatenation filters each part |
| Text.TrimStartIsSuffix | src/context/AuthContext.jsx:21 | trimming the start keeps the longest suffix that does not begin with white space; everything cut is white space |
| Text.TrimEndIsPrefix | src/context/AuthContext.jsx:21 | trimming the end keeps the longest prefix that does not end with white space; everything cut is white space |
| Text.Trim | src/context/AuthContext.jsx:21-22 | the result is no longer than the input and has no white space at either end |
| Text.TrimCutsOnlyWhitespace | src/context/AuthContext.jsx:21-22 | the trimmed string is a slice of the input and only white space lies outside that slice |
| Text.TrimmedIsFixed | src/api/Index.jsx:158 | a string with no white space at its ends is its own trim |
| Text.TrimIdempotent | src/api/Index.jsx:158 | trimming the already trimmed name again changes nothing |
| Text.ToLower | src/pages/Home.jsx:92-93 | lower-casing keeps the length |
| Text.IncludesIsInfix | src/pages/Home.jsx:91-93 | `includes` holds exactly when the query occurs as a contiguous slice |
| Text.EmptyIsIncluded | src/pages/Home.jsx:93 | the empty query occurs in every string |
| Records.WithoutId | src/api/Index.jsx:86 | no task with the id remains, every task with another id still occurs, and the result is an order-preserving subsequence |
| Records.WithoutIdCount | src/api/Index.jsx:86 | every copy of a task with another id remains, and no copy of a task with the id |
| Records.WithoutIdIdempotent | src/api/Index.jsx:84-88 | removing an id a second time leaves the list unchanged |
| Records.WithoutAbsentId | src/api/Index.jsx:86 | removing an id that no task carries leaves the list unchanged |
| Records.FindByName | src/api/Index.jsx:163 | the first user with a present, non-empty name whose trim is the query; absent exactly when no user matches |
| Records.UntrimmedQueryMatchesNothing | src/api/Index.jsx:163 | a query with white space at an end matches no user |
| Records.LookupOfTrimmedName | src/api/Index.jsx:158 | the lookup's own trim of the name `login` already trimmed finds the same user, so `login` searches for its trimmed name |
| Api.TasksFromStorage | src/api/Index.jsx:10-18 | the task list in the task slot; empty when the key is missing, blank, unreadable or wrongly shaped, or outside a browser, so a non-empty result is exactly what the slot holds |
| Api.TasksRoundTrip | src/api/Index.jsx:10-27 | a task list written to the task slot reads back equal, in order |
| Api.SaveTasksToStorage | src/api/Index.jsx:20-27 | the task slot holds exactly the list in a browser; nothing changes outside one |
| Api.GetTasks | src/api/Index.jsx:30-38 | on a reply, returns the fetched list and overwrites the task slot with it; on failure, returns the cached list (empty if missing or unreadable) and changes nothing |
| Api.CreateTask | src/api/Index.jsx:41-57 | when POST and re-fetch both answer, returns the server's record and caches the re-fetched list; otherwise returns the input with the local id and the cached list gains exactly that record at its end |
| Api.CreatedAppearsOnce | src/api/Index.jsx:47-55 | when the local id is new to the cache, the record added on the fallback path is the only task carrying it |
| Api.ReplaceFirst | src/api/Index.jsx:67-74 | with some task carrying the id, the first such position holds the update and every other position and the length are kept; with none it fails with the not-found error |
| Api.UpdateTask | src/api/Index.jsx:60-76 | when PUT and re-fetch answer, returns the server's record and caches the re-fetched list; otherwise applies the cached replacement and returns the update, or throws not-found with the store unchanged |
| Api.DeleteTask | src/api/Index.jsx:79-89 | when DELETE and re-fetch answer, caches the re-fetched list; otherwise writes back the cached list without the id, never failing; in a browser that fallback store is `DeletedIn` of the old one, the store `Api.DeleteTwiceIsDeleteOnce` is about |
| Api.DeleteTwiceIsDeleteOnce | src/api/Index.jsx:84-88 | two fallback deletions of one id leave the store as one deletion does |
| Api.LegacyListIsAdopted | src/api/Index.jsx:102-107 | with the canonical key empty and a readable legacy list, that list is returned and copied to the canonical key |
| Api.CanonicalKeyWins | src/api/Index.jsx:99-100 | once the canonical key is non-empty, the legacy key is neither read nor copied |
| Api.ServedUsersAreCached | src/api/Index.jsx:125-133 | in a browser, after `getUsers` the users slot reads back exactly the list it returned, whether fetched or cached |
| Api.MigrationIsOneTime | src/api/Index.jsx:96-113 | reading the users again after a read returns the same list and writes nothing |
| Api.SaveUsersToStorage | src/api/Index.jsx:115-122 | the users slot holds exactly the list in a browser; nothing changes outside one |
| Api.GetUsersFromStorage | src/api/Index.jsx:96-113 | returns the canonical list, else the legacy list (migrating it), else the empty list; only the migration writes |
| Api.GetUsers | src/api/Index.jsx:125-133 | on a reply, returns the fetched list and caches it; on failure, returns the cached (possibly migrated) list |
| Api.CreateUser | src/api/Index.jsx:136-153 | when POST and re-fetch answer, returns the server's record and caches the re-fetched list; otherwise returns the input with the local id appended to the cached users |
| Api.FindUserByName | src/api/Index.jsx:156-186 | returns a user whose present, non-empty name trims to the trimmed query, namely the first such user in the list `getUsers` returned, and nothing only if that list has none |
| Auth.NewUser | src/context/AuthContext.jsx:49 | the record to register has no id, the trimmed name, and a password the trimmed typed password is accepted against |
| Auth.PasswordAccepted | src/context/AuthContext.jsx:37 | the stored password equals the trimmed typed one; an account without a password never accepts any input |
| Auth.PaddedPasswordNeverMatches | src/context/AuthContext.jsx:37 | a stored password with white space at an end never equals any trimmed input |
| Auth.RegisteredUserCanLogIn | src/context/AuthContext.jsx:49-50 | the record `login` registers, whatever id it gets, accepts the same typed password, and its name matches the trimmed typed name exactly when that name is not empty |
| Auth.RegisteredUserIsFound | src/context/AuthContext.jsx:49-50 | appended to a user list in which the name was not found, the registered record is what a later lookup of the same typed name finds, unless that name trims to the empty string |
| Auth.OfflineRegistrationIsFound | src/context/AuthContext.jsx:25-53 | in a browser, after a lookup that found nothing and an offline `createUser`, followed by the session write, the users slot yields the new account for the same non-blank typed name |
| Auth.ClearingTwiceIsClearingOnce | src/context/AuthContext.jsx:64-68 | removing the session slot twice leaves the store as removing it once, with no session slot |
| Auth.Session.constructor | src/context/AuthContext.jsx:9 | a new session has no user |
| Auth.Session.Restore | src/context/AuthContext.jsx:11-16 | a stored user record becomes the current user; an absent or empty slot leaves it unchanged; an unreadable slot throws, leaving it unchanged |
| Auth.Session.Login | src/context/AuthContext.jsx:18-57 | both inputs are trimmed and the name is looked up as `findUserByName` does, keeping its writes to the users slot; a found account with the same stored password becomes the user and the stored session; on a mismatch the user stays and the store is the one the lookup left; an unknown name is registered through `createUser` (with its writes) as `{name, password}` trimmed and becomes the user and stored session; after an offline registration in a browser, the users slot yields the new account for the same typed name unless it is blank |
| Auth.Session.Logout | src/context/AuthContext.jsx:64-71 | no user and no stored session afterwards, so a second logout changes nothing |
| Home.Filtered | src/pages/Home.jsx:90-99 | an order-preserving subsequence of the tasks in which every shown task matches both the query and the filter, and every matching task occurs |
| Home.FilteredCount | src/pages/Home.jsx:90-99 | every copy of a matching task is shown, and no copy of a task that does not match |
| Home.EverythingShownByDefault | src/pages/Home.jsx:90-99 | with filter "all" and an empty query every task is shown, in order |
| Home.UnknownFilterShowsNothing | src/pages/Home.jsx:94-97 | a filter other than "all", "completed" and "pending" shows nothing |
| Home.QueryIsCaseInsensitiveSlice | src/pages/Home.jsx:91-93 | a task matches exactly when the lower-cased query occurs in the lower-cased author, space and text |
| Home.NewTask | src/pages/Home.jsx:29 | the new record has the user's name as author, the typed text, is not completed, has no editor and carries no id |
| Home.Toggled | src/pages/Home.jsx:44 | the current task with `completed` set to the given value and every other field kept |
| Home.Edited | src/pages/Home.jsx:73-77 | the current task with the new text and the user's name as editor, every other field kept |
| Home.ReplaceById | src/pages/Home.jsx:47 | same length; every task with the id becomes the updated record; every other task is kept |
| Home.ViewAndCacheUpdatesAgree | src/pages/Home.jsx:81 | for an id occurring once, the page's replacement equals the cache's fallback replacement |
| Home.RepeatedIdMakesViewAndCacheDiverge | src/pages/Home.jsx:47 | with a repeated id the cache replaces only the first copy while the page replaces both |
| Home.ReplaceAbsentId | src/pages/Home.jsx:47 | replacing by an absent id leaves the list unchanged |
| Home.HomePage.constructor | src/pages/Home.jsx:13-16 | the page starts with no tasks, an empty query and filter "all" |
| Home.HomePage.SetQuery | src/pages/Home.jsx:15 | the query becomes the given text |
| Home.HomePage.SetFilter | src/pages/Home.jsx:16 | the filter becomes the given value |
| Home.HomePage.Load | src/pages/Home.jsx:19-24 | the list becomes what `getTasks` returns: the fetched list (cached), or the cached list |
| Home.HomePage.HandleAdd | src/pages/Home.jsx:27-36 | with a user, the created record (the server's, or `{author: user.name, text, completed: false, editor: null}` with the local id) goes in front of the list and the store changes as `createTask` says; without one nothing changes |
| Home.HomePage.HandleToggle | src/pages/Home.jsx:39-51 | a task not on the list causes no update call and no change; otherwise the returned record, which on the fallback path is the current task with `completed` set, replaces every task with the id; the store gets the re-fetched list or the cached replacement, as `updateTask` says; a failed update changes neither list nor store |
| Home.HomePage.HandleDelete | src/pages/Home.jsx:54-62 | the list loses every task with the id and keeps the rest in order; the store changes as `deleteTask` says |
| Home.HomePage.HandleEdit | src/pages/Home.jsx:65-87 | as toggle, with the update being the current task with the new text and the user's name as editor; without a user or a matching task nothing changes |
| Scenarios.OfflineCreateThenList | src/api/Index.jsx:47-55 | with an empty cache and no server, the created task carries the local id and is then the whole list |
| Scenarios.LegacyUsersAdopted | src/api/Index.jsx:102-107 | with only the legacy key and no server, the legacy users are returned and now sit under the canonical key |
| Scenarios.OfflineDeleteTwice | src/api/Index.jsx:84-88 | with no server, a second deletion of an id leaves the list of the first |

## Left out

- HTTP transport (axios, base URL, routes): each request's result is a parameter, either a reply or a failure.
- async interleaving and races on the cache or on the page's list: the model runs one operation at a time.
- Id synthesis from `Date.now` and `Math.random`: the new id is the parameter `freshId`. Nothing makes it unique, and the model does not claim it is.
- JSON serialisation: slots hold typed values. A slot whose JSON parses but has the wrong shape (a user list under the task key, say) is read like an unparsable one: as the empty list, and as a throw in `Session.Restore`.
- Failed `localStorage` writes (quota errors), which the code logs and swallows: in the model every write in a browser succeeds.
- Toast notifications, `console` logging and `navigate`. `login`'s notification is its `LoginOutcome`.
- The `loading` flag, rendering, and the `TodoForm`, `TodoList` and `SearchBar` components, which are not part of this model.
- `toLowerCase` beyond ASCII: only `A`-`Z` are lower-cased.
- Api.FindUserByName: the outer `catch` (`src/api/Index.jsx` lines 180-185) is not modelled. In the program it is reached when the users value `find` runs on is not an array (a non-array server body, or a wrongly shaped canonical slot, which `getUsersFromStorage` returns as parsed), when an entry is `null`, or when a `name` is not a string. Server replies and slots are typed user lists of records with string fields in the model, so none of these arise.
- Auth.Session.Login: the `catch` (`src/context/AuthContext.jsx` lines 58-61) is not modelled, and there is no failure outcome. With typed server replies and slots and with every write succeeding, neither `findUserByName` nor `createUser` can throw in the model. In the program, a throw from those cases, or a failed write of `auth_user` after `setUser`, ends there, leaving whatever the lookup or the creation had already written.
- Home.HomePage.HandleToggle and Home.HomePage.HandleEdit: the handlers take a string id, so a task without an id is never targeted.
- Non-string field values (numeric ids from the server, a non-string password): fields are strings or absent.
