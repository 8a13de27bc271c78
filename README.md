# A verified model of the Organizo to-do client's state logic

Organizo is a small React to-do client. Its screen is a calendar with a
"Due Today" list, a searchable "All Tasks" list, an edit dialog and a
create dialog. A remote REST service stores the tasks. This project models
the sequential logic inside the three components that hold state. It
proves what that logic promises.

- **Home** (`home.dfy`, module `Home`). Home owns the task collection. A
  local patch changes it after a remote write succeeds: delete removes by
  id, update replaces by id, and complete replaces by id with a copy
  marked "Completed". Home also derives the "Due Today" and "All Tasks"
  lists and runs the edit form. Its hooks are the fields of the class
  `HomeState`. Each handler is a method whose contract states the whole
  new state as a `Snapshot` value. The patches and views are pure
  functions with lemmas.
- **TaskList** (`tasklist.dfy`). `formatDueDate` gives "Today",
  "Tomorrow" or a locale date. Each task maps to one row, which carries a
  completed flag and three controls.
- **Navbar** (`navbar.dfy`). The create form is a small state machine:
  a form record, two visibility flags and a submit step. The submit step
  closes and resets the form only when the POST succeeds.
- **App** (`app.dfy`). Home passes the navigation bar `setSearchQuery` as
  `onSearch` and nothing else.

Supporting modules:

- `seqs.dfy`: order-preserving `filter`, with lemmas about membership,
  multiplicity and subsequences.
- `tasks.dfy`: the `Task` record, the outcome of a remote call and the
  calendar abstraction.
- `text.dfy`: ASCII case mapping, `includes` and `split(sep)[0]`.

Abstractions:

- Each remote call is an `Outcome` input, either `Succeeded` or `Failed`.
  `Failed` stands for any throw that reaches `.catch`: a transport error or
  a body that is not JSON, and for the create call also a non-ok status.
- Dates are a `Calendar` value. `dayOf` maps a date string to its local
  calendar-day number. `localeDate` stands for `toLocaleDateString`.
- "Now" is an explicit day number.

Four behaviours of the code are worth stating:

- Cancel in the edit dialog only sets `isEditing` to false. The draft is
  not discarded (`src/components/Home/index.js:206`).
- The delete patch removes every task carrying the id. It removes exactly
  one task only when ids are unique, which `DeleteAt` proves.
- A successful create does not add the task to Home's collection.
- Home's write handlers do not check `res.ok`
  (`src/components/Home/index.js:42-45`, `65-69`, `87-91`). A DELETE or PUT
  answered with an error status, such as a 404 with a JSON `message`, still
  parses and runs the local patch. Such a response is `Succeeded` in the
  model. The list fetch does not check `response.ok` either
  (`src/components/Home/index.js:24-28`): an error status with a JSON body
  stores that body as `tasks`. Only the create handler checks `ok`
  (`src/components/Navbar/index.js:40`).

One more behaviour follows from the code. After a successful create, the
form record also holds an empty `id` and `startDate`. So every later POST
payload carries these two fields, which the first payload lacked
(`ResetForm`).

## Model

| member | source | states |
|---|---|---|
| Text.Lower | src/components/Home/index.js:158 | `toLowerCase` over ASCII: same length, each capital becomes its small letter (code point + 32), every other character unchanged, no capital left |
| Text.Contains | src/components/Home/index.js:158 | `includes`: a prefix is included, and an included needle is no longer than the text |
| Text.ContainsIffOccurs | src/components/Home/index.js:158 | for every text and needle, `includes` holds exactly when the needle occurs at some index |
| Home.KeepOthers | src/components/Home/index.js:45 | the delete filter callback keeps a task exactly when its id differs from the deleted id |
| Home.OnDay | src/components/Home/index.js:97-103 | `isSameDate` as a filter callback: a task passes exactly when it is due on the day; tasks due on the same calendar day get the same answer |
| Home.TitleContains | src/components/Home/index.js:158 | the search filter callback accepts a task exactly when the needle occurs in its lower-cased title |
| Home.UpdateKeepsIds | src/components/Home/index.js:68-70 | an update keeps the id found at every position, whether or not ids are unique |
| TaskList.RowOf | src/components/TaskList/index.js:23-37 | a row is keyed by the task's id and shows the task; its radio is checked exactly when status is "Completed"; its label is the due-date label |
| TaskList.Dispatch | src/components/TaskList/index.js:28-43 | the radio button calls complete and Edit calls edit, each with the row's task; Delete calls delete with the task's id |
| Seqs.Filter | src/components/Home/index.js:101-103 | `Array.prototype.filter`: the result is never longer than the input |
| Seqs.FilterMembers | src/components/Home/index.js:157-159 | an element is kept exactly when it occurs in the input and satisfies the predicate |
| Seqs.FilterIsSubsequence | src/components/Home/index.js:45 | filtering only deletes: the result is a subsequence of the input, order kept |
| Seqs.FilterCount | src/components/Home/index.js:45 | each kept element occurs as often as in the input; each dropped element does not occur at all |
| Text.LowerOfUpper | src/components/Home/index.js:158 | lower-casing the upper-cased text equals lower-casing the text itself (ASCII) |
| Text.ContainsSound | src/components/Home/index.js:158 | when `includes` holds, the needle occurs at some index of the text |
| Text.ContainsComplete | src/components/Home/index.js:158 | an occurrence at any index makes `includes` hold |
| Text.FirstField | src/components/Home/index.js:132 | `split("T")[0]` is a prefix of the string without `"T"`, and it is followed by `"T"` unless it is the whole string |
| Text.FirstFieldUnique | src/components/Home/index.js:132 | those three properties determine `split("T")[0]` uniquely |
| Home.Delete | src/components/Home/index.js:45 | the delete patch holds exactly the tasks of the collection whose id differs from the deleted id |
| Home.DeleteKeepsOthersInOrder | src/components/Home/index.js:45 | every other task keeps its number of occurrences and its relative order; tasks with the id occur zero times |
| Home.DeleteAbsent | src/components/Home/index.js:45 | deleting an id that no task carries leaves the collection unchanged |
| Home.DeleteIdempotent | src/components/Home/index.js:45 | deleting the same id twice equals deleting it once |
| Home.DeleteAt | src/components/Home/index.js:45 | with unique ids, deleting the id of the task at position i gives the collection without position i, and one task shorter |
| Home.DeletePreservesUniqueIds | src/components/Home/index.js:45 | deleting keeps ids unique |
| Home.Replace | src/components/Home/index.js:68-70 | the `map` callback keeps length and positions: each task with the id becomes the replacement, every other task is untouched |
| Home.Update | src/components/Home/index.js:68-70 | the update patch keeps the length of the collection (contents through `Replace`) |
| Home.UpdateIdempotent | src/components/Home/index.js:68-70 | applying the same update twice equals applying it once |
| Home.UpdateAbsent | src/components/Home/index.js:68-70 | an update whose id no task carries leaves the collection unchanged |
| Home.UpdatePreservesUniqueIds | src/components/Home/index.js:68-70 | an update keeps ids unique |
| Home.MarkCompleted | src/components/Home/index.js:78 | the completed copy has status "Completed" and differs from the task in no other field |
| Home.Complete | src/components/Home/index.js:90-92 | the complete patch keeps the length of the collection |
| Home.CompleteIsUpdate | src/components/Home/index.js:77-92 | complete is the update with the completed copy: the task with the same id is replaced in place by it, the rest untouched |
| Home.DueOn | src/components/Home/index.js:97-103 | the due-today view holds exactly the tasks whose due date falls on the selected calendar day |
| Home.DueOnKeepsOrder | src/components/Home/index.js:101-103 | the due-today view keeps each matching task's multiplicity and the collection's order |
| Home.DueOnOwnDay | src/components/Home/index.js:97-103 | every task is in the view for its own due day |
| Home.DueOnDisjoint | src/components/Home/index.js:97-103 | the views for two different days share no task |
| Home.Matching | src/components/Home/index.js:157-159 | the search view holds exactly the tasks whose lower-cased title includes the lower-cased query |
| Home.MatchingExactly | src/components/Home/index.js:157-159 | the same by occurrence index, with the collection's order kept |
| Home.MatchingKeepsOrder | src/components/Home/index.js:157-159 | each matching task occurs in the search view as often as in the collection, a non-matching one not at all, in collection order |
| Home.MatchingEmptyQuery | src/components/Home/index.js:157-159 | an empty query returns the whole collection in order |
| Home.MatchingIgnoresCase | src/components/Home/index.js:157-159 | a query and its upper-case form give the same list |
| Home.ShownDate | src/components/Home/index.js:132 | the date shown beside a task is its due date up to the first "T" |
| Home.ShownDateScenario | src/components/Home/index.js:132 | the shown date of "2024-05-01T10:30:00.000Z" is "2024-05-01" |
| Home.CompleteScenario | src/components/Home/index.js:77-92 | completing the only task changes its status to "Completed" and nothing else |
| Home.DeleteScenario | src/components/Home/index.js:45 | deleting id 2 from tasks 1 and 2 leaves task 1 alone in place |
| Home.SearchScenario | src/components/Home/index.js:157-159 | "mil" selects "Buy milk" and not "Call Bob" |
| Home.HomeState.constructor | src/components/Home/index.js:8-13 | the selected day is today, the collection and query are empty, the form is closed and the draft is null |
| Home.HomeState.HandleDateChange | src/components/Home/index.js:15-18 | only the selected day changes |
| Home.HomeState.LoadTasks | src/components/Home/index.js:20-35 | when the chain does not throw, the collection becomes the decoded task array; on a throw nothing changes |
| Home.HomeState.HandleDelete | src/components/Home/index.js:37-48 | when the call does not throw, only the collection changes, to the delete patch of the old one; on a throw nothing changes; unique ids stay unique |
| Home.HomeState.HandleEdit | src/components/Home/index.js:50-53 | the draft becomes the task and the form opens; the collection is untouched |
| Home.HomeState.EditTitle | src/components/Home/index.js:176-178 | only the draft's title changes; the collection and the draft's id are untouched |
| Home.HomeState.EditStatus | src/components/Home/index.js:186-188 | only the draft's status changes |
| Home.HomeState.EditDueDate | src/components/Home/index.js:199-201 | only the draft's due date changes |
| Home.HomeState.ShownDraftDate | src/components/Home/index.js:198 | the due-date input shows the draft's due date up to its first "T", or all of it when it has none |
| Home.HomeState.HandleUpdateSubmit | src/components/Home/index.js:55-75 | when the call does not throw, the collection gets the update patch with the draft, the form closes and the draft is cleared; on a throw nothing changes, so the form stays open with the draft intact |
| Home.HomeState.CancelEdit | src/components/Home/index.js:206 | the form closes; the collection and the draft are untouched |
| Home.HomeState.HandleComplete | src/components/Home/index.js:77-95 | when the call does not throw, only the collection changes, to the complete patch; on a throw nothing changes |
| Home.HomeState.SetSearchQuery | src/components/Home/index.js:10 | only the search query changes |
| Home.HomeState.DueToday | src/components/Home/index.js:101-103 | `tasksDueToday` holds exactly the tasks due on the selected day, as a subsequence of the collection |
| Home.HomeState.AllTasks | src/components/Home/index.js:157-159 | the "All Tasks" list holds exactly the tasks matching the query, each as often as in the collection, as a subsequence of the collection |
| TaskList.FormatDueDate | src/components/TaskList/index.js:5-18 | "Today" on the current calendar day, "Tomorrow" on the next day, otherwise the locale date of the due day |
| TaskList.SameDaySameLabel | src/components/TaskList/index.js:12-13 | two due dates on the same calendar day get the same label, whatever their time of day |
| TaskList.OtherDayIsPlainDate | src/components/TaskList/index.js:17 | on any other day the label is neither "Today" nor "Tomorrow", provided the locale date is neither |
| TaskList.Rows | src/components/TaskList/index.js:22-37 | one row per task, in input order; each row carries its task and id, its completed flag is true exactly when status is "Completed", and its label is the task's due-date label |
| TaskList.RowActionsTargetOwnTask | src/components/TaskList/index.js:28-43 | the radio button and Edit pass the row's own task; Delete passes its id |
| Navbar.EmptyForm | src/components/Navbar/index.js:9-13 | the starting record has exactly the fields title, dueDate and status, all empty |
| Navbar.ResetForm | src/components/Navbar/index.js:46-52 | the reset record has the starting fields plus id and startDate, all empty |
| Navbar.NavbarState.constructor | src/components/Navbar/index.js:7-13 | both flags start off and the record starts as the empty form |
| Navbar.NavbarState.ToggleForm | src/components/Navbar/index.js:15 | only the form flag flips |
| Navbar.NavbarState.ToggleMobileSearch | src/components/Navbar/index.js:16 | only the mobile-search flag flips |
| Navbar.NavbarState.HandleChange | src/components/Navbar/index.js:18-21 | the named field takes the value; every other field keeps its presence and value; the flags are untouched |
| Navbar.NavbarState.HandleSearchChange | src/components/Navbar/index.js:23-25 | the text typed is forwarded unchanged |
| Navbar.NavbarState.HandleSubmit | src/components/Navbar/index.js:27-56 | the payload is the current record unchanged; on success the form closes and is reset; on failure or a non-ok response nothing changes |
| Navbar.ToggleFormTwice | src/components/Navbar/index.js:15 | toggling the create form twice restores the original state |
| Navbar.ToggleMobileSearchTwice | src/components/Navbar/index.js:16 | toggling the mobile search twice restores the original state |
| App.TypeSearch | src/components/Home/index.js:108 | typing in the search box sets Home's query to the raw text and changes nothing else |
| App.SubmitCreate | src/components/Home/index.js:108 | whatever the outcome, submitting the create form leaves Home's state, including its collection, unchanged |

## Left out

- The `fetch` calls, their URLs, headers and JSON encoding and decoding. Each remote call is reduced to its outcome. The list and create calls go to the hosted service, while Home's DELETE and PUT calls go to localhost (`src/components/Home/index.js:39`, `58`, `80`); that is configuration.
- Asynchrony. Responses can arrive in any order and after a component is torn down. `handleUpdateSubmit` uses the draft captured when it was called, while later field edits may still change the draft. The model runs each handler to completion, as one step.
- JavaScript `Date` parsing, time zones, `toDateString`, `setDate` rollover and `toLocaleDateString`. `Calendar.dayOf` and `Calendar.localeDate` stand for them. `formatDueDate` reads the clock twice, for today and for tomorrow. The model reads it once, as `now`.
- Unicode case mapping. `toLowerCase` and `toUpperCase` are modelled over ASCII letters only.
- Home.HomeState.LoadTasks: assumes the response body decodes to a task array. A non-ok GET whose body is other JSON, such as an error object, is stored as `tasks` and makes the next render throw at `tasks.filter` (`src/components/Home/index.js:101`); `data: seq<Task>` cannot hold such a value.
- Home.HomeState.ShownDraftDate: does not model `duedate?.` with an undefined due date, because a task's `duedate` is always a string here.
- JSX rendering, CSS classes, icons, the calendar widget and `console.log`. The "Due Today" rows render like `TaskList` rows, except that they show `ShownDate`. Only `ShownDate` is modelled for them.
- HTML `required` validation of the create form. The browser enforces it before `handleSubmit` runs, so the model's submit accepts any record.
