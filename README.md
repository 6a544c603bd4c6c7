# Task board and document library — a Dafny model

This project models the core of a small personal dashboard. It has two halves.

- **The task board.** Tasks live in a Supabase table. `src/lib/api.ts` builds the
  filtered, paged query, wraps every call in a retry loop with exponential backoff and
  refuses to run without a configured client. `src/lib/sanitize.ts` escapes user text
  and `src/lib/schemas.ts` validates a task before it is sent. The `useTasks` hook
  (`src/hooks/useTasks.ts`) holds the loaded list, the paging state and the filters,
  and applies edits optimistically with rollback. The page component `TasksView` wires
  the hook to the board (`TaskBoard`: columns, drag and drop, swipe between columns on
  a phone, collapsed columns remembered in local storage), the filter bar
  (`TaskFilters`), the add form (`AddTaskForm`) and the keyboard shortcuts
  (`KeyboardShortcuts`).
- **The document library.** `src/lib/documents.ts` reads a directory of markdown files,
  one sub-directory per category, and derives each document's slug, title and excerpt.
  `Sidebar` searches, groups and folds that list.

Each source file is one Dafny module; a few helper modules sit beside them.

- `Wrappers`, `Seqs` and `Text` are helpers: `Option`/`Result`, an order-keeping
  filter, and the JavaScript string operations the source uses (`trim` with the
  ECMAScript whitespace set, ASCII lower-casing, `includes`, `split`, `replace`).
- `Types` holds the task record and its enumerations.
- `Sanitize`, `Schemas` and `Api` model the libraries.
- `UseTasks` models the hook as the class `TaskStore`, whose methods update its
  fields the way the hook's state setters do.
- `TasksView`, `TaskBoard`, `AddTaskForm`, `Sidebar` and `KeyboardShortcuts` each
  hold the component's state as a class. `TaskFiltersBar` holds the filter bar's pure
  helpers. `Documents` is pure functions over a filesystem value, plus the
  nested-loop listing method.

## How the environment is modelled

- **Network calls.** A remote call is a sequence of per-attempt answers passed in as a
  parameter: for the list query, rows and a count or a database error; for mutations,
  a value or an error. The retry loop `Api.WithRetry` consumes those answers in order.
  It records the delays it would sleep, `1000 * 2^i` ms, but does not sleep.
- **Whether the client is configured.** This is the store's `configured` flag. When it
  is false, the list query fails before any attempt. Each mutation instead fails
  inside every attempt, so it runs all three attempts and waits between them.
- **The filesystem.** It is a value: the documents root, absent or a list of entries.
  Each category is a directory whose listing is in `readdirSync` order. Each file
  carries its text and its `birthtime`/`mtime` as `getTime()` numbers.
- **Local storage.** The saved column index is the `savedColumn` field, holding the
  stored string or `None`. The saved collapsed flags are the `savedCollapsed` field,
  holding the already-parsed record or `None`.
- **React state.** A setter called in a handler becomes an assignment to the field.
  A `useEffect` that reloads the list when the filters change becomes an explicit
  call to `TaskStore.Refresh` at the end of the handler that changed them.

## What the proofs show, and behaviour worth knowing

The model follows the code as written. Several behaviours surprise a reader of the UI,
and the model states them outright.

- **Validation.**
  - Zod checks a title's length before trimming it, so a title of 1–200 blanks is
    accepted and stored as the empty title (`Schemas.BlankTitleAccepted`).
  - The edit schema only knows the statuses todo, in-progress and complete. Saving an
    edit to an archived task is therefore always rejected
    (`UseTasks.EditArchivedRejected`). Archiving itself goes through `moveTask`, which
    does not validate.
- **Sanitising.**
  - Server-side sanitising escapes `<`, `>`, `"` and `'` but not `&`. It is therefore
    idempotent but not injective: `<` and `&lt;` are stored alike
    (`Sanitize.SanitizeIdempotent`, `Sanitize.SanitizeCollides`).
  - With the server-side escape, validation runs on the escaped text, so the length
    limits apply to the escaped length. In the browser `sanitizeInput` uses DOMPurify
    instead, which this model leaves out (see "## Left out").
- **Filters.**
  - Changing a filter in the bar replaces the server filter object with one that has
    no `search`. The text in the search box is then no longer applied
    (`TasksView.FilterChangeDropsSearch`).
  - The "no due date" choice (`hasDueDate: false`) filters on the server. The bar
    does not count it, does not show the clear button for it, and the page does not
    treat it as an active filter (`TaskFiltersBar.NoDueDateNotCounted`).
- **Add form.** `AddTaskForm` empties itself after a submit whatever becomes of the
  task, because `onAdd` is not awaited.
- **Keyboard shortcuts.** The `n` shortcut also fires with ctrl or meta held. Only `/`
  is blocked by those modifiers (`KeyboardShortcuts.ModifiersOnlyBlockSlash`).
- **Saved column.** `parseInt` accepts trailing text, so a stored `"1abc"` restores
  column 1 (`TaskBoard.TrailingTextIgnored`).
- **Document titles.** In `^#\s+(.+)$`, the `\s+` can cross a line break. A `#` alone
  on a line therefore takes the next line as the title (`Documents.HeadingFound`).
  The excerpt's heading-stripping pattern has no `m` flag, so it only strips a heading
  on the very first line. It keeps a heading followed by `\r\n`
  (`Documents.CrlfHeadingKept`).
- **Slugs without `/`.** `getDocument` then looks for `<slug>/undefined.md`. If that
  file exists and has no heading, the title fallback calls `replace` on `undefined`
  and throws a TypeError (`Documents.SlashlessSlugThrows`).
- **Names with an earlier `.md`.** The listing removes only the first `.md` of a file
  name, so `a.mdb.md` is listed as `cat/ab.md`. `getDocument` of that slug looks for
  `cat/ab.md.md` and returns `null` (`Documents.ListedSlugMissesFile`). The round trip
  holds only for names whose first `.md` is the suffix (`Documents.ListedSlugResolves`).

## Model

| member | source | states |
|---|---|---|
| `Sanitize.Entity` | src/lib/sanitize.ts:11-14 | each replacement text is free of the four escaped characters; any other character stands for itself |
| `Sanitize.EscapeEach` | src/lib/sanitize.ts:10-14 | escaping character by character yields text free of `<`, `>`, `"`, `'`, never shorter than the input |
| `Sanitize.SanitizeInput` | src/lib/sanitize.ts:7-22 | the server-side escaping never shortens its input |
| `Sanitize.SanitizeIsEscapeEach` | src/lib/sanitize.ts:10-14 | the four successive replace-all passes equal a single left-to-right pass that escapes each character |
| `Sanitize.SanitizeIsSafe` | src/lib/sanitize.ts:10-14 | sanitised text contains none of `<`, `>`, `"`, `'` |
| `Sanitize.SanitizeSafeUnchanged` | src/lib/sanitize.ts:10-14 | text without those characters passes through unchanged |
| `Sanitize.SanitizeConcat` | src/lib/sanitize.ts:10-14 | sanitising distributes over concatenation |
| `Sanitize.SanitizeChar` | src/lib/sanitize.ts:11-14 | a one-character string becomes that character's entity |
| `Sanitize.SanitizeIdempotent` | src/lib/sanitize.ts:10-14 | sanitising twice gives the same as sanitising once |
| `Sanitize.SanitizeCollides` | src/lib/sanitize.ts:11 | two different inputs, `<` and `&lt;`, sanitise to the same text |
| `Sanitize.TrimKeepsSafe` | src/lib/schemas.ts:5-9 | trimming safe text keeps it safe, so a validated title stays escaped |
| `Sanitize.SanitizeObject` | src/lib/sanitize.ts:27-35 | the copy has the same keys, every string value sanitised and every other value unchanged |
| `Sanitize.EnumIdsUnchanged` | src/lib/sanitize.ts:27-35 | the status, priority, category and assignee identifiers pass through sanitising unchanged |
| `Sanitize.SanitizeTaskObject` | src/lib/sanitize.ts:27-35 | sanitising a task's object is the object of the task with every string field sanitised: id, texts, due date and timestamps |
| `Sanitize.SanitizeDraftObject` | src/lib/sanitize.ts:27-35 | the same for a new-task record, including its due date string |
| `Schemas.FirstMessage` | src/lib/schemas.ts:38-39 | the reported error is never empty, so the "Validatie mislukt" fallback cannot occur |
| `Schemas.ValidateTask` | src/lib/schemas.ts:33-40 | accepted exactly when the title's length is 1..200, description ≤ 2000, notes ≤ 5000 and the status is todo, in-progress or complete; the result has the trimmed title, defaults for absent text, the other fields copied; a rejection carries the first issue's message |
| `Schemas.ValidateNewTask` | src/lib/schemas.ts:25-27 | accepted exactly when the bounds hold and the status is absent or todo; the result's status is todo; a rejection carries the first issue's message |
| `Schemas.ArchivedRejected` | src/lib/schemas.ts:14-27 | an archived status fails both schemas |
| `Schemas.EmptyTitleReportedFirst` | src/lib/schemas.ts:5-9 | an empty title is reported as "Titel is verplicht" before anything else |
| `Schemas.DescriptionReportedBeforeStatus` | src/lib/schemas.ts:10-14 | with a good title, a too-long description is the reported issue even when the status is bad |
| `Schemas.NotesReportedBeforeNewStatus` | src/lib/schemas.ts:18-27 | for a new task, too-long notes are reported before a status other than todo |
| `Schemas.BlankTitleAccepted` | src/lib/schemas.ts:5-9 | a title of 1..200 blanks passes and becomes the empty title |
| `Schemas.AcceptedTitleShape` | src/lib/schemas.ts:5-9 | an accepted title is at most 200 long and starts and ends with a non-blank |
| `Schemas.DefaultsFilledIn` | src/lib/schemas.ts:10-27 | absent description, notes and status become "", "" and todo for a new task, while the edit schema reports "Required" |
| `Api.NoFiltersMatchAll` | src/lib/api.ts:71-97 | with no filters every task matches |
| `Api.PageWindow` | src/lib/api.ts:100-101 | the window holds exactly `pageSize` rows, page 1 starts at row 0 and no page from 1 on starts before row 0 |
| `Api.PagesAdjacent` | src/lib/api.ts:100-101 | page n + 1 starts right after page n ends |
| `Api.StatusIds` | src/lib/api.ts:95-97 | the status list sent to `in` names exactly the chosen statuses |
| `Api.SelectsAppend` | src/lib/api.ts:66-97 | adding a clause narrows the selection to rows that also satisfy it |
| `Api.SearchClause` | src/lib/api.ts:71-75 | the `or` of three `ilike` clauses selects exactly the tasks whose title, description or notes contain the search text, ignoring ASCII case |
| `Api.SearchHitClause` | src/lib/api.ts:71-75 | the same, for a single task |
| `Api.PriorityClause` | src/lib/api.ts:77-79 | the priority clause selects exactly the tasks with that priority |
| `Api.CategoryClause` | src/lib/api.ts:81-83 | the category clause selects exactly the tasks with that category |
| `Api.AssigneeClause` | src/lib/api.ts:85-87 | the assignee clause selects exactly the tasks assigned to that person |
| `Api.DueDateClauses` | src/lib/api.ts:89-93 | "not is null" selects the tasks with a due date, "is null" those without |
| `Api.StatusClause` | src/lib/api.ts:95-97 | the `in` clause selects exactly the tasks whose status is listed |
| `Api.SearchStep` | src/lib/api.ts:71-75 | the search clause, added only for a non-empty search, narrows the selection to tasks whose title, description or notes contain the text, ignoring ASCII case |
| `Api.PriorityStep` | src/lib/api.ts:77-79 | the priority clause narrows the selection to tasks of that priority |
| `Api.CategoryStep` | src/lib/api.ts:81-83 | the category clause narrows the selection to tasks of that category |
| `Api.AssigneeStep` | src/lib/api.ts:85-87 | the assignee clause narrows the selection to tasks with that assignee |
| `Api.DueDateStep` | src/lib/api.ts:89-93 | `hasDueDate` true keeps tasks with a due date, false keeps those without, absent adds nothing |
| `Api.StatusStep` | src/lib/api.ts:95-97 | a non-empty status list narrows the selection to tasks with one of those statuses |
| `Api.BuildQuery` | src/lib/api.ts:66-105 | the query built clause by clause selects a task exactly when it matches every given filter; it is ordered newest first and asks for the page's window |
| `Api.ResponseOf` | src/lib/api.ts:111-120 | missing rows read as none and a missing count as 0; `hasMore` holds exactly when the window's start plus the rows returned is below the total |
| `Api.ServedPageShape` | src/lib/api.ts:100-120 | against a backend holding `rows`, a page has at most `pageSize` tasks, the total is the row count, and `hasMore` holds exactly when rows remain after the window |
| `Api.ConsecutivePages` | src/lib/api.ts:100-105 | two consecutive pages together are the contiguous slice of the rows they cover, from the first page's start to `pageSize` rows past its end |
| `Api.AsError` | src/lib/api.ts:42 | a thrown value that is not an `Error` is wrapped into one; an `Error` is kept |
| `Api.FirstOk` | src/lib/api.ts:38-47 | finds the first successful attempt among the first n, all before it having failed |
| `Api.WithRetry` | src/lib/api.ts:32-50 | the loop returns the first success among at most `retries` attempts, or throws the last error, sleeping `1000 * 2^i` ms after each failed attempt but the last |
| `Api.TotalWait` | src/lib/api.ts:43-45 | k waits add up to `1000 * (2^k - 1)` ms |
| `Api.RetryWaits` | src/lib/api.ts:43-45 | there is one wait fewer than attempts, the i-th being `1000 * 2^i` ms |
| `Api.RetryStopsAtFirstSuccess` | src/lib/api.ts:38-47 | a success is the first successful attempt and comes after failures only; a failure means every attempt failed and all `retries` were used |
| `Api.DefaultRetriesExhausted` | src/lib/api.ts:26-50 | three failures give up with the third error after waiting 1000 and 2000 ms |
| `Api.NoAttemptsThrowsNull` | src/lib/api.ts:36-49 | with no attempts allowed, `withRetry` throws its initial `null` |
| `Api.FetchTasks` | src/lib/api.ts:55-122 | the report is the retried fetch; a query is sent exactly when configured, and that query selects exactly the matching tasks, newest first, in the page's window |
| `Api.FetchSuccess` | src/lib/api.ts:59-120 | a successful fetch needs a configured client; it comes from the first answer with rows after database errors only, and reports the requested page |
| `Api.UnconfiguredFetch` | src/lib/api.ts:59-61 | without a client the fetch fails with "Supabase not configured" before any attempt |
| `Api.Guarded` | src/lib/api.ts:130-131 | without a client every attempt of a mutation fails with "Supabase not configured"; with one the answers are used as they come |
| `Api.Mutate` | src/lib/api.ts:127-180 | create, update and delete are the retry loop over the guarded attempts |
| `Api.UnconfiguredMutation` | src/lib/api.ts:130-131 | without a client a mutation makes three attempts, waits 1000 and 2000 ms, and then fails with "Supabase not configured" |
| `Api.MutationSucceeds` | src/lib/api.ts:147-164 | a mutation succeeds exactly when the client is configured and one of the first three answers is a success |
| `UseTasks.MoveLocalOnlyStatus` | src/hooks/useTasks.ts:180 | the optimistic move changes only the status, and only of the tasks with that id |
| `UseTasks.ReplaceLocalOnlyMatching` | src/hooks/useTasks.ts:168 | the optimistic edit replaces exactly the tasks with the edited id and keeps every other task in place |
| `UseTasks.RemoveLocalExact` | src/hooks/useTasks.ts:192 | the optimistic delete keeps every other task, each as often as before, and drops exactly the tasks with that id |
| `UseTasks.RemoveLocalKeepsOrder` | src/hooks/useTasks.ts:192 | removal keeps the list's order |
| `UseTasks.AfterLoad` | src/hooks/useTasks.ts:46-69 | a successful load sets total, page and `hasMore` from the response, clears the error, and appends or replaces the tasks; a failed one keeps the list and sets the error message, falling back to "Kon taken niet laden" |
| `UseTasks.TwoPagesLoaded` | src/hooks/useTasks.ts:91-95 | loading page 1 and then appending page 2 shows the first `2 * pageSize` rows in order |
| `UseTasks.TaskStore.constructor` | src/hooks/useTasks.ts:33-43 | starts empty, loading, on page 1, with no filters |
| `UseTasks.TaskStore.LoadTasks` | src/hooks/useTasks.ts:46-69 | the new state is `AfterLoad` of the fetch's outcome, and loading is over; a query is sent exactly when the client is configured, and it selects exactly the tasks the filters match, in the page's window |
| `UseTasks.TaskStore.SetSearch` | src/hooks/useTasks.ts:77-84 | the search filter becomes the text, or absent when empty; the page returns to 1; the rest is unchanged |
| `UseTasks.TaskStore.SetFilters` | src/hooks/useTasks.ts:86-89 | the filters are replaced wholesale and the page returns to 1 |
| `UseTasks.TaskStore.LoadMore` | src/hooks/useTasks.ts:91-95 | with more rows and no load running, the next page is appended; otherwise nothing changes |
| `UseTasks.TaskStore.Refresh` | src/hooks/useTasks.ts:97-99 | reloads page 1 with the current filters, replacing the list |
| `UseTasks.TaskStore.OptimisticUpdate` | src/hooks/useTasks.ts:102-128 | saves the list, applies the edit, and on failure of the server call restores the saved list; it reports success exactly when the call succeeded |
| `UseTasks.TaskStore.AddTask` | src/hooks/useTasks.ts:130-154 | sends the validated record, sanitised with the server-side escape; succeeds exactly when it validates and the create succeeds; on success the created task is put first and the total grows by one; otherwise nothing changes |
| `UseTasks.TaskStore.EditTask` | src/hooks/useTasks.ts:156-175 | an edit that fails validation (of the task sanitised with the server-side escape) changes nothing; otherwise it is applied optimistically and kept exactly when the update succeeds |
| `UseTasks.TaskStore.MoveTask` | src/hooks/useTasks.ts:177-187 | the status change is kept exactly when the update succeeds, and rolled back otherwise |
| `UseTasks.TaskStore.RemoveTask` | src/hooks/useTasks.ts:189-199 | the removal is kept exactly when the delete succeeds, and rolled back otherwise |
| `UseTasks.EditArchivedRejected` | src/hooks/useTasks.ts:156-165 | editing an archived task never passes validation |
| `UseTasks.EditSendsSanitisedData` | src/hooks/useTasks.ts:158-169 | with the server-side escape, the title sent on an edit is the escaped, trimmed title; it is safe, and it differs from the typed title when that held a special character |
| `TaskFiltersBar.Get` | src/components/TaskFilters.tsx:15-20 | reading a filter key gives a choice for that key |
| `TaskFiltersBar.UpdateFilter` | src/components/TaskFilters.tsx:46-51 | choosing the current value clears that key, choosing another value sets it, and the other keys are unchanged |
| `TaskFiltersBar.ActiveFiltersCount` | src/components/TaskFilters.tsx:30-35 | the count is the length of the four keys filtered by truthiness, so at most 4; it is 0 exactly when no filter is truthy and 4 exactly when all are |
| `TaskFiltersBar.AllKeys` | src/components/TaskFilters.tsx:15-20 | "every filter" and "no filter" are the same as naming the four keys one by one |
| `TaskFiltersBar.ClearFiltersClears` | src/components/TaskFilters.tsx:37-44 | after clearing, no key is set, the count is 0 and the clear button is hidden |
| `TaskFiltersBar.ChooseTwiceClears` | src/components/TaskFilters.tsx:46-51 | choosing a new value twice clears that key and restores the other keys |
| `TaskFiltersBar.NoDueDateNotCounted` | src/components/TaskFilters.tsx:30-35 | "no due date" counts as no filter, "has due date" as one |
| `TaskFiltersBar.ClearButtonShown` | src/components/TaskFilters.tsx:194 | the clear button shows exactly when some filter is truthy |
| `TasksView.ArchivePartition` | src/components/TasksView.tsx:68-69 | the board and archive views split the list: each task is in exactly the view its status picks, each as often as in the list, in order |
| `TasksView.ActiveFiltersAgree` | src/components/TasksView.tsx:71 | filters are marked active exactly when the search box is non-empty or the bar counts a filter |
| `TasksView.ServerFilters` | src/components/TasksView.tsx:59-64 | the server filters carry the bar's four values and no search or status |
| `TasksView.FilterChangeDropsSearch` | src/components/TasksView.tsx:57-65 | a task excluded by the current search is shown again once any bar filter changes |
| `TasksView.Ids` | src/components/TasksView.tsx:93-94 | the ids are the tasks' ids, in order |
| `TasksView.ApplyMovesAllSucceeded` | src/components/TasksView.tsx:91-96 | when every move succeeds, the run gives every named task the new status |
| `TasksView.CompleteIdsExact` | src/components/TasksView.tsx:92 | the ids worked through are exactly those of complete tasks |
| `TasksView.ArchiveAllArchivesComplete` | src/components/TasksView.tsx:91-96 | with unique ids and every move succeeding, exactly the complete tasks become archived and the others are untouched |
| `TasksView.TasksView.constructor` | src/components/TasksView.tsx:20-30 | nothing selected, no modal, no form, archive hidden, empty search and filters |
| `TasksView.TasksView.HandleSearchChange` | src/components/TasksView.tsx:52-55 | the box shows the text; the server search becomes it, page 1 is reloaded, and the query sent selects the matching tasks |
| `TasksView.TasksView.HandleFiltersChange` | src/components/TasksView.tsx:57-65 | the bar shows the choice; the server filters become the four values without search, and page 1 is reloaded |
| `TasksView.TasksView.HandleTaskClick` | src/components/TasksView.tsx:74-77 | selects the task and opens the modal |
| `TasksView.TasksView.CloseModal` | src/components/TasksView.tsx:111-114 | closes the modal and clears the selection |
| `TasksView.TasksView.HandleSaveTask` | src/components/TasksView.tsx:79-81 | the edit is kept exactly when the sanitised task validates and the update succeeds, and then replaces the task; the snapshot is taken only for a valid task; saving an archived task always fails; the rest of the store is unchanged |
| `TasksView.TasksView.HandleDeleteTask` | src/components/TasksView.tsx:83-85 | the task disappears exactly when the delete succeeds |
| `TasksView.TasksView.HandleArchiveTask` | src/components/TasksView.tsx:87-89 | the task becomes archived exactly when the update succeeds |
| `TasksView.TasksView.HandleRestoreTask` | src/components/TasksView.tsx:98-100 | the task becomes complete exactly when the update succeeds |
| `TasksView.TasksView.ArchiveOne` | src/components/TasksView.tsx:94 | one `moveTask(task.id, "archived")`: it succeeds exactly when the update succeeds, and then the task is archived in the list; otherwise the list is unchanged; the rest of the store is kept |
| `TasksView.TasksView.HandleArchiveAllComplete` | src/components/TasksView.tsx:91-96 | issues one move per task complete at the start, in list order; each result is that move's success; the list is the result of applying the successful moves in turn |
| `TasksView.TasksView.HandleAddTask` | src/components/TasksView.tsx:102-107 | the form closes exactly when the add succeeds; on success the new task is put first and the total grows by one, otherwise both stay; page, hasMore, error, filters, loading and the snapshot are unchanged |
| `TasksView.TasksView.HandleNewTaskShortcut` | src/components/TasksView.tsx:109 | opens the add form |
| `TasksView.TasksView.CancelAddForm` | src/components/TasksView.tsx:155 | closes the add form |
| `TasksView.TasksView.ToggleArchived` | src/components/TasksView.tsx:206 | flips whether the archive is shown |
| `TaskBoard.DigitsEnd` | src/components/TaskBoard.tsx:45 | finds the end of the run of digits |
| `TaskBoard.ParseInt` | src/components/TaskBoard.tsx:45 | `parseInt` yields no number exactly when no digit follows the leading whitespace and optional sign |
| `TaskBoard.InitialColumn` | src/components/TaskBoard.tsx:41-49 | the column is always 0..2, and a non-zero column is the parsed saved value |
| `TaskBoard.DecimalString` | src/components/TaskBoard.tsx:74 | `toString` of a number is a non-empty string of digits |
| `TaskBoard.DecimalValue` | src/components/TaskBoard.tsx:74 | the digits of `toString` read back as the number |
| `TaskBoard.ParseDecimal` | src/components/TaskBoard.tsx:45 | `parseInt` inverts `toString` |
| `TaskBoard.ColumnRestored` | src/components/TaskBoard.tsx:41-75 | a saved column index is restored as itself |
| `TaskBoard.TrailingTextIgnored` | src/components/TaskBoard.tsx:41-49 | a saved value of one valid digit followed by non-digits restores that digit's column |
| `TaskBoard.TasksByStatusExact` | src/components/TaskBoard.tsx:129-131 | a column holds exactly the tasks with its status, each as often as in the list, in order |
| `TaskBoard.ColumnOf` | src/components/TaskBoard.tsx:149 | an id is a column exactly when it is one of the three status ids |
| `TaskBoard.FindFrom` | src/components/TaskBoard.tsx:134 | finds the first task from a position with the id, or reports that none has it |
| `TaskBoard.FindTask` | src/components/TaskBoard.tsx:134 | `find` gives the first task with the id, or none when no task has it |
| `TaskBoard.Abs` | src/components/TaskBoard.tsx:101 | `Math.abs` |
| `TaskBoard.ColumnWinsOverCard` | src/components/TaskBoard.tsx:149-152 | dropping on a column id always means that column |
| `TaskBoard.Board.constructor` | src/components/TaskBoard.tsx:31-54 | starts on the restored column with the saved collapsed flags, or none collapsed, and nothing dragged or touched |
| `TaskBoard.Board.HandleColumnChange` | src/components/TaskBoard.tsx:72-75 | switches column and saves it so that it is restored as itself |
| `TaskBoard.Board.ToggleColumnCollapse` | src/components/TaskBoard.tsx:77-83 | flips one column's flag, keeps the others, and saves the flags |
| `TaskBoard.Board.HandleTouchStart` | src/components/TaskBoard.tsx:86-89 | remembers where the touch started |
| `TaskBoard.Board.HandleTouchEnd` | src/components/TaskBoard.tsx:91-113 | without a start, nothing changes; otherwise a mostly-horizontal move of more than 50 goes one column right or left within range, the new column is saved, and the start is forgotten |
| `TaskBoard.Board.HandleDragStart` | src/components/TaskBoard.tsx:133-138 | the dragged task becomes the first task with the id; an unknown id leaves the previous one |
| `TaskBoard.Board.HandleDragEnd` | src/components/TaskBoard.tsx:140-159 | clears the drag; a drop on a column moves there, a drop on a card moves to the first such card's status, and a drop on nothing moves nothing |
| `AddTaskForm.Form.constructor` | src/components/AddTaskForm.tsx:22-27 | starts empty with medium priority and dev category |
| `AddTaskForm.Form.HandleSubmit` | src/components/AddTaskForm.tsx:29-51 | submits exactly when the title trims to something; the record has the trimmed texts, status todo, empty notes and the converted date; the form then resets, whatever becomes of the record |
| `AddTaskForm.Form.ClickAssignee` | src/components/AddTaskForm.tsx:137 | clicking the selected assignee deselects it, and clicking another selects that one |
| `AddTaskForm.SubmittedDraftValid` | src/components/AddTaskForm.tsx:33-42 | a submitted record passes the new-task schema whenever its texts, after the server-side escape, fit the bounds |
| `KeyboardShortcuts.Shortcuts.constructor` | src/components/KeyboardShortcuts.tsx:10 | help starts hidden |
| `KeyboardShortcuts.Shortcuts.HandleKeyDown` | src/components/KeyboardShortcuts.tsx:12-40 | keys typed into a field do nothing; `?` or a bare `/` toggles help, `n`/`N` asks for a new task, Escape hides help; the default is suppressed for help and new-task keys only |
| `KeyboardShortcuts.Shortcuts.OverlayClick` | src/components/KeyboardShortcuts.tsx:47-52 | a click on the backdrop hides the overlay |
| `KeyboardShortcuts.KeysDisjoint` | src/components/KeyboardShortcuts.tsx:23-37 | no key both toggles help and asks for a task, and Escape does neither |
| `KeyboardShortcuts.ModifiersOnlyBlockSlash` | src/components/KeyboardShortcuts.tsx:23-32 | with ctrl or meta held only `?` opens help, while `n` still fires |
| `Sidebar.FilteredDocsExact` | src/components/Sidebar.tsx:27-35 | an empty search shows all documents; otherwise exactly those whose lower-cased title or excerpt contains the lower-cased query, in order |
| `Sidebar.SearchIgnoresCase` | src/components/Sidebar.tsx:29 | lower-casing the query first changes nothing |
| `Sidebar.GroupDocs` | src/components/Sidebar.tsx:37-44 | there is one group per category that occurs, holding that category's documents in order |
| `Sidebar.GroupedOnce` | src/components/Sidebar.tsx:37-44 | each document is in its own category's group and in no other |
| `Sidebar.ListedExact` | src/components/Sidebar.tsx:123-125 | a list of sections shows exactly the documents of its expanded categories |
| `Sidebar.VisibleDocsExact` | src/components/Sidebar.tsx:101-125 | a document is listed exactly when the search kept it, its category is journal, concepts or projects, and that section is expanded |
| `Sidebar.RenderedCategoriesExact` | src/components/Sidebar.tsx:101 | sections appear in the fixed order, and a category is shown exactly when it has documents |
| `Sidebar.SidebarState.constructor` | src/components/Sidebar.tsx:22-25 | every section starts expanded and the search empty |
| `Sidebar.SidebarState.SetSearch` | src/components/Sidebar.tsx:22 | the search box takes the text |
| `Sidebar.SidebarState.ToggleCategory` | src/components/Sidebar.tsx:46-51 | one section flips between expanded and collapsed; the others keep their state |
| `Documents.GetCategories` | src/lib/documents.ts:7-12 | no root gives no categories; otherwise exactly the root's entries that are directories |
| `Documents.MdFiles` | src/lib/documents.ts:20 | the markdown listing is part of the directory listing |
| `Documents.MdFilesExact` | src/lib/documents.ts:20 | a file is listed exactly when it is in the directory and its name ends in ".md" |
| `Documents.NameTitleShape` | src/lib/documents.ts:30 | the fallback title has the name's length and no dashes |
| `Documents.HeadingFound` | src/lib/documents.ts:29-30 | a first `#` heading line gives its text as the title |
| `Documents.HeadingBacktracks` | src/lib/documents.ts:29 | when only blanks follow `#`, the pattern backtracks and takes the last blank as the title |
| `Documents.FallbackTitle` | src/lib/documents.ts:29-30 | without a heading the title is the file name with dashes made spaces |
| `Documents.StripFirstHeading` | src/lib/documents.ts:33 | stripping the heading never lengthens the text |
| `Documents.HeadingLineStripped` | src/lib/documents.ts:33 | a heading on the first line, ended by `\n`, is removed with its line break |
| `Documents.CrlfHeadingKept` | src/lib/documents.ts:33 | a first heading ended by `\r\n` is not removed |
| `Documents.Excerpt` | src/lib/documents.ts:33-34 | the excerpt is at most 150 characters |
| `Documents.ExcerptOneParagraph` | src/lib/documents.ts:33 | the excerpt holds no paragraph break |
| `Documents.ExcerptFirstParagraph` | src/lib/documents.ts:33-34 | the excerpt is the first paragraph of the trimmed body |
| `Documents.Metas` | src/lib/documents.ts:22-44 | one record per file, each with the directory's category |
| `Documents.SortNewestFirstSorts` | src/lib/documents.ts:48-50 | the sorted list is ordered by update time, newest first, and is a permutation of the input |
| `Documents.SortKeepsTies` | src/lib/documents.ts:48-50 | the sort is stable: documents with equal update times keep their order |
| `Documents.PushMetas` | src/lib/documents.ts:22-44 | the inner loop appends one record per markdown file of the category, in directory order, to what was collected before |
| `Documents.GetAllDocuments` | src/lib/documents.ts:14-51 | the nested loops collect one record per markdown file, category by category, and the result is that collection sorted newest first: ordered by update time and holding exactly the collected records |
| `Documents.CollectCount` | src/lib/documents.ts:18-45 | there are exactly as many records as markdown files |
| `Documents.CollectCategories` | src/lib/documents.ts:18-45 | each record's category is one of the categories walked |
| `Documents.CollectHas` | src/lib/documents.ts:18-45 | every markdown file of a walked category has its record |
| `Documents.GetDocument` | src/lib/documents.ts:53-77 | `null` exactly when `<category>/<name>.md` is absent; a TypeError exactly when the file exists, the slug has no `/` (so the name is `undefined`) and the text has no heading; otherwise a document with the slug asked for, the category before the first `/`, the file's text and an excerpt of at most 150 characters |
| `Documents.SlashlessSlugThrows` | src/lib/documents.ts:54-63 | the slug `cat` with a heading-less `cat/undefined.md` makes `getDocument` throw rather than return a document |
| `Documents.MissingRoot` | src/lib/documents.ts:8 | without a documents root nothing is listed and nothing is found |
| `Documents.ListedSlugMissesFile` | src/lib/documents.ts:26-56 | the file `a.mdb.md` is listed as `cat/ab.md`, and `getDocument` of that slug returns `null` |
| `Documents.ListedSlugResolves` | src/lib/documents.ts:26-63 | a listed document's slug leads `getDocument` back to the same title, excerpt, category and times |

## Left out

- Executing the Supabase client is not modelled. The database's answers are
  parameters, and `ilike` is modelled as an ASCII case-insensitive substring test.
  The `%` and `_` wildcards and the `or`-filter syntax are not interpreted, so a
  search text holding `,`, `%` or `_` behaves differently on the real server.
- The client-side branch of `sanitizeInput` (DOMPurify, when `window` exists) is not
  modelled, because DOMPurify is not part of this model. Only the server-side
  replacement chain is.
- `UseTasks.TaskStore.AddTask`, `UseTasks.TaskStore.EditTask`,
  `UseTasks.EditSendsSanitisedData` and `AddTaskForm.SubmittedDraftValid`: their
  sanitiser is the server-side escape, standing in for the DOMPurify branch. The hook
  is a client module (src/hooks/useTasks.ts:1), so `addTask` and `editTask` really run
  in the browser, where DOMPurify strips tags, writes `&` as `&amp;` and leaves `"`
  and `'` alone. Acceptance and the text sent therefore differ for `'`, `"`, `&` and
  tags. For example, a title of 50 apostrophes is rejected here (escaped length 300),
  while the browser sends it unchanged and it passes.
- `sanitizeObject`'s own-property check and prototype keys are not modelled. Objects
  are maps with no prototype.
- Timers are not modelled: the retry sleeps (recorded, not waited), the 300 ms search
  debounce (the search is applied at once) and React's render scheduling.
- Concurrency is not modelled. This covers stale closures that see an older `tasks`,
  two loads overlapping, and calls completing out of order. Handlers run one after
  another to completion.
- `TasksView.TasksView.HandleArchiveAllComplete`: each move here snapshots the list as
  it is when that move starts, so a failed move undoes only itself. In the source
  every move of one archive-all shares the `tasks` captured at the click
  (src/hooks/useTasks.ts:110, 121). So when the k-th move fails, the list returns to
  its state at the click, and the earlier moves that succeeded on the server are
  undone in the list. The model does not capture that.
- `UseTasks.TaskStore.Refresh`: the reload after a filter or search change is
  modelled as a call at the end of the handler. The source reloads from a
  `useEffect` after the render.
- Toast messages and the success texts of the optimistic updates are not modelled.
  The error text of a failed load is.
- Dates are not modelled. `new Date(dueDate).toISOString()` is the `toIso` parameter
  of `AddTaskForm.Form.HandleSubmit`. File times are plain integers, as compared by
  `getTime()`.
- Local storage and JSON are modelled only as the values read. Malformed stored JSON,
  SSR's `window === undefined` and storage errors are not modelled.
- `isMobile` and the resize listener (window width) are not modelled.
- Touch coordinates are integers. Fractional `clientX` values are not modelled.
- The drag sensors' activation distance and delay are not modelled.
- `Sidebar` groups are a map. Category names that clash with plain-object prototype
  keys (`constructor`, `__proto__`) are not modelled.
- `Schemas.ValidateTask` and `Schemas.ValidateNewTask`: priority, category and
  assignee are typed enumerations, so zod's enum checks on them
  (src/lib/schemas.ts:15-17) cannot fail here. The iff in their contracts covers typed
  input only, not arbitrary JSON.
- Lower-casing is ASCII only. Unicode case folding is not modelled.
- Lengths are counted in characters, not UTF-16 code units.
- `getDocument`'s `path.join` normalisation (`..` and absolute segments in a slug)
  is not modelled. A slug's parts are looked up literally.
- Nested sub-directories inside a category are not modelled. A category's entries
  are its files.
- The rendering of markdown to HTML, the document viewer and the other components
  (`TaskModal`, `ArchivedSection`, `NetworkStatus`) are not modelled.
