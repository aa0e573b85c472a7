# Task engine of the to-do dashboard, in Dafny

This project models the task-collection engine of a browser to-do dashboard
(`script.js`). The module-level `state` object holds an array of task
records and a settings object. Event handlers change that array in place:

- `addTask` puts a new task at the head;
- `toggleTaskCompletion`, `toggleTaskImportance` and `editTask` assign
  fields through a `findIndex` result;
- `deleteTask` uses `splice` to remove one task, after an optional
  confirmation;
- `sortTasks` sorts the array in place with one of four comparators.

After each change the array is saved to the `premiumTasks` storage entry.
The dashboard derives its numbers and lists from the same array:

- the filter-and-search list of the "All Tasks" page;
- the today, important and completed pages;
- the statistics counters;
- the navigation badges;
- the progress percentage.

At start-up, `loadState` lays any saved settings over the defaults.

Layout, one module per file:

- `text.dfy` (`Text`):
  - `trim`, with ECMAScript's whitespace set;
  - `toLowerCase` and `includes`;
  - the code-point order used for the name sort.
- `sequences.dfy` (`Sequences`): `Array.prototype.filter` as `Filter`, and the
  subsequence facts that the views rest on.
- `tasks.dfy` (`Tasks`):
  - the task record;
  - the invariants of a well-kept collection: `completedAt` is set exactly
    when `completed` is, the text is trimmed and non-empty, and ids are
    unique;
  - `findIndex` by id.
- `queries.dfy` (`Queries`): the read-only views and counters.
- `sorting.dfy` (`Sorting`): the four comparators and a stable insertion
  sort, which stands for `Array.prototype.sort` (stable since ES2019).
- `mutations.dfy` (`Mutations`): the value of `state.tasks` after each
  handler, as a function of the value before, with the handlers' promises
  as lemmas.
- `config.dfy` (`Config`): the settings record, its defaults and the
  object-spread merge.
- `store.dfy` (`Store`): class `TaskStore`, with fields `tasks`, `settings`
  and `stored` (the `premiumTasks` entry).
  - Each handler is a method that updates the fields in place, as the source
    does.
  - Each method is proved to leave exactly the value that the matching
    `Mutations`, `Sorting` or `Config` function gives.
  - Each method saves only on its successful path, so `stored` always
    mirrors `tasks`.

Values from the environment are parameters:

- the text typed into the box;
- the date box, where an empty box is `None`;
- the two check boxes;
- the answers to `prompt` (`None` for Cancel) and `confirm`;
- `Date.now()`, used as the id;
- the current time;
- today's date, as a day number.

Unknown keys in the saved settings are not ignored: the object spread at
script.js:124 copies them into `state.settings` along with the known ones.

## Model

| member | source | states |
|---|---|---|
| Text.Trim | script.js:314 | the result is the infix of the input between its leading and trailing whitespace, with no whitespace at either end; it is empty exactly when the input is all whitespace |
| Text.TrimIdempotent | script.js:407-408 | trimming an already trimmed text changes nothing, so stored texts are fixed points of `trim` |
| Text.ToLower | script.js:150 | the result has the input's length and maps each character through the lower-case mapping |
| Text.Includes | script.js:501 | true exactly when the query occurs as a contiguous block of the text at some position |
| Text.LexLess | script.js:451 | one text comes before another exactly when it is a proper prefix of it, or has the smaller code point at the first position where they differ |
| Text.LexLessIrreflexive | script.js:451 | no text sorts strictly before itself under the name order |
| Text.LexLessTransitive | script.js:451 | the name order is transitive |
| Text.LexLessTotal | script.js:451 | any two different texts are ordered one way or the other |
| Sequences.Filter | script.js:489-501 | `Array.prototype.filter`: the result is no longer than the input and holds exactly the input's elements that pass the test |
| Sequences.FilterIsSubsequence | script.js:484-503 | a filtered list is the original with elements deleted, order kept |
| Sequences.FilterFilter | script.js:487-503 | filtering by one test and then by another is filtering once by both |
| Tasks.IndexOfId | script.js:364 | `findIndex`: -1 exactly when no task has the id; otherwise the position of the first task with that id |
| Tasks.IndexOfUniqueId | script.js:364 | with unique ids, looking up a task's id finds that task's own position |
| Queries.ParseCriterion | script.js:487-496 | the dropdown names `today`, `important`, `completed` and `pending` select their criterion, and every other name filters nothing |
| Queries.AllTasksView | script.js:483-503 | a task is listed exactly when it is in the collection, meets the criterion and, for a non-empty query, its lower-cased text contains the query |
| Queries.AllTasksViewIsOneFilter | script.js:484-503 | the criterion filter followed by the search filter is one filter by the combined test |
| Queries.AllTasksViewIsSubsequence | script.js:484-503 | the listed tasks are the collection with some tasks deleted, relative order preserved |
| Queries.AllTasksViewUnfiltered | script.js:484-503 | with criterion `all` and an empty query the whole collection is listed, in order |
| Queries.TodayTasks | script.js:509-511 | exactly the tasks due today |
| Queries.ImportantTasks | script.js:516-517 | exactly the starred tasks |
| Queries.CompletedTasks | script.js:522-523 | exactly the completed tasks |
| Queries.PendingTasks | script.js:494-495 | exactly the tasks not completed |
| Queries.PagesAgreeWithDropdown | script.js:487-523 | the today, important and completed pages list what the dropdown filter of the same name lists with an empty search, and so does the pending filter |
| Queries.OverdueTasks | script.js:640-644 | exactly the tasks that are not completed, are dated, and are due strictly before today |
| Queries.OverdueOnlyBeforeToday | script.js:640-644 | an overdue task is pending and due strictly before today; a task due today is never overdue |
| Queries.ComputeStats | script.js:634-644 | total is the collection's size; completed is the completed page's size; pending is the pending filter's size and equals total minus completed; overdue is the number of overdue tasks, at most pending, and positive when some task is overdue |
| Queries.StatsOfEmpty | script.js:634-644 | the empty collection has all four counters at zero |
| Queries.ComputeBadges | script.js:653-658 | each badge is the size of the matching page's list, and none exceeds the total |
| Queries.BadgesMatchViews | script.js:653-658 | each badge equals the length of the dropdown's list for the same criterion, and the completed badge equals the completed counter |
| Queries.RoundedPercent | script.js:670 | the whole percentage nearest to 100·part/whole (within half a unit); 0 when whole is 0 or part is 0, 100 when part equals whole, never above 100 |
| Queries.ProgressPercent | script.js:667-670 | for a non-empty collection, the whole percentage nearest to 100·completed/total (within half a unit); between 0 and 100; 0 for an empty collection or one with nothing completed; 100 when every task is completed |
| Queries.CompletedCountExtremes | script.js:668-669 | the completed filter keeps every task when all are completed and none when none are |
| Queries.ThreeTaskScenario | script.js:634-670 | pending tasks due yesterday, today and tomorrow (the last starred) give one important task, counters 3/0/3/1, a today badge of 1 and 0% progress |
| Sorting.ParseSortKey | script.js:445-455 | exactly the names `date`, `priority`, `name` and `created` select a comparator; any other name selects none |
| Sorting.Compare | script.js:445-453 | `date`: negative, zero or positive as the first due day is earlier, equal or later, with a dated task before an undated one and two undated tasks tied; `priority`: negative exactly when only the first is starred, zero when both or neither are; `name`: negative exactly when the first text comes first in code-point order, zero exactly for equal texts; `created`: negative exactly when the first was created later (newest first), zero for equal times |
| Sorting.CompareAntisymmetric | script.js:445-453 | every comparator changes sign when its arguments are swapped, and is zero in both directions or neither |
| Sorting.BeforeNegTransitive | script.js:445-453 | every comparator is a strict weak order, so a sort by it is well defined |
| Sorting.TiedTransitive | script.js:445-453 | ties under a comparator are transitive |
| Sorting.Insert | script.js:456 | inserting adds exactly the one element to the multiset of the list |
| Sorting.InsertSorted | script.js:456 | inserting into a sorted list keeps it sorted |
| Sorting.SortBy | script.js:456 | the sort returns a permutation of its input, sorted by the comparator |
| Sorting.InsertStable | script.js:456 | insertion keeps the relative order of the tasks tied with any given task |
| Sorting.SortByStable | script.js:456 | the sort is stable: tasks that compare equal keep their relative order |
| Sorting.SortedMeaning | script.js:446-452 | in a sorted list, dated tasks come in day order ahead of undated ones, starred tasks come first, texts come in code-point order, and creation times come newest first |
| Sorting.SortByPriorityPartitions | script.js:447-450 | sorting by priority gives the starred tasks in their old order, then the others in their old order |
| Sorting.InsertByPriority | script.js:447-450 | inserting into a list of starred tasks followed by unstarred ones places a starred task at the head, and an unstarred one after the starred block |
| Sorting.PermutationWellKept | script.js:456 | any reordering of a well-kept collection is well kept |
| Mutations.WithTaskAdded | script.js:313-341 | all-whitespace input leaves the list unchanged. Otherwise the list grows by exactly one: the old tasks follow in order, and the head task has the trimmed text, the given id, creation time and star, is not completed, has no completion time, and is due today when the today box is ticked and on the chosen date otherwise |
| Mutations.AddKeepsWellKept | script.js:325-341 | adding under a fresh id keeps the collection well kept |
| Mutations.WithCompletionToggled | script.js:363-368 | an absent id changes nothing. Otherwise only the first task with the id changes: `completed` flips, `completedAt` becomes the current time exactly when the task becomes completed and null otherwise, and no other field changes |
| Mutations.ToggleCompletionKeepsWellKept | script.js:367-368 | the toggle keeps `completedAt` set exactly when `completed` is, so the collection stays well kept |
| Mutations.ToggledCompletionTwice | script.js:367-368 | a task toggled twice has its old `completed` and its old `completedAt` nullness, and is unchanged if it started pending |
| Mutations.ToggleCompletionTwice | script.js:363-368 | toggling an id twice restores every task's `completed` and `completedAt` nullness, changes no other field, and restores the whole list when the task started pending |
| Mutations.WithImportanceToggled | script.js:383-387 | an absent id changes nothing; otherwise only `important` of the first task with the id flips |
| Mutations.ToggleImportanceKeepsWellKept | script.js:387 | starring keeps the collection well kept |
| Mutations.ToggleImportanceTwice | script.js:383-387 | starring the same id twice gives back the original list |
| Mutations.WithTextEdited | script.js:400-408 | a cancelled prompt, an all-whitespace answer or an absent id changes nothing; otherwise only the text of the first task with the id becomes the trimmed, non-empty answer |
| Mutations.EditKeepsWellKept | script.js:407-408 | editing keeps the collection well kept |
| Mutations.EditThenRestore | script.js:400-408 | editing a task and then answering the prompt with its former text gives back the original list |
| Mutations.WithTaskDeleted | script.js:416-427 | a refused confirmation or an absent id changes nothing. Otherwise the list loses exactly the task at the first position holding the id: it is one shorter, the tasks before that position stay, the tasks after it shift down by one, and the multiset of tasks loses that one task |
| Mutations.DeleteIsSubsequence | script.js:423-427 | the list after a delete is the old list with at most one task dropped, order kept |
| Mutations.DeleteRemovesId | script.js:423-427 | with unique ids, an unrefused delete leaves no task with that id |
| Mutations.DeleteKeepsWellKept | script.js:423-427 | deleting keeps the collection well kept |
| Mutations.AddThenDelete | script.js:416-427 | adding under a fresh id and then deleting that id, confirmation not refused, gives back the original list |
| Config.Merge | script.js:124 | each setting present in the saved object takes the saved value; every other setting keeps its current value |
| Config.Loaded | script.js:121-125 | the settings change only when a non-empty saved entry exists, and then by the merge |
| Config.MergeNothing | script.js:124 | an empty saved object leaves the settings unchanged |
| Config.MergeComplete | script.js:124 | a saved object with every key gives the same settings whatever the starting settings were |
| Config.MergeIdempotent | script.js:124 | merging the same saved object twice is merging it once |
| Config.MergeTwice | script.js:124 | two merges in a row are one merge of the overlaid saved objects |
| Store.TaskStore.constructor | script.js:4-18 | the tasks are the saved list, or empty when nothing is saved; the settings are the defaults (confirm delete, show completed, due tomorrow, normal speed); storage mirrors the tasks |
| Store.TaskStore.Save | script.js:827-828 | storage now holds the current tasks, and nothing else changes |
| Store.TaskStore.AddTask | script.js:313-342 | the tasks become `WithTaskAdded` of the old tasks; rejected input saves nothing, accepted input saves the new list; settings are unchanged; a fresh id keeps the collection well kept |
| Store.TaskStore.ToggleTaskCompletion | script.js:363-370 | the tasks become `WithCompletionToggled` of the old tasks; an absent id saves nothing, a present one saves the new list; the collection stays well kept |
| Store.TaskStore.ToggleTaskImportance | script.js:383-388 | the tasks become `WithImportanceToggled` of the old tasks; an absent id saves nothing, a present one saves the new list; the collection stays well kept |
| Store.TaskStore.EditTask | script.js:400-409 | the tasks become `WithTextEdited` of the old tasks; an absent id or a cancelled or blank answer saves nothing, an accepted edit saves the new list; the collection stays well kept |
| Store.TaskStore.DeleteTask | script.js:416-428 | the tasks become `WithTaskDeleted` of the old tasks, consulting the confirmation only when the confirm-delete setting is on; a refused confirmation or absent id saves nothing, a removal saves the new list (an empty one included); well-kept collections stay well kept; with unique ids the deleted id is gone |
| Store.TaskStore.SortTasks | script.js:444-457 | an unknown sort name changes and saves nothing; otherwise the tasks become `SortBy` of the old tasks under the named comparator, are saved, and stay well kept |
| Store.TaskStore.LoadState | script.js:121-125 | the settings become `Loaded` of the old settings and the saved entry; the tasks and storage are unchanged |

## Left out

- Rendering and the DOM are left out: the element table, event wiring,
  `renderTaskList`, `createTaskElement`, empty-state messages, toasts,
  animations, theme, panels and the chart. They only display or route
  events. `renderRecentTasks` is presentation outside this core.
- Storage is abstracted. `localStorage` and JSON
  (de)serialisation are not modelled: `stored` is the task list itself, and a
  saved settings entry is given already parsed. The saved entry is `None`
  when it is missing or is the empty string. Malformed JSON, and values of
  the wrong type, are not modelled.
- Config.Merge: keys that the saved object has outside the four known
  settings are copied by the spread at script.js:124, but the record here has
  only the four known fields.
- Dates and times are integers. A due date is a day number, and an empty
  date box is `None`. `createdAt` and `completedAt` are milliseconds, which
  stand for the ISO strings that `new Date` parses back. Invalid date
  strings are not modelled.
- Sorting.Compare: for the `date` comparator, `new Date("")` is NaN for an
  undated task, and a NaN comparator result counts as a tie. A list of only
  undated tasks therefore keeps its order, in the source and in the model
  alike. A list that mixes dated and undated tasks gets an inconsistent
  comparator, so its order in the source depends on the engine. The model
  instead sorts undated tasks after dated ones.
- Sorting.Compare: the `name` comparator uses code-point lexicographic order
  instead of the host's `localeCompare` collation. Locale-specific case and
  accent handling is not modelled.
- Sorting.ParseSortKey: `sortFunctions` at script.js:445 is a plain object,
  so the guard at script.js:455 also accepts inherited names such as
  `toString` or `constructor`. For those the source sorts with every
  comparison a tie and then saves, where the model does nothing. The sort
  menu (script.js:177) sets only the four real keys, so no caller reaches
  this case.
- Sorting.SortBy: `Array.prototype.sort` is modelled by a stable insertion
  sort. It yields the same order as any stable sort with a strict weak
  order. The engine's own algorithm and its in-place swaps are not modelled.
- Text.ToLower: only ASCII letters are lower-cased. Other Unicode case
  mappings of `toLowerCase` are not modelled.
- Queries.RoundedPercent: `Math.round` on a floating-point ratio is replaced
  by exact integer rounding, with halves rounded up. Floating-point error is
  not modelled. At an exact half the two can differ by one: for 23 of 40,
  `(23 / 40) * 100` evaluates to 57.49999999999999, so the page shows 57 where
  the model gives 58.
- Queries.AllTasksView takes the search query as stored, that is, already
  lower-cased by the input handler at script.js:150.
- The renderer's own overdue flag at script.js:580 compares with the
  current time, not today's date. The model uses the `updateStats`
  definition only.
- Ids come from `Date.now()` and are not guaranteed unique. Uniqueness is a
  precondition of the lemmas that need it (`AddKeepsWellKept`,
  `DeleteRemovesId`, and `WellKept` in general), not something the model
  enforces.
- The source itself never writes the `premiumTasksSettings` entry, so only
  the load side of the settings is modelled.
