/** The mutable application state: `state.tasks` and `state.settings`, and
    the `premiumTasks` entry that `saveTasks` writes after every successful
    change. Each handler updates the task array in place, as in the source,
    and is proved to leave exactly the value its specification function in
    `Mutations` / `Sorting` / `Config` describes. */
module Store {
  import opened Text
  import opened Tasks
  import opened Mutations
  import opened Sorting
  import opened Config

  class TaskStore {
    /** `state.tasks`. */
    var tasks: seq<Task>
    /** `state.settings`. */
    var settings: Settings
    /** The `premiumTasks` storage entry; `None` until something is written. */
    var stored: Option<seq<Task>>

    /** The list in memory is what storage holds (an empty list when storage
        holds nothing), the state `state.tasks` starts from and every save keeps. */
    ghost predicate Valid()
      reads this
    {
      tasks == (if stored.Some? then stored.value else [])
    }

    /** Start-up: `JSON.parse(localStorage.getItem('premiumTasks')) || []` and
        the default settings. */
    constructor (saved: Option<seq<Task>>)
      ensures Valid()
      ensures stored == saved
      ensures tasks == (if saved.Some? then saved.value else [])
      ensures settings == Defaults
    {
      tasks := if saved.Some? then saved.value else [];
      stored := saved;
      settings := Defaults;
    }

    /** `saveTasks`. */
    method Save()
      modifies this
      ensures stored == Some(tasks)
      ensures tasks == old(tasks) && settings == old(settings)
      ensures Valid()
    {
      stored := Some(tasks);
    }

    /** `addTask`: `input` is the text box, `dueInput` the date box, `markToday`
        the "today" box; `id` is `Date.now()` and `createdAt` the clock. */
    method AddTask(input: string, dueInput: Option<Day>, important: bool, markToday: bool,
                   today: Day, id: int, createdAt: Timestamp)
      requires Valid()
      modifies this
      ensures Valid()
      ensures tasks == WithTaskAdded(old(tasks), input, dueInput, important, markToday, today, id, createdAt)
      ensures AllWhitespace(input) ==> stored == old(stored)
      ensures !AllWhitespace(input) ==> stored == Some(tasks)
      ensures settings == old(settings)
      ensures old(WellKept(tasks)) && !old(HasId(tasks, id)) ==> WellKept(tasks)
    {
      ghost var before := tasks;
      var text := Trim(input);
      if text == [] {
        return;
      }
      var task := Task(id, text, false, important, dueInput, createdAt, None);
      if markToday {
        task := task.(dueDate := Some(today));
      }
      tasks := [task] + tasks;
      Save();
      if WellKept(before) && !HasId(before, id) {
        AddKeepsWellKept(before, input, dueInput, important, markToday, today, id, createdAt);
      }
    }

    /** `toggleTaskCompletion`: `now` is the clock. */
    method ToggleTaskCompletion(id: int, now: Timestamp)
      requires Valid()
      modifies this
      ensures Valid()
      ensures tasks == WithCompletionToggled(old(tasks), id, now)
      ensures !old(HasId(tasks, id)) ==> stored == old(stored)
      ensures old(HasId(tasks, id)) ==> stored == Some(tasks)
      ensures settings == old(settings)
      ensures old(WellKept(tasks)) ==> WellKept(tasks)
    {
      ghost var before := tasks;
      var i := IndexOfId(tasks, id);
      if i == -1 {
        return;
      }
      tasks := tasks[i := tasks[i].(completed := !tasks[i].completed)];
      tasks := tasks[i := tasks[i].(completedAt := if tasks[i].completed then Some(now) else None)];
      Save();
      if WellKept(before) {
        ToggleCompletionKeepsWellKept(before, id, now);
      }
    }

    /** `toggleTaskImportance`. */
    method ToggleTaskImportance(id: int)
      requires Valid()
      modifies this
      ensures Valid()
      ensures tasks == WithImportanceToggled(old(tasks), id)
      ensures !old(HasId(tasks, id)) ==> stored == old(stored)
      ensures old(HasId(tasks, id)) ==> stored == Some(tasks)
      ensures settings == old(settings)
      ensures old(WellKept(tasks)) ==> WellKept(tasks)
    {
      ghost var before := tasks;
      var i := IndexOfId(tasks, id);
      if i == -1 {
        return;
      }
      tasks := tasks[i := tasks[i].(important := !tasks[i].important)];
      Save();
      if WellKept(before) {
        ToggleImportanceKeepsWellKept(before, id);
      }
    }

    /** `editTask`: `answer` is what `prompt` returned, `None` for Cancel. */
    method EditTask(id: int, answer: Option<string>)
      requires Valid()
      modifies this
      ensures Valid()
      ensures tasks == WithTextEdited(old(tasks), id, answer)
      ensures !old(HasId(tasks, id)) || answer.None? || AllWhitespace(answer.value) ==> stored == old(stored)
      ensures old(HasId(tasks, id)) && answer.Some? && !AllWhitespace(answer.value) ==> stored == Some(tasks)
      ensures settings == old(settings)
      ensures old(WellKept(tasks)) ==> WellKept(tasks)
    {
      ghost var before := tasks;
      var i := IndexOfId(tasks, id);
      if i == -1 {
        return;
      }
      if answer.Some? && Trim(answer.value) != [] {
        tasks := tasks[i := tasks[i].(text := Trim(answer.value))];
        Save();
      }
      if WellKept(before) {
        EditKeepsWellKept(before, id, answer);
      }
    }

    /** `deleteTask`: `confirmed` is what `confirm` returned; it is consulted
        only when `settings.confirmDelete` is on. */
    method DeleteTask(id: int, confirmed: bool)
      requires Valid()
      modifies this
      ensures Valid()
      ensures tasks == WithTaskDeleted(old(tasks), id, old(settings).confirmDelete, confirmed)
      ensures (old(settings).confirmDelete && !confirmed) || !old(HasId(tasks, id)) ==> stored == old(stored)
      ensures !(old(settings).confirmDelete && !confirmed) && old(HasId(tasks, id)) ==> stored == Some(tasks)
      ensures settings == old(settings)
      ensures old(WellKept(tasks)) ==> WellKept(tasks)
      ensures old(UniqueIds(tasks)) && !(settings.confirmDelete && !confirmed) ==> !HasId(tasks, id)
    {
      ghost var before := tasks;
      if settings.confirmDelete && !confirmed {
        return;
      }
      var i := IndexOfId(tasks, id);
      if i == -1 {
        return;
      }
      tasks := tasks[..i] + tasks[i + 1..];
      Save();
      if WellKept(before) {
        DeleteKeepsWellKept(before, id, settings.confirmDelete, confirmed);
      }
      if UniqueIds(before) {
        DeleteRemovesId(before, id, settings.confirmDelete, confirmed);
      }
    }

    /** `sortTasks` with `state.currentSort == name`: an unknown name does nothing. */
    method SortTasks(name: string)
      requires Valid()
      modifies this
      ensures Valid()
      ensures ParseSortKey(name).None? ==> tasks == old(tasks) && stored == old(stored)
      ensures ParseSortKey(name).Some? ==> tasks == SortBy(ParseSortKey(name).value, old(tasks))
      ensures ParseSortKey(name).Some? ==> stored == Some(tasks)
      ensures settings == old(settings)
      ensures old(WellKept(tasks)) ==> WellKept(tasks)
    {
      ghost var before := tasks;
      var key := ParseSortKey(name);
      if key.None? {
        return;
      }
      tasks := SortBy(key.value, tasks);
      Save();
      if WellKept(before) {
        PermutationWellKept(before, tasks);
      }
    }

    /** The settings part of `loadState`: `saved` is the parsed
        `premiumTasksSettings` entry, `None` when it is missing or empty. */
    method LoadState(saved: Option<SavedSettings>)
      requires Valid()
      modifies this
      ensures Valid()
      ensures settings == Loaded(old(settings), saved)
      ensures tasks == old(tasks) && stored == old(stored)
    {
      if saved.Some? {
        settings := Merge(settings, saved.value);
      }
    }
  }
}
