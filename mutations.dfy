/** The new value of `state.tasks` after each mutating handler: `addTask`,
    `toggleTaskCompletion`, `toggleTaskImportance`, `editTask` and
    `deleteTask`. The store's methods are proved to produce exactly these
    values; the lemmas here say what the handlers promise. */
module Mutations {
  import opened Text
  import opened Sequences
  import opened Tasks

  /** The record `addTask` builds from already-trimmed text. */
  function NewTask(text: string, dueInput: Option<Day>, important: bool, markToday: bool,
                   today: Day, id: int, createdAt: Timestamp): Task
  {
    Task(id, text, false, important, if markToday then Some(today) else dueInput, createdAt, None)
  }

  /** `addTask`: blank input is refused; otherwise the trimmed text becomes a
      new pending task at the head of the list, due today when the "today" box
      is ticked and on the chosen date otherwise. */
  function WithTaskAdded(tasks: seq<Task>, input: string, dueInput: Option<Day>, important: bool,
                         markToday: bool, today: Day, id: int, createdAt: Timestamp): (r: seq<Task>)
    ensures AllWhitespace(input) ==> r == tasks
    ensures !AllWhitespace(input) ==>
      && |r| == |tasks| + 1
      && r[1..] == tasks
      && r[0].id == id && r[0].createdAt == createdAt
      && r[0].text == Trim(input) && r[0].text != []
      && !r[0].completed && r[0].completedAt == None
      && r[0].important == important
      && r[0].dueDate == (if markToday then Some(today) else dueInput)
  {
    var text := Trim(input);
    if text == [] then tasks
    else [NewTask(text, dueInput, important, markToday, today, id, createdAt)] + tasks
  }

  /** A fresh id keeps the collection well kept. */
  lemma AddKeepsWellKept(tasks: seq<Task>, input: string, dueInput: Option<Day>, important: bool,
                         markToday: bool, today: Day, id: int, createdAt: Timestamp)
    requires WellKept(tasks) && !HasId(tasks, id)
    ensures WellKept(WithTaskAdded(tasks, input, dueInput, important, markToday, today, id, createdAt))
  {
    var r := WithTaskAdded(tasks, input, dueInput, important, markToday, today, id, createdAt);
    if !AllWhitespace(input) {
      TrimIdempotent(input);
      assert WellFormed(r[0]);
      forall k | 0 < k < |r| ensures WellFormed(r[k]) && r[k].id != id {
        assert r[k] == tasks[k - 1];
      }
      forall i, j | 0 <= i < j < |r| ensures r[i].id != r[j].id {
        if i > 0 { assert r[i] == tasks[i - 1] && r[j] == tasks[j - 1]; }
      }
    }
  }

  /** Flip `completed`, stamping `completedAt` on completion and clearing it otherwise. */
  function ToggledCompletion(t: Task, now: Timestamp): Task {
    t.(completed := !t.completed, completedAt := if t.completed then None else Some(now))
  }

  /** `toggleTaskCompletion`: the first task with `id` flips `completed` and
      gets `completedAt` set exactly when it becomes completed; an absent id
      changes nothing. */
  function WithCompletionToggled(tasks: seq<Task>, id: int, now: Timestamp): (r: seq<Task>)
    ensures |r| == |tasks|
    ensures !HasId(tasks, id) ==> r == tasks
    ensures HasId(tasks, id) ==>
      var i := IndexOfId(tasks, id);
      && r[i].completed == !tasks[i].completed
      && (r[i].completedAt.Some? <==> r[i].completed)
      && (r[i].completed ==> r[i].completedAt == Some(now))
      && r[i] == tasks[i].(completed := r[i].completed, completedAt := r[i].completedAt)
      && forall k :: 0 <= k < |tasks| && k != i ==> r[k] == tasks[k]
  {
    var i := IndexOfId(tasks, id);
    if i == -1 then tasks else tasks[i := ToggledCompletion(tasks[i], now)]
  }

  /** Changing only fields other than `id` leaves every lookup by id where it was. */
  lemma {:induction false} IndexOfIdSameIds(s: seq<Task>, r: seq<Task>, id: int)
    requires |r| == |s| && forall k :: 0 <= k < |s| ==> r[k].id == s[k].id
    ensures IndexOfId(r, id) == IndexOfId(s, id)
  {
    if s != [] {
      IndexOfIdSameIds(s[1..], r[1..], id);
    }
  }

  /** Replacing one task by a well-formed one with the same id keeps the
      collection well kept. */
  lemma ReplaceKeepsWellKept(s: seq<Task>, i: int, t: Task)
    requires WellKept(s) && 0 <= i < |s|
    requires t.id == s[i].id && WellFormed(t)
    ensures WellKept(s[i := t])
  {
    var r := s[i := t];
    forall a, b | 0 <= a < b < |r| ensures r[a].id != r[b].id {
      assert r[a].id == s[a].id && r[b].id == s[b].id;
    }
  }

  lemma ToggleCompletionKeepsWellKept(tasks: seq<Task>, id: int, now: Timestamp)
    requires WellKept(tasks)
    ensures WellKept(WithCompletionToggled(tasks, id, now))
  {
    var i := IndexOfId(tasks, id);
    if i != -1 {
      ReplaceKeepsWellKept(tasks, i, ToggledCompletion(tasks[i], now));
    }
  }

  /** One task toggled twice keeps `completed` and whether `completedAt` is
      set, and is unchanged when it started pending. */
  lemma ToggledCompletionTwice(t: Task, now1: Timestamp, now2: Timestamp)
    requires CompletionConsistent(t)
    ensures var u := ToggledCompletion(ToggledCompletion(t, now1), now2);
      && u.completed == t.completed
      && u.completedAt.Some? == t.completedAt.Some?
      && u == t.(completedAt := u.completedAt)
      && (!t.completed ==> u == t)
  {
  }

  /** Toggling twice restores `completed` and whether `completedAt` is set;
      a task that was pending is restored exactly. */
  lemma ToggleCompletionTwice(tasks: seq<Task>, id: int, now1: Timestamp, now2: Timestamp)
    requires HasId(tasks, id)
    requires CompletionConsistent(tasks[IndexOfId(tasks, id)])
    ensures var r := WithCompletionToggled(WithCompletionToggled(tasks, id, now1), id, now2);
      && |r| == |tasks|
      && (forall k :: 0 <= k < |tasks| ==>
            r[k].completed == tasks[k].completed
            && r[k].completedAt.Some? == tasks[k].completedAt.Some?
            && r[k] == tasks[k].(completedAt := r[k].completedAt))
      && (!tasks[IndexOfId(tasks, id)].completed ==> r == tasks)
  {
    var i := IndexOfId(tasks, id);
    var once := WithCompletionToggled(tasks, id, now1);
    assert once == tasks[i := ToggledCompletion(tasks[i], now1)];
    IndexOfIdSameIds(tasks, once, id);
    var r := WithCompletionToggled(once, id, now2);
    assert r == once[i := ToggledCompletion(once[i], now2)];
    var u := ToggledCompletion(ToggledCompletion(tasks[i], now1), now2);
    assert r == tasks[i := u];
    ToggledCompletionTwice(tasks[i], now1, now2);
    ReplaceAtKeepsCompletion(tasks, i, u);
  }

  /** Replacing one task by a copy that differs at most in `completedAt`,
      and not in whether it is set. */
  lemma ReplaceAtKeepsCompletion(tasks: seq<Task>, i: int, u: Task)
    requires 0 <= i < |tasks|
    requires u.completed == tasks[i].completed
    requires u.completedAt.Some? == tasks[i].completedAt.Some?
    requires u == tasks[i].(completedAt := u.completedAt)
    requires !tasks[i].completed ==> u == tasks[i]
    ensures var r := tasks[i := u];
      && (forall k :: 0 <= k < |tasks| ==>
            r[k].completed == tasks[k].completed
            && r[k].completedAt.Some? == tasks[k].completedAt.Some?
            && r[k] == tasks[k].(completedAt := r[k].completedAt))
      && (!tasks[i].completed ==> r == tasks)
  {
  }

  /** `toggleTaskImportance`: the first task with `id` flips `important` and
      nothing else; an absent id changes nothing. */
  function WithImportanceToggled(tasks: seq<Task>, id: int): (r: seq<Task>)
    ensures |r| == |tasks|
    ensures !HasId(tasks, id) ==> r == tasks
    ensures HasId(tasks, id) ==>
      var i := IndexOfId(tasks, id);
      && r[i] == tasks[i].(important := !tasks[i].important)
      && forall k :: 0 <= k < |tasks| && k != i ==> r[k] == tasks[k]
  {
    var i := IndexOfId(tasks, id);
    if i == -1 then tasks else tasks[i := tasks[i].(important := !tasks[i].important)]
  }

  lemma ToggleImportanceKeepsWellKept(tasks: seq<Task>, id: int)
    requires WellKept(tasks)
    ensures WellKept(WithImportanceToggled(tasks, id))
  {
    var i := IndexOfId(tasks, id);
    if i != -1 {
      ReplaceKeepsWellKept(tasks, i, tasks[i].(important := !tasks[i].important));
    }
  }

  /** Starring twice is the identity. */
  lemma ToggleImportanceTwice(tasks: seq<Task>, id: int)
    ensures WithImportanceToggled(WithImportanceToggled(tasks, id), id) == tasks
  {
    var once := WithImportanceToggled(tasks, id);
    IndexOfIdSameIds(tasks, once, id);
  }

  /** `editTask`: a cancelled prompt (`None`) or an answer that trims to
      nothing leaves the list alone; otherwise the first task with `id` takes
      the trimmed answer as its text and nothing else changes. */
  function WithTextEdited(tasks: seq<Task>, id: int, answer: Option<string>): (r: seq<Task>)
    ensures |r| == |tasks|
    ensures !HasId(tasks, id) || answer.None? || AllWhitespace(answer.value) ==> r == tasks
    ensures HasId(tasks, id) && answer.Some? && !AllWhitespace(answer.value) ==>
      var i := IndexOfId(tasks, id);
      && r[i] == tasks[i].(text := Trim(answer.value))
      && r[i].text != []
      && forall k :: 0 <= k < |tasks| && k != i ==> r[k] == tasks[k]
  {
    var i := IndexOfId(tasks, id);
    if i == -1 then tasks
    else if answer.None? || Trim(answer.value) == [] then tasks
    else tasks[i := tasks[i].(text := Trim(answer.value))]
  }

  lemma EditKeepsWellKept(tasks: seq<Task>, id: int, answer: Option<string>)
    requires WellKept(tasks)
    ensures WellKept(WithTextEdited(tasks, id, answer))
  {
    var i := IndexOfId(tasks, id);
    if i != -1 && answer.Some? && Trim(answer.value) != [] {
      TrimIdempotent(answer.value);
      ReplaceKeepsWellKept(tasks, i, tasks[i].(text := Trim(answer.value)));
    }
  }

  /** `deleteTask`: when confirmation is required and refused, or `id` is
      absent, nothing changes; otherwise exactly the element at the first
      position holding `id` is removed and the others keep their order. */
  function WithTaskDeleted(tasks: seq<Task>, id: int, confirmRequired: bool, confirmed: bool): (r: seq<Task>)
    ensures (confirmRequired && !confirmed) || !HasId(tasks, id) ==> r == tasks
    ensures !(confirmRequired && !confirmed) && HasId(tasks, id) ==>
      var i := IndexOfId(tasks, id);
      && |r| == |tasks| - 1
      && (forall k :: 0 <= k < i ==> r[k] == tasks[k])
      && (forall k :: i <= k < |r| ==> r[k] == tasks[k + 1])
      && multiset(r) + multiset{tasks[i]} == multiset(tasks)
  {
    if confirmRequired && !confirmed then tasks
    else
      var i := IndexOfId(tasks, id);
      if i == -1 then tasks
      else
        assert tasks == tasks[..i] + [tasks[i]] + tasks[i + 1..];
        tasks[..i] + tasks[i + 1..]
  }

  /** The list left by a delete is the old list with one element dropped. */
  lemma DeleteIsSubsequence(tasks: seq<Task>, id: int, confirmRequired: bool, confirmed: bool)
    ensures IsSubsequence(WithTaskDeleted(tasks, id, confirmRequired, confirmed), tasks)
  {
    var r := WithTaskDeleted(tasks, id, confirmRequired, confirmed);
    if r == tasks {
      SubsequenceReflexive(tasks);
    } else {
      var i := IndexOfId(tasks, id);
      assert r == tasks[..i] + tasks[i + 1..];
      DropOneIsSubsequence(tasks, i);
    }
  }

  lemma {:induction false} SubsequenceReflexive(s: seq<Task>)
    ensures IsSubsequence(s, s)
  {
    if s != [] { SubsequenceReflexive(s[1..]); }
  }

  lemma {:induction false} DropOneIsSubsequence(s: seq<Task>, i: int)
    requires 0 <= i < |s|
    ensures IsSubsequence(s[..i] + s[i + 1..], s)
  {
    var r := s[..i] + s[i + 1..];
    if i == 0 {
      assert r == s[1..];
      SubsequenceReflexive(s[1..]);
      if r != [] { assert IsSubsequence(r, s[1..]); }
    } else {
      DropOneIsSubsequence(s[1..], i - 1);
      assert r[0] == s[0];
      assert r[1..] == s[1..][..i - 1] + s[1..][i..];
    }
  }

  /** With unique ids a delete removes the id for good: every later toggle,
      edit or delete of it finds nothing. */
  lemma DeleteRemovesId(tasks: seq<Task>, id: int, confirmRequired: bool, confirmed: bool)
    requires UniqueIds(tasks)
    requires !(confirmRequired && !confirmed)
    ensures !HasId(WithTaskDeleted(tasks, id, confirmRequired, confirmed), id)
  {
    var r := WithTaskDeleted(tasks, id, confirmRequired, confirmed);
    if HasId(tasks, id) {
      var i := IndexOfId(tasks, id);
      forall k | 0 <= k < |r| ensures r[k].id != id {
        if k >= i { assert r[k] == tasks[k + 1]; }
      }
    }
  }

  lemma DeleteKeepsWellKept(tasks: seq<Task>, id: int, confirmRequired: bool, confirmed: bool)
    requires WellKept(tasks)
    ensures WellKept(WithTaskDeleted(tasks, id, confirmRequired, confirmed))
  {
    var r := WithTaskDeleted(tasks, id, confirmRequired, confirmed);
    if r != tasks {
      var i := IndexOfId(tasks, id);
      forall k | 0 <= k < |r| ensures WellFormed(r[k]) {
        if k >= i { assert r[k] == tasks[k + 1]; }
      }
      forall a, b | 0 <= a < b < |r| ensures r[a].id != r[b].id {
        var a' := if a < i then a else a + 1;
        var b' := if b < i then b else b + 1;
        assert r[a] == tasks[a'] && r[b] == tasks[b'];
      }
    }
  }

  /** Adding a task under a fresh id and then deleting that id gives back
      the original list. */
  lemma AddThenDelete(tasks: seq<Task>, input: string, dueInput: Option<Day>, important: bool,
                      markToday: bool, today: Day, id: int, createdAt: Timestamp,
                      confirmRequired: bool, confirmed: bool)
    requires !HasId(tasks, id)
    requires !(confirmRequired && !confirmed)
    ensures WithTaskDeleted(WithTaskAdded(tasks, input, dueInput, important, markToday, today, id, createdAt),
                            id, confirmRequired, confirmed) == tasks
  {
    var added := WithTaskAdded(tasks, input, dueInput, important, markToday, today, id, createdAt);
    if !AllWhitespace(input) {
      assert added[0].id == id;
      assert IndexOfId(added, id) == 0;
      assert added[1..] == tasks;
    }
  }

  /** Editing a well-formed task and then answering the prompt with its
      former text gives back the original list. */
  lemma EditThenRestore(tasks: seq<Task>, id: int, answer: Option<string>)
    requires WellKept(tasks) && HasId(tasks, id)
    ensures var i := IndexOfId(tasks, id);
      WithTextEdited(WithTextEdited(tasks, id, answer), id, Some(tasks[i].text)) == tasks
  {
    var i := IndexOfId(tasks, id);
    var once := WithTextEdited(tasks, id, answer);
    IndexOfIdSameIds(tasks, once, id);
    assert Trim(tasks[i].text) == tasks[i].text != [];
  }
}
