/** The task record held in `state.tasks`, the invariants a well-kept
    collection satisfies, and the `findIndex` lookup every mutation starts with. */
module Tasks {
  import opened Text

  datatype Option<T> = None | Some(value: T)

  /** A calendar date as a day number (the `YYYY-MM-DD` strings of the source). */
  type Day = int

  /** An instant in milliseconds (`Date.now()`, `toISOString()`). */
  type Timestamp = int

  /** One to-do item. An empty due-date input (`""`) is `None`. */
  datatype Task = Task(
    id: int,
    text: string,
    completed: bool,
    important: bool,
    dueDate: Option<Day>,
    createdAt: Timestamp,
    completedAt: Option<Timestamp>)

  /** `completedAt` is set exactly when the task is completed. */
  predicate CompletionConsistent(t: Task) {
    t.completedAt.Some? <==> t.completed
  }

  /** The text is non-empty and already trimmed. */
  predicate TextValid(t: Task) {
    t.text != [] && Trim(t.text) == t.text
  }

  predicate WellFormed(t: Task) {
    CompletionConsistent(t) && TextValid(t)
  }

  predicate UniqueIds(s: seq<Task>) {
    forall i, j :: 0 <= i < j < |s| ==> s[i].id != s[j].id
  }

  predicate HasId(s: seq<Task>, id: int) {
    exists k :: 0 <= k < |s| && s[k].id == id
  }

  /** The invariant of a collection built only by the operations of this model. */
  predicate WellKept(s: seq<Task>) {
    UniqueIds(s) && forall k :: 0 <= k < |s| ==> WellFormed(s[k])
  }

  /** `findIndex(task => task.id === id)`: the first position holding `id`, or -1. */
  function IndexOfId(s: seq<Task>, id: int): (r: int)
    ensures -1 <= r < |s|
    ensures r == -1 <==> !HasId(s, id)
    ensures r >= 0 ==> s[r].id == id && forall k :: 0 <= k < r ==> s[k].id != id
  {
    if s == [] then -1
    else if s[0].id == id then 0
    else
      var k := IndexOfId(s[1..], id);
      assert forall j :: 0 < j < |s| ==> s[j] == s[1..][j - 1];
      if k == -1 then -1 else k + 1
  }

  /** With unique ids the first match is the only one. */
  lemma IndexOfUniqueId(s: seq<Task>, i: int)
    requires UniqueIds(s) && 0 <= i < |s|
    ensures IndexOfId(s, s[i].id) == i
  {
  }
}
