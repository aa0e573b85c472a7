/** The read-only views over `state.tasks`: the filter-and-search list of the
    "All Tasks" page, the today / important / completed pages, and the
    dashboard's statistics, navigation badges and progress bar. */
module Queries {
  import opened Text
  import opened Sequences
  import opened Tasks

  /** The filter dropdown's choices. */
  datatype Criterion = All | DueToday | Important | Completed | Pending

  /** The dropdown's `data-filter` names; any other name, `"all"` included,
      filters nothing. */
  function ParseCriterion(name: string): (c: Criterion)
    ensures c == DueToday <==> name == "today"
    ensures c == Important <==> name == "important"
    ensures c == Completed <==> name == "completed"
    ensures c == Pending <==> name == "pending"
  {
    if name == "today" then DueToday
    else if name == "important" then Important
    else if name == "completed" then Completed
    else if name == "pending" then Pending
    else All
  }

  predicate Meets(c: Criterion, t: Task, today: Day) {
    match c
    case All => true
    case DueToday => t.dueDate == Some(today)
    case Important => t.important
    case Completed => t.completed
    case Pending => !t.completed
  }

  /** The search test; the stored query is already lower-cased. */
  predicate MatchesQuery(t: Task, query: string) {
    Includes(ToLower(t.text), query)
  }

  /** The one test that the "All Tasks" pipeline applies, written as a single predicate. */
  predicate Shown(c: Criterion, query: string, today: Day, t: Task) {
    Meets(c, t, today) && (query != [] ==> MatchesQuery(t, query))
  }

  /** The list `renderAllTasks` hands to the renderer: the criterion filter, then
      the search filter when the query is non-empty. */
  function AllTasksView(tasks: seq<Task>, c: Criterion, query: string, today: Day): (r: seq<Task>)
    ensures forall t :: t in r <==> t in tasks && Shown(c, query, today, t)
  {
    var filtered := if c == All then tasks else Filter(tasks, (t: Task) => Meets(c, t, today));
    if query != [] then Filter(filtered, (t: Task) => MatchesQuery(t, query)) else filtered
  }

  /** The two-stage pipeline is one filter by the combined test. */
  lemma AllTasksViewIsOneFilter(tasks: seq<Task>, c: Criterion, query: string, today: Day)
    ensures AllTasksView(tasks, c, query, today) == Filter(tasks, (t: Task) => Shown(c, query, today, t))
  {
    var stage := if c == All then tasks else Filter(tasks, (t: Task) => Meets(c, t, today));
    if c == All {
      FilterKeepsAll(tasks, (t: Task) => Meets(c, t, today));
    }
    assert stage == Filter(tasks, (t: Task) => Meets(c, t, today));
    if query != [] {
      FilterFilter(tasks, (t: Task) => Meets(c, t, today), (t: Task) => MatchesQuery(t, query),
                   (t: Task) => Shown(c, query, today, t));
    } else {
      FilterExtensional(tasks, (t: Task) => Meets(c, t, today), (t: Task) => Shown(c, query, today, t));
    }
  }

  /** The list shown is `state.tasks` with some tasks deleted, order preserved. */
  lemma AllTasksViewIsSubsequence(tasks: seq<Task>, c: Criterion, query: string, today: Day)
    ensures IsSubsequence(AllTasksView(tasks, c, query, today), tasks)
  {
    AllTasksViewIsOneFilter(tasks, c, query, today);
    FilterIsSubsequence(tasks, (t: Task) => Shown(c, query, today, t));
  }

  /** No criterion and no query: the whole list, in order. */
  lemma AllTasksViewUnfiltered(tasks: seq<Task>, today: Day)
    ensures AllTasksView(tasks, All, [], today) == tasks
  {
  }

  /** `renderTodayTasks`: the tasks due on `today`. */
  function TodayTasks(tasks: seq<Task>, today: Day): (r: seq<Task>)
    ensures forall t :: t in r <==> t in tasks && t.dueDate == Some(today)
  {
    Filter(tasks, (t: Task) => t.dueDate == Some(today))
  }

  /** `renderImportantTasks`: the starred tasks. */
  function ImportantTasks(tasks: seq<Task>): (r: seq<Task>)
    ensures forall t :: t in r <==> t in tasks && t.important
  {
    Filter(tasks, (t: Task) => t.important)
  }

  /** `renderCompletedTasks`: the completed tasks. */
  function CompletedTasks(tasks: seq<Task>): (r: seq<Task>)
    ensures forall t :: t in r <==> t in tasks && t.completed
  {
    Filter(tasks, (t: Task) => t.completed)
  }

  function PendingTasks(tasks: seq<Task>): (r: seq<Task>)
    ensures forall t :: t in r <==> t in tasks && !t.completed
  {
    Filter(tasks, (t: Task) => !t.completed)
  }

  /** Each page shows what the dropdown filter of the same name shows with no search. */
  lemma PagesAgreeWithDropdown(tasks: seq<Task>, today: Day)
    ensures TodayTasks(tasks, today) == AllTasksView(tasks, DueToday, [], today)
    ensures ImportantTasks(tasks) == AllTasksView(tasks, Important, [], today)
    ensures CompletedTasks(tasks) == AllTasksView(tasks, Completed, [], today)
    ensures PendingTasks(tasks) == AllTasksView(tasks, Pending, [], today)
  {
    FilterExtensional(tasks, (t: Task) => t.dueDate == Some(today), (t: Task) => Meets(DueToday, t, today));
    FilterExtensional(tasks, (t: Task) => t.important, (t: Task) => Meets(Important, t, today));
    FilterExtensional(tasks, (t: Task) => t.completed, (t: Task) => Meets(Completed, t, today));
    FilterExtensional(tasks, (t: Task) => !t.completed, (t: Task) => Meets(Pending, t, today));
  }

  /** Not completed, dated, and due strictly before `today`. */
  predicate IsOverdue(t: Task, today: Day) {
    !t.completed && t.dueDate.Some? && t.dueDate.value < today
  }

  /** A task due today, or later, or undated, or done, is not overdue. */
  lemma OverdueOnlyBeforeToday(t: Task, today: Day)
    ensures IsOverdue(t, today) ==> t.dueDate.Some? && t.dueDate.value < today && !t.completed
    ensures t.dueDate == Some(today) ==> !IsOverdue(t, today)
  {
  }

  /** The tasks the overdue counter of `updateStats` counts. */
  function OverdueTasks(tasks: seq<Task>, today: Day): (r: seq<Task>)
    ensures forall t :: t in r <==> t in tasks && IsOverdue(t, today)
  {
    Filter(tasks, (t: Task) => IsOverdue(t, today))
  }

  datatype Stats = Stats(total: nat, completed: nat, pending: int, overdue: nat)

  /** `updateStats`: the four dashboard counters. */
  function ComputeStats(tasks: seq<Task>, today: Day): (r: Stats)
    ensures r.total == |tasks|
    ensures r.completed == |CompletedTasks(tasks)| <= r.total
    ensures r.pending == |PendingTasks(tasks)| == r.total - r.completed
    ensures r.overdue == |OverdueTasks(tasks, today)| <= r.pending
    ensures forall t :: t in tasks && IsOverdue(t, today) ==> r.overdue > 0
  {
    var total := |tasks|;
    var completed := |CompletedTasks(tasks)|;
    var overdue := |OverdueTasks(tasks, today)|;
    FilterPartition(tasks, (t: Task) => t.completed, (t: Task) => !t.completed);
    FilterMonotone(tasks, (t: Task) => IsOverdue(t, today), (t: Task) => !t.completed);
    Stats(total, completed, total - completed, overdue)
  }

  /** The empty collection has all counters at zero. */
  lemma StatsOfEmpty(today: Day)
    ensures ComputeStats([], today) == Stats(0, 0, 0, 0)
  {
  }

  datatype Badges = Badges(total: nat, today: nat, important: nat, completed: nat)

  /** `updateBadges`: counts over the full list, whatever filter is active. */
  function ComputeBadges(tasks: seq<Task>, today: Day): (r: Badges)
    ensures r.total == |tasks|
    ensures r.today == |TodayTasks(tasks, today)| <= r.total
    ensures r.important == |ImportantTasks(tasks)| <= r.total
    ensures r.completed == |CompletedTasks(tasks)| <= r.total
  {
    Badges(|tasks|, |TodayTasks(tasks, today)|, |ImportantTasks(tasks)|, |CompletedTasks(tasks)|)
  }

  /** A badge counts what its page lists, and the completed badge agrees with the
      completed counter. */
  lemma BadgesMatchViews(tasks: seq<Task>, today: Day)
    ensures var b := ComputeBadges(tasks, today);
      && b.total == |AllTasksView(tasks, All, [], today)|
      && b.today == |AllTasksView(tasks, DueToday, [], today)|
      && b.important == |AllTasksView(tasks, Important, [], today)|
      && b.completed == |AllTasksView(tasks, Completed, [], today)|
      && b.completed == ComputeStats(tasks, today).completed
  {
    PagesAgreeWithDropdown(tasks, today);
  }

  /** `Math.round(100 * part / whole)`, 0 for an empty whole, computed on
      integers: the nearest whole percent, halves rounded up. */
  function RoundedPercent(part: nat, whole: nat): (r: nat)
    requires part <= whole
    ensures r <= 100
    ensures whole == 0 ==> r == 0
    ensures whole > 0 ==> -(whole as int) < 2 * whole * r - 200 * part <= whole
    ensures part == 0 ==> r == 0
    ensures 0 < part == whole ==> r == 100
  {
    if whole == 0 then 0
    else
      var r := (200 * part + whole) / (2 * whole);
      DivBounds(200 * part + whole, 2 * whole);
      PercentBounds(part, whole, r);
      r
  }

  lemma DivBounds(n: nat, d: nat)
    requires d > 0
    ensures d * (n / d) <= n < d * (n / d) + d
  {
  }

  /** The only whole number within half a unit of `100 * part / whole` lies in
      0..100, and is 0 or 100 at the extremes. */
  lemma PercentBounds(part: nat, whole: nat, r: nat)
    requires 0 < whole && part <= whole
    requires 2 * whole * r <= 200 * part + whole < 2 * whole * r + 2 * whole
    ensures r <= 100
    ensures part == 0 ==> r == 0
    ensures part == whole ==> r == 100
  {
    if r >= 101 {
      MulAtLeast(2 * whole, r, 101);
    }
    if part == 0 && r >= 1 {
      MulAtLeast(2 * whole, r, 1);
    }
    if part == whole && r <= 99 {
      MulAtLeast(2 * whole, 99, r);
    }
  }

  lemma MulAtLeast(a: nat, b: nat, c: nat)
    requires b >= c
    ensures a * b >= a * c
  {
    assert a * b == a * c + a * (b - c);
  }

  /** `updateProgress`: the share of completed tasks as a whole percentage. */
  function ProgressPercent(tasks: seq<Task>): (r: nat)
    ensures r <= 100
    ensures tasks != [] ==>
      -(|tasks| as int) < 2 * |tasks| * r - 200 * |CompletedTasks(tasks)| <= |tasks|
    ensures tasks == [] ==> r == 0
    ensures tasks != [] && (forall t :: t in tasks ==> t.completed) ==> r == 100
    ensures (forall t :: t in tasks ==> !t.completed) ==> r == 0
  {
    CompletedCountExtremes(tasks);
    RoundedPercent(|CompletedTasks(tasks)|, |tasks|)
  }

  lemma CompletedCountExtremes(tasks: seq<Task>)
    ensures (forall t :: t in tasks ==> t.completed) ==> |CompletedTasks(tasks)| == |tasks|
    ensures (forall t :: t in tasks ==> !t.completed) ==> CompletedTasks(tasks) == []
  {
    if forall t :: t in tasks ==> t.completed {
      FilterKeepsAll(tasks, (t: Task) => t.completed);
    }
    var done := CompletedTasks(tasks);
    if done != [] {
      assert done[0] in done;
    }
  }

  /** Three pending tasks due yesterday, today and tomorrow, the last one
      starred: one is overdue, one is due today, one is important. */
  lemma ThreeTaskScenario(today: Day, a: Task, b: Task, c: Task)
    requires a.dueDate == Some(today - 1) && b.dueDate == Some(today) && c.dueDate == Some(today + 1)
    requires !a.completed && !b.completed && !c.completed
    requires !a.important && !b.important && c.important
    ensures ImportantTasks([a, b, c]) == [c]
    ensures ComputeStats([a, b, c], today) == Stats(3, 0, 3, 1)
    ensures ComputeBadges([a, b, c], today).today == 1
    ensures ProgressPercent([a, b, c]) == 0
  {
    var s := [a, b, c];
    assert s[1..] == [b, c] && [b, c][1..] == [c];
    assert ImportantTasks([c]) == [c];
    assert ImportantTasks([b, c]) == [c];
    assert CompletedTasks([c]) == [];
    assert CompletedTasks([b, c]) == [];
    assert CompletedTasks(s) == [];
    assert OverdueTasks([c], today) == [];
    assert OverdueTasks([b, c], today) == [];
    assert OverdueTasks(s, today) == [a];
    assert TodayTasks([c], today) == [];
    assert TodayTasks([b, c], today) == [b];
    assert TodayTasks(s, today) == [b];
  }
}
