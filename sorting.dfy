/** `sortTasks`: the four comparators of the sort dropdown and the stable
    sort that `Array.prototype.sort` performs with them. */
module Sorting {
  import opened Text
  import opened Sequences
  import opened Tasks

  datatype SortKey = ByDate | ByPriority | ByName | ByCreated

  /** The keys of the `sortFunctions` table; any other name sorts nothing. */
  function ParseSortKey(name: string): (k: Option<SortKey>)
    ensures k == Some(ByDate) <==> name == "date"
    ensures k == Some(ByPriority) <==> name == "priority"
    ensures k == Some(ByName) <==> name == "name"
    ensures k == Some(ByCreated) <==> name == "created"
  {
    if name == "date" then Some(ByDate)
    else if name == "priority" then Some(ByPriority)
    else if name == "name" then Some(ByName)
    else if name == "created" then Some(ByCreated)
    else None
  }

  /** The comparator for key `k`; a negative result puts `a` before `b`.
      Dates compare by day (undated tasks after dated ones), priority puts
      important tasks first, names compare by code points, and creation time
      sorts newest first. */
  function Compare(k: SortKey, a: Task, b: Task): (r: int)
    ensures k == ByDate && a.dueDate.Some? && b.dueDate.Some? ==>
      (r < 0 <==> a.dueDate.value < b.dueDate.value) && (r == 0 <==> a.dueDate.value == b.dueDate.value)
    ensures k == ByDate && a.dueDate.Some? && b.dueDate.None? ==> r < 0
    ensures k == ByDate && a.dueDate.None? && b.dueDate.Some? ==> r > 0
    ensures k == ByDate && a.dueDate.None? && b.dueDate.None? ==> r == 0
    ensures k == ByPriority ==>
      (r < 0 <==> a.important && !b.important) && (r == 0 <==> a.important == b.important)
    ensures k == ByName ==>
      (r < 0 <==> FirstDifferenceLess(a.text, b.text)) && (r == 0 <==> a.text == b.text)
    ensures k == ByCreated ==>
      (r < 0 <==> a.createdAt > b.createdAt) && (r == 0 <==> a.createdAt == b.createdAt)
  {
    LexLessIrreflexive(a.text);
    match k
    case ByDate =>
      (match (a.dueDate, b.dueDate)
       case (Some(x), Some(y)) => x - y
       case (Some(_), None) => -1
       case (None, Some(_)) => 1
       case (None, None) => 0)
    case ByPriority =>
      if a.important == b.important then 0 else if a.important then -1 else 1
    case ByName =>
      if LexLess(a.text, b.text) then -1 else if a.text == b.text then 0 else 1
    case ByCreated => b.createdAt - a.createdAt
  }

  predicate Before(k: SortKey, a: Task, b: Task) {
    Compare(k, a, b) < 0
  }

  /** Neither task has to come first: the sort must keep their relative order. */
  predicate Tied(k: SortKey, a: Task, b: Task) {
    !Before(k, a, b) && !Before(k, b, a)
  }

  /** Each comparator is consistent: swapping the arguments flips the sign. */
  lemma CompareAntisymmetric(k: SortKey, a: Task, b: Task)
    ensures Compare(k, a, b) < 0 <==> Compare(k, b, a) > 0
    ensures Compare(k, a, b) == 0 <==> Compare(k, b, a) == 0
  {
    if k == ByName {
      if a.text != b.text {
        LexLessTotal(a.text, b.text);
        if LexLess(a.text, b.text) && LexLess(b.text, a.text) {
          LexLessTransitive(a.text, b.text, a.text);
          LexLessIrreflexive(a.text);
        }
      } else {
        LexLessIrreflexive(a.text);
      }
    }
  }

  /** If `x` comes before `z`, any `y` comes after `x` or before `z`: the
      comparators are strict weak orders, so the sort result is well defined. */
  lemma BeforeNegTransitive(k: SortKey, x: Task, y: Task, z: Task)
    requires Before(k, x, z)
    ensures Before(k, x, y) || Before(k, y, z)
  {
    if k == ByName && !Before(k, x, y) {
      if x.text == y.text {
      } else {
        LexLessTotal(x.text, y.text);
        LexLessTransitive(y.text, x.text, z.text);
      }
    }
  }

  lemma TiedTransitive(k: SortKey, a: Task, b: Task, c: Task)
    requires Tied(k, a, b) && Tied(k, b, c)
    ensures Tied(k, a, c)
  {
    if Before(k, a, c) { BeforeNegTransitive(k, a, b, c); }
    if Before(k, c, a) { BeforeNegTransitive(k, c, b, a); }
  }

  /** No later element has to come before an earlier one. */
  predicate Sorted(k: SortKey, s: seq<Task>) {
    forall i, j :: 0 <= i < j < |s| ==> !Before(k, s[j], s[i])
  }

  /** Puts `e` in front of the first element that need not precede it. */
  function Insert(k: SortKey, e: Task, s: seq<Task>): (r: seq<Task>)
    ensures multiset(r) == multiset(s) + multiset{e}
  {
    if s == [] then [e]
    else if Before(k, s[0], e) then
      assert s == [s[0]] + s[1..];
      [s[0]] + Insert(k, e, s[1..])
    else [e] + s
  }

  /** A sorted sequence stays sorted with a new head that nothing in it must precede. */
  lemma SortedCons(k: SortKey, h: Task, rest: seq<Task>)
    requires Sorted(k, rest)
    requires forall z :: z in rest ==> !Before(k, z, h)
    ensures Sorted(k, [h] + rest)
  {
    var r := [h] + rest;
    forall i, j | 0 <= i < j < |r| ensures !Before(k, r[j], r[i]) {
      assert r[j] == rest[j - 1];
      if i > 0 { assert r[i] == rest[i - 1]; } else { assert r[j] in rest; }
    }
  }

  /** Every element of `Insert(k, e, s)` is `e` or comes from `s`. */
  lemma InsertMembers(k: SortKey, e: Task, s: seq<Task>, z: Task)
    requires z in Insert(k, e, s)
    ensures z == e || z in s
  {
    assert z in multiset(Insert(k, e, s));
  }

  lemma {:induction false} InsertSorted(k: SortKey, e: Task, s: seq<Task>)
    requires Sorted(k, s)
    ensures Sorted(k, Insert(k, e, s))
  {
    if s == [] {
    } else if Before(k, s[0], e) {
      var rest := Insert(k, e, s[1..]);
      assert Insert(k, e, s) == [s[0]] + rest;
      InsertSorted(k, e, s[1..]);
      forall z | z in rest ensures !Before(k, z, s[0]) {
        InsertMembers(k, e, s[1..], z);
        if z == e {
          CompareAntisymmetric(k, s[0], e);
        } else {
          var j :| 0 <= j < |s[1..]| && s[1..][j] == z;
          assert s[j + 1] == z;
        }
      }
      SortedCons(k, s[0], rest);
    } else {
      forall z | z in s ensures !Before(k, z, e) {
        var j :| 0 <= j < |s| && s[j] == z;
        if j > 0 && Before(k, s[j], e) {
          BeforeNegTransitive(k, s[j], s[0], e);
        }
      }
      SortedCons(k, e, s);
    }
  }

  /** `Array.prototype.sort` with the comparator for `k`: a stable insertion sort. */
  function SortBy(k: SortKey, s: seq<Task>): (r: seq<Task>)
    ensures multiset(r) == multiset(s)
    ensures Sorted(k, r)
  {
    if s == [] then []
    else
      var rest := SortBy(k, s[1..]);
      InsertSorted(k, s[0], rest);
      assert s == [s[0]] + s[1..];
      Insert(k, s[0], rest)
  }

  /** The tasks tied with `x` under `k`. */
  function TiedWith(k: SortKey, x: Task): Task -> bool {
    t => Tied(k, t, x)
  }

  /** Two one-element filters of which at least one is empty commute. */
  lemma SwapSingleFilters(fh: seq<Task>, fe: seq<Task>, rest: seq<Task>)
    requires fh == [] || fe == []
    ensures fh + (fe + rest) == fe + (fh + rest)
  {
  }

  /** An element passed over by `Insert` is never tied with the inserted one. */
  lemma PassedNotTied(k: SortKey, y: Task, e: Task, x: Task)
    requires Before(k, y, e)
    ensures Filter([y], TiedWith(k, x)) == [] || Filter([e], TiedWith(k, x)) == []
  {
    assert Filter([y], TiedWith(k, x)) == if Tied(k, y, x) then [y] else [];
    assert Filter([e], TiedWith(k, x)) == if Tied(k, e, x) then [e] else [];
    if Tied(k, y, x) && Tied(k, e, x) {
      TiedTransitive(k, y, x, e);
    }
  }

  lemma {:induction false} InsertStable(k: SortKey, e: Task, s: seq<Task>, x: Task)
    ensures Filter(Insert(k, e, s), TiedWith(k, x)) == Filter([e] + s, TiedWith(k, x))
  {
    var p := TiedWith(k, x);
    if s != [] && Before(k, s[0], e) {
      var s' := s[1..];
      assert Insert(k, e, s) == [s[0]] + Insert(k, e, s');
      assert [s[0]] + s' == s;
      InsertStable(k, e, s', x);
      var fh, fe := Filter([s[0]], p), Filter([e], p);
      PassedNotTied(k, s[0], e, x);
      FilterConcat([s[0]], Insert(k, e, s'), p);
      FilterConcat([e], s', p);
      FilterConcat([s[0]], s', p);
      FilterConcat([e], s, p);
      SwapSingleFilters(fh, fe, Filter(s', p));
    }
  }

  /** Tied tasks keep their relative order: the sort is stable. */
  lemma {:induction false} SortByStable(k: SortKey, s: seq<Task>, x: Task)
    ensures Filter(SortBy(k, s), TiedWith(k, x)) == Filter(s, TiedWith(k, x))
  {
    if s != [] {
      var p := TiedWith(k, x);
      SortByStable(k, s[1..], x);
      InsertStable(k, s[0], SortBy(k, s[1..]), x);
      FilterConcat([s[0]], SortBy(k, s[1..]), p);
      FilterConcat([s[0]], s[1..], p);
      assert s == [s[0]] + s[1..];
    }
  }

  /** What each sorted order means for the fields compared. */
  lemma SortedMeaning(k: SortKey, s: seq<Task>, i: int, j: int)
    requires Sorted(k, s) && 0 <= i < j < |s|
    ensures k == ByDate && s[j].dueDate.Some? ==>
      s[i].dueDate.Some? && s[i].dueDate.value <= s[j].dueDate.value
    ensures k == ByPriority && s[j].important ==> s[i].important
    ensures k == ByName ==> s[i].text == s[j].text || LexLess(s[i].text, s[j].text)
    ensures k == ByCreated ==> s[i].createdAt >= s[j].createdAt
  {
    assert !Before(k, s[j], s[i]);
    if k == ByName && s[i].text != s[j].text {
      LexLessTotal(s[i].text, s[j].text);
    }
  }

  lemma {:induction false} InsertAfterImportant(e: Task, a: seq<Task>, b: seq<Task>)
    requires !e.important
    requires forall t :: t in a ==> t.important
    requires forall t :: t in b ==> !t.important
    ensures Insert(ByPriority, e, a + b) == a + [e] + b
  {
    if a == [] {
      assert a + b == b;
    } else {
      assert (a + b)[0] == a[0] && (a + b)[1..] == a[1..] + b;
      assert forall t :: t in a[1..] ==> t in a;
      InsertAfterImportant(e, a[1..], b);
    }
  }

  /** Sorting by priority moves the important tasks to the front, each group
      keeping its order. */
  lemma {:induction false} SortByPriorityPartitions(s: seq<Task>)
    ensures SortBy(ByPriority, s)
         == Filter(s, (t: Task) => t.important) + Filter(s, (t: Task) => !t.important)
  {
    if s != [] {
      var s0, s' := s[0], s[1..];
      assert s == [s0] + s';
      SortByPriorityPartitions(s');
      var a, b := Filter(s', (t: Task) => t.important), Filter(s', (t: Task) => !t.important);
      FilterCons(s0, s', (t: Task) => t.important);
      FilterCons(s0, s', (t: Task) => !t.important);
      InsertByPriority(s0, a, b);
    }
  }

  lemma InsertByPriority(e: Task, a: seq<Task>, b: seq<Task>)
    requires forall t :: t in a ==> t.important
    requires forall t :: t in b ==> !t.important
    ensures Insert(ByPriority, e, a + b)
         == (if e.important then [e] else []) + a + ((if e.important then [] else [e]) + b)
  {
    if e.important {
      InsertImportant(e, a + b);
    } else {
      InsertAfterImportant(e, a, b);
    }
  }

  lemma InsertImportant(e: Task, s: seq<Task>)
    requires e.important
    ensures Insert(ByPriority, e, s) == [e] + s
  {
  }

  lemma {:induction false} TwoPositions(s: seq<Task>, i: int, j: int)
    requires 0 <= i < j < |s| && s[i] == s[j]
    ensures multiset(s)[s[i]] >= 2
  {
    assert s == s[..j] + s[j..];
    assert s[i] in s[..j];
    assert s[j] in s[j..];
  }

  lemma {:induction false} TwoOccurrences(s: seq<Task>, v: Task)
    requires multiset(s)[v] >= 2
    ensures exists i, j :: 0 <= i < j < |s| && s[i] == v && s[j] == v
  {
    assert s == [s[0]] + s[1..];
    if s[0] == v {
      assert v in multiset(s[1..]);
      var j :| 0 <= j < |s[1..]| && s[1..][j] == v;
      assert s[0] == v && s[j + 1] == v;
    } else {
      TwoOccurrences(s[1..], v);
      var i, j :| 0 <= i < j < |s[1..]| && s[1..][i] == v && s[1..][j] == v;
      assert s[i + 1] == v && s[j + 1] == v;
    }
  }

  /** A reordering of a well-kept collection is well kept. */
  lemma PermutationWellKept(s: seq<Task>, r: seq<Task>)
    requires multiset(r) == multiset(s) && WellKept(s)
    ensures WellKept(r)
  {
    forall k | 0 <= k < |r| ensures WellFormed(r[k]) {
      assert r[k] in multiset(s);
      var m :| 0 <= m < |s| && s[m] == r[k];
    }
    forall i, j | 0 <= i < j < |r| ensures r[i].id != r[j].id {
      if r[i] == r[j] {
        TwoPositions(r, i, j);
        TwoOccurrences(s, r[i]);
      } else {
        assert r[i] in multiset(s) && r[j] in multiset(s);
        var p :| 0 <= p < |s| && s[p] == r[i];
        var q :| 0 <= q < |s| && s[q] == r[j];
        assert p != q;
      }
    }
  }
}
