/** The `Home` component: the canonical task collection, the local patches
    applied to it after a remote write succeeds, the two derived lists
    ("Due Today" and "All Tasks") and the edit form. */
module Home {
  import opened Seqs
  import opened Tasks
  import opened Text

  // ---------------------------------------------------------------------
  // Patches of the task collection

  /** The filter callback of `handleDelete`: keep a task whose id is not `id`. */
  function KeepOthers(id: Id): (keep: Task -> bool)
    ensures forall t: Task :: keep(t) <==> t.id != id
  {
    (t: Task) => t.id != id
  }

  /** The patch `handleDelete` applies after a successful DELETE. */
  function Delete(ts: seq<Task>, id: Id): (r: seq<Task>)
    ensures |r| <= |ts|
    ensures forall t :: t in r <==> t in ts && t.id != id
  {
    FilterMembers(ts, KeepOthers(id));
    Filter(ts, KeepOthers(id))
  }

  /** Delete keeps every other task as often as it occurred, and in its
      relative order. */
  lemma DeleteKeepsOthersInOrder(ts: seq<Task>, id: Id)
    ensures forall t :: multiset(Delete(ts, id))[t] == if t.id != id then multiset(ts)[t] else 0
    ensures IsSubsequence(Delete(ts, id), ts)
  {
    forall t
      ensures multiset(Delete(ts, id))[t] == if t.id != id then multiset(ts)[t] else 0
    {
      FilterCount(ts, KeepOthers(id), t);
    }
    FilterIsSubsequence(ts, KeepOthers(id));
  }

  /** Deleting an id that no task carries leaves the collection unchanged. */
  lemma DeleteAbsent(ts: seq<Task>, id: Id)
    requires forall t :: t in ts ==> t.id != id
    ensures Delete(ts, id) == ts
  {
    FilterKeepsAll(ts, KeepOthers(id));
  }

  /** Deleting the same id twice is the same as deleting it once. */
  lemma DeleteIdempotent(ts: seq<Task>, id: Id)
    ensures Delete(Delete(ts, id), id) == Delete(ts, id)
  {
    FilterKeepsAll(Delete(ts, id), KeepOthers(id));
  }

  /** With unique ids, deleting the id of the task at position `i` removes
      exactly that task; everything before and after it stays in place. */
  lemma DeleteAt(ts: seq<Task>, i: nat)
    requires UniqueIds(ts) && i < |ts|
    ensures Delete(ts, ts[i].id) == ts[..i] + ts[i + 1..]
    ensures |Delete(ts, ts[i].id)| == |ts| - 1
  {
    var p := KeepOthers(ts[i].id);
    var before, after := ts[..i], ts[i + 1..];
    assert ts == before + [ts[i]] + after;
    forall x | x in before
      ensures p(x)
    {
      var j :| 0 <= j < |before| && before[j] == x;
      assert ts[j] == x;
    }
    forall x | x in after
      ensures p(x)
    {
      var j :| 0 <= j < |after| && after[j] == x;
      assert ts[i + 1 + j] == x;
    }
    FilterAppend(before + [ts[i]], after, p);
    FilterAppend(before, [ts[i]], p);
    FilterKeepsAll(before, p);
    FilterKeepsAll(after, p);
    assert Filter([ts[i]], p) == [];
  }

  /** Deleting keeps the ids of the collection unique. */
  lemma {:induction false} DeletePreservesUniqueIds(ts: seq<Task>, id: Id)
    requires UniqueIds(ts)
    ensures UniqueIds(Delete(ts, id))
  {
    if ts != [] {
      var p := KeepOthers(id);
      UniqueIdsCons(ts);
      DeletePreservesUniqueIds(ts[1..], id);
      var rest := Delete(ts[1..], id);
      if p(ts[0]) {
        var r := [ts[0]] + rest;
        assert Delete(ts, id) == r;
        assert r[1..] == rest;
        UniqueIdsCons(r);
      } else {
        assert Delete(ts, id) == rest;
      }
    }
  }

  /** The map callback of `handleUpdateSubmit` and `handleComplete`: every
      task whose id is `id` becomes `t`; the others are returned as they are. */
  function Replace(ts: seq<Task>, id: Id, t: Task): (r: seq<Task>)
    ensures |r| == |ts|
    ensures forall i :: 0 <= i < |ts| ==> r[i] == if ts[i].id == id then t else ts[i]
  {
    if ts == [] then [] else [if ts[0].id == id then t else ts[0]] + Replace(ts[1..], id, t)
  }

  /** The patch `handleUpdateSubmit` applies after a successful PUT: the
      draft replaces the task carrying the draft's id. */
  function Update(ts: seq<Task>, draft: Task): (r: seq<Task>)
    ensures |r| == |ts|
  {
    Replace(ts, draft.id, draft)
  }

  /** Applying the same update twice is the same as applying it once. */
  lemma UpdateIdempotent(ts: seq<Task>, draft: Task)
    ensures Update(Update(ts, draft), draft) == Update(ts, draft)
  {
  }

  /** An update whose id no task carries leaves the collection unchanged. */
  lemma UpdateAbsent(ts: seq<Task>, draft: Task)
    requires forall t :: t in ts ==> t.id != draft.id
    ensures Update(ts, draft) == ts
  {
  }

  /** An update keeps the id found at every position. */
  lemma UpdateKeepsIds(ts: seq<Task>, draft: Task)
    ensures forall i :: 0 <= i < |ts| ==> Update(ts, draft)[i].id == ts[i].id
  {
  }

  /** An update keeps ids unique. */
  lemma UpdatePreservesUniqueIds(ts: seq<Task>, draft: Task)
    requires UniqueIds(ts)
    ensures UniqueIds(Update(ts, draft))
  {
    UpdateKeepsIds(ts, draft);
  }

  /** `{ ...task, status: "Completed" }`: a copy that differs from `task`
      in its status only. */
  function MarkCompleted(task: Task): (r: Task)
    ensures r.status == CompletedStatus
    ensures r.(status := task.status) == task
  {
    task.(status := CompletedStatus)
  }

  /** The patch `handleComplete` applies after a successful PUT. */
  function Complete(ts: seq<Task>, task: Task): (r: seq<Task>)
    ensures |r| == |ts|
  {
    Replace(ts, task.id, MarkCompleted(task))
  }

  /** Completing is the update whose draft is the completed copy: the task
      with the id is replaced in place by it and nothing else changes. */
  lemma CompleteIsUpdate(ts: seq<Task>, task: Task)
    ensures Complete(ts, task) == Update(ts, MarkCompleted(task))
    ensures forall i :: 0 <= i < |ts| ==>
      Complete(ts, task)[i] == if ts[i].id == task.id then task.(status := CompletedStatus) else ts[i]
  {
  }

  // ---------------------------------------------------------------------
  // Derived views

  /** The filter callback of `tasksDueToday`: `isSameDate(task.duedate,
      selectedDate)` compares local calendar days. */
  function OnDay(day: int, dayOf: string -> int): (due: Task -> bool)
    ensures forall t: Task :: due(t) <==> dayOf(t.duedate) == day
    ensures forall t: Task, u: Task :: dayOf(t.duedate) == dayOf(u.duedate) ==> (due(t) <==> due(u))
  {
    (t: Task) => dayOf(t.duedate) == day
  }

  /** The tasks due on calendar day `day`, in collection order. */
  function DueOn(ts: seq<Task>, day: int, dayOf: string -> int): (r: seq<Task>)
    ensures |r| <= |ts|
    ensures forall t :: t in r <==> t in ts && dayOf(t.duedate) == day
  {
    FilterMembers(ts, OnDay(day, dayOf));
    Filter(ts, OnDay(day, dayOf))
  }

  /** The due-on view keeps each task due that day as often as in the
      collection, and in collection order. */
  lemma DueOnKeepsOrder(ts: seq<Task>, day: int, dayOf: string -> int)
    ensures forall t :: multiset(DueOn(ts, day, dayOf))[t] == if dayOf(t.duedate) == day then multiset(ts)[t] else 0
    ensures IsSubsequence(DueOn(ts, day, dayOf), ts)
  {
    forall t
      ensures multiset(DueOn(ts, day, dayOf))[t] == if dayOf(t.duedate) == day then multiset(ts)[t] else 0
    {
      FilterCount(ts, OnDay(day, dayOf), t);
    }
    FilterIsSubsequence(ts, OnDay(day, dayOf));
  }

  /** Every task is in the view for its own due day. */
  lemma DueOnOwnDay(ts: seq<Task>, t: Task, dayOf: string -> int)
    requires t in ts
    ensures t in DueOn(ts, dayOf(t.duedate), dayOf)
  {
  }

  /** The views for two different days share no task. */
  lemma DueOnDisjoint(ts: seq<Task>, d1: int, d2: int, dayOf: string -> int)
    requires d1 != d2
    ensures forall t :: t in DueOn(ts, d1, dayOf) ==> t !in DueOn(ts, d2, dayOf)
  {
  }

  /** The filter callback of the "All Tasks" list, given the lower-cased query. */
  function TitleContains(needle: string): (matches: Task -> bool)
    ensures forall t: Task :: matches(t) <==> exists i :: OccursAt(Lower(t.title), needle, i)
  {
    ContainsIffOccurs();
    (t: Task) => Contains(Lower(t.title), needle)
  }

  /** The "All Tasks" list: tasks whose lower-cased title includes the
      lower-cased query, in collection order. */
  function Matching(ts: seq<Task>, query: string): (r: seq<Task>)
    ensures |r| <= |ts|
    ensures forall t :: t in r <==> t in ts && Contains(Lower(t.title), Lower(query))
  {
    FilterMembers(ts, TitleContains(Lower(query)));
    Filter(ts, TitleContains(Lower(query)))
  }

  /** The search view holds exactly the tasks whose lower-cased title has the
      lower-cased query at some index, in collection order. */
  lemma MatchingExactly(ts: seq<Task>, query: string)
    ensures forall t :: t in Matching(ts, query) ==> t in ts && exists i :: OccursAt(Lower(t.title), Lower(query), i)
    ensures forall t, i :: t in ts && OccursAt(Lower(t.title), Lower(query), i) ==> t in Matching(ts, query)
    ensures IsSubsequence(Matching(ts, query), ts)
  {
    var p := TitleContains(Lower(query));
    forall t | t in Matching(ts, query)
      ensures exists i :: OccursAt(Lower(t.title), Lower(query), i)
    {
      ContainsSound(Lower(t.title), Lower(query));
    }
    forall t, i | t in ts && OccursAt(Lower(t.title), Lower(query), i)
      ensures t in Matching(ts, query)
    {
      ContainsComplete(Lower(t.title), Lower(query), i);
    }
    FilterIsSubsequence(ts, p);
  }

  /** The search view keeps each matching task as often as it occurs in the
      collection, drops every other task, and keeps collection order. */
  lemma MatchingKeepsOrder(ts: seq<Task>, query: string)
    ensures forall t :: multiset(Matching(ts, query))[t] == if Contains(Lower(t.title), Lower(query)) then multiset(ts)[t] else 0
    ensures IsSubsequence(Matching(ts, query), ts)
  {
    var p := TitleContains(Lower(query));
    forall t
      ensures multiset(Matching(ts, query))[t] == if Contains(Lower(t.title), Lower(query)) then multiset(ts)[t] else 0
    {
      FilterCount(ts, p, t);
    }
    FilterIsSubsequence(ts, p);
  }

  /** An empty query lists every task, in order. */
  lemma MatchingEmptyQuery(ts: seq<Task>)
    ensures Matching(ts, "") == ts
  {
    assert Lower("") == "";
    FilterKeepsAll(ts, TitleContains(""));
  }

  /** Searching is case-insensitive: a query and its upper-case form list
      the same tasks. */
  lemma MatchingIgnoresCase(ts: seq<Task>, query: string)
    ensures Matching(ts, Upper(query)) == Matching(ts, query)
  {
    LowerOfUpper(query);
  }

  /** The date shown beside a task: `duedate.split("T")[0]`. */
  function ShownDate(t: Task): (r: string)
    ensures r <= t.duedate && 'T' !in r
    ensures |r| < |t.duedate| ==> t.duedate[|r|] == 'T'
  {
    FirstField(t.duedate, 'T')
  }

  // ---------------------------------------------------------------------
  // Component state

  /** The whole state of `Home`, as one value. */
  datatype Snapshot = Snapshot(
    selectedDay: int,
    tasks: seq<Task>,
    searchQuery: string,
    isEditing: bool,
    editTask: Option<Task>)

  /** The state hooks of `Home` and the handlers that update them. Each
      remote call is reduced to its outcome; the patch runs only on success. */
  class HomeState {
    var selectedDay: int
    var tasks: seq<Task>
    var searchQuery: string
    var isEditing: bool
    var editTask: Option<Task>

    /** The edit form is only shown with a draft to edit. */
    ghost predicate Valid()
      reads this
    {
      isEditing ==> editTask.Some?
    }

    function Snap(): Snapshot
      reads this
    {
      Snapshot(selectedDay, tasks, searchQuery, isEditing, editTask)
    }

    /** The initial hook values; `today` is the day of `new Date()`. */
    constructor (today: int)
      ensures Valid()
      ensures Snap() == Snapshot(today, [], "", false, None)
    {
      selectedDay, tasks, searchQuery := today, [], "";
      isEditing, editTask := false, None;
    }

    /** `handleDateChange`: the calendar selects another day. */
    method HandleDateChange(day: int)
      requires Valid()
      modifies this
      ensures Valid()
      ensures Snap() == old(Snap()).(selectedDay := day)
    {
      selectedDay := day;
    }

    /** `fetchTasks`: the collection becomes what the service listed. */
    method LoadTasks(outcome: Outcome, data: seq<Task>)
      requires Valid()
      modifies this
      ensures Valid()
      ensures Snap() == if outcome.Succeeded? then old(Snap()).(tasks := data) else old(Snap())
    {
      if outcome.Succeeded? {
        tasks := data;
      }
    }

    /** `handleDelete`. */
    method HandleDelete(id: Id, outcome: Outcome)
      requires Valid()
      modifies this
      ensures Valid()
      ensures Snap() == if outcome.Succeeded? then old(Snap()).(tasks := Delete(old(tasks), id)) else old(Snap())
      ensures UniqueIds(old(tasks)) ==> UniqueIds(tasks)
    {
      if outcome.Succeeded? {
        if UniqueIds(tasks) {
          DeletePreservesUniqueIds(tasks, id);
        }
        tasks := Delete(tasks, id);
      }
    }

    /** `handleEdit`: seed the draft with the task and open the form. */
    method HandleEdit(task: Task)
      requires Valid()
      modifies this
      ensures Valid()
      ensures Snap() == old(Snap()).(isEditing := true, editTask := Some(task))
    {
      editTask := Some(task);
      isEditing := true;
    }

    /** The title input of the edit form. */
    method EditTitle(value: string)
      requires Valid() && isEditing
      modifies this
      ensures Valid()
      ensures Snap() == old(Snap()).(editTask := Some(old(editTask.value).(title := value)))
    {
      editTask := Some(editTask.value.(title := value));
    }

    /** The status select of the edit form. */
    method EditStatus(value: string)
      requires Valid() && isEditing
      modifies this
      ensures Valid()
      ensures Snap() == old(Snap()).(editTask := Some(old(editTask.value).(status := value)))
    {
      editTask := Some(editTask.value.(status := value));
    }

    /** The due-date input of the edit form. */
    method EditDueDate(value: string)
      requires Valid() && isEditing
      modifies this
      ensures Valid()
      ensures Snap() == old(Snap()).(editTask := Some(old(editTask.value).(duedate := value)))
    {
      editTask := Some(editTask.value.(duedate := value));
    }

    /** The value the due-date input shows: `editTask.duedate?.split("T")[0]`. */
    function ShownDraftDate(): (r: string)
      requires Valid() && isEditing
      reads this
      ensures r <= editTask.value.duedate && 'T' !in r
      ensures |r| < |editTask.value.duedate| ==> editTask.value.duedate[|r|] == 'T'
    {
      ShownDate(editTask.value)
    }

    /** `handleUpdateSubmit`: on success the draft replaces the task with its
        id and the form closes with the draft cleared; on failure nothing
        changes, so the form stays open with the draft intact. */
    method HandleUpdateSubmit(outcome: Outcome)
      requires Valid() && isEditing
      modifies this
      ensures Valid()
      ensures Snap() == if outcome.Succeeded?
        then old(Snap()).(tasks := Update(old(tasks), old(editTask.value)), isEditing := false, editTask := None)
        else old(Snap())
      ensures UniqueIds(old(tasks)) ==> UniqueIds(tasks)
    {
      if outcome.Succeeded? {
        if UniqueIds(tasks) {
          UpdatePreservesUniqueIds(tasks, editTask.value);
        }
        tasks := Update(tasks, editTask.value);
        isEditing := false;
        editTask := None;
      }
    }

    /** The Cancel button: close the form; the draft is kept. */
    method CancelEdit()
      requires Valid()
      modifies this
      ensures Valid()
      ensures Snap() == old(Snap()).(isEditing := false)
    {
      isEditing := false;
    }

    /** `handleComplete`. */
    method HandleComplete(task: Task, outcome: Outcome)
      requires Valid()
      modifies this
      ensures Valid()
      ensures Snap() == if outcome.Succeeded? then old(Snap()).(tasks := Complete(old(tasks), task)) else old(Snap())
      ensures UniqueIds(old(tasks)) ==> UniqueIds(tasks)
    {
      if outcome.Succeeded? {
        if UniqueIds(tasks) {
          UpdatePreservesUniqueIds(tasks, MarkCompleted(task));
        }
        tasks := Complete(tasks, task);
      }
    }

    /** `setSearchQuery`, the `onSearch` callback handed to the navigation bar. */
    method SetSearchQuery(query: string)
      requires Valid()
      modifies this
      ensures Valid()
      ensures Snap() == old(Snap()).(searchQuery := query)
    {
      searchQuery := query;
    }

    /** `tasksDueToday`: the tasks due on the selected day. */
    function DueToday(cal: Calendar): (r: seq<Task>)
      reads this
      ensures forall t :: t in r <==> t in tasks && cal.dayOf(t.duedate) == selectedDay
      ensures IsSubsequence(r, tasks)
    {
      DueOnKeepsOrder(tasks, selectedDay, cal.dayOf);
      DueOn(tasks, selectedDay, cal.dayOf)
    }

    /** The list handed to `TaskList` under "All Tasks". */
    function AllTasks(): (r: seq<Task>)
      reads this
      ensures forall t :: t in r <==> t in tasks && Contains(Lower(t.title), Lower(searchQuery))
      ensures forall t :: multiset(r)[t] == if Contains(Lower(t.title), Lower(searchQuery)) then multiset(tasks)[t] else 0
      ensures IsSubsequence(r, tasks)
    {
      MatchingKeepsOrder(tasks, searchQuery);
      Matching(tasks, searchQuery)
    }
  }

  // ---------------------------------------------------------------------
  // Worked scenarios

  /** Completing the only task changes its status and nothing else. */
  lemma CompleteScenario()
    ensures Complete([Task("1", "Buy milk", "2024-05-01", "Pending")], Task("1", "Buy milk", "2024-05-01", "Pending"))
         == [Task("1", "Buy milk", "2024-05-01", "Completed")]
  {
  }

  /** Deleting the second of two tasks leaves the first in place. */
  lemma DeleteScenario(a: Task, b: Task)
    requires a.id == "1" && b.id == "2"
    ensures Delete([a, b], "2") == [a]
  {
    assert UniqueIds([a, b]);
    DeleteAt([a, b], 1);
    assert [a, b][..1] == [a];
  }

  /** The date shown for an ISO date-time is its date part. */
  lemma ShownDateScenario(t: Task)
    requires t.duedate == "2024-05-01T10:30:00.000Z"
    ensures ShownDate(t) == "2024-05-01"
  {
    FirstFieldUnique(t.duedate, 'T', "2024-05-01");
  }

  /** The query "mil" picks "Buy milk" and not "Call Bob". */
  lemma SearchScenario(a: Task, b: Task)
    requires a.title == "Buy milk" && b.title == "Call Bob"
    ensures Matching([a, b], "mil") == [a]
  {
    var q := Lower("mil");
    assert q == "mil";
    assert Lower(a.title) == "buy milk";
    assert Lower(b.title) == "call bob";
    assert OccursAt("buy milk", q, 4);
    ContainsComplete("buy milk", q, 4);
    assert 'm' !in "call bob";
    MissingFirstChar("call bob", q);
    assert Matching([a, b], "mil") == [a] + Filter([b], TitleContains(q));
  }
}
