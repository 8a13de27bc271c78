/** The `TaskList` component: one row per task, each with its completed
    flag, a relative due-date label and three actions. */
module TaskList {
  import opened Tasks

  /** `formatDueDate`: "Today" for the current calendar day, "Tomorrow" for
      the next one, otherwise the locale rendering of the due day. `now` is
      the calendar day of `new Date()`. */
  function FormatDueDate(dueDate: string, now: int, cal: Calendar): (shown: string)
    ensures cal.dayOf(dueDate) == now ==> shown == "Today"
    ensures cal.dayOf(dueDate) == now + 1 ==> shown == "Tomorrow"
    ensures cal.dayOf(dueDate) != now && cal.dayOf(dueDate) != now + 1 ==> shown == cal.localeDate(cal.dayOf(dueDate))
  {
    var day := cal.dayOf(dueDate);
    if day == now then "Today"
    else if day == now + 1 then "Tomorrow"
    else cal.localeDate(day)
  }

  /** Only the calendar day of the due date decides the label: two due dates
      on the same day, whatever their time of day, get the same label. */
  lemma SameDaySameLabel(a: string, b: string, now: int, cal: Calendar)
    requires cal.dayOf(a) == cal.dayOf(b)
    ensures FormatDueDate(a, now, cal) == FormatDueDate(b, now, cal)
  {
  }

  /** A day other than today and tomorrow is never labelled "Today" or
      "Tomorrow", provided the locale rendering of that day is a date. */
  lemma OtherDayIsPlainDate(dueDate: string, now: int, cal: Calendar)
    requires cal.dayOf(dueDate) != now && cal.dayOf(dueDate) != now + 1
    requires cal.localeDate(cal.dayOf(dueDate)) != "Today" && cal.localeDate(cal.dayOf(dueDate)) != "Tomorrow"
    ensures FormatDueDate(dueDate, now, cal) != "Today" && FormatDueDate(dueDate, now, cal) != "Tomorrow"
  {
  }

  /** What one rendered row carries: its React key, the task it shows, the
      state of its radio button and the due-date label. */
  datatype Row = Row(key: Id, task: Task, completed: bool, dueLabel: string)

  /** The row for one task: keyed by its id, showing the task itself, its
      radio button checked exactly when the task is completed. */
  function RowOf(t: Task, now: int, cal: Calendar): (row: Row)
    ensures row.key == t.id && row.task == t
    ensures row.completed <==> t.status == CompletedStatus
    ensures row.dueLabel == FormatDueDate(t.duedate, now, cal)
  {
    Row(t.id, t, t.status == CompletedStatus, FormatDueDate(t.duedate, now, cal))
  }

  /** `tasks.map(...)`: one row per task, in input order. */
  function Rows(ts: seq<Task>, now: int, cal: Calendar): (rows: seq<Row>)
    ensures |rows| == |ts|
    ensures forall i :: 0 <= i < |ts| ==>
      && rows[i].task == ts[i]
      && rows[i].key == ts[i].id
      && (rows[i].completed <==> ts[i].status == CompletedStatus)
      && rows[i].dueLabel == FormatDueDate(ts[i].duedate, now, cal)
  {
    if ts == [] then [] else [RowOf(ts[0], now, cal)] + Rows(ts[1..], now, cal)
  }

  /** The controls of a row. */
  datatype Control = RadioButton | EditButton | DeleteButton

  /** The callback a control invokes, with its argument. */
  datatype Callback = OnComplete(task: Task) | OnEdit(task: Task) | OnDelete(id: Id)

  /** The callback a control of `row` invokes: complete and edit receive the
      row's task, delete receives that task's id. */
  function Dispatch(row: Row, control: Control): (cb: Callback)
    ensures control == RadioButton <==> cb.OnComplete?
    ensures control == EditButton <==> cb.OnEdit?
    ensures !cb.OnDelete? ==> cb.task == row.task
    ensures cb.OnDelete? ==> cb.id == row.task.id
  {
    match control
    case RadioButton => OnComplete(row.task)
    case EditButton => OnEdit(row.task)
    case DeleteButton => OnDelete(row.task.id)
  }

  /** The controls of the i-th row act on the i-th task: complete and edit
      receive the task itself, delete receives its id. */
  lemma RowActionsTargetOwnTask(ts: seq<Task>, now: int, cal: Calendar, i: nat)
    requires i < |ts|
    ensures Dispatch(Rows(ts, now, cal)[i], RadioButton) == OnComplete(ts[i])
    ensures Dispatch(Rows(ts, now, cal)[i], EditButton) == OnEdit(ts[i])
    ensures Dispatch(Rows(ts, now, cal)[i], DeleteButton) == OnDelete(ts[i].id)
  {
  }
}
