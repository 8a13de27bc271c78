/** The to-do client's single entity, and the abstractions of what lies
    outside it: the outcome of a remote call and the platform calendar. */
module Tasks {

  /** Task identifiers are assigned by the remote service and compared with `===`. */
  type Id = string

  /** A task as the remote service returns it. `duedate` is the ISO date (or
      date-time) string; `status` is "Pending", "In Progress" or "Completed"
      but any string may be stored. */
  datatype Task = Task(id: Id, title: string, duedate: string, status: string)

  /** The status the complete action sets and the list views test for. */
  const CompletedStatus: string := "Completed"

  /** A JavaScript value that may be `null`. */
  datatype Option<T> = None | Some(value: T)

  /** How a remote call ended: the `.then` chain ran to the end, or something
      on the way threw and the `.catch` branch ran. A throw is a transport
      error or an undecodable body; only the create call also throws on a
      non-ok status. A DELETE or PUT answered with an error status whose body
      is JSON therefore ends as `Succeeded`. */
  datatype Outcome = Succeeded | Failed

  /** The platform's date handling, abstracted. `dayOf(s)` is the local
      calendar day (a day number) of `new Date(s)`; `localeDate(d)` is the
      text `toLocaleDateString()` gives for day `d`. Consecutive calendar
      days have consecutive numbers. */
  datatype Calendar = Calendar(dayOf: string -> int, localeDate: int -> string)

  /** No two tasks of the collection share an id. */
  predicate UniqueIds(ts: seq<Task>)
  {
    forall i, j :: 0 <= i < j < |ts| ==> ts[i].id != ts[j].id
  }

  /** A collection has unique ids exactly when its tail has and no task of
      the tail shares the head's id. */
  lemma UniqueIdsCons(ts: seq<Task>)
    requires ts != []
    ensures UniqueIds(ts) <==> UniqueIds(ts[1..]) && forall x :: x in ts[1..] ==> x.id != ts[0].id
  {
  }
}
