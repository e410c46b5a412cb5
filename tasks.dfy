/** The Task record and its status values. */
module Tasks {
  import opened Wrappers

  /** The three statuses a task can be in. */
  datatype Status = Pending | InProgress | Done

  /** The wire name of a status, as stored and as accepted in requests. */
  function StatusName(st: Status): string {
    match st
    case Pending => "pending"
    case InProgress => "in-progress"
    case Done => "done"
  }

  /** The status whose wire name is `s`, if any: the membership test in the allowed list. */
  function ParseStatus(s: string): (r: Option<Status>)
    ensures forall st :: r == Some(st) <==> StatusName(st) == s
  {
    if s == "pending" then Some(Pending)
    else if s == "in-progress" then Some(InProgress)
    else if s == "done" then Some(Done)
    else None
  }

  /** The fields a successful create hands to the datastore. */
  datatype Draft = Draft(title: string, description: Option<string>, status: Status)

  /** Identifiers are assigned by the datastore. */
  type Id = nat

  /** A stored task: its identifier and creation time come from the datastore. */
  datatype Task = Task(id: Id, title: string, description: Option<string>, status: Status, createdAt: int)

  /** The stored form of a draft, under the identifier and timestamp the datastore assigns. */
  function Stamp(d: Draft, id: Id, now: int): Task {
    Task(id, d.title, d.description, d.status, now)
  }
}
