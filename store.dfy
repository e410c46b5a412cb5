/**
 * The task collection and the five controller operations over it. The
 * document database is a map from identifier to task; identifiers come
 * from a counter the store owns, so they are never reused.
 */
module Store {
  import opened Wrappers
  import opened Tasks
  import opened Validation
  import opened Listing

  /** What a single-task request answers: its HTTP status code, and the message or record it carries. */
  datatype Outcome =
    | Created(task: Task)
    | Found(task: Task)
    | Updated(task: Task)
    | Deleted
    | BadRequest(message: string)
    | NotFound
  {
    /** The HTTP status code of the answer. */
    function Code(): int {
      match this
      case Created(_) => 201
      case Found(_) => 200
      case Updated(_) => 200
      case Deleted => 200
      case BadRequest(_) => 400
      case NotFound => 404
    }

    /** The `success` flag of the response envelope. */
    predicate Succeeded() {
      Code() < 400
    }

    /** The `message` of the response envelope; a found task is answered without one. */
    function Message(): Option<string> {
      match this
      case Created(_) => Some("Task created successfully")
      case Found(_) => None
      case Updated(_) => Some("Task updated successfully")
      case Deleted => Some("Task deleted successfully")
      case BadRequest(m) => Some(m)
      case NotFound => Some("Task not found")
    }
  }

  /** The fields of an update request; `None` is a field that is not supplied. */
  datatype UpdateBody = UpdateBody(title: Option<string>, description: Option<string>, status: Option<Status>)

  /** A task after the supplied fields of an update have replaced its own. */
  function Patch(t: Task, b: UpdateBody): Task {
    Task(
      t.id,
      if b.title.Some? then b.title.value else t.title,
      if b.description.Some? then b.description else t.description,
      if b.status.Some? then b.status.value else t.status,
      t.createdAt)
  }

  /**
   * An update never touches the identifier or the creation time, fields it
   * does not supply keep their values, and sending the same update again
   * changes nothing more.
   */
  lemma PatchProperties(t: Task, b: UpdateBody)
    ensures Patch(t, b).id == t.id && Patch(t, b).createdAt == t.createdAt
    ensures b.title.None? ==> Patch(t, b).title == t.title
    ensures b.description.None? ==> Patch(t, b).description == t.description
    ensures b.status.None? ==> Patch(t, b).status == t.status
    ensures Patch(Patch(t, b), b) == Patch(t, b)
  {
  }

  /** Each task is stored under its own identifier. */
  ghost predicate KeyedById(m: map<Id, Task>) {
    forall k :: k in m ==> m[k].id == k
  }

  /** The stored tasks with identifiers below `n`, in identifier order. */
  function Collect(m: map<Id, Task>, n: nat): seq<Task> {
    if n == 0 then [] else Collect(m, n - 1) + (if n - 1 in m then [m[n - 1]] else [])
  }

  /** Collecting the identifiers below `n` yields exactly the stored tasks with such identifiers. */
  lemma {:induction false} CollectMembers(m: map<Id, Task>, n: nat)
    requires KeyedById(m)
    ensures forall t :: t in Collect(m, n) <==> t.id < n && t.id in m && m[t.id] == t
  {
    if n > 0 {
      CollectMembers(m, n - 1);
    }
  }

  /** The identifiers below `n` of stored tasks that match a filter. */
  function MatchingBelow(m: map<Id, Task>, n: nat, filter: Option<string>): set<Id> {
    set k | k in m && k < n && Matches(filter, m[k])
  }

  lemma MatchingBelowStep(m: map<Id, Task>, n: nat, filter: Option<string>)
    requires n > 0
    ensures |MatchingBelow(m, n, filter)| ==
            |MatchingBelow(m, n - 1, filter)| + (if n - 1 in m && Matches(filter, m[n - 1]) then 1 else 0)
  {
    var before := MatchingBelow(m, n - 1, filter);
    if n - 1 in m && Matches(filter, m[n - 1]) {
      assert MatchingBelow(m, n, filter) == before + {n - 1};
      assert n - 1 !in before;
    } else {
      assert MatchingBelow(m, n, filter) == before;
    }
  }

  lemma SelectCollectStep(m: map<Id, Task>, n: nat, filter: Option<string>)
    requires n > 0
    ensures |Select(Collect(m, n), filter)| ==
            |Select(Collect(m, n - 1), filter)| + (if n - 1 in m && Matches(filter, m[n - 1]) then 1 else 0)
  {
    var before := Collect(m, n - 1);
    if n - 1 in m {
      assert Collect(m, n) == before + [m[n - 1]];
      assert Collect(m, n)[..|Collect(m, n)| - 1] == before;
    } else {
      assert Collect(m, n) == before + [] == before;
    }
  }

  /** Counting the collected tasks that match a filter counts the matching identifiers below `n`. */
  lemma {:induction false} CountCollected(m: map<Id, Task>, n: nat, filter: Option<string>)
    ensures |Select(Collect(m, n), filter)| == |MatchingBelow(m, n, filter)|
  {
    if n > 0 {
      CountCollected(m, n - 1, filter);
      SelectCollectStep(m, n, filter);
      MatchingBelowStep(m, n, filter);
    }
  }

  class TaskStore {
    /** The collection, by identifier. */
    var tasks: map<Id, Task>
    /** The identifier the next created task receives. */
    var nextId: Id

    ghost predicate Valid()
      reads this
    {
      KeyedById(tasks) && forall k :: k in tasks ==> k < nextId
    }

    constructor ()
      ensures Valid() && tasks == map[]
    {
      tasks := map[];
      nextId := 0;
    }

    /** The whole collection as the datastore hands it to a query, in identifier order. */
    function Snapshot(): seq<Task>
      reads this
    {
      Collect(tasks, nextId)
    }

    /**
     * `getAllTasks`: the requested page of matching tasks, newest first; the
     * total counts only matching tasks, the three status counts the whole
     * collection whatever the filter.
     */
    method GetAllTasks(q: ListQuery) returns (r: ListResponse)
      requires Valid() && WellFormedQuery(q)
      ensures r == List(Snapshot(), q)
      ensures r.totalTasks == |set k | k in tasks && Matches(FilterOf(q), tasks[k])|
      ensures r.taskCompleted == |set k | k in tasks && tasks[k].status == Done|
      ensures r.taskPending == |set k | k in tasks && tasks[k].status == Pending|
      ensures r.taskInProgress == |set k | k in tasks && tasks[k].status == InProgress|
      ensures forall t :: t in r.data ==> t.id in tasks && tasks[t.id] == t && Matches(FilterOf(q), t)
    {
      r := List(Snapshot(), q);
      SnapshotHoldsStored();
      CountMatching(FilterOf(q));
      CountStatus(Done);
      CountStatus(Pending);
      CountStatus(InProgress);
    }

    /** The snapshot holds exactly the stored tasks. */
    lemma SnapshotHoldsStored()
      requires Valid()
      ensures forall t :: t in Snapshot() <==> t.id in tasks && tasks[t.id] == t
    {
      CollectMembers(tasks, nextId);
    }

    /** Counting the matching tasks of the snapshot counts the matching stored tasks. */
    lemma CountMatching(filter: Option<string>)
      requires Valid()
      ensures |Select(Snapshot(), filter)| == |set k | k in tasks && Matches(filter, tasks[k])|
    {
      CountCollected(tasks, nextId, filter);
      assert MatchingBelow(tasks, nextId, filter) == (set k | k in tasks && Matches(filter, tasks[k]));
    }

    lemma CountStatus(st: Status)
      requires Valid()
      ensures |Select(Snapshot(), StatusFilter(st))| == |set k | k in tasks && tasks[k].status == st|
    {
      CountMatching(StatusFilter(st));
      assert (set k | k in tasks && Matches(StatusFilter(st), tasks[k])) == (set k | k in tasks && tasks[k].status == st);
    }

    /** `getTaskById`: the stored task, or not found. */
    method GetTaskById(id: Id) returns (o: Outcome)
      ensures id in tasks ==> o == Found(tasks[id])
      ensures id !in tasks ==> o == NotFound
    {
      if id in tasks {
        o := Found(tasks[id]);
      } else {
        o := NotFound;
      }
    }

    /**
     * `createTask`: a refused body changes nothing and answers 400 with the
     * first broken rule's message; an accepted one stores exactly one new
     * task, under a fresh identifier, and answers 201 with it.
     */
    method CreateTask(body: CreateBody, now: int) returns (o: Outcome)
      requires Valid()
      modifies this
      ensures Valid()
      ensures ValidateCreate(body).Failure? ==>
                o == BadRequest(ValidateCreate(body).error) && tasks == old(tasks) && nextId == old(nextId)
      ensures ValidateCreate(body).Success? ==>
                && old(nextId) !in old(tasks)
                && o == Created(Stamp(ValidateCreate(body).value, old(nextId), now))
                && tasks == old(tasks)[old(nextId) := o.task]
                && nextId == old(nextId) + 1
      ensures |tasks| == |old(tasks)| + (if o.Created? then 1 else 0)
    {
      match ValidateCreate(body)
      case Failure(message) =>
        o := BadRequest(message);
      case Success(draft) =>
        var t := Stamp(draft, nextId, now);
        tasks := tasks[nextId := t];
        nextId := nextId + 1;
        o := Created(t);
    }

    /**
     * `updateTask`: an absent identifier answers 404 and changes nothing;
     * otherwise the supplied fields replace the task's own and nothing else
     * in the collection changes.
     */
    method UpdateTask(id: Id, body: UpdateBody) returns (o: Outcome)
      requires Valid()
      modifies this
      ensures Valid() && nextId == old(nextId)
      ensures id !in old(tasks) ==> o == NotFound && tasks == old(tasks)
      ensures id in old(tasks) ==> o == Updated(Patch(old(tasks)[id], body)) && tasks == old(tasks)[id := o.task]
    {
      if id !in tasks {
        o := NotFound;
        return;
      }
      var t := Patch(tasks[id], body);
      tasks := tasks[id := t];
      o := Updated(t);
    }

    /**
     * `deleteTask`: an absent identifier answers 404 and changes nothing;
     * otherwise exactly that task is removed and the others stay as they were.
     */
    method DeleteTask(id: Id) returns (o: Outcome)
      requires Valid()
      modifies this
      ensures Valid() && nextId == old(nextId)
      ensures id !in old(tasks) ==> o == NotFound && tasks == old(tasks)
      ensures id in old(tasks) ==> o == Deleted && tasks == old(tasks) - {id}
    {
      if id !in tasks {
        o := NotFound;
        return;
      }
      tasks := tasks - {id};
      o := Deleted;
    }
  }
}
