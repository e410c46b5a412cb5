/**
 * Clients of the store that use only the operations' contracts: the
 * request sequences the controller is expected to answer in a fixed way.
 */
module Scenarios {
  import opened Wrappers
  import opened Text
  import opened Tasks
  import opened Validation
  import opened Listing
  import opened Store

  /** After a delete, whatever it answered, a get on the same identifier is not found. */
  method DeleteThenGet(s: TaskStore, id: Id) returns (deleted: Outcome, fetched: Outcome)
    requires s.Valid()
    modifies s
    ensures deleted.Code() == (if id in old(s.tasks) then 200 else 404)
    ensures fetched == NotFound && fetched.Code() == 404
    ensures !fetched.Succeeded() && fetched.Message() == Some("Task not found")
  {
    deleted := s.DeleteTask(id);
    fetched := s.GetTaskById(id);
  }

  /** On an empty store, a body with only a trimmed title is created as the store's one task, pending. */
  method CreateFirst(title: string, now: int) returns (s: TaskStore, created: Outcome)
    requires title != [] && Trimmed(title) && Utf16Length(title) <= MaxTitleLength
    ensures fresh(s) && s.Valid()
    ensures created.Created? && created.Code() == 201
    ensures created.task == Task(created.task.id, title, None, Pending, now)
    ensures s.tasks == map[created.task.id := created.task]
  {
    s := new TaskStore();
    TitleOnlyAccepted(title);
    created := s.CreateTask(CreateBody(Some(title), None, None), now);
  }

  /**
   * On an empty store, create a task with only a title such as "Buy milk"
   * (201, status "pending"), list (one task, and it is pending), set its
   * status to "done" (200), delete it (200), get it (404).
   */
  method EndToEnd(title: string, now: int) returns (created: Outcome, listed: ListResponse, updated: Outcome, deleted: Outcome, fetched: Outcome)
    requires title != [] && Trimmed(title) && Utf16Length(title) <= MaxTitleLength
    ensures created.Code() == 201 && created.task.title == title && created.task.status == Pending
    ensures listed.taskPending == 1 && listed.totalTasks == 1 && listed.count == 1
    ensures listed.data == [created.task]
    ensures updated.Updated? && updated.Code() == 200 && updated.task.status == Done && updated.task.title == title
    ensures deleted.Code() == 200
    ensures fetched.Code() == 404
  {
    var s;
    s, created := CreateFirst(title, now);
    var id := created.task.id;

    listed := ListSingle(s, id);

    updated, deleted, fetched := FinishAndDelete(s, id);
  }

  /** Listing a store that holds one pending task, with no query parameters: one task, and it is pending. */
  method ListSingle(s: TaskStore, id: Id) returns (listed: ListResponse)
    requires s.Valid() && s.tasks.Keys == {id} && s.tasks[id].status == Pending
    ensures listed.taskPending == 1 && listed.totalTasks == 1 && listed.count == 1
    ensures listed.data == [s.tasks[id]]
  {
    listed := s.GetAllTasks(ListQuery(None, None, None));
    assert (set k | k in s.tasks && s.tasks[k].status == Pending) == {id};
    assert (set k | k in s.tasks && Matches(None, s.tasks[k])) == {id};
    s.SnapshotHoldsStored();
    ghost var snapshot := s.Snapshot();
    assert s.tasks[id] in snapshot;
    SelectAll(snapshot);
    assert listed.data[0] in listed.data;
  }

  /** Set a stored task's status to "done" (200, only the status changes), delete it (200), get it (404). */
  method FinishAndDelete(s: TaskStore, id: Id) returns (updated: Outcome, deleted: Outcome, fetched: Outcome)
    requires s.Valid() && id in s.tasks
    modifies s
    ensures updated.Updated? && updated.Code() == 200
    ensures updated.task == old(s.tasks[id]).(status := Done)
    ensures deleted.Code() == 200
    ensures fetched.Code() == 404
    ensures id !in s.tasks
  {
    updated := s.UpdateTask(id, UpdateBody(None, None, Some(Done)));
    deleted := s.DeleteTask(id);
    fetched := s.GetTaskById(id);
  }
}
