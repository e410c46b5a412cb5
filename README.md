# Task manager controller, modelled in Dafny

A model of the task controller of a small CRUD service for "task" records
(title, optional description, status `pending` / `in-progress` / `done`).
The controller has five operations: list, get by id, create, update and
delete. The model covers the three pieces of it that carry logic:

- **the create check** (`Validation`): four rules tried in a fixed order,
  where the first one the body breaks decides the 400 message. A body that
  passes is normalised into the record that is saved: the title is trimmed,
  a non-empty description is trimmed and an empty one dropped, and the
  status defaults to `pending`. JavaScript's `trim` and `length` are
  modelled as that language defines them (`Text`). `trim` strips
  ECMAScript white space and line terminators. `length` counts UTF-16 code
  units.
- **the list operation** (`Listing`): an optional status filter, newest
  first by creation time, `skip = (page - 1) * limit`, `limit` tasks per
  page, `totalPages = ceil(totalTasks / limit)`. `totalTasks` counts only
  the matching tasks. The three status counts are taken over the whole
  collection.
- **the store** (`Store.TaskStore`): a class holding the collection as a
  `map` from identifier to task. Get, update and delete look the
  identifier up first and answer 404 "Task not found" when it is absent.
  Create, update and delete change the map in place and say exactly what
  changed.

The document database is the map. Identifiers come from a counter the
store owns (`nextId`), so an identifier is never reused. The creation
timestamp is a parameter of `CreateTask`. `Scenarios` holds client methods
that use only the operations' contracts, such as create, list, update,
delete and then get on the same task.

Two consequences of the code that a reader may not expect, both kept in
the model:

- The 100-character title limit and the 500-character description limit
  are checked on the untrimmed text. A title of "a" followed by 100 spaces
  is refused, although it trims to one character (`TitleMeasuredBeforeTrim`).
- A description made only of whitespace is truthy. So it passes the check
  and is stored as the empty string, not dropped (`CreateNormalises`).

## Model

| member | source | states |
|---|---|---|
| `Text.Trim` | controllers/taskController.js:111-112 | the result has no whitespace at either end; it is empty exactly when the input is all whitespace; it is never longer than the input, in characters or UTF-16 code units |
| `Text.TrimSkipsFront` | controllers/taskController.js:82 | whitespace before the text does not change what `trim` returns |
| `Text.TrimSkipsBack` | controllers/taskController.js:82 | whitespace after text that does not start with whitespace does not change what `trim` returns |
| `Text.TrimOfTrimmed` | controllers/taskController.js:111 | text without whitespace at its ends is left unchanged by `trim` |
| `Text.TrimOfTail` | controllers/taskController.js:111 | trailing whitespace after text without whitespace at its ends is removed, and nothing else |
| `Text.TrimOfPadded` | controllers/taskController.js:111-112 | trimming any whitespace-padded text that has no whitespace at its ends yields exactly that text (characterises `trim`) |
| `Text.TrimIdempotent` | controllers/taskController.js:111 | a trimmed title is left unchanged by another trim |
| `Text.Utf16Length` | controllers/taskController.js:89 | `length` of a string lies between its character count and twice that |
| `Text.Utf16LengthOfBmp` | controllers/taskController.js:89 | for text inside the Basic Multilingual Plane, `length` is the character count |
| `Tasks.ParseStatus` | controllers/taskController.js:103 | a string is accepted as status `st` exactly when it is `st`'s name, so only `pending`, `in-progress` and `done` are accepted |
| `Validation.CreateError` | controllers/taskController.js:82-108 | the chain of early returns itself: the message of the first check the body fails, or none (no contract of its own; `ValidateIsFirstBroken`, `BlankTitleRefused`, `LongTitleRefused`, `TitleLimit`, `DescriptionLimit` and `StatusRule` state its behaviour) |
| `Validation.Normalise` | controllers/taskController.js:110-114 | the record built from a body that passes every rule has a non-empty trimmed title of at most 100 code units equal to the trimmed input title, and any description is trimmed and at most 500 code units |
| `Validation.ValidateCreate` | controllers/taskController.js:82-114 | a body is refused exactly when one of the create rules breaks; an accepted body yields a well-formed record |
| `Validation.FirstBroken` | controllers/taskController.js:82-108 | the reference reading of an ordered rule list: no message when no rule is broken, otherwise the message of a broken rule with no broken rule before it |
| `Validation.ValidateIsFirstBroken` | controllers/taskController.js:82-108 | the chain of early returns refuses a body exactly when some rule of the table is broken, with the first broken rule's message |
| `Validation.BlankTitleRefused` | controllers/taskController.js:82-87 | a missing, empty or whitespace-only title is refused with "Title is required and cannot be empty", whatever the other fields |
| `Validation.LongTitleRefused` | controllers/taskController.js:89-94 | a non-blank title over 100 code units is refused with "Title cannot exceed 100 characters", whatever the description and status |
| `Validation.TitleMeasuredBeforeTrim` | controllers/taskController.js:89-94 | "a" followed by 100 or more spaces trims to "a", yet is refused as too long |
| `Validation.TitleLimit` | controllers/taskController.js:89-94 | a title of n letters passes exactly when n is at most 100 (100 passes, 101 is refused) |
| `Validation.DescriptionLimit` | controllers/taskController.js:96-101 | with a valid title, a description of n letters passes exactly when n is at most 500; an omitted one passes |
| `Validation.StatusRule` | controllers/taskController.js:103-108 | once title and description pass, the status message is given exactly when the status is present, non-empty and not one of the three names |
| `Validation.CreateNormalises` | controllers/taskController.js:110-114 | an accepted body is stored with the status given, or `pending` if it is missing or empty; a description is kept, trimmed, exactly when a non-empty one is given |
| `Validation.TitleOnlyAccepted` | controllers/taskController.js:110-114 | a body with only a trimmed title of at most 100 code units is stored with that title, no description and status `pending` |
| `Listing.PageOf` | controllers/taskController.js:6 | the page is positive: the given one, else 1 |
| `Listing.LimitOf` | controllers/taskController.js:6 | the limit is positive: the given one, else 10 |
| `Listing.FilterOf` | controllers/taskController.js:9-12 | the status filter applies only when the parameter is present and non-empty (no contract of its own; `SelectAll` and `List` use it) |
| `Listing.Select` | controllers/taskController.js:9-12 | filtering never adds tasks: the result is no longer than the collection |
| `Listing.SelectMembers` | controllers/taskController.js:9-12 | the filtered tasks are exactly the tasks whose status name equals the filter, or all tasks when there is no filter |
| `Listing.SelectAll` | controllers/taskController.js:10-12 | without a status parameter nothing is filtered out |
| `Listing.StatusCountsPartition` | controllers/taskController.js:21-23 | the `done`, `pending` and `in-progress` counts add up to the size of the collection |
| `Listing.Insert` | controllers/taskController.js:27 | inserting into a newest-first sequence keeps it newest-first and adds exactly that one task |
| `Listing.SortNewest` | controllers/taskController.js:27 | the result is newest-first by `createdAt` and a permutation of the input |
| `Listing.CeilDiv` | controllers/taskController.js:39 | `CeilDiv(n, d)` is the least r with r * d >= n, which is `Math.ceil(n / d)` |
| `Listing.Skip` | controllers/taskController.js:15 | the number of matching tasks before page `page`, `(page - 1) * limit` (no contract of its own) |
| `Listing.PageLength` | controllers/taskController.js:28-29 | how many of n ordered tasks a page holds: none when the skip reaches past them, otherwise `limit` or what is left, whichever is smaller (no contract of its own) |
| `Listing.Paginate` | controllers/taskController.js:15-29 | a page holds at most `limit` tasks, exactly `PageLength` of them, and its i-th task is the task at position `(page - 1) * limit + i` of the ordered result |
| `Listing.PageOfOrdered` | controllers/taskController.js:26-29 | a page of a newest-first result is newest-first and holds only tasks of that result |
| `Listing.OrderedMatches` | controllers/taskController.js:26-27 | every task of the sorted, filtered result is a stored task that matches the filter |
| `Listing.List` | controllers/taskController.js:4-41 | `totalTasks` is the number of matching tasks, and equals the collection size without a filter. The page holds exactly the matching tasks, newest first, from position `(page - 1) * limit` on, at most `limit` of them, and `count` is its length. `currentPage` is the page and `totalPages` is ceil(totalTasks / limit). The three status counts add up to the collection size |
| `Listing.PageSize` | controllers/taskController.js:15-39 | every page before `totalPages` is full, page `totalPages` holds the remainder, and later pages are empty |
| `Listing.PagesCoverAll` | controllers/taskController.js:15-39 | pages 1 to `totalPages` read one after another give the whole ordered result, each task once |
| `Listing.FifteenTasksTwoPages` | controllers/taskController.js:26-39 | fifteen matching tasks at ten a page: `totalPages` is 2, page 1 holds 10 and page 2 holds 5 |
| `Store.Outcome.Code` | controllers/taskController.js:52-183 | the HTTP status of each answer: 201 created, 200 found/updated/deleted, 400 refused, 404 not found (no contract of its own) |
| `Store.Outcome.Succeeded` | controllers/taskController.js:52-183 | the `success` flag: true exactly for the 2xx answers (no contract of its own; `DeleteThenGet` uses it) |
| `Store.Outcome.Message` | controllers/taskController.js:52-183 | the `message` of each answer: "Task created successfully", "Task updated successfully", "Task deleted successfully", "Task not found" or the refusal's own message (no contract of its own; `DeleteThenGet` uses it) |
| `Store.Patch` | controllers/taskController.js:146-150 | the task after an update: the supplied fields replace the task's own (no contract of its own; `PatchProperties` states its properties) |
| `Store.PatchProperties` | controllers/taskController.js:146-150 | an update keeps the id and creation time; fields it does not supply keep their values; repeating it changes nothing more |
| `Store.Collect` | controllers/taskController.js:26 | the stored tasks as the datastore hands them to a query, in identifier order (no contract of its own; `CollectMembers` states its contents) |
| `Store.CollectMembers` | controllers/taskController.js:26 | reading the collection yields exactly the stored tasks |
| `Store.CountCollected` | controllers/taskController.js:18-23 | counting the matching tasks read from the collection counts the matching stored identifiers |
| `Store.TaskStore.Snapshot` | controllers/taskController.js:26 | the store's whole collection as `find` reads it (no contract of its own; `SnapshotHoldsStored` states its contents) |
| `Store.TaskStore.SnapshotHoldsStored` | controllers/taskController.js:26 | the store's snapshot holds exactly its stored tasks |
| `Store.TaskStore.CountMatching` | controllers/taskController.js:18 | the filtered count over the snapshot is the number of stored tasks matching the filter |
| `Store.TaskStore.CountStatus` | controllers/taskController.js:21-23 | a status count over the snapshot is the number of stored tasks with that status |
| `Store.TaskStore.GetAllTasks` | controllers/taskController.js:4-41 | the response is the list of the collection. `totalTasks` counts stored tasks matching the filter. The three status counts count stored tasks by status, whatever the filter. Every returned task is stored under its id and matches the filter |
| `Store.TaskStore.GetTaskById` | controllers/taskController.js:52-66 | a stored id answers 200 with its task; an absent id answers 404 |
| `Store.TaskStore.CreateTask` | controllers/taskController.js:77-122 | a refused body answers 400 with the first broken rule's message and changes nothing. An accepted one answers 201 with the normalised task under a fresh id, and adds exactly that task |
| `Store.TaskStore.UpdateTask` | controllers/taskController.js:133-156 | an absent id answers 404 and changes nothing; otherwise the supplied fields replace the task's own, only that entry changes, and the answer is 200 with the updated task |
| `Store.TaskStore.DeleteTask` | controllers/taskController.js:167-183 | an absent id answers 404 and changes nothing; otherwise exactly that id is removed, every other task stays as it was, and the answer is 200 |
| `Scenarios.DeleteThenGet` | controllers/taskController.js:167-183 | after a delete on any id, a get on that id answers 404 with `success` false and "Task not found" |
| `Scenarios.CreateFirst` | controllers/taskController.js:110-122 | on an empty store, a create with only a trimmed title of at most 100 code units answers 201 and leaves exactly that task, pending, with no description |
| `Scenarios.ListSingle` | controllers/taskController.js:18-41 | listing a store with one pending task gives `totalTasks` 1, `taskPending` 1, and a page holding exactly that task |
| `Scenarios.FinishAndDelete` | controllers/taskController.js:146-183 | setting a stored task's status to `done` answers 200 and changes only the status; deleting it answers 200; a later get answers 404 |
| `Scenarios.EndToEnd` | controllers/taskController.js:4-191 | for any trimmed title of at most 100 code units: create (201, pending), list (the page is exactly the created task), update to `done` (200), delete (200), get (404) |

## Left out

- server.js, routes/tasks.js and config/db.js are not part of this model. They hold the HTTP bootstrap, CORS and body parsing, route wiring and the database connection. None of them has logic of its own.
- The 500 "Server Error" path of every operation is not modelled. It fires on any exception thrown inside an operation. These are exceptions from the database library, such as a connection failure, a malformed ObjectId or a schema-validator rejection. They are also exceptions from the controller's own code on a request field that is not a string, as the next line describes.
- Request fields that are not strings are not modelled. A number or an array as `title` makes `.trim()` throw, which gives a 500. Each field is either absent (`None`, also standing for `null`) or a string.
- `parseInt` and `Math.ceil` edge cases are not modelled: a non-numeric `page` or `limit` (NaN), `limit=0`, a negative `page`. `WellFormedQuery` requires a given `page` and `limit` to be at least 1.
- A query parameter repeated in the URL, which Express turns into an array, is not modelled.
- Store.TaskStore.UpdateTask: models only the existence check and an abstract replacement of the supplied fields. It does not model the Mongoose schema validators that `runValidators` re-runs, nor how Mongoose treats fields that are `undefined`. The schema file is not part of this model. So an update's status is one of the three statuses, and an invalid status string, which the schema would turn into a 500, cannot be expressed.
- Timestamps are handled partly. `createdAt` is the `now` parameter of `CreateTask`, and `updatedAt` is not modelled.
- Identifiers are not modelled as ObjectIds. They are natural numbers from a counter the store owns. They are unique and never reused, as ObjectIds are in practice.
- Listing.SortNewest: MongoDB leaves the order of tasks with equal `createdAt` unspecified. The model fixes one order: the stable order of increasing identifier.
- Concurrency between requests, the `async`/`await` sequencing and the JSON serialisation of the response envelope are not modelled.
- Strings are sequences of Unicode scalar values. A JavaScript string holding an unpaired surrogate cannot be represented.
