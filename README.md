# To-do list task store, modelled in Dafny

The to-do app keeps its tasks in one ordered list, `this.tasks`, held by its
`TodoApp` object. A task is a record with an `id`, a `text`, a `completed` flag,
a `createdAt` time and a `completedAt` time. Tasks are added at the front of the
list. Each added or edited text passes a validator: it is trimmed, and it must be
non-empty, at most 200 UTF-16 code units long (the `length` JavaScript reports) and different (ignoring case) from every
existing text.

The other operations are:
- toggling a task's completion;
- deleting a task;
- clearing the completed tasks, or all tasks;
- showing the completed or the pending tasks;
- counting the tasks and computing the completion percentage.

The list is saved as a JSON array in one storage slot and loaded back from it.
Loading drops records of the wrong shape. The list can also be exported as a
JSON document, and a document can be imported and appended to the list.

The model is organised as follows:
- `Json`: the values a parsed JSON document holds, plus `undefined`.
- `Text`: `trim` and `toLowerCase`.
- `Seqs`: `Array.prototype.filter` and the subsequence relation.
- `Tasks`: the task record, `find` by id, the toggle update and the list invariants.
- `Validator`: `validateTask`.
- `Queries`: the filter views and the counters.
- `Store`: each list-changing operation as a function from the old list to the new
  one, with the lemmas relating them.
- `Persistence`: the storage slot, load, export and import.
- `App`: the `TodoApp` class. Its fields are the list, the filter, the id being
  edited and the storage slot. Each method that changes the list does so in
  place and is proved equal to the matching `Store`/`Persistence` function of the
  old list. `SetFilter` and `EditTask` state their effect on the filter and the
  edited id directly. `GetFilteredTasks` and `GetStatistics` only read the object.

## Model

| member | source | states |
|---|---|---|
| Text.Trim | script.js:119 | the result is the input with its leading and trailing whitespace cut; it is empty exactly when the input is all whitespace, and otherwise starts and ends with a non-space |
| Text.LeadingSpaces | script.js:119 | counts the whitespace prefix: all of it is space and the next character is not |
| Text.TrailingSpaces | script.js:119 | counts the whitespace suffix: all of it is space and the character before it is not |
| Text.TrimIdempotent | script.js:119 | trimming a trimmed text changes nothing |
| Json.Truthy | script.js:540-541 | undefined and null are falsy; arrays and objects are truthy; a string is truthy exactly when non-empty, a number exactly when non-zero, a boolean exactly when true |
| Text.Lower | script.js:131 | keeps the length, turns each upper-case ASCII letter into its own lower-case letter, leaves no upper-case ASCII letter, and changes nothing else |
| Text.Utf16Length | script.js:125 | the `length` of a string: a one-character string counts the character's units (two beyond U+FFFF, one otherwise); between |s| and 2·|s|, zero only for the empty string |
| Text.Utf16LengthAppend | script.js:125 | the `length` of a concatenation is the sum of the lengths, so with the one-character case it fixes the length of every string |
| Text.LowerKeepsUtf16Length | script.js:125-131 | lower-casing does not change the `length` |
| Text.AstralCountsTwice | script.js:125 | 101 characters beyond U+FFFF have a `length` of 202 |
| Seqs.Filter | script.js:184 | keeps each element the predicate accepts, as often as it occurs, and drops every other element |
| Seqs.FilterIsSubsequence | script.js:184 | the filtered list keeps the original relative order |
| Seqs.FilterKeepsAll | script.js:184 | filtering returns the list itself exactly when every element passes |
| Seqs.FilterDropsOne | script.js:184 | when exactly one position fails the predicate, filtering removes just that position |
| Seqs.FilterKeepsDistinct | script.js:184 | a filtered list keeps a key that was unique in the original unique |
| Seqs.SplitByFilter | script.js:242-244 | filtering by a predicate and by its negation splits the list: the multisets add up, the lengths add up and no element falls on both sides |
| Tasks.FindById | script.js:170 | returns the index of the first task with the id, or nothing exactly when no task has it |
| Tasks.FindByIdOnlyReadsIds | script.js:170 | two lists whose ids agree position by position give the same find result |
| Tasks.Toggled | script.js:172-173 | flips completed; completedAt is non-null exactly when the task is now completed (and is the given time then); id, text and createdAt are unchanged |
| Tasks.ToggleTwice | script.js:172-173 | two toggles restore the completed flag; a pending task whose completedAt is null comes back identical |
| Validator.Validate | script.js:118-138 | rejects as empty exactly when the input is all whitespace, as too long exactly when the trimmed text has more than 200 UTF-16 code units, and as a duplicate exactly when some task's lower-cased text equals the lower-cased trimmed text; otherwise accepts the trimmed text (non-empty, at most 200 code units, no space at either end) |
| Validator.IsDuplicate | script.js:130-132 | holds exactly when some task of the list has a text equal to the given one after lower-casing both; never for an empty list |
| Validator.ValidateIgnoresCase | script.js:130-132 | the verdict depends on the existing texts only up to case |
| Validator.MatchingTextIsRejected | script.js:130-135 | any task whose text matches the trimmed input up to case causes a rejection |
| Validator.AstralTextTooLong | script.js:125-127 | 101 characters beyond U+FFFF are rejected as too long, since their `length` is 202 |
| Queries.CompletedTasks | script.js:242 | exactly the completed tasks, each as often as in the list, in list order |
| Queries.PendingTasks | script.js:244 | exactly the pending tasks, each as often as in the list, in list order |
| Queries.CompletedAndPendingPartition | script.js:242-244 | the completed and pending lists partition the task list: multisets and lengths add up, and they share no task |
| Queries.FilteredTasks | script.js:239-247 | "completed" gives the completed tasks in order, "pending" the pending ones, and any other filter the whole list |
| Queries.CompletionRate | script.js:362 | 0 for no tasks; otherwise (200·completed + total) div (2·total); in 0..100 whenever completed ≤ total; 0 when nothing is completed and 100 when everything is |
| Queries.RoundedPercentInIntegers | script.js:362 | Math.round(100·completed/total), taken exactly, equals (200·completed + total) div (2·total) |
| Queries.PercentBounds | script.js:362 | the integer percentage lies in 0..100 for completed ≤ total, and is 0 and 100 at the two ends |
| Queries.Stats | script.js:559-577 | total is the list length; completed is the number of completed tasks; pending = total − completed = the number of pending tasks; 0 ≤ completed ≤ total; the rate is in 0..100, 0 for an empty list, and the integer formula otherwise |
| Queries.ClearButtonsMatchCounters | script.js:370-371 | "clear completed" is enabled exactly when the completed counter is positive, and "clear all" exactly when the total is |
| Store.Added | script.js:142-158 | a rejected input leaves the list unchanged; an accepted one puts a pending task at index 0 with the trimmed text, the new id, createdAt now and completedAt null, followed by the old list unchanged |
| Store.ToggledIn | script.js:169-177 | the first task with the id is replaced by its toggle at time `now` (flipped completion, completedAt `now` or null) and every other task is unchanged; ids and texts stay as they were; an absent id changes nothing |
| Store.EditedIn | script.js:205-215 | the input is validated against the whole list; on success only the text of the first task with the editing id changes, to the trimmed input; otherwise nothing changes |
| Store.Deleted | script.js:184 | keeps exactly the tasks whose id differs from the given one, in their order; an absent id changes nothing |
| Store.ClearCompleted | script.js:251-262 | refuses exactly when no task is completed, changing nothing; otherwise keeps exactly the pending tasks in order and reports the number removed, which is positive |
| Store.ClearAll | script.js:265-276 | refuses exactly on an empty list; otherwise empties it and reports the old length |
| Store.AddSameTextTwice | script.js:130-158 | adding a text that matches the last added one up to case and surrounding whitespace is rejected as a duplicate: the list grows by one, not two |
| Store.ToggleInTwice | script.js:169-177 | toggling an id twice restores every completed flag; a pending task with null completedAt comes back exactly |
| Store.EditToOwnTextRejected | script.js:205-215 | saving an edit whose text equals the edited task's own text up to case is rejected, and nothing changes |
| Store.ResaveUnchangedIsDuplicate | script.js:130-135 | re-saving a task's own valid text is rejected as a duplicate |
| Store.DeleteRemovesOne | script.js:184 | with unique ids, deleting a present id removes exactly that task |
| Store.AddKeepsWellFormed | script.js:150-158 | adding with an id no task has keeps the invariant: ids unique, texts distinct up to case, completedAt non-null exactly for completed tasks |
| Store.ToggleKeepsWellFormed | script.js:169-177 | toggling keeps the same invariant |
| Store.EditKeepsWellFormed | script.js:205-215 | editing keeps the same invariant |
| Store.RemovalKeepsWellFormed | script.js:184 | deleting, and clearing completed tasks, keep the same invariant |
| Persistence.ToTasks | script.js:532-536 | turns each checked record, in order, into the task holding its fields |
| Persistence.IsStoredRecord | script.js:492-497 | the load check: the import check plus a string id |
| Persistence.IsImportRecord | script.js:532-536 | the import check: exactly the objects whose "text" is a string and whose "completed" is a boolean (null and non-objects fail) |
| Persistence.FromRecord | script.js:532-544 | the task carries the record's text, completed flag, id, createdAt and completedAt; a record passing the load check gives a string id |
| Persistence.ToRecords | script.js:477 | the i-th record is the JSON form of the i-th task |
| Persistence.ToRecord | script.js:477 | an object with at most the five task properties: text and completed always, and id, createdAt and completedAt exactly when they are not undefined, each holding the task's value |
| Persistence.Export | script.js:507-508 | an array with one record per task, in list order |
| Persistence.RecordRoundTrip | script.js:477-497 | a written record reads back as the same task; it always passes the import check, and passes the load check exactly when its id is a string |
| Persistence.Loaded | script.js:492-497 | the i-th loaded task is the task of the i-th record that passes the load check: exactly those records are kept, in document order, and each has a string id |
| Persistence.Load | script.js:485-504 | an empty slot keeps the list; a slot that does not parse, or parses to a non-array, empties the list with a warning; an array keeps the records that pass the load check |
| Persistence.SaveThenLoad | script.js:475-497 | saving and then loading gives back exactly the tasks with a string id, in order |
| Persistence.ToRecordsThenLoaded | script.js:477-497 | loading the written records keeps exactly the tasks with a string id |
| Persistence.Filled | script.js:539-542 | the i-th task is the i-th input completed with newId(i) and stamps(i) where needed |
| Persistence.WithDefaults | script.js:540-541 | a falsy id becomes the generated id and a falsy createdAt the import time; truthy ones are kept, and text, completed and completedAt are unchanged |
| Persistence.ImportedTasks | script.js:530-544 | the i-th imported task is the i-th record with a string text and a boolean completed, with a falsy id replaced by a generated one and a falsy createdAt by the import time |
| Persistence.FilledKeepsComplete | script.js:539-542 | the fill changes nothing when every task already has a truthy id and createdAt |
| Persistence.ToTasksOfRecords | script.js:532-536 | the records written for a list all pass the import check and read back as that list |
| Persistence.ExportThenImport | script.js:507-544 | importing an exported list gives back the same tasks in the same order, when each has a truthy id and createdAt |
| Persistence.ImportAdmitsDuplicates | script.js:532-536 | import performs no duplicate check: "a" and "A" are both imported |
| Persistence.ImportAdmitsLongText | script.js:532-536 | import performs no length check: a 201-character text is imported, `length` 201 |
| App.TodoApp.constructor | script.js:3-13 | starts with the filter "all", no task being edited, and the list loaded from the slot |
| App.TodoApp.Save | script.js:475-482 | the slot receives the exported list |
| App.TodoApp.LoadTasksFromStorage | script.js:485-504 | the new list and the warning are those of Load |
| App.TodoApp.SetFilter | script.js:224-225 | sets the filter |
| App.TodoApp.GetFilteredTasks | script.js:239-247 | the shown tasks keep list order; with "completed" exactly the completed tasks, with "pending" exactly the pending ones, otherwise the whole list |
| App.TodoApp.GetStatistics | script.js:559-577 | total is the list length, completed the number of completed tasks, pending their difference (never negative); the rate is 0 for an empty list and (200·completed + total) div (2·total) otherwise, in 0..100 |
| App.TodoApp.AddTask | script.js:142-161 | the list becomes Added of the old list; the result is the validation; the list is saved only on acceptance |
| App.TodoApp.ToggleTask | script.js:169-177 | the list becomes ToggledIn of the old list; it is saved only when the id was found |
| App.TodoApp.DeleteTask | script.js:183-186 | the list becomes Deleted of the old list and is saved |
| App.TodoApp.EditTask | script.js:193-201 | for a present id, records the id as the one being edited and returns the task's text; otherwise changes nothing |
| App.TodoApp.SaveEditedTask | script.js:205-221 | the list becomes EditedIn of the old list for the id being edited; on success it is saved and the editor is closed; otherwise the slot and the editing id are unchanged |
| App.TodoApp.ClearCompletedTasks | script.js:251-262 | the list and the outcome are those of ClearCompleted; the list is saved only when something was cleared |
| App.TodoApp.ClearAllTasks | script.js:265-276 | the list and the outcome are those of ClearAll; the list is saved only when something was cleared |
| App.TodoApp.ImportTasks | script.js:526-553 | an array document appends ImportedTasks after the existing tasks, reports their number and saves; any other document changes nothing and reports failure |
| App.FillMissingFields | script.js:539-542 | the in-place loop leaves the array equal to Filled of its old contents |

## Left out

- All DOM work is left out, because it is presentation only. This covers:
  - element lookup and event wiring;
  - HTML rendering of the list and `escapeHtml`;
  - modals and button styling;
  - success/error messages and their timers;
  - the keyboard shortcuts.

  Messages appear in the model only as the validation result, the clear outcome,
  the import outcome and the load warning.
- The confirmation dialog is left out. Delete and clear are modelled as the
  action the confirmation runs.
- `generateId` and `new Date()` are left out, because they are random and
  clock-based. Their values are parameters:
  - `newId` and `now` for add and toggle;
  - for import, functions from the record's position to an id and to a time.

  The source does not guarantee that generated ids are unique.
  `Store.AddKeepsWellFormed` assumes the new id is unused.
- JSON parsing and printing, `localStorage`, `FileReader` and the download in
  `exportTasks` are left out, because they are I/O. A stored or imported text is
  modelled as the document it parses to, or as `Unparsable`.
- App.TodoApp.Save does not model a failing `setItem` (for example a full quota).
  The slot is always updated.
- The model does not keep properties of a record beyond the five task fields.
  The source carries extra properties of imported records along into storage.
- Queries.CompletionRate is computed on exact rationals. The source computes
  `(completed / total) * 100` in double precision, which can round below .5.
  For example, 29 of 200 gives 14.499999999999998, so the source shows 14 where
  the model gives 15.
- Text.Lower lower-cases the ASCII letters only. Full Unicode case mapping is left
  out.
- The "today" counters and `productivity` of `getStatistics` are left out,
  because they depend on the wall-clock date and the locale.
- The reload on `visibilitychange` is left out, because it is cross-tab event
  plumbing. `LoadTasksFromStorage` models what it runs.
- Json numbers are kept as integers. Only whether a number is zero matters here
  (it decides whether an imported id or createdAt is kept). Fractions, NaN and
  infinities are not modelled.
- Strings are sequences of Unicode scalar values. A JavaScript string holding a
  lone surrogate (possible in a stored or imported document) cannot be
  represented.
