/** The TodoApp object: the task list and the little state around it, changed in
    place by the operations the page's buttons and dialogs trigger. Each method
    is proved against the function in Store, Queries or Persistence that says
    what the new list is; a method that changes the list also writes it to the
    storage slot, as saveTasksToStorage does. */
module App {
  import opened Json
  import opened Seqs
  import opened Tasks
  import opened Validator
  import opened Queries
  import opened Store
  import opened Persistence

  datatype ImportOutcome = ImportFailed | Imported(count: nat)

  class TodoApp {
    /** `this.tasks`, newest first. */
    var tasks: seq<Task>
    /** The view's filter name: "all", "completed" or "pending". */
    var currentFilter: string
    /** The id of the task the edit dialog is open for, or Null. */
    var editingTaskId: Value
    /** The storage slot the list is saved to (None: nothing saved). */
    var storage: Option<Document>

    /** Starts with an empty list and loads whatever the slot holds. */
    constructor (slot: Option<Document>)
      ensures storage == slot && currentFilter == "all" && editingTaskId == Null
      ensures tasks == Load([], slot).0
    {
      tasks := [];
      currentFilter := "all";
      editingTaskId := Null;
      storage := slot;
      new;
      var _ := LoadTasksFromStorage();
    }

    /** saveTasksToStorage: the slot receives the whole list. */
    method Save()
      modifies this`storage
      ensures storage == Some(Parsed(Export(tasks)))
    {
      storage := Some(Parsed(Export(tasks)));
    }

    /** loadTasksFromStorage; the result is whether a warning is shown. */
    method LoadTasksFromStorage() returns (warning: bool)
      modifies this`tasks
      ensures (tasks, warning) == Load(old(tasks), storage)
    {
      warning := false;
      match storage {
        case None =>
        case Some(Unparsable) =>
          tasks, warning := [], true;
        case Some(Parsed(v)) =>
          if v.Arr? {
            tasks := Loaded(v.items);
          } else {
            tasks, warning := [], true;
          }
      }
    }

    method SetFilter(filter: string)
      modifies this`currentFilter
      ensures currentFilter == filter
    {
      currentFilter := filter;
    }

    /** getFilteredTasks: the tasks the list view shows for the current filter. */
    function GetFilteredTasks(): (r: seq<Task>)
      reads this
      ensures IsSubsequence(r, tasks)
      ensures currentFilter == "completed" ==>
                forall t :: multiset(r)[t] == if t.completed then multiset(tasks)[t] else 0
      ensures currentFilter == "pending" ==>
                forall t :: multiset(r)[t] == if t.completed then 0 else multiset(tasks)[t]
      ensures currentFilter != "completed" && currentFilter != "pending" ==> r == tasks
    {
      SubsequenceReflexive(tasks);
      FilteredTasks(tasks, currentFilter)
    }

    /** getStatistics: the counters and the completion percentage. */
    function GetStatistics(): (s: Statistics)
      reads this
      ensures s.total == |tasks| && s.completed == |CompletedTasks(tasks)|
      ensures s.pending == s.total - s.completed >= 0
      ensures 0 <= s.completionRate <= 100
      ensures s.total == 0 ==> s.completionRate == 0
      ensures s.total > 0 ==> s.completionRate == (200 * s.completed + s.total) / (2 * s.total)
    {
      Stats(tasks)
    }

    /** addTask with the input field's value, a generated id and the current
      time. */
    method AddTask(input: string, newId: string, now: string) returns (v: Validation)
      modifies this`tasks, this`storage
      ensures v == Validate(old(tasks), input)
      ensures tasks == Added(old(tasks), input, newId, now)
      ensures v.Accepted? ==> storage == Some(Parsed(Export(tasks)))
      ensures v.Rejected? ==> storage == old(storage)
    {
      v := Validate(tasks, input);
      if v.Rejected? {
        return;
      }
      tasks := [NewTask(newId, v.text, now)] + tasks;
      Save();
    }

    /** toggleTask: the first task with the id flips, at time `now`. */
    method ToggleTask(id: string, now: string)
      modifies this`tasks, this`storage
      ensures tasks == ToggledIn(old(tasks), Str(id), now)
      ensures FindById(old(tasks), Str(id)).Some? ==> storage == Some(Parsed(Export(tasks)))
      ensures FindById(old(tasks), Str(id)).None? ==> storage == old(storage)
    {
      match FindById(tasks, Str(id)) {
        case None =>
        case Some(i) =>
          var task := tasks[i];
          var completed := !task.completed;
          tasks := tasks[i := task.(completed := completed,
                                    completedAt := if completed then Str(now) else Null)];
          Save();
      }
    }

    /** What deleteTask's confirmation runs: every task with the id goes. */
    method DeleteTask(id: string)
      modifies this`tasks, this`storage
      ensures tasks == Deleted(old(tasks), Str(id))
      ensures storage == Some(Parsed(Export(tasks)))
    {
      tasks := Filter(tasks, IdDiffers(Str(id)));
      Save();
    }

    /** editTask: opens the editor on the first task with the id, returning the
      text the input is filled with; an unknown id does nothing. */
    method EditTask(id: string) returns (shown: Option<string>)
      modifies this`editingTaskId
      ensures FindById(tasks, Str(id)).None? ==> shown == None && editingTaskId == old(editingTaskId)
      ensures FindById(tasks, Str(id)).Some? ==>
                shown == Some(tasks[FindById(tasks, Str(id)).value].text) && editingTaskId == Str(id)
    {
      shown := None;
      match FindById(tasks, Str(id)) {
        case None =>
        case Some(i) =>
          editingTaskId := Str(id);
          shown := Some(tasks[i].text);
      }
    }

    /** saveEditedTask: validates against the whole list, then writes the text
      into the task being edited and closes the editor (editingTaskId back to
      Null). */
    method SaveEditedTask(input: string) returns (v: Validation)
      modifies this`tasks, this`storage, this`editingTaskId
      ensures v == Validate(old(tasks), input)
      ensures tasks == EditedIn(old(tasks), old(editingTaskId), input)
      ensures v.Accepted? && FindById(old(tasks), old(editingTaskId)).Some? ==>
                storage == Some(Parsed(Export(tasks))) && editingTaskId == Null
      ensures v.Rejected? || FindById(old(tasks), old(editingTaskId)).None? ==>
                storage == old(storage) && editingTaskId == old(editingTaskId)
    {
      v := Validate(tasks, input);
      if v.Rejected? {
        return;
      }
      match FindById(tasks, editingTaskId) {
        case None =>
        case Some(i) =>
          tasks := tasks[i := tasks[i].(text := v.text)];
          Save();
          editingTaskId := Null;
      }
    }

    /** clearCompletedTasks, run from its confirmation. */
    method ClearCompletedTasks() returns (outcome: ClearOutcome)
      modifies this`tasks, this`storage
      ensures (tasks, outcome) == ClearCompleted(old(tasks))
      ensures outcome.Cleared? ==> storage == Some(Parsed(Export(tasks)))
      ensures outcome == NothingToClear ==> storage == old(storage)
    {
      var count := |CompletedTasks(tasks)|;
      if count == 0 {
        return NothingToClear;
      }
      tasks := PendingTasks(tasks);
      Save();
      outcome := Cleared(count);
    }

    /** clearAllTasks, run from its confirmation. */
    method ClearAllTasks() returns (outcome: ClearOutcome)
      modifies this`tasks, this`storage
      ensures (tasks, outcome) == ClearAll(old(tasks))
      ensures outcome.Cleared? ==> storage == Some(Parsed(Export(tasks)))
      ensures outcome == NothingToClear ==> storage == old(storage)
    {
      if |tasks| == 0 {
        return NothingToClear;
      }
      var count := |tasks|;
      tasks := [];
      Save();
      outcome := Cleared(count);
    }

    /** importTasks once the file is read: an array document has its accepted
      records completed in place and appended after the existing tasks; any
      other document, or one that does not parse, changes nothing. */
    method ImportTasks(file: Document, newId: nat -> string, stamps: nat -> string)
      returns (outcome: ImportOutcome)
      modifies this`tasks, this`storage
      ensures file.Parsed? && file.value.Arr? ==>
                var added := ImportedTasks(file.value.items, newId, stamps);
                && outcome == Imported(|added|)
                && tasks == old(tasks) + added
                && storage == Some(Parsed(Export(tasks)))
      ensures !(file.Parsed? && file.value.Arr?) ==>
                outcome == ImportFailed && tasks == old(tasks) && storage == old(storage)
    {
      if !(file.Parsed? && file.value.Arr?) {
        return ImportFailed;
      }
      var accepted := Filter(file.value.items, IsImportRecord);
      var valid := ToTasks(accepted);
      var records := new Task[|valid|](i requires 0 <= i < |valid| => valid[i]);
      assert records[..] == valid;
      FillMissingFields(records, newId, stamps);
      tasks := tasks + records[..];
      Save();
      outcome := Imported(records.Length);
    }
  }

  /** importTasks' forEach: the i-th record gets newId(i) if its id is falsy and
      stamps(i) if its createdAt is falsy, in place. */
  method FillMissingFields(records: array<Task>, newId: nat -> string, stamps: nat -> string)
    modifies records
    ensures records[..] == Filled(old(records[..]), newId, stamps)
  {
    for i := 0 to records.Length
      invariant forall k :: 0 <= k < i ==> records[k] == WithDefaults(old(records[k]), newId(k), stamps(k))
      invariant forall k :: i <= k < records.Length ==> records[k] == old(records[k])
    {
      var task := records[i];
      if !Truthy(task.id) {
        task := task.(id := Str(newId(i)));
      }
      if !Truthy(task.createdAt) {
        task := task.(createdAt := Str(stamps(i)));
      }
      records[i] := task;
    }
  }
}
