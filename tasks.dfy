/** The task record and the look-up the store's operations share. */
module Tasks {
  import opened Json
  import opened Text
  import opened Seqs

  /** One entry of the task list. `text` and `completed` always have these types
      (every way into the list checks them); `id`, `createdAt` and `completedAt`
      keep whatever an imported or stored record carried: a task created by the
      store has a string id, a string timestamp and `completedAt` null. */
  datatype Task = Task(id: Value, text: string, completed: bool, createdAt: Value, completedAt: Value)

  /** The record addTask builds: a fresh id, not completed, created now. */
  function NewTask(id: string, text: string, now: string): Task {
    Task(Str(id), text, false, Str(now), Null)
  }

  function IdOf(t: Task): Value { t.id }

  function LowerText(t: Task): string { Lower(t.text) }

  predicate IsCompleted(t: Task) { t.completed }

  predicate IsPending(t: Task) { !t.completed }

  /** `t => t.id !== key` */
  function IdDiffers(key: Value): Task -> bool {
    (t: Task) => t.id != key
  }

  /** Array.prototype.find by id: the index of the FIRST task whose id is key. */
  function FindById(ts: seq<Task>, key: Value): (r: Option<nat>)
    ensures r.Some? ==> r.value < |ts| && ts[r.value].id == key
    ensures r.Some? ==> forall j :: 0 <= j < r.value ==> ts[j].id != key
    ensures r.None? <==> forall j :: 0 <= j < |ts| ==> ts[j].id != key
  {
    if ts == [] then None
    else if ts[0].id == key then Some(0)
    else match FindById(ts[1..], key)
      case None => None
      case Some(i) => Some(i + 1)
  }

  /** The find only looks at ids: two lists with the same ids, position by
      position, give the same answer. */
  lemma {:induction false} FindByIdOnlyReadsIds(ts: seq<Task>, us: seq<Task>, key: Value)
    requires |ts| == |us| && forall j :: 0 <= j < |ts| ==> ts[j].id == us[j].id
    ensures FindById(ts, key) == FindById(us, key)
  {
    if ts != [] && ts[0].id != key {
      FindByIdOnlyReadsIds(ts[1..], us[1..], key);
    }
  }

  /** toggleTask's update of the found record at time `now`. */
  function Toggled(t: Task, now: string): (r: Task)
    ensures r.completed == !t.completed
    ensures r.completedAt != Null <==> r.completed
    ensures r.completed ==> r.completedAt == Str(now)
    ensures r.id == t.id && r.text == t.text && r.createdAt == t.createdAt
  {
    t.(completed := !t.completed, completedAt := if !t.completed then Str(now) else Null)
  }

  /** Toggling twice restores the completion flag; a pending task whose
      completedAt is null comes back exactly as it was, while a completed task
      comes back completed with the second toggle's time. */
  lemma ToggleTwice(t: Task, first: string, second: string)
    ensures Toggled(Toggled(t, first), second).completed == t.completed
    ensures !t.completed && t.completedAt == Null ==> Toggled(Toggled(t, first), second) == t
    ensures t.completed ==> Toggled(Toggled(t, first), second).completedAt == Str(second)
  {
  }

  // The store-wide invariants that add, toggle and edit keep.

  /** Exactly one task per id. */
  predicate UniqueIds(ts: seq<Task>) { Distinct(ts, IdOf) }

  /** No two tasks whose texts are equal ignoring case. */
  predicate DistinctTexts(ts: seq<Task>) { Distinct(ts, LowerText) }

  /** completedAt is set exactly when the task is completed. */
  predicate CompletionConsistent(ts: seq<Task>) {
    forall i :: 0 <= i < |ts| ==> (ts[i].completedAt != Null <==> ts[i].completed)
  }

  predicate WellFormed(ts: seq<Task>) {
    UniqueIds(ts) && DistinctTexts(ts) && CompletionConsistent(ts)
  }
}
