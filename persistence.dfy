/** The task list on the way to and from JSON: the storage slot that
    saveTasksToStorage writes and loadTasksFromStorage reads, and the document
    exportTasks produces and importTasks merges. Parsing and printing JSON are
    not modelled: a document is the value it parses to. */
module Persistence {
  import opened Json
  import opened Seqs
  import opened Tasks
  import opened Text
  import opened Validator

  /** What JSON.parse makes of a text: a value, or a syntax error. */
  datatype Document = Unparsable | Parsed(value: Value)

  /** The shape check applied on load: a string id, a string text and a boolean
      completed flag. */
  predicate IsStoredRecord(v: Value): (b: bool)
    ensures b <==> IsImportRecord(v) && Get(v, "id").Str?
    ensures b ==> v.Obj? && v.fields["id"].Str?
  {
    Get(v, "id").Str? && Get(v, "text").Str? && Get(v, "completed").Bool?
  }

  /** The shape check applied on import: the id is not required. */
  predicate IsImportRecord(v: Value): (b: bool)
    ensures b ==> Truthy(v) && v.Obj?
    ensures b <==> v.Obj? && "text" in v.fields && v.fields["text"].Str?
                   && "completed" in v.fields && v.fields["completed"].Bool?
  {
    Get(v, "text").Str? && Get(v, "completed").Bool?
  }

  /** The task a record that passed the shape check stands for. */
  function FromRecord(v: Value): (t: Task)
    requires IsImportRecord(v)
    ensures Str(t.text) == v.fields["text"] && Bool(t.completed) == v.fields["completed"]
    ensures t.id == Get(v, "id") && t.createdAt == Get(v, "createdAt") && t.completedAt == Get(v, "completedAt")
    ensures IsStoredRecord(v) ==> t.id.Str?
  {
    Task(Get(v, "id"), Get(v, "text").s, Get(v, "completed").b, Get(v, "createdAt"), Get(v, "completedAt"))
  }

  /** Turns checked records into tasks, one for one and in order. */
  function ToTasks(vs: seq<Value>): (r: seq<Task>)
    requires forall v :: v in vs ==> IsImportRecord(v)
    ensures |r| == |vs|
    ensures forall i :: 0 <= i < |vs| ==> r[i] == FromRecord(vs[i])
  {
    if vs == [] then [] else [FromRecord(vs[0])] + ToTasks(vs[1..])
  }

  /** JSON.stringify of a task: properties that are undefined are left out. */
  function ToRecord(t: Task): (r: Value)
    ensures r.Obj? && r.fields.Keys <= {"id", "text", "completed", "createdAt", "completedAt"}
    ensures "text" in r.fields && r.fields["text"] == Str(t.text)
    ensures "completed" in r.fields && r.fields["completed"] == Bool(t.completed)
    ensures Get(r, "id") == t.id && Get(r, "createdAt") == t.createdAt && Get(r, "completedAt") == t.completedAt
    ensures "id" in r.fields <==> t.id != Undefined
    ensures "createdAt" in r.fields <==> t.createdAt != Undefined
    ensures "completedAt" in r.fields <==> t.completedAt != Undefined
  {
    var m := map["text" := Str(t.text), "completed" := Bool(t.completed)];
    var m := if t.id != Undefined then m["id" := t.id] else m;
    var m := if t.createdAt != Undefined then m["createdAt" := t.createdAt] else m;
    var m := if t.completedAt != Undefined then m["completedAt" := t.completedAt] else m;
    Obj(m)
  }

  function ToRecords(ts: seq<Task>): (r: seq<Value>)
    ensures |r| == |ts|
    ensures forall i :: 0 <= i < |ts| ==> r[i] == ToRecord(ts[i])
  {
    if ts == [] then [] else [ToRecord(ts[0])] + ToRecords(ts[1..])
  }

  /** The document saveTasksToStorage stores and exportTasks downloads: an array
      holding every task, in list order. */
  function Export(ts: seq<Task>): (r: Value)
    ensures r.Arr? && |r.items| == |ts|
    ensures forall i :: 0 <= i < |ts| ==> r.items[i] == ToRecord(ts[i])
  {
    Arr(ToRecords(ts))
  }

  /** Reading back a written record gives the task back; it passes the import
      check always, and the load check exactly when its id is a string. */
  lemma RecordRoundTrip(t: Task)
    ensures IsImportRecord(ToRecord(t)) && FromRecord(ToRecord(t)) == t
    ensures IsStoredRecord(ToRecord(t)) <==> t.id.Str?
  {
  }

  /** The tasks loaded from an array of stored records: the records that pass
      the load check, in document order. */
  function Loaded(items: seq<Value>): (r: seq<Task>)
    ensures |r| == |Filter(items, IsStoredRecord)| <= |items|
    ensures forall i :: 0 <= i < |r| ==>
              var v := Filter(items, IsStoredRecord)[i];
              IsStoredRecord(v) && r[i] == FromRecord(v)
    ensures forall i :: 0 <= i < |r| ==> r[i].id.Str?
  {
    var kept := Filter(items, IsStoredRecord);
    assert forall i :: 0 <= i < |kept| ==> kept[i] in kept;
    SplitByFilter(items, IsStoredRecord, (v: Value) => !IsStoredRecord(v));
    ToTasks(kept)
  }

  /** loadTasksFromStorage on what the slot holds (None: no item, or the empty
      string). A missing item keeps the current list; a text that does not parse,
      or parses to anything but an array (whose `filter` then throws), empties
      the list with a warning; an array is filtered by the load check. */
  function Load(current: seq<Task>, slot: Option<Document>): (r: (seq<Task>, bool))
    ensures slot.None? ==> r == (current, false)
    ensures r.1 <==> slot.Some? && !(slot.value.Parsed? && slot.value.value.Arr?)
    ensures r.1 ==> r.0 == []
    ensures slot.Some? && slot.value.Parsed? && slot.value.value.Arr? ==>
              r.0 == Loaded(slot.value.value.items)
  {
    match slot
    case None => (current, false)
    case Some(Unparsable) => ([], true)
    case Some(Parsed(v)) => if v.Arr? then (Loaded(v.items), false) else ([], true)
  }

  predicate HasStringId(t: Task) { t.id.Str? }

  /** Saving and loading again keeps exactly the tasks whose id is a string, in
      order: a task imported with an id of another type is lost on reload. */
  lemma {:induction false} SaveThenLoad(ts: seq<Task>)
    ensures Load([], Some(Parsed(Export(ts)))).0 == Filter(ts, HasStringId)
  {
    ToRecordsThenLoaded(ts);
  }

  lemma {:induction false} ToRecordsThenLoaded(ts: seq<Task>)
    ensures Loaded(ToRecords(ts)) == Filter(ts, HasStringId)
  {
    if ts != [] {
      var recs := ToRecords(ts);
      ToRecordsThenLoaded(ts[1..]);
      RecordRoundTrip(ts[0]);
      assert recs == [ToRecord(ts[0])] + ToRecords(ts[1..]);
      assert recs[1..] == ToRecords(ts[1..]);
      var restKept := Filter(ToRecords(ts[1..]), IsStoredRecord);
      if ts[0].id.Str? {
        assert Filter(recs, IsStoredRecord) == [ToRecord(ts[0])] + restKept;
        assert ([ToRecord(ts[0])] + restKept)[1..] == restKept;
      } else {
        assert Filter(recs, IsStoredRecord) == restKept;
      }
    }
  }

  /** importTasks' forEach on one accepted record: a falsy id is replaced by a
      generated one, a falsy createdAt by the import time. */
  function WithDefaults(t: Task, id: string, stamp: string): (r: Task)
    ensures r.text == t.text && r.completed == t.completed && r.completedAt == t.completedAt
    ensures Truthy(t.id) ==> r.id == t.id
    ensures !Truthy(t.id) ==> r.id == Str(id)
    ensures Truthy(t.createdAt) ==> r.createdAt == t.createdAt
    ensures !Truthy(t.createdAt) ==> r.createdAt == Str(stamp)
  {
    t.(id := if Truthy(t.id) then t.id else Str(id),
       createdAt := if Truthy(t.createdAt) then t.createdAt else Str(stamp))
  }

  /** The forEach over the accepted records; the i-th one gets newId(i) and
      stamps(i) if it needs them. */
  function Filled(ts: seq<Task>, newId: nat -> string, stamps: nat -> string): (r: seq<Task>)
    ensures |r| == |ts|
    ensures forall i :: 0 <= i < |ts| ==> r[i] == WithDefaults(ts[i], newId(i), stamps(i))
  {
    seq(|ts|, i requires 0 <= i < |ts| => WithDefaults(ts[i], newId(i), stamps(i)))
  }

  /** The tasks importTasks appends for an array document: the records with a
      string text and a boolean completed flag, in document order, completed
      with an id and a creation time where these are missing. Nothing here
      checks the length of a text or whether it duplicates another. */
  function ImportedTasks(items: seq<Value>, newId: nat -> string, stamps: nat -> string): (r: seq<Task>)
    ensures |r| == |Filter(items, IsImportRecord)|
    ensures forall i :: 0 <= i < |r| ==>
              var v := Filter(items, IsImportRecord)[i];
              IsImportRecord(v) && r[i] == WithDefaults(FromRecord(v), newId(i), stamps(i))
    ensures forall i :: 0 <= i < |r| ==> Truthy(r[i].createdAt) || r[i].createdAt == Str(stamps(i))
  {
    var accepted := Filter(items, IsImportRecord);
    assert forall i :: 0 <= i < |accepted| ==> accepted[i] in accepted;
    Filled(ToTasks(Filter(items, IsImportRecord)), newId, stamps)
  }

  /** Filling changes nothing when every task already has a truthy id and
      creation time. */
  lemma FilledKeepsComplete(ts: seq<Task>, newId: nat -> string, stamps: nat -> string)
    requires forall i :: 0 <= i < |ts| ==> Truthy(ts[i].id) && Truthy(ts[i].createdAt)
    ensures Filled(ts, newId, stamps) == ts
  {
    var r := Filled(ts, newId, stamps);
    forall i | 0 <= i < |ts| ensures r[i] == ts[i] {
      assert r[i] == WithDefaults(ts[i], newId(i), stamps(i));
    }
  }

  lemma {:induction false} ToTasksOfRecords(ts: seq<Task>)
    ensures forall v :: v in ToRecords(ts) ==> IsImportRecord(v)
    ensures ToTasks(ToRecords(ts)) == ts
  {
    if ts != [] {
      ToTasksOfRecords(ts[1..]);
      RecordRoundTrip(ts[0]);
      var recs := ToRecords(ts);
      assert recs == [ToRecord(ts[0])] + ToRecords(ts[1..]);
      assert recs[1..] == ToRecords(ts[1..]);
    }
  }

  /** Exporting and importing the document into an empty list gives back the
      same tasks in the same order, when every task has a truthy id and creation
      time (as every task addTask creates does). */
  lemma ExportThenImport(ts: seq<Task>, newId: nat -> string, stamps: nat -> string)
    requires forall i :: 0 <= i < |ts| ==> Truthy(ts[i].id) && Truthy(ts[i].createdAt)
    ensures ImportedTasks(Export(ts).items, newId, stamps) == ts
  {
    ToTasksOfRecords(ts);
    FilterKeepsAll(ToRecords(ts), IsImportRecord);
    FilledKeepsComplete(ts, newId, stamps);
  }

  /** Import bypasses the validator: a document holding "a" and "A" imports both
      texts, which lower-case alike. */
  lemma ImportAdmitsDuplicates(newId: nat -> string, stamps: nat -> string)
    ensures var r := ImportedTasks([ToRecord(Task(Undefined, "a", false, Undefined, Null)),
                                    ToRecord(Task(Undefined, "A", false, Undefined, Null))], newId, stamps);
            |r| == 2 && !DistinctTexts(r)
  {
    var t1 := Task(Undefined, "a", false, Undefined, Null);
    var t2 := Task(Undefined, "A", false, Undefined, Null);
    var items := [ToRecord(t1), ToRecord(t2)];
    RecordRoundTrip(t1);
    RecordRoundTrip(t2);
    FilterKeepsAll(items, IsImportRecord);
    assert ToTasks(items) == [t1, t2] by {
      assert items[1..] == [ToRecord(t2)];
    }
    var r := ImportedTasks(items, newId, stamps);
    assert r == Filled([t1, t2], newId, stamps);
    assert r[0] == WithDefaults(t1, newId(0), stamps(0)) && r[1] == WithDefaults(t2, newId(1), stamps(1));
    assert Lower("a") == Lower("A");
    assert LowerText(r[0]) == LowerText(r[1]);
  }

  /** Import bypasses the length limit too: a text longer than MaxLength is
      imported as it is. */
  lemma ImportAdmitsLongText(newId: nat -> string, stamps: nat -> string)
    ensures var long := seq(MaxLength + 1, _ => 'x');
            var r := ImportedTasks([ToRecord(Task(Undefined, long, false, Undefined, Null))], newId, stamps);
            |r| == 1 && |r[0].text| > MaxLength && Utf16Length(r[0].text) > MaxLength
  {
    var t := Task(Undefined, seq(MaxLength + 1, _ => 'x'), false, Undefined, Null);
    var items := [ToRecord(t)];
    RecordRoundTrip(t);
    FilterKeepsAll(items, IsImportRecord);
    assert ToTasks(items) == [t];
    var r := ImportedTasks(items, newId, stamps);
    assert r[0] == WithDefaults(t, newId(0), stamps(0));
  }
}
