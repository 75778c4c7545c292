/** The changes the task store makes to its list, as functions from the old list
    to the new one, and what they keep. The TodoApp class applies them in place. */
module Store {
  import opened Json
  import opened Text
  import opened Seqs
  import opened Tasks
  import opened Validator
  import opened Queries

  /** addTask: a validated text becomes a new pending task at the front. */
  function Added(ts: seq<Task>, input: string, newId: string, now: string): (r: seq<Task>)
    ensures Validate(ts, input).Rejected? ==> r == ts
    ensures Validate(ts, input).Accepted? ==>
              && |r| == |ts| + 1 && r[1..] == ts
              && r[0].id == Str(newId) && r[0].text == Trim(input)
              && !r[0].completed && r[0].completedAt == Null && r[0].createdAt == Str(now)
  {
    match Validate(ts, input)
    case Accepted(text) => [NewTask(newId, text, now)] + ts
    case Rejected(_) => ts
  }

  /** toggleTask: the first task with the id flips its completion; an absent id
      changes nothing. */
  function ToggledIn(ts: seq<Task>, key: Value, now: string): (r: seq<Task>)
    ensures |r| == |ts|
    ensures forall j :: 0 <= j < |ts| && FindById(ts, key) != Some(j) ==> r[j] == ts[j]
    ensures forall j :: 0 <= j < |ts| ==> r[j].id == ts[j].id && r[j].text == ts[j].text
    ensures FindById(ts, key).Some? ==>
              var i := FindById(ts, key).value;
              && r[i].completed == !ts[i].completed
              && (r[i].completedAt != Null <==> r[i].completed)
              && r[i].id == ts[i].id && r[i].text == ts[i].text && r[i].createdAt == ts[i].createdAt
              && r[i] == Toggled(ts[i], now)
  {
    match FindById(ts, key)
    case None => ts
    case Some(i) => ts[i := Toggled(ts[i], now)]
  }

  /** saveEditedTask: the input is validated against the WHOLE list, the task
      being edited included; on success the first task with the id takes the
      trimmed text and nothing else about it changes. */
  function EditedIn(ts: seq<Task>, key: Value, input: string): (r: seq<Task>)
    ensures |r| == |ts|
    ensures Validate(ts, input).Rejected? || FindById(ts, key).None? ==> r == ts
    ensures forall j :: 0 <= j < |ts| ==> r[j].(text := ts[j].text) == ts[j]
    ensures forall j :: 0 <= j < |ts| && r[j] != ts[j] ==> FindById(ts, key) == Some(j)
    ensures Validate(ts, input).Accepted? && FindById(ts, key).Some? ==>
              r[FindById(ts, key).value].text == Trim(input)
  {
    match Validate(ts, input)
    case Rejected(_) => ts
    case Accepted(text) =>
      match FindById(ts, key)
      case None => ts
      case Some(i) => ts[i := ts[i].(text := text)]
  }

  /** The delete confirmation: keep the tasks whose id differs from key. */
  function Deleted(ts: seq<Task>, key: Value): (r: seq<Task>)
    ensures IsSubsequence(r, ts)
    ensures forall t :: multiset(r)[t] == if t.id == key then 0 else multiset(ts)[t]
    ensures FindById(ts, key).None? ==> r == ts
  {
    FilterKeepsAll(ts, IdDiffers(key));
    FilterIsSubsequence(ts, IdDiffers(key));
    Filter(ts, IdDiffers(key))
  }

  datatype ClearOutcome = NothingToClear | Cleared(count: nat)

  /** clearCompletedTasks: refuses when no task is completed, otherwise drops
      every completed task and reports how many went. */
  function ClearCompleted(ts: seq<Task>): (r: (seq<Task>, ClearOutcome))
    ensures r.1 == NothingToClear <==> forall i :: 0 <= i < |ts| ==> !ts[i].completed
    ensures r.1 == NothingToClear ==> r.0 == ts
    ensures r.1.Cleared? ==>
              && IsSubsequence(r.0, ts)
              && (forall t :: multiset(r.0)[t] == if t.completed then 0 else multiset(ts)[t])
              && r.1.count == |ts| - |r.0| > 0
  {
    var count := |CompletedTasks(ts)|;
    ClearButtonsMatchCounters(ts);
    CompletedAndPendingPartition(ts);
    if count == 0 then (ts, NothingToClear) else (PendingTasks(ts), Cleared(count))
  }

  /** clearAllTasks: refuses on an empty list, otherwise empties it and reports
      the old length. */
  function ClearAll(ts: seq<Task>): (r: (seq<Task>, ClearOutcome))
    ensures r.1 == NothingToClear <==> ts == []
    ensures r.0 == []
    ensures r.1.Cleared? ==> r.1.count == |ts|
  {
    if |ts| == 0 then (ts, NothingToClear) else ([], Cleared(|ts|))
  }

  // Properties relating several operations.

  /** Adding a text and then the same text in another case (or with other
      surrounding whitespace) leaves just the first task: the second is a
      duplicate. */
  lemma AddSameTextTwice(ts: seq<Task>, first: string, second: string,
                         id1: string, id2: string, now1: string, now2: string)
    requires Validate(ts, first).Accepted?
    requires Lower(Trim(first)) == Lower(Trim(second))
    ensures Validate(Added(ts, first, id1, now1), second) == Rejected(Duplicate)
    ensures Added(Added(ts, first, id1, now1), second, id2, now2) == Added(ts, first, id1, now1)
    ensures |Added(Added(ts, first, id1, now1), second, id2, now2)| == |ts| + 1
  {
    var once := Added(ts, first, id1, now1);
    LowerKeepsUtf16Length(Trim(first));
    LowerKeepsUtf16Length(Trim(second));
    assert |Trim(second)| == |Lower(Trim(second))| == |Lower(Trim(first))| == |Trim(first)|;
    assert Lower(once[0].text) == Lower(Trim(second));
  }

  /** Toggling the same id twice gives every task its completion flag back; a
      pending task with no completion time comes back exactly as it was. */
  lemma ToggleInTwice(ts: seq<Task>, key: Value, first: string, second: string)
    ensures |ToggledIn(ToggledIn(ts, key, first), key, second)| == |ts|
    ensures forall j :: 0 <= j < |ts| ==>
              ToggledIn(ToggledIn(ts, key, first), key, second)[j].completed == ts[j].completed
    ensures FindById(ts, key).Some? ==>
              var i := FindById(ts, key).value;
              !ts[i].completed && ts[i].completedAt == Null ==>
                ToggledIn(ToggledIn(ts, key, first), key, second) == ts
  {
    var once := ToggledIn(ts, key, first);
    FindByIdOnlyReadsIds(ts, once, key);
    if FindById(ts, key).Some? {
      var i := FindById(ts, key).value;
      ToggleTwice(ts[i], first, second);
    }
  }

  /** Saving an edit whose trimmed text equals, up to case, the text the edited
      task already has is rejected as a duplicate and changes nothing: the
      validator does not leave the edited task out. */
  lemma EditToOwnTextRejected(ts: seq<Task>, key: Value, input: string)
    requires FindById(ts, key).Some?
    requires Lower(Trim(input)) == Lower(ts[FindById(ts, key).value].text)
    ensures Validate(ts, input).Rejected?
    ensures EditedIn(ts, key, input) == ts
  {
    MatchingTextIsRejected(ts, FindById(ts, key).value, input);
  }

  /** In particular, re-saving a task's own (trimmed, valid-length) text is
      reported as a duplicate. */
  lemma ResaveUnchangedIsDuplicate(ts: seq<Task>, key: Value)
    requires FindById(ts, key).Some?
    requires var t := ts[FindById(ts, key).value].text;
             Trim(t) == t && 0 < |t| && Utf16Length(t) <= MaxLength
    ensures Validate(ts, ts[FindById(ts, key).value].text) == Rejected(Duplicate)
    ensures EditedIn(ts, key, ts[FindById(ts, key).value].text) == ts
  {
    var i := FindById(ts, key).value;
    assert IsDuplicate(ts, Trim(ts[i].text));
  }

  /** With unique ids, deleting an id that is present removes exactly that one
      task. */
  lemma DeleteRemovesOne(ts: seq<Task>, key: Value)
    requires UniqueIds(ts) && FindById(ts, key).Some?
    ensures var i := FindById(ts, key).value; Deleted(ts, key) == ts[..i] + ts[i + 1..]
  {
    var i := FindById(ts, key).value;
    forall j | 0 <= j < |ts| && j != i ensures IdDiffers(key)(ts[j]) {
      if j > i { assert IdOf(ts[i]) != IdOf(ts[j]); }
    }
    FilterDropsOne(ts, IdDiffers(key), i);
  }

  // The invariants every interactive operation keeps.

  /** Adding with an id no task has keeps ids unique, texts distinct up to case
      and completion times consistent. */
  lemma AddKeepsWellFormed(ts: seq<Task>, input: string, newId: string, now: string)
    requires WellFormed(ts)
    requires forall i :: 0 <= i < |ts| ==> ts[i].id != Str(newId)
    ensures WellFormed(Added(ts, input, newId, now))
  {
    var r := Added(ts, input, newId, now);
    if Validate(ts, input).Accepted? {
      forall i, j | 0 <= i < j < |r| ensures IdOf(r[i]) != IdOf(r[j]) && LowerText(r[i]) != LowerText(r[j]) {
        assert r[j] == ts[j - 1];
        if i > 0 { assert r[i] == ts[i - 1]; }
      }
    }
  }

  /** Toggling keeps the invariants, and leaves the toggled task consistent. */
  lemma ToggleKeepsWellFormed(ts: seq<Task>, key: Value, now: string)
    requires WellFormed(ts)
    ensures WellFormed(ToggledIn(ts, key, now))
  {
    var r := ToggledIn(ts, key, now);
    forall i, j | 0 <= i < j < |r| ensures IdOf(r[i]) != IdOf(r[j]) && LowerText(r[i]) != LowerText(r[j]) {
      assert IdOf(ts[i]) != IdOf(ts[j]) && LowerText(ts[i]) != LowerText(ts[j]);
    }
  }

  /** An accepted edit keeps the invariants: its new text differs up to case
      from every text the list had, the edited task's old text included. */
  lemma EditKeepsWellFormed(ts: seq<Task>, key: Value, input: string)
    requires WellFormed(ts)
    ensures WellFormed(EditedIn(ts, key, input))
  {
    var r := EditedIn(ts, key, input);
    forall j | 0 <= j < |r| ensures r[j].id == ts[j].id && r[j].completed == ts[j].completed
                                    && r[j].completedAt == ts[j].completedAt {
      assert r[j].(text := ts[j].text) == ts[j];
    }
    forall i, j | 0 <= i < j < |r| ensures IdOf(r[i]) != IdOf(r[j]) {
      assert IdOf(ts[i]) != IdOf(ts[j]);
    }
    if r != ts {
      var k := FindById(ts, key).value;
      forall i, j | 0 <= i < j < |r| ensures LowerText(r[i]) != LowerText(r[j]) {
        if i != k && j != k {
          assert r[i] == ts[i] && r[j] == ts[j];
        } else if i == k {
          assert r[j] == ts[j];
        } else {
          assert r[i] == ts[i];
        }
      }
    }
  }

  /** Deleting and clearing completed tasks keep the invariants: what is left is
      part of what was there. */
  lemma RemovalKeepsWellFormed(ts: seq<Task>, key: Value)
    requires WellFormed(ts)
    ensures WellFormed(Deleted(ts, key))
    ensures WellFormed(ClearCompleted(ts).0)
  {
    FilterKeepsDistinct(ts, IdDiffers(key), IdOf);
    FilterKeepsDistinct(ts, IdDiffers(key), LowerText);
    FilterKeepsDistinct(ts, IsPending, IdOf);
    FilterKeepsDistinct(ts, IsPending, LowerText);
    var d := Deleted(ts, key);
    forall i | 0 <= i < |d| ensures d[i].completedAt != Null <==> d[i].completed {
      assert d[i] in ts;
    }
    var p := PendingTasks(ts);
    forall i | 0 <= i < |p| ensures p[i].completedAt != Null <==> p[i].completed {
      assert p[i] in ts;
    }
  }
}
