/** validateTask: the check every added or edited text goes through. */
module Validator {
  import opened Text
  import opened Tasks

  /** The longest text, after trimming, that a task may have. */
  const MaxLength := 200

  datatype Reason = Empty | TooLong | Duplicate

  datatype Validation = Accepted(text: string) | Rejected(reason: Reason)

  /** `tasks.some(task => task.text.toLowerCase() === text.toLowerCase())` */
  predicate IsDuplicate(ts: seq<Task>, text: string): (b: bool)
    ensures b <==> exists t :: t in ts && Lower(t.text) == Lower(text)
    ensures b ==> ts != []
  {
    exists i :: 0 <= i < |ts| && Lower(ts[i].text) == Lower(text)
  }

  /** Trims the input and rejects it when nothing is left, when more than
      MaxLength UTF-16 code units are left, or when some task of the list already has
      this text up to case; otherwise accepts the trimmed text. */
  function Validate(ts: seq<Task>, input: string): (v: Validation)
    ensures v == Rejected(Empty) <==> AllSpace(input)
    ensures v == Rejected(TooLong) <==> !AllSpace(input) && Utf16Length(Trim(input)) > MaxLength
    ensures v == Rejected(Duplicate) <==>
              !AllSpace(input) && Utf16Length(Trim(input)) <= MaxLength && IsDuplicate(ts, Trim(input))
    ensures v.Accepted? ==> v.text == Trim(input)
    ensures v.Accepted? ==> 1 <= |v.text| && Utf16Length(v.text) <= MaxLength
    ensures v.Accepted? ==> !IsSpace(v.text[0]) && !IsSpace(v.text[|v.text| - 1])
    ensures v.Accepted? ==> forall i :: 0 <= i < |ts| ==> Lower(ts[i].text) != Lower(v.text)
  {
    var trimmed := Trim(input);
    if trimmed == [] then Rejected(Empty)
    else if Utf16Length(trimmed) > MaxLength then Rejected(TooLong)
    else if IsDuplicate(ts, trimmed) then Rejected(Duplicate)
    else Accepted(trimmed)
  }

  /** Validation looks at the existing texts only up to case: it never tells
      apart two lists whose texts lower-case alike. */
  lemma {:induction false} ValidateIgnoresCase(ts: seq<Task>, us: seq<Task>, input: string)
    requires |ts| == |us| && forall i :: 0 <= i < |ts| ==> Lower(ts[i].text) == Lower(us[i].text)
    ensures Validate(ts, input) == Validate(us, input)
  {
    var trimmed := Trim(input);
    if IsDuplicate(ts, trimmed) {
      var i :| 0 <= i < |ts| && Lower(ts[i].text) == Lower(trimmed);
      assert Lower(us[i].text) == Lower(trimmed);
    }
    if IsDuplicate(us, trimmed) {
      var i :| 0 <= i < |us| && Lower(us[i].text) == Lower(trimmed);
      assert Lower(ts[i].text) == Lower(trimmed);
    }
  }

  /** Any task of the list whose text matches the trimmed input up to case
      blocks it; in particular the text a task already has. */
  lemma MatchingTextIsRejected(ts: seq<Task>, i: nat, input: string)
    requires i < |ts| && Lower(ts[i].text) == Lower(Trim(input))
    ensures Validate(ts, input).Rejected?
  {
  }

  /** The limit is on UTF-16 code units: 101 characters beyond U+FFFF are 202
      units and are rejected as too long. */
  lemma AstralTextTooLong(ts: seq<Task>)
    ensures Validate(ts, seq(101, _ => '\U{1F600}')) == Rejected(TooLong)
  {
    var s := seq(101, _ => '\U{1F600}');
    AstralCountsTwice();
    assert !AllSpace(s) by { assert !IsSpace(s[0]); }
    var r := Trim(s);
    assert LeadingSpaces(s) == 0;
    assert r == s;
  }
}
