/** The string operations the validator applies: String.prototype.trim,
    String.prototype.toLowerCase and the `length` property. A string here is a
    sequence of Unicode scalar values; `length` counts UTF-16 code units, two
    for a character beyond U+FFFF, which Utf16Length computes. */
module Text {

  /** The characters trim removes: the ECMAScript WhiteSpace and LineTerminator
      code points (tab, line feed, vertical tab, form feed, carriage return, space,
      no-break space, the Unicode space separators, line and paragraph separator,
      and the byte order mark). */
  predicate IsSpace(c: char) {
    var n := c as int;
    n == 0x09 || n == 0x0A || n == 0x0B || n == 0x0C || n == 0x0D || n == 0x20
    || n == 0xA0 || n == 0x1680 || (0x2000 <= n <= 0x200A) || n == 0x2028
    || n == 0x2029 || n == 0x202F || n == 0x205F || n == 0x3000 || n == 0xFEFF
  }

  predicate AllSpace(s: string) {
    forall i :: 0 <= i < |s| ==> IsSpace(s[i])
  }

  /** The length of the longest all-whitespace prefix of s. */
  function LeadingSpaces(s: string): (n: nat)
    ensures n <= |s|
    ensures forall i :: 0 <= i < n ==> IsSpace(s[i])
    ensures n < |s| ==> !IsSpace(s[n])
  {
    if s == [] || !IsSpace(s[0]) then 0 else 1 + LeadingSpaces(s[1..])
  }

  /** The length of the longest all-whitespace suffix of s. */
  function TrailingSpaces(s: string): (n: nat)
    ensures n <= |s|
    ensures forall i :: |s| - n <= i < |s| ==> IsSpace(s[i])
    ensures n < |s| ==> !IsSpace(s[|s| - n - 1])
  {
    if s == [] || !IsSpace(s[|s| - 1]) then 0 else 1 + TrailingSpaces(s[..|s| - 1])
  }

  /** String.prototype.trim: the part of s between its leading and its trailing
      whitespace. */
  function Trim(s: string): (r: string)
    ensures |r| <= |s|
    ensures r == [] <==> AllSpace(s)
    ensures r != [] ==> !IsSpace(r[0]) && !IsSpace(r[|r| - 1])
    ensures LeadingSpaces(s) + |r| <= |s|
    ensures r == s[LeadingSpaces(s)..LeadingSpaces(s) + |r|]
    ensures AllSpace(s[LeadingSpaces(s) + |r|..])
  {
    var a := LeadingSpaces(s);
    var rest := s[a..];
    var b := TrailingSpaces(rest);
    var r := rest[..|rest| - b];
    TrimEnds(s, a, b);
    r
  }

  /** The facts behind Trim's contract, with a and b the lengths of the whitespace
      cut from the front and from the back. */
  lemma TrimEnds(s: string, a: nat, b: nat)
    requires a <= |s| && (forall i :: 0 <= i < a ==> IsSpace(s[i])) && (a < |s| ==> !IsSpace(s[a]))
    requires b <= |s| - a && forall i :: |s| - a - b <= i < |s| - a ==> IsSpace(s[a..][i])
    requires b < |s| - a ==> !IsSpace(s[a..][|s| - a - b - 1])
    ensures var r := s[a..][..|s| - a - b];
      && (r == [] <==> AllSpace(s))
      && (r != [] ==> !IsSpace(r[0]) && !IsSpace(r[|r| - 1]))
      && r == s[a..a + |r|]
      && AllSpace(s[a + |r|..])
  {
    var rest := s[a..];
    var r := rest[..|rest| - b];
    var tail := s[a + |r|..];
    forall i | 0 <= i < |tail| ensures IsSpace(tail[i]) {
      assert tail[i] == rest[|rest| - b + i];
    }
    if r != [] {
      assert r[0] == s[a];
      assert r[|r| - 1] == rest[|rest| - b - 1];
      assert !AllSpace(s) by { assert !IsSpace(s[a]); }
    }
  }

  /** Trimming a trimmed string changes nothing. */
  lemma TrimIdempotent(s: string)
    ensures Trim(Trim(s)) == Trim(s)
  {
    var r := Trim(s);
    if r != [] {
      assert LeadingSpaces(r) == 0;
      assert TrailingSpaces(r) == 0;
    }
  }

  /** toLowerCase on one character, for the ASCII letters. */
  function LowerChar(c: char): char {
    if 'A' <= c <= 'Z' then (c as int + 32) as char else c
  }

  /** String.prototype.toLowerCase, character by character. */
  function Lower(s: string): (r: string)
    ensures |r| == |s|
    ensures forall i :: 0 <= i < |r| ==> !('A' <= r[i] <= 'Z')
    ensures forall i :: 0 <= i < |s| && 'A' <= s[i] <= 'Z' ==> r[i] == (s[i] as int + 32) as char
    ensures forall i :: 0 <= i < |r| ==> !('A' <= s[i] <= 'Z') ==> r[i] == s[i]
  {
    seq(|s|, i requires 0 <= i < |s| => LowerChar(s[i]))
  }

  /** The UTF-16 code units a character takes: two (a surrogate pair) beyond
      U+FFFF, one otherwise. */
  function Utf16Units(c: char): nat {
    if c as int > 0xFFFF then 2 else 1
  }

  /** The `length` of a string: its number of UTF-16 code units. */
  function Utf16Length(s: string): (n: nat)
    ensures |s| <= n <= 2 * |s|
    ensures n == 0 <==> s == []
    ensures |s| == 1 ==> n == Utf16Units(s[0])
  {
    if s == [] then 0 else Utf16Units(s[0]) + Utf16Length(s[1..])
  }

  /** The length of a concatenation is the sum of the lengths: each character
      contributes its own units wherever it stands. */
  lemma {:induction false} Utf16LengthAppend(a: string, b: string)
    ensures Utf16Length(a + b) == Utf16Length(a) + Utf16Length(b)
  {
    if a != [] {
      assert (a + b)[0] == a[0] && (a + b)[1..] == a[1..] + b;
      Utf16LengthAppend(a[1..], b);
    } else {
      assert a + b == b;
    }
  }

  /** Lower-casing keeps the `length`: it only maps ASCII letters to ASCII
      letters. */
  lemma {:induction false} LowerKeepsUtf16Length(s: string)
    ensures Utf16Length(Lower(s)) == Utf16Length(s)
  {
    if s != [] {
      var r := Lower(s);
      assert r[1..] == Lower(s[1..]);
      assert Utf16Units(r[0]) == Utf16Units(s[0]);
      LowerKeepsUtf16Length(s[1..]);
    }
  }

  /** A character beyond U+FFFF counts as two: 101 of them exceed a limit of 200. */
  lemma AstralCountsTwice()
    ensures var s := seq(101, _ => '\U{1F600}'); |s| == 101 && Utf16Length(s) == 202
  {
    var s := seq(101, _ => '\U{1F600}');
    AllUnits(s, 2);
  }

  /** A string whose every character takes k units has length k * |s|. */
  lemma {:induction false} AllUnits(s: string, k: nat)
    requires forall i :: 0 <= i < |s| ==> Utf16Units(s[i]) == k
    ensures Utf16Length(s) == k * |s|
  {
    if s != [] {
      AllUnits(s[1..], k);
    }
  }
}
