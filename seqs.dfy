/** Array.prototype.filter and the facts about it that the task store relies on. */
module Seqs {

  datatype Option<T> = None | Some(value: T)

  /** r is what is left of s after deleting some of its elements; the rest keep
      their order. */
  predicate IsSubsequence<T(==)>(r: seq<T>, s: seq<T>)
    decreases |s|
  {
    r == []
    || (s != [] && ((r[0] == s[0] && IsSubsequence(r[1..], s[1..])) || IsSubsequence(r, s[1..])))
  }

  /** Array.prototype.filter: the elements of s that satisfy p, in the order of s. */
  function Filter<T(==,!new)>(s: seq<T>, p: T -> bool): (r: seq<T>)
    ensures forall x {:trigger multiset(r)[x]} :: multiset(r)[x] == if p(x) then multiset(s)[x] else 0
    ensures forall x :: x in r <==> x in s && p(x)
  {
    if s == [] then []
    else
      var rest := Filter(s[1..], p);
      assert s == [s[0]] + s[1..];
      if p(s[0]) then
        assert ([s[0]] + rest)[1..] == rest;
        [s[0]] + rest
      else rest
  }

  /** Filtering keeps the order: its result is a subsequence of its input. */
  lemma {:induction false} FilterIsSubsequence<T(!new)>(s: seq<T>, p: T -> bool)
    ensures IsSubsequence(Filter(s, p), s)
  {
    if s != [] {
      FilterIsSubsequence(s[1..], p);
      var rest := Filter(s[1..], p);
      if p(s[0]) {
        assert Filter(s, p) == [s[0]] + rest;
        assert ([s[0]] + rest)[1..] == rest;
      }
    }
  }

  /** Every sequence is a subsequence of itself. */
  lemma {:induction false} SubsequenceReflexive<T>(s: seq<T>)
    ensures IsSubsequence(s, s)
  {
    if s != [] {
      SubsequenceReflexive(s[1..]);
    }
  }

  /** No two elements of s have the same key. */
  predicate Distinct<T, K(==)>(s: seq<T>, key: T -> K) {
    forall i, j :: 0 <= i < j < |s| ==> key(s[i]) != key(s[j])
  }

  /** Dropping the first element keeps the keys distinct. */
  lemma DistinctTail<T, K>(s: seq<T>, key: T -> K)
    requires s != [] && Distinct(s, key)
    ensures Distinct(s[1..], key)
  {
    forall i, j | 0 <= i < j < |s[1..]| ensures key(s[1..][i]) != key(s[1..][j]) {
      assert s[1..][i] == s[i + 1] && s[1..][j] == s[j + 1];
    }
  }

  /** Filtering keeps every element exactly when every element passes. */
  lemma {:induction false} FilterKeepsAll<T(!new)>(s: seq<T>, p: T -> bool)
    ensures Filter(s, p) == s <==> forall x :: x in s ==> p(x)
  {
    if s != [] && forall x :: x in s ==> p(x) {
      FilterKeepsAll(s[1..], p);
      assert s == [s[0]] + s[1..];
    }
  }

  /** When exactly one element fails the test, filtering removes just that one. */
  lemma {:induction false} FilterDropsOne<T(!new)>(s: seq<T>, p: T -> bool, i: nat)
    requires i < |s| && !p(s[i])
    requires forall j :: 0 <= j < |s| && j != i ==> p(s[j])
    ensures Filter(s, p) == s[..i] + s[i + 1..]
  {
    var tail := s[1..];
    if i == 0 {
      forall x | x in tail ensures p(x) {
        var j :| 0 <= j < |tail| && tail[j] == x;
        assert tail[j] == s[j + 1];
      }
      FilterKeepsAll(tail, p);
      assert s[..0] + s[1..] == tail;
    } else {
      assert Filter(s, p) == [s[0]] + Filter(tail, p);
      forall j | 0 <= j < |tail| && j != i - 1 ensures p(tail[j]) {
        assert tail[j] == s[j + 1];
      }
      FilterDropsOne(tail, p, i - 1);
      assert tail[..i - 1] == s[1..i] && tail[i..] == s[i + 1..];
      assert s[..i] == [s[0]] + s[1..i];
    }
  }

  /** Filtering never brings two equal keys together. */
  lemma {:induction false} FilterKeepsDistinct<T(!new), K>(s: seq<T>, p: T -> bool, key: T -> K)
    requires Distinct(s, key)
    ensures Distinct(Filter(s, p), key)
  {
    if s != [] {
      var rest := Filter(s[1..], p);
      DistinctTail(s, key);
      FilterKeepsDistinct(s[1..], p, key);
      if p(s[0]) {
        var r := [s[0]] + rest;
        forall i, j | 0 <= i < j < |r| ensures key(r[i]) != key(r[j]) {
          if i == 0 {
            assert r[j] == rest[j - 1] && r[j] in s[1..];
            var k :| 0 <= k < |s[1..]| && s[1..][k] == r[j];
            assert s[k + 1] == r[j];
          } else {
            assert r[i] == rest[i - 1] && r[j] == rest[j - 1];
          }
        }
      }
    }
  }

  /** Two complementary filters split s: together they hold every element of s
      exactly as often as s does, and their lengths add up to |s|. */
  lemma SplitByFilter<T(!new)>(s: seq<T>, p: T -> bool, q: T -> bool)
    requires forall x :: q(x) == !p(x)
    ensures multiset(Filter(s, p)) + multiset(Filter(s, q)) == multiset(s)
    ensures |Filter(s, p)| + |Filter(s, q)| == |s|
    ensures forall x :: !(x in Filter(s, p) && x in Filter(s, q))
  {
    var a, b := Filter(s, p), Filter(s, q);
    assert multiset(a) + multiset(b) == multiset(s) by {
      forall x ensures (multiset(a) + multiset(b))[x] == multiset(s)[x] {
        assert multiset(a)[x] == if p(x) then multiset(s)[x] else 0;
      }
    }
    assert |multiset(a) + multiset(b)| == |multiset(s)|;
  }
}
