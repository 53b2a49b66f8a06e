/** Sequence helpers used by the task-tree flattener: order-preserving filtering
    (Rust's `iter().filter()`), first-occurrence positions, and what it means for
    a sequence to list elements of another in that other's order. */
module Seqs {

  /** The elements of `s` satisfying `p`, in their original order. */
  function Filter<T(==,!new)>(s: seq<T>, p: T -> bool): (r: seq<T>)
    ensures |r| <= |s|
    ensures forall x :: x in r <==> x in s && p(x)
    ensures forall i :: 0 <= i < |r| ==> p(r[i])
  {
    if s == [] then []
    else
      assert s == [s[0]] + s[1..];
      (if p(s[0]) then [s[0]] else []) + Filter(s[1..], p)
  }

  /** Position of the first occurrence of `x` in `s`, or `|s|` when `x` does not occur. */
  function IndexOf<T(==)>(s: seq<T>, x: T): (i: nat)
    ensures i <= |s|
    ensures i < |s| <==> x in s
    ensures i < |s| ==> s[i] == x
    ensures forall j :: 0 <= j < i ==> s[j] != x
  {
    if s == [] then 0
    else if s[0] == x then 0
    else 1 + IndexOf(s[1..], x)
  }

  /** No element occurs twice. */
  predicate Distinct<T(==)>(s: seq<T>) {
    forall i, j :: 0 <= i < j < |s| ==> s[i] != s[j]
  }

  /** `s` lists elements in the order in which they first occur in `all`. */
  predicate Ascending<T(==)>(all: seq<T>, s: seq<T>) {
    forall i, j :: 0 <= i < j < |s| ==> IndexOf(all, s[i]) < IndexOf(all, s[j])
  }

  /** Filtering a duplicate-free sequence keeps its elements in that sequence's order. */
  lemma {:induction false} FilterAscending<T(!new)>(s: seq<T>, p: T -> bool)
    requires Distinct(s)
    ensures Ascending(s, Filter(s, p))
  {
    if s != [] {
      var tail := s[1..];
      assert Distinct(tail) by {
        forall i, j | 0 <= i < j < |tail| ensures tail[i] != tail[j] {
          assert tail[i] == s[i + 1] && tail[j] == s[j + 1];
        }
      }
      FilterAscending(tail, p);
      var rest := Filter(tail, p);
      ConsAscending(s, rest);
      assert Filter(s, p) == (if p(s[0]) then [s[0]] else []) + rest;
    }
  }

  /** A list in the order of `s[1..]` stays in `s`'s order, with or without `s[0]` in front. */
  lemma ConsAscending<T>(s: seq<T>, rest: seq<T>)
    requires Distinct(s) && s != []
    requires forall x :: x in rest ==> x in s[1..]
    requires Ascending(s[1..], rest)
    ensures Ascending(s, rest) && Ascending(s, [s[0]] + rest)
  {
    forall x | x in rest ensures IndexOf(s, x) == 1 + IndexOf(s[1..], x) {
      ShiftIndex(s, x);
    }
    forall i, j | 0 <= i < j < |rest| ensures IndexOf(s, rest[i]) < IndexOf(s, rest[j]) {
      assert rest[i] in rest && rest[j] in rest;
    }
    ConsFirst(s, rest);
  }

  /** The first element of `s` can go in front of a list in `s`'s order that does not contain it. */
  lemma ConsFirst<T>(s: seq<T>, rest: seq<T>)
    requires s != [] && Ascending(s, rest)
    requires forall x :: x in rest ==> 0 < IndexOf(s, x)
    ensures Ascending(s, [s[0]] + rest)
  {
    var r := [s[0]] + rest;
    assert IndexOf(s, s[0]) == 0;
    forall i, j | 0 <= i < j < |r| ensures IndexOf(s, r[i]) < IndexOf(s, r[j]) {
      assert r[j] == rest[j - 1] && rest[j - 1] in rest;
      if i == 0 {
        assert r[i] == s[0];
      } else {
        assert r[i] == rest[i - 1];
      }
    }
  }

  lemma ShiftIndex<T>(s: seq<T>, y: T)
    requires Distinct(s) && s != [] && y in s[1..]
    ensures IndexOf(s, y) == 1 + IndexOf(s[1..], y)
  {
    var k := IndexOf(s[1..], y);
    assert s[k + 1] == y;
  }

  /** A non-empty sequence is its front followed by its last element. */
  lemma SplitLast<T>(s: seq<T>)
    requires s != []
    ensures s == s[..|s| - 1] + [s[|s| - 1]]
  {
  }
}
