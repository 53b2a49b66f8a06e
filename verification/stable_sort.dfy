/** Rust's `sort_by_key(|t| t.created_at)`: a stable sort of tasks by creation
    time. It is modelled as an insertion sort that places each element in
    front of every later element with an equal or larger key, which is what
    makes equal keys keep their input order. */
module StableSort {
  import opened Seqs
  import opened Model

  /** Creation times never decrease along `s`. */
  predicate SortedByCreated(s: seq<Task>) {
    forall i, j :: 0 <= i < j < |s| ==> s[i].createdAt <= s[j].createdAt
  }

  /** `a` sorts before `b`: earlier creation time, or the same time and an earlier position in `all`. */
  predicate StableBefore(all: seq<Task>, a: Task, b: Task) {
    || a.createdAt < b.createdAt
    || (a.createdAt == b.createdAt && IndexOf(all, a) < IndexOf(all, b))
  }

  /** Every pair of `s` is in stable-sort order relative to the input `all`. */
  predicate StablySorted(all: seq<Task>, s: seq<Task>) {
    forall i, j :: 0 <= i < j < |s| ==> StableBefore(all, s[i], s[j])
  }

  /** Places `t` in front of the first element whose key is not smaller. */
  function Insert(t: Task, s: seq<Task>): (r: seq<Task>)
    ensures |r| == |s| + 1
    ensures forall x :: x in r <==> x == t || x in s
  {
    if s == [] || t.createdAt <= s[0].createdAt then [t] + s
    else
      assert s == [s[0]] + s[1..];
      [s[0]] + Insert(t, s[1..])
  }

  /** Inserting into a sorted list keeps it sorted. */
  lemma {:induction false} InsertSorted(t: Task, s: seq<Task>)
    requires SortedByCreated(s)
    ensures SortedByCreated(Insert(t, s))
  {
    if s == [] || t.createdAt <= s[0].createdAt {
      ConsSorted(t, s);
    } else {
      HeadSorted(s);
      InsertSorted(t, s[1..]);
      ConsSorted(s[0], Insert(t, s[1..]));
    }
  }

  /** The tail of a sorted list is sorted and no earlier than its head. */
  lemma HeadSorted(s: seq<Task>)
    requires s != []
    ensures SortedByCreated(s) ==> SortedByCreated(s[1..])
    ensures SortedByCreated(s) ==> forall x :: x in s[1..] ==> s[0].createdAt <= x.createdAt
  {
    if SortedByCreated(s) {
      forall i, j | 0 <= i < j < |s| - 1 ensures s[1..][i].createdAt <= s[1..][j].createdAt {
        assert s[1..][i] == s[i + 1] && s[1..][j] == s[j + 1];
      }
      forall x | x in s[1..] ensures s[0].createdAt <= x.createdAt {
        var k :| 0 <= k < |s| - 1 && s[1..][k] == x;
        assert s[k + 1] == x;
      }
    }
  }

  /** Putting a task in front of a list keeps it sorted when the list is sorted
      and the task is no later than every element. */
  lemma ConsSorted(h: Task, rest: seq<Task>)
    ensures SortedByCreated(rest) && (forall x :: x in rest ==> h.createdAt <= x.createdAt) ==>
      SortedByCreated([h] + rest)
  {
    if SortedByCreated(rest) && (forall x :: x in rest ==> h.createdAt <= x.createdAt) {
      var r := [h] + rest;
      forall i, j | 0 <= i < j < |r| ensures r[i].createdAt <= r[j].createdAt {
        assert r[j] == rest[j - 1] && rest[j - 1] in rest;
        if i > 0 {
          assert r[i] == rest[i - 1];
        }
      }
    }
  }

  function SortByCreated(s: seq<Task>): (r: seq<Task>)
    ensures forall x :: x in r <==> x in s
    ensures |r| == |s|
  {
    if s == [] then []
    else
      assert s == [s[0]] + s[1..];
      Insert(s[0], SortByCreated(s[1..]))
  }

  /** The sort leaves tasks in non-decreasing creation time. */
  lemma {:induction false} SortSorted(s: seq<Task>)
    ensures SortedByCreated(SortByCreated(s))
  {
    if s != [] {
      SortSorted(s[1..]);
      InsertSorted(s[0], SortByCreated(s[1..]));
    }
  }

  /** Inserting adds exactly one occurrence of `t` and changes nothing else. */
  lemma {:induction false} InsertPermutes(t: Task, s: seq<Task>)
    ensures multiset(Insert(t, s)) == multiset(s) + multiset{t}
  {
    if s != [] && t.createdAt > s[0].createdAt {
      InsertPermutes(t, s[1..]);
      assert s == [s[0]] + s[1..];
    }
  }

  /** The sort is a permutation: every task occurs as often in the result as in the input. */
  lemma {:induction false} SortPermutes(s: seq<Task>)
    ensures multiset(SortByCreated(s)) == multiset(s)
  {
    if s != [] {
      SortPermutes(s[1..]);
      InsertPermutes(s[0], SortByCreated(s[1..]));
      assert s == [s[0]] + s[1..];
    }
  }

  /** The tail of a stably sorted list is stably sorted and comes after its head. */
  lemma HeadStable(all: seq<Task>, s: seq<Task>)
    requires StablySorted(all, s) && s != []
    ensures StablySorted(all, s[1..])
    ensures forall x :: x in s[1..] ==> StableBefore(all, s[0], x)
  {
    forall i, j | 0 <= i < j < |s| - 1 ensures StableBefore(all, s[1..][i], s[1..][j]) {
      assert s[1..][i] == s[i + 1] && s[1..][j] == s[j + 1];
    }
    forall x | x in s[1..] ensures StableBefore(all, s[0], x) {
      var k :| 0 <= k < |s| - 1 && s[1..][k] == x;
      assert s[k + 1] == x;
    }
  }

  /** A head that sorts before every element of a stably sorted list can be put in front. */
  lemma ConsStable(all: seq<Task>, h: Task, rest: seq<Task>)
    requires StablySorted(all, rest)
    requires forall x :: x in rest ==> StableBefore(all, h, x)
    ensures StablySorted(all, [h] + rest)
  {
    var r := [h] + rest;
    forall i, j | 0 <= i < j < |r| ensures StableBefore(all, r[i], r[j]) {
      assert r[j] == rest[j - 1] && rest[j - 1] in rest;
      if i > 0 {
        assert r[i] == rest[i - 1];
      }
    }
  }

  /** Inserting an element that precedes all others in the input keeps the list stably sorted. */
  lemma {:induction false} InsertStable(all: seq<Task>, t: Task, s: seq<Task>)
    requires StablySorted(all, s)
    requires forall x :: x in s ==> IndexOf(all, t) < IndexOf(all, x)
    ensures StablySorted(all, Insert(t, s))
  {
    if s == [] {
      ConsStable(all, t, s);
    } else if t.createdAt <= s[0].createdAt {
      HeadStable(all, s);
      assert s == [s[0]] + s[1..];
      ConsStable(all, t, s);
    } else {
      HeadStable(all, s);
      InsertStable(all, t, s[1..]);
      var tail := Insert(t, s[1..]);
      ConsStable(all, s[0], tail);
    }
  }

  /** Sorting a list that follows the input's order yields a stably sorted list. */
  lemma {:induction false} SortStable(all: seq<Task>, s: seq<Task>)
    requires Ascending(all, s)
    ensures StablySorted(all, SortByCreated(s))
  {
    if s != [] {
      assert Ascending(all, s[1..]) by {
        forall i, j | 0 <= i < j < |s| - 1 ensures IndexOf(all, s[1..][i]) < IndexOf(all, s[1..][j]) {
          assert s[1..][i] == s[i + 1] && s[1..][j] == s[j + 1];
        }
      }
      SortStable(all, s[1..]);
      forall x | x in SortByCreated(s[1..]) ensures IndexOf(all, s[0]) < IndexOf(all, x) {
        var k :| 1 <= k < |s| && s[k] == x;
      }
      InsertStable(all, s[0], SortByCreated(s[1..]));
    }
  }

  /** Filtering a stably sorted list leaves it stably sorted. */
  lemma {:induction false} FilterStable(all: seq<Task>, s: seq<Task>, p: Task -> bool)
    requires StablySorted(all, s)
    ensures StablySorted(all, Filter(s, p))
  {
    if s != [] {
      HeadStable(all, s);
      FilterStable(all, s[1..], p);
      var rest := Filter(s[1..], p);
      assert s == [s[0]] + s[1..];
      assert Filter(s, p) == (if p(s[0]) then [s[0]] else []) + rest;
      if p(s[0]) {
        ConsStable(all, s[0], rest);
      }
    }
  }
}
