/** Why the flattened rows come out in pre-order: the ancestor chains of the rows
    are strictly increasing in the lexicographic order that compares siblings by
    `SiblingBefore` and puts an ancestor before its descendants; and every ancestor
    chain of the input appears among them. */
module TaskTreeOrder {
  import opened Wrappers
  import opened Seqs
  import opened Model
  import opened StableSort
  import opened TaskTree

  /** Sibling order: open before completed, then by creation time, then by input position. */
  predicate SiblingBefore(all: seq<Task>, a: Task, b: Task) {
    || (!a.completed && b.completed)
    || (a.completed == b.completed && StableBefore(all, a, b))
  }

  predicate SiblingOrdered(all: seq<Task>, s: seq<Task>) {
    forall i, j :: 0 <= i < j < |s| ==> SiblingBefore(all, s[i], s[j])
  }

  /** Pre-order on ancestor chains: a proper prefix comes first; otherwise the
      first differing tasks, which are siblings, decide. */
  predicate LexBefore(all: seq<Task>, p: seq<Task>, q: seq<Task>)
    decreases |p|
  {
    if p == [] then q != []
    else if q == [] then false
    else if p[0] == q[0] then LexBefore(all, p[1..], q[1..])
    else SiblingBefore(all, p[0], q[0])
  }

  ghost predicate LexSorted(all: seq<Task>, qs: seq<seq<Task>>) {
    forall i, j :: 0 <= i < j < |qs| ==> LexBefore(all, qs[i], qs[j])
  }

  // ---- the order of siblings ----

  lemma ConcatByStatus(all: seq<Task>, a: seq<Task>, b: seq<Task>)
    requires StablySorted(all, a) && StablySorted(all, b)
    requires forall x :: x in a ==> !x.completed
    requires forall x :: x in b ==> x.completed
    ensures SiblingOrdered(all, a + b)
  {
    var s := a + b;
    forall i, j | 0 <= i < j < |s| ensures SiblingBefore(all, s[i], s[j]) {
      if j < |a| {
        assert s[i] == a[i] && s[j] == a[j];
      } else if i >= |a| {
        assert s[i] == b[i - |a|] && s[j] == b[j - |a|];
      } else {
        assert s[i] == a[i] && s[j] == b[j - |a|];
        assert s[i] in a && s[j] in b;
      }
    }
  }

  /** Roots come open first, then completed, each group by creation time and then input order. */
  lemma RootOrderSorted(all: seq<Task>)
    requires DistinctIds(all)
    ensures SiblingOrdered(all, RootOrder(all))
  {
    DistinctIdsDistinct(all);
    FilterAscending(all, IsOpenRoot);
    FilterAscending(all, IsDoneRoot);
    var open := SortByCreated(Filter(all, IsOpenRoot));
    var done := SortByCreated(Filter(all, IsDoneRoot));
    SortStable(all, Filter(all, IsOpenRoot));
    SortStable(all, Filter(all, IsDoneRoot));
    ConcatByStatus(all, open, done);
  }

  /** The children of a task come in the same order as the roots. */
  lemma ChildOrderSorted(all: seq<Task>, parent: Task)
    requires DistinctIds(all)
    ensures SiblingOrdered(all, ChildOrder(all, parent))
  {
    DistinctIdsDistinct(all);
    var kids := Filter(all, IsChildOf(parent.id));
    FilterAscending(all, IsChildOf(parent.id));
    SortStable(all, kids);
    var sorted := SortByCreated(kids);
    FilterStable(all, sorted, IsOpen);
    FilterStable(all, sorted, IsDone);
    ConcatByStatus(all, Filter(sorted, IsOpen), Filter(sorted, IsDone));
  }

  // ---- ancestor chains ----

  lemma ChainPrefix(all: seq<Task>, q: seq<Task>, n: nat)
    requires Chain(all, q) && n <= |q|
    ensures Chain(all, q[..n])
  {
    var p := q[..n];
    forall i: nat ensures LinksToParent(p, i) {
      if i < |p| {
        assert LinksToParent(q, i);
        assert p[..i] == q[..i];
      }
    }
  }

  /** With distinct ids, a task has exactly one ancestor chain. */
  lemma {:induction false} ChainUnique(all: seq<Task>, p: seq<Task>, q: seq<Task>)
    requires DistinctIds(all) && Chain(all, p) && Chain(all, q)
    requires p != [] && q != [] && Last(p) == Last(q)
    ensures p == q
    decreases |p|
  {
    var n, m := |p|, |q|;
    var x := Last(p);
    assert LinksToParent(p, n - 1) && LinksToParent(q, m - 1);
    assert x.parentId == ParentKey(p[..n - 1]);
    assert x == q[m - 1];
    assert x.parentId == ParentKey(q[..m - 1]);
    if n == 1 {
      assert |q[..m - 1]| == 0;
      assert p == [x] == q;
    } else {
      assert |q[..m - 1]| > 0;
      var pp, qq := p[..n - 1], q[..m - 1];
      assert Last(pp).id == Last(qq).id;
      assert Last(pp) == p[n - 2] && Last(qq) == q[m - 2];
      SameIdSameTask(all, Last(pp), Last(qq));
      ChainPrefix(all, p, n - 1);
      ChainPrefix(all, q, m - 1);
      ChainUnique(all, pp, qq);
      assert p == pp + [x];
      assert q == qq + [x];
    }
  }

  /** Two chains ending in tasks with the same parent id share everything before their last task. */
  lemma SameParentSamePrefix(all: seq<Task>, p: seq<Task>, q: seq<Task>)
    requires DistinctIds(all) && Chain(all, p) && Chain(all, q)
    requires p != [] && q != [] && Last(p).parentId == Last(q).parentId
    ensures p[..|p| - 1] == q[..|q| - 1]
  {
    var pu, qu := p[..|p| - 1], q[..|q| - 1];
    assert LinksToParent(p, |p| - 1) && LinksToParent(q, |q| - 1);
    assert Last(p).parentId == ParentKey(pu);
    assert Last(q).parentId == ParentKey(qu);
    if pu != [] {
      assert qu != [];
      assert Last(pu) == p[|p| - 2] && Last(qu) == q[|q| - 2];
      SameIdSameTask(all, Last(pu), Last(qu));
      ChainPrefix(all, p, |p| - 1);
      ChainPrefix(all, q, |q| - 1);
      ChainUnique(all, pu, qu);
    }
  }

  lemma {:induction false} NodeTraceChains(all: seq<Task>, t: Task, path: seq<Task>)
    requires DistinctIds(all) && Chain(all, path) && path != [] && Last(path) == t
    ensures forall k :: 0 <= k < |NodeTrace(all, t, path)| ==> Chain(all, NodeTrace(all, t, path)[k])
    decreases Unvisited(all, path), 1, 0
  {
    var children := ChildOrder(all, t);
    assert ParentKey(path) == Some(t.id);
    ForestTraceChains(all, children, path);
    var below := ForestTrace(all, children, path);
    var qs := NodeTrace(all, t, path);
    assert qs == [path] + below;
    forall k | 0 < k < |qs| ensures Chain(all, qs[k]) {
      assert qs[k] == below[k - 1];
    }
  }

  lemma {:induction false} ForestTraceChains(all: seq<Task>, cs: seq<Task>, path: seq<Task>)
    requires DistinctIds(all) && Chain(all, path)
    requires forall c :: c in cs ==> c in all && c.parentId == ParentKey(path)
    ensures forall k :: 0 <= k < |ForestTrace(all, cs, path)| ==> Chain(all, ForestTrace(all, cs, path)[k])
    decreases Unvisited(all, path), 0, |cs|
  {
    if cs != [] {
      ExtendChain(all, path, cs[0]);
      NodeTraceChains(all, cs[0], path + [cs[0]]);
      ForestTraceChains(all, cs[1..], path);
      var head := NodeTrace(all, cs[0], path + [cs[0]]);
      var rest := ForestTrace(all, cs[1..], path);
      var qs := ForestTrace(all, cs, path);
      assert qs == head + rest;
      forall k | 0 <= k < |qs| ensures Chain(all, qs[k]) {
        if k < |head| {
          assert qs[k] == head[k];
        } else {
          assert qs[k] == rest[k - |head|];
        }
      }
    }
  }

  // ---- the pre-order on chains ----

  lemma {:induction false} LexIrreflexive(all: seq<Task>, p: seq<Task>)
    ensures !LexBefore(all, p, p)
    decreases |p|
  {
    if p != [] {
      LexIrreflexive(all, p[1..]);
    }
  }

  lemma {:induction false} LexAsymmetric(all: seq<Task>, p: seq<Task>, q: seq<Task>)
    requires LexBefore(all, p, q)
    ensures !LexBefore(all, q, p)
    decreases |p|
  {
    if p != [] && q != [] && p[0] == q[0] {
      LexAsymmetric(all, p[1..], q[1..]);
    }
  }

  /** An ancestor's chain precedes its descendants' chains. */
  lemma {:induction false} LexPrefix(all: seq<Task>, p: seq<Task>, q: seq<Task>)
    requires p < q
    ensures LexBefore(all, p, q)
    decreases |p|
  {
    if p != [] {
      assert p[0] == q[0];
      LexPrefix(all, p[1..], q[1..]);
    }
  }

  /** Chains that agree up to `d` and then hold siblings in order are in order. */
  lemma {:induction false} LexFork(all: seq<Task>, p: seq<Task>, q: seq<Task>, d: nat)
    requires d < |p| && d < |q| && p[..d] == q[..d]
    requires SiblingBefore(all, p[d], q[d])
    ensures LexBefore(all, p, q)
    decreases d
  {
    if d > 0 {
      assert p[0] == p[..d][0] == q[..d][0] == q[0];
      assert p[1..][..d - 1] == p[..d][1..] == q[..d][1..] == q[1..][..d - 1];
      LexFork(all, p[1..], q[1..], d - 1);
    }
  }

  /** Two siblings below the same ancestors are ordered as the siblings are. */
  lemma {:induction false} LexSiblings(all: seq<Task>, prefix: seq<Task>, a: Task, b: Task)
    requires LexBefore(all, prefix + [a], prefix + [b])
    ensures SiblingBefore(all, a, b)
    decreases |prefix|
  {
    if prefix == [] {
      assert [a][1..] == [] == [b][1..];
    } else {
      assert (prefix + [a])[1..] == prefix[1..] + [a];
      assert (prefix + [b])[1..] == prefix[1..] + [b];
      LexSiblings(all, prefix[1..], a, b);
    }
  }

  /** Whatever lies strictly between a chain and the chain of one of its children
      lies below that chain. */
  lemma {:induction false} LexBetween(all: seq<Task>, prefix: seq<Task>, b: Task, x: seq<Task>)
    requires LexBefore(all, prefix, x) && LexBefore(all, x, prefix + [b])
    ensures prefix < x
    decreases |prefix|
  {
    if prefix != [] {
      var q := prefix + [b];
      assert q[0] == prefix[0] && q[1..] == prefix[1..] + [b];
      if x[0] == prefix[0] {
        LexBetween(all, prefix[1..], b, x[1..]);
        assert x == [x[0]] + x[1..];
      } else {
        assert false;
      }
    }
  }

  lemma LexSortedConcat(all: seq<Task>, a: seq<seq<Task>>, b: seq<seq<Task>>)
    requires LexSorted(all, a) && LexSorted(all, b)
    requires forall i, j :: 0 <= i < |a| && 0 <= j < |b| ==> LexBefore(all, a[i], b[j])
    ensures LexSorted(all, a + b)
  {
    var s := a + b;
    forall i, j | 0 <= i < j < |s| ensures LexBefore(all, s[i], s[j]) {
      if j < |a| {
        assert s[i] == a[i] && s[j] == a[j];
      } else if i >= |a| {
        assert s[i] == b[i - |a|] && s[j] == b[j - |a|];
      } else {
        assert s[i] == a[i] && s[j] == b[j - |a|];
      }
    }
  }

  lemma {:induction false} NodeTraceSorted(all: seq<Task>, t: Task, path: seq<Task>)
    requires DistinctIds(all) && Chain(all, path) && path != [] && Last(path) == t
    ensures LexSorted(all, NodeTrace(all, t, path))
    decreases Unvisited(all, path), 1, 0
  {
    var children := ChildOrder(all, t);
    assert ParentKey(path) == Some(t.id);
    ChildOrderSorted(all, t);
    ForestTraceSorted(all, children, path);
    var below := ForestTrace(all, children, path);
    assert NodeTrace(all, t, path) == [path] + below;
    forall j | 0 <= j < |below| ensures LexBefore(all, path, below[j]) {
      LexPrefix(all, path, below[j]);
    }
    LexSortedConcat(all, [path], below);
  }

  lemma {:induction false} ForestTraceSorted(all: seq<Task>, cs: seq<Task>, path: seq<Task>)
    requires DistinctIds(all) && Chain(all, path)
    requires forall c :: c in cs ==> c in all && c.parentId == ParentKey(path)
    requires SiblingOrdered(all, cs)
    ensures LexSorted(all, ForestTrace(all, cs, path))
    decreases Unvisited(all, path), 0, |cs|
  {
    if cs != [] {
      ExtendChain(all, path, cs[0]);
      NodeTraceSorted(all, cs[0], path + [cs[0]]);
      assert SiblingOrdered(all, cs[1..]) by {
        forall i, j | 0 <= i < j < |cs| - 1 ensures SiblingBefore(all, cs[1..][i], cs[1..][j]) {
          assert cs[1..][i] == cs[i + 1] && cs[1..][j] == cs[j + 1];
        }
      }
      ForestTraceSorted(all, cs[1..], path);
      var head := NodeTrace(all, cs[0], path + [cs[0]]);
      var rest := ForestTrace(all, cs[1..], path);
      assert ForestTrace(all, cs, path) == head + rest;
      forall i, j | 0 <= i < |head| && 0 <= j < |rest| ensures LexBefore(all, head[i], rest[j]) {
        SubtreesInOrder(all, cs, path, head[i], rest[j]);
      }
      LexSortedConcat(all, head, rest);
    }
  }

  /** A chain below the first sibling precedes every chain below a later sibling. */
  lemma SubtreesInOrder(all: seq<Task>, cs: seq<Task>, path: seq<Task>, p: seq<Task>, q: seq<Task>)
    requires cs != [] && SiblingOrdered(all, cs)
    requires path + [cs[0]] <= p
    requires path < q && q[|path|] in cs[1..]
    ensures LexBefore(all, p, q)
  {
    assert p[|path|] == (path + [cs[0]])[|path|] == cs[0];
    var m :| 0 <= m < |cs| - 1 && cs[1..][m] == q[|path|];
    assert SiblingBefore(all, cs[0], cs[m + 1]);
    assert p[..|path|] == path == q[..|path|];
    LexFork(all, p, q, |path|);
  }

  // ---- every ancestor chain is emitted ----

  lemma {:induction false} NodeTraceComplete(all: seq<Task>, t: Task, path: seq<Task>, q: seq<Task>)
    requires DistinctIds(all) && Chain(all, path) && path != [] && Last(path) == t
    requires Chain(all, q) && path <= q
    ensures q in NodeTrace(all, t, path)
    decreases Unvisited(all, path), 1, 0
  {
    var children := ChildOrder(all, t);
    assert ParentKey(path) == Some(t.id);
    if |q| == |path| {
      assert q == path;
    } else {
      var c := q[|path|];
      assert q[..|path|] == path;
      assert LinksToParent(q, |path|);
      assert c.parentId == ParentKey(q[..|path|]);
      assert c in children;
      ForestTraceComplete(all, children, path, q);
    }
  }

  lemma {:induction false} ForestTraceComplete(all: seq<Task>, cs: seq<Task>, path: seq<Task>, q: seq<Task>)
    requires DistinctIds(all) && Chain(all, path)
    requires forall c :: c in cs ==> c in all && c.parentId == ParentKey(path)
    requires Chain(all, q) && path < q && q[|path|] in cs
    ensures q in ForestTrace(all, cs, path)
    decreases Unvisited(all, path), 0, |cs|
  {
    ExtendChain(all, path, cs[0]);
    var head := NodeTrace(all, cs[0], path + [cs[0]]);
    var rest := ForestTrace(all, cs[1..], path);
    assert ForestTrace(all, cs, path) == head + rest;
    if cs[0] == q[|path|] {
      assert path + [cs[0]] <= q;
      NodeTraceComplete(all, cs[0], path + [cs[0]], q);
    } else {
      assert q[|path|] in cs[1..];
      ForestTraceComplete(all, cs[1..], path, q);
    }
  }
}
