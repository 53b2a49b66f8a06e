/** The task-hierarchy flattener of the tree-shaped client: `build_task_hierarchy`
    and `add_task_and_children`. A flat list of tasks linked by parent ids becomes
    an ordered list of display rows (task, indentation level, position).

    Termination: the recursion follows parent links downwards. It is proved by a
    ghost `path` argument, the chain of ancestors from a root to the current task;
    each step removes one task of the input from the set not yet on the path.
    That the next child is never already on the path needs distinct task ids. */
module TaskTree {
  import opened Wrappers
  import opened Seqs
  import opened Model
  import opened StableSort

  /** One display row: the task, its depth below a root, and its position in the list. */
  datatype Row = Row(task: Task, level: nat, index: nat)

  predicate IsOpenRoot(t: Task) { !t.completed && t.parentId == None }
  predicate IsDoneRoot(t: Task) { t.completed && t.parentId == None }
  predicate IsOpen(t: Task) { !t.completed }
  predicate IsDone(t: Task) { t.completed }
  function IsChildOf(id: int): Task -> bool { (t: Task) => t.parentId == Some(id) }

  /** The roots in display order: open roots, then completed roots, each group
      filtered and then sorted by creation time. */
  function RootOrder(all: seq<Task>): (cs: seq<Task>)
    ensures forall c :: c in cs <==> c in all && c.parentId == None
  {
    SortByCreated(Filter(all, IsOpenRoot)) + SortByCreated(Filter(all, IsDoneRoot))
  }

  /** The direct children of `parent` in display order: all children sorted by
      creation time, then split into open ones followed by completed ones. */
  function ChildOrder(all: seq<Task>, parent: Task): (cs: seq<Task>)
    ensures forall c :: c in cs <==> c in all && c.parentId == Some(parent.id)
  {
    var children := SortByCreated(Filter(all, IsChildOf(parent.id)));
    Filter(children, IsOpen) + Filter(children, IsDone)
  }

  /** The parent id a task must carry to extend `path`: none for a root. */
  function ParentKey(path: seq<Task>): Option<int> {
    if path == [] then None else Some(path[|path| - 1].id)
  }

  function Last(q: seq<Task>): Task
    requires q != []
  {
    q[|q| - 1]
  }

  /** `q` is an ancestor chain of `all`: it starts at a root, each task is a child
      of the one before it, and no task repeats. */
  ghost predicate Chain(all: seq<Task>, q: seq<Task>) {
    && (forall i :: 0 <= i < |q| ==> q[i] in all)
    && Distinct(q)
    && (forall i: nat :: LinksToParent(q, i))
  }

  /** The task at position `i` of `q`, if any, is a child of the task before it (a root at position 0). */
  predicate LinksToParent(q: seq<Task>, i: nat) {
    i < |q| ==> q[i].parentId == ParentKey(q[..i])
  }

  /** Tasks of `all` not yet on the ancestor chain: the termination measure. */
  ghost function Unvisited(all: seq<Task>, path: seq<Task>): set<Task> {
    set t | t in all && t !in path
  }

  /** A task whose parent id is the id of the last task on a chain is not on the
      chain, so appending it gives a longer chain and fewer unvisited tasks. */
  lemma ExtendChain(all: seq<Task>, path: seq<Task>, c: Task)
    requires DistinctIds(all) && Chain(all, path)
    requires c in all && c.parentId == ParentKey(path)
    ensures c !in path
    ensures Chain(all, path + [c])
    ensures Unvisited(all, path + [c]) < Unvisited(all, path)
  {
    forall i | 0 <= i < |path| ensures path[i] != c {
      assert LinksToParent(path, i);
      if i > 0 {
        assert path[..i][i - 1] == path[i - 1];
        assert path[i - 1] != Last(path);
        DifferentTaskDifferentId(all, path[i - 1], Last(path));
      }
    }
    var q := path + [c];
    forall i: nat ensures LinksToParent(q, i) {
      if i < |path| {
        assert LinksToParent(path, i);
        assert q[..i] == path[..i];
      } else if i == |path| {
        assert q[..i] == path;
      }
    }
    assert c in Unvisited(all, path);
  }

  lemma DifferentTaskDifferentId(ts: seq<Task>, a: Task, b: Task)
    requires DistinctIds(ts) && a in ts && b in ts && a != b
    ensures a.id != b.id
  {
    var i := IndexOf(ts, a);
    var j := IndexOf(ts, b);
    assert ts[i] == a && ts[j] == b;
  }

  /** Row `k` of `rows` shows the last task of the ancestor chain `trace[k]`,
      indented by the chain's length less `base`, at position `index + k`. */
  ghost predicate Aligned(rows: seq<Row>, trace: seq<seq<Task>>, index: nat, base: int) {
    && |rows| == |trace|
    && forall k :: 0 <= k < |rows| ==>
      && trace[k] != []
      && rows[k].task == Last(trace[k])
      && rows[k].level == |trace[k]| - base
      && rows[k].index == index + k
  }

  lemma AlignedConcat(r1: seq<Row>, t1: seq<seq<Task>>, r2: seq<Row>, t2: seq<seq<Task>>, index: nat, base: int)
    requires Aligned(r1, t1, index, base) && Aligned(r2, t2, index + |r1|, base)
    ensures Aligned(r1 + r2, t1 + t2, index, base)
  {
    var rows, trace := r1 + r2, t1 + t2;
    forall k | |r1| <= k < |rows|
      ensures trace[k] != [] && rows[k].task == Last(trace[k])
      ensures rows[k].level == |trace[k]| - base && rows[k].index == index + k
    {
      assert rows[k] == r2[k - |r1|] && trace[k] == t2[k - |r1|];
    }
  }

  /** `add_task_and_children`: the row of `t`, then the subtrees of its children. */
  function AddTaskAndChildren(all: seq<Task>, t: Task, level: nat, index: nat, ghost path: seq<Task>)
    : (rows: seq<Row>)
    requires DistinctIds(all) && Chain(all, path) && path != [] && Last(path) == t
    ensures Aligned(rows, NodeTrace(all, t, path), index, |path| - level)
    decreases Unvisited(all, path), 1, 0
  {
    ChildrenStart(all, t, path);
    var sub := AddSubtrees(all, ChildOrder(all, t), level + 1, index + 1, path);
    NodeAligned(all, t, level, index, path, sub);
    [Row(t, level, index)] + sub
  }

  /** The children of the last task on a chain are the tasks that may extend it. */
  lemma ChildrenStart(all: seq<Task>, t: Task, path: seq<Task>)
    requires path != [] && Last(path) == t
    ensures forall c :: c in ChildOrder(all, t) ==> c in all && c.parentId == ParentKey(path)
  {
  }

  /** The row of `t` followed by rows aligned with its children's trace is aligned with its own trace. */
  lemma NodeAligned(all: seq<Task>, t: Task, level: nat, index: nat, path: seq<Task>, sub: seq<Row>)
    requires DistinctIds(all) && Chain(all, path) && path != [] && Last(path) == t
    requires Aligned(sub, ForestTrace(all, ChildOrder(all, t), path), index + 1, |path| + 1 - (level + 1))
    ensures Aligned([Row(t, level, index)] + sub, NodeTrace(all, t, path), index, |path| - level)
  {
    assert ParentKey(path) == Some(t.id);
    AlignedConcat([Row(t, level, index)], [path], sub, ForestTrace(all, ChildOrder(all, t), path), index, |path| - level);
  }

  /** The loops over open and then completed children: each child's subtree in turn,
      numbering rows on from `index`. */
  function AddSubtrees(all: seq<Task>, cs: seq<Task>, level: nat, index: nat, ghost path: seq<Task>)
    : (rows: seq<Row>)
    requires DistinctIds(all) && Chain(all, path)
    requires forall c :: c in cs ==> c in all && c.parentId == ParentKey(path)
    ensures Aligned(rows, ForestTrace(all, cs, path), index, |path| + 1 - level)
    decreases Unvisited(all, path), 0, |cs|
  {
    if cs == [] then []
    else
      FirstChild(all, cs, path);
      var q := path + [cs[0]];
      var base := |path| + 1 - level;
      assert |q| - level == base;
      var head := AddTaskAndChildren(all, cs[0], level, index, q);
      var rest := AddSubtrees(all, cs[1..], level, index + |head|, path);
      TraceUnfold(all, cs, path);
      AlignedConcat(head, NodeTrace(all, cs[0], q), rest, ForestTrace(all, cs[1..], path), index, base);
      head + rest
  }

  /** One step of `ForestTrace` on a non-empty list of children. */
  lemma TraceUnfold(all: seq<Task>, cs: seq<Task>, path: seq<Task>)
    requires DistinctIds(all) && Chain(all, path) && cs != []
    requires forall c :: c in cs ==> c in all && c.parentId == ParentKey(path)
    requires Chain(all, path + [cs[0]]) && path + [cs[0]] != [] && Last(path + [cs[0]]) == cs[0]
    requires forall c :: c in cs[1..] ==> c in all && c.parentId == ParentKey(path)
    ensures ForestTrace(all, cs, path) == NodeTrace(all, cs[0], path + [cs[0]]) + ForestTrace(all, cs[1..], path)
  {
  }

  /** The first of a list of children extends the chain, and the rest are still children. */
  lemma FirstChild(all: seq<Task>, cs: seq<Task>, path: seq<Task>)
    requires DistinctIds(all) && Chain(all, path) && cs != []
    requires forall c :: c in cs ==> c in all && c.parentId == ParentKey(path)
    ensures Chain(all, path + [cs[0]]) && path + [cs[0]] != [] && Last(path + [cs[0]]) == cs[0]
    ensures Unvisited(all, path + [cs[0]]) < Unvisited(all, path)
    ensures forall c :: c in cs[1..] ==> c in all && c.parentId == ParentKey(path)
  {
    assert cs[0] in cs;
    ExtendChain(all, path, cs[0]);
  }

  /** `build_task_hierarchy`: a fresh list (the previous rows are discarded), the
      subtrees of the open roots and then of the completed roots, from level 0 and
      position 0. */
  function BuildTaskHierarchy(tasks: seq<Task>): (rows: seq<Row>)
    requires DistinctIds(tasks)
    ensures Aligned(rows, BuildTrace(tasks), 0, 1)
  {
    RootsStart(tasks);
    AddSubtrees(tasks, RootOrder(tasks), 0, 0, [])
  }

  /** The empty chain is a chain, and the roots are exactly the tasks that may start one. */
  lemma RootsStart(tasks: seq<Task>)
    ensures Chain(tasks, [])
    ensures forall c :: c in RootOrder(tasks) ==> c in tasks && c.parentId == ParentKey([])
  {
  }

  /** The ancestor chain of every row `AddTaskAndChildren` emits, in the same order. */
  ghost function NodeTrace(all: seq<Task>, t: Task, path: seq<Task>): (qs: seq<seq<Task>>)
    requires DistinctIds(all) && Chain(all, path) && path != [] && Last(path) == t
    ensures |qs| >= 1 && qs[0] == path
    ensures forall k :: 0 <= k < |qs| ==> path <= qs[k]
    ensures forall k :: 0 < k < |qs| ==> path < qs[k]
    decreases Unvisited(all, path), 1, 0
  {
    ChildrenStart(all, t, path);
    [path] + ForestTrace(all, ChildOrder(all, t), path)
  }

  /** The ancestor chain of every row `AddSubtrees` emits, in the same order. */
  ghost function ForestTrace(all: seq<Task>, cs: seq<Task>, path: seq<Task>): (qs: seq<seq<Task>>)
    requires DistinctIds(all) && Chain(all, path)
    requires forall c :: c in cs ==> c in all && c.parentId == ParentKey(path)
    ensures forall k :: 0 <= k < |qs| ==> path < qs[k] && qs[k][|path|] in cs
    decreases Unvisited(all, path), 0, |cs|
  {
    if cs == [] then []
    else
      FirstChild(all, cs, path);
      var head := NodeTrace(all, cs[0], path + [cs[0]]);
      var rest := ForestTrace(all, cs[1..], path);
      PrefixesConcat(path, cs, head, rest);
      head + rest
  }

  /** Chains through the first child, then chains through the later children:
      each extends `path` by one of `cs`. */
  lemma PrefixesConcat(path: seq<Task>, cs: seq<Task>, head: seq<seq<Task>>, rest: seq<seq<Task>>)
    requires cs != []
    requires forall k :: 0 <= k < |head| ==> path + [cs[0]] <= head[k]
    requires forall k :: 0 <= k < |rest| ==> path < rest[k] && rest[k][|path|] in cs[1..]
    ensures forall k :: 0 <= k < |head + rest| ==> path < (head + rest)[k] && (head + rest)[k][|path|] in cs
  {
    forall k | 0 <= k < |head + rest| ensures path < (head + rest)[k] && (head + rest)[k][|path|] in cs {
      if k < |head| {
        assert (head + rest)[k] == head[k];
        assert head[k][|path|] == (path + [cs[0]])[|path|] == cs[0];
      } else {
        assert (head + rest)[k] == rest[k - |head|];
      }
    }
  }

  /** The ancestor chains of all rows of `BuildTaskHierarchy(tasks)`. */
  ghost function BuildTrace(tasks: seq<Task>): seq<seq<Task>>
    requires DistinctIds(tasks)
  {
    RootsStart(tasks);
    ForestTrace(tasks, RootOrder(tasks), [])
  }
}
