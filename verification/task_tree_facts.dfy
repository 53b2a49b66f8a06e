/** What the display rows built by `build_task_hierarchy` look like, stated on
    the rows alone: which tasks appear, at which level, and in which order. */
module TaskTreeFacts {
  import opened Wrappers
  import opened Seqs
  import opened Model
  import opened StableSort
  import opened TaskTree
  import opened TaskTreeOrder

  /** `t` is reachable: following parent ids from `t` upwards ends at a task without a parent. */
  ghost predicate Reachable(all: seq<Task>, t: Task) {
    exists q :: Chain(all, q) && q != [] && Last(q) == t
  }

  /** Row `k` shows the last task of the `k`-th traced chain, at the depth of that chain. */
  lemma RowTrace(tasks: seq<Task>, k: int)
    requires DistinctIds(tasks)
    requires 0 <= k < |BuildTaskHierarchy(tasks)|
    ensures |BuildTrace(tasks)| == |BuildTaskHierarchy(tasks)|
    ensures Chain(tasks, BuildTrace(tasks)[k]) && BuildTrace(tasks)[k] != []
    ensures BuildTaskHierarchy(tasks)[k].task == Last(BuildTrace(tasks)[k])
    ensures BuildTaskHierarchy(tasks)[k].level == |BuildTrace(tasks)[k]| - 1
    ensures BuildTaskHierarchy(tasks)[k].index == k
  {
    ForestTraceChains(tasks, RootOrder(tasks), []);
  }

  /** Every ancestor chain of the fetched tasks is traced by some row. */
  lemma RowOfChain(tasks: seq<Task>, q: seq<Task>) returns (k: nat)
    requires DistinctIds(tasks) && Chain(tasks, q) && q != []
    ensures k < |BuildTrace(tasks)| == |BuildTaskHierarchy(tasks)| && BuildTrace(tasks)[k] == q
  {
    assert q[..0] == [] && LinksToParent(q, 0);
    assert q[0].parentId == None;
    ForestTraceComplete(tasks, RootOrder(tasks), [], q);
    k :| 0 <= k < |BuildTrace(tasks)| && BuildTrace(tasks)[k] == q;
  }

  /** Earlier rows trace chains that come earlier in pre-order. */
  lemma RowsLexOrdered(tasks: seq<Task>, i: int, j: int)
    requires DistinctIds(tasks)
    requires 0 <= i < j < |BuildTrace(tasks)|
    ensures LexBefore(tasks, BuildTrace(tasks)[i], BuildTrace(tasks)[j])
  {
    RootOrderSorted(tasks);
    ForestTraceSorted(tasks, RootOrder(tasks), []);
  }

  /** The last task of a chain has no parent exactly when the chain has length
      one, and otherwise its parent id names the task before it. */
  lemma ChainParent(all: seq<Task>, q: seq<Task>)
    requires Chain(all, q) && q != []
    ensures |q| == 1 <==> Last(q).parentId == None
    ensures |q| > 1 ==> Last(q).parentId == Some(q[|q| - 2].id) && q[|q| - 2] in all
  {
    assert LinksToParent(q, |q| - 1);
    assert Last(q).parentId == ParentKey(q[..|q| - 1]);
    if |q| > 1 {
      assert q[..|q| - 1][|q| - 2] == q[|q| - 2];
    }
  }

  /** Every row shows a task of the input, and no task is shown twice. */
  lemma RowsAreDistinctInputTasks(tasks: seq<Task>)
    requires DistinctIds(tasks)
    ensures var rows := BuildTaskHierarchy(tasks);
      && (forall k :: 0 <= k < |rows| ==> rows[k].task in tasks)
      && (forall i, j :: 0 <= i < j < |rows| ==> rows[i].task != rows[j].task)
  {
    var rows, tr := BuildTaskHierarchy(tasks), BuildTrace(tasks);
    forall k | 0 <= k < |rows| ensures rows[k].task in tasks {
      RowTrace(tasks, k);
    }
    forall i, j | 0 <= i < j < |rows| ensures rows[i].task != rows[j].task {
      RowTrace(tasks, i);
      RowTrace(tasks, j);
      RowsLexOrdered(tasks, i, j);
      if rows[i].task == rows[j].task {
        ChainUnique(tasks, tr[i], tr[j]);
        LexIrreflexive(tasks, tr[i]);
      }
    }
  }

  /** Exactly the reachable tasks are shown. */
  lemma ShownIffReachable(tasks: seq<Task>, t: Task)
    requires DistinctIds(tasks)
    ensures var rows := BuildTaskHierarchy(tasks);
      (exists k :: 0 <= k < |rows| && rows[k].task == t) <==> Reachable(tasks, t)
  {
    var rows, tr := BuildTaskHierarchy(tasks), BuildTrace(tasks);
    if k :| 0 <= k < |rows| && rows[k].task == t {
      RowTrace(tasks, k);
      assert Chain(tasks, tr[k]) && tr[k] != [] && Last(tr[k]) == t;
    }
    if Reachable(tasks, t) {
      var q :| Chain(tasks, q) && q != [] && Last(q) == t;
      var k := RowOfChain(tasks, q);
      RowTrace(tasks, k);
      assert rows[k].task == t;
    }
  }

  /** A task whose parent id names no fetched task is never shown. */
  lemma DanglingParentNeverShown(tasks: seq<Task>, t: Task, p: int)
    requires DistinctIds(tasks)
    requires t.parentId == Some(p) && forall u :: u in tasks ==> u.id != p
    ensures forall k :: 0 <= k < |BuildTaskHierarchy(tasks)| ==> BuildTaskHierarchy(tasks)[k].task != t
  {
    var rows, tr := BuildTaskHierarchy(tasks), BuildTrace(tasks);
    forall k | 0 <= k < |rows| ensures rows[k].task.parentId != Some(p) {
      RowTrace(tasks, k);
      ChainParent(tasks, tr[k]);
    }
  }

  /** One row: numbered by its position, showing an input task, at level 0 exactly
      when that task has no parent. */
  lemma RowFacts(tasks: seq<Task>, k: int)
    requires DistinctIds(tasks)
    requires 0 <= k < |BuildTaskHierarchy(tasks)|
    ensures var r := BuildTaskHierarchy(tasks)[k];
      r.index == k && r.task in tasks && (r.level == 0 <==> r.task.parentId == None)
  {
    RowTrace(tasks, k);
    ChainParent(tasks, BuildTrace(tasks)[k]);
  }

  /** A parentless input task is shown, at level 0. */
  lemma RootShown(tasks: seq<Task>, t: Task) returns (k: nat)
    requires DistinctIds(tasks) && t in tasks && t.parentId == None
    ensures k < |BuildTaskHierarchy(tasks)|
    ensures BuildTaskHierarchy(tasks)[k].task == t && BuildTaskHierarchy(tasks)[k].level == 0
  {
    var q := [t];
    assert q[..0] == [];
    assert Chain(tasks, q);
    k := RowOfChain(tasks, q);
    RowTrace(tasks, k);
  }

  /** Rows are numbered by position; a row is at level 0 exactly when its task has
      no parent; and every parentless task of the input is shown at level 0. */
  lemma RootsAtLevelZero(tasks: seq<Task>)
    requires DistinctIds(tasks)
    ensures var rows := BuildTaskHierarchy(tasks);
      && (forall k :: 0 <= k < |rows| ==> rows[k].index == k)
      && (forall k :: 0 <= k < |rows| ==> (rows[k].level == 0 <==> rows[k].task.parentId == None))
      && (forall t :: t in tasks && t.parentId == None ==>
            exists k :: 0 <= k < |rows| && rows[k].task == t && rows[k].level == 0)
  {
    var rows := BuildTaskHierarchy(tasks);
    forall k | 0 <= k < |rows|
      ensures rows[k].index == k
      ensures rows[k].level == 0 <==> rows[k].task.parentId == None
    {
      RowFacts(tasks, k);
    }
    forall t | t in tasks && t.parentId == None
      ensures exists k :: 0 <= k < |rows| && rows[k].task == t && rows[k].level == 0
    {
      var k := RootShown(tasks, t);
    }
  }

  /** The first task of a traced chain is a parentless input task. */
  lemma ChainRoot(all: seq<Task>, q: seq<Task>)
    requires Chain(all, q) && q != []
    ensures q[0] in all && q[0].parentId == None
  {
    assert LinksToParent(q, 0);
    assert q[0].parentId == ParentKey(q[..0]);
    assert q[..0] == [];
  }

  /** The view is empty exactly when no task is parentless; in particular an empty
      task list gives no rows. */
  lemma NoRowsIffNoRoots(tasks: seq<Task>)
    requires DistinctIds(tasks)
    ensures |BuildTaskHierarchy(tasks)| == 0 <==> forall t :: t in tasks ==> t.parentId.Some?
  {
    if |BuildTaskHierarchy(tasks)| > 0 {
      RowTrace(tasks, 0);
      ChainRoot(tasks, BuildTrace(tasks)[0]);
    } else {
      forall t | t in tasks ensures t.parentId.Some? {
        if t.parentId == None {
          var k := RootShown(tasks, t);
        }
      }
    }
  }

  /** Row `i` is the parent row of row `k`: above it, one level up, showing the
      task its parent id names, with only deeper rows in between. */
  predicate ParentRowAt(rows: seq<Row>, i: int, k: int) {
    && 0 <= i < k < |rows|
    && rows[i].level + 1 == rows[k].level
    && rows[k].task.parentId == Some(rows[i].task.id)
    && forall m :: i < m < k ==> rows[m].level >= rows[k].level
  }

  /** Rows come in the pre-order of the chains they trace. */
  lemma TraceIndexOrder(tasks: seq<Task>, i: int, j: int)
    requires DistinctIds(tasks)
    requires 0 <= i < |BuildTrace(tasks)| && 0 <= j < |BuildTrace(tasks)|
    requires LexBefore(tasks, BuildTrace(tasks)[i], BuildTrace(tasks)[j])
    ensures i < j
  {
    var tr := BuildTrace(tasks);
    LexIrreflexive(tasks, tr[i]);
    if j < i {
      RowsLexOrdered(tasks, j, i);
      LexAsymmetric(tasks, tr[i], tr[j]);
    }
  }

  /** The row tracing the chain one shorter than row `k`'s sits above row `k`. */
  lemma ParentRowAbove(tasks: seq<Task>, k: int) returns (i: int)
    requires DistinctIds(tasks)
    requires 0 <= k < |BuildTaskHierarchy(tasks)| && BuildTaskHierarchy(tasks)[k].level > 0
    ensures 0 <= i < k
    ensures var q := BuildTrace(tasks)[k];
      |q| > 1 && BuildTrace(tasks)[i] == q[..|q| - 1] && q == BuildTrace(tasks)[i] + [Last(q)]
  {
    var tr := BuildTrace(tasks);
    RowTrace(tasks, k);
    var q := tr[k];
    var up := q[..|q| - 1];
    ChainPrefix(tasks, q, |q| - 1);
    i := RowOfChain(tasks, up);
    SplitLast(q);
    LexPrefix(tasks, up, q);
    TraceIndexOrder(tasks, i, k);
  }

  /** A row between a row and its parent row is at least as deep as the former. */
  lemma BetweenIsDeeper(tasks: seq<Task>, i: int, m: int, k: int)
    requires DistinctIds(tasks)
    requires 0 <= i < m < k < |BuildTaskHierarchy(tasks)|
    requires var q := BuildTrace(tasks)[k];
      q != [] && q == BuildTrace(tasks)[i] + [Last(q)]
    ensures BuildTaskHierarchy(tasks)[m].level >= BuildTaskHierarchy(tasks)[k].level
  {
    var tr := BuildTrace(tasks);
    RowTrace(tasks, i);
    RowTrace(tasks, m);
    RowTrace(tasks, k);
    RowsLexOrdered(tasks, i, m);
    RowsLexOrdered(tasks, m, k);
    LexBetween(tasks, tr[i], Last(tr[k]), tr[m]);
  }

  /** The parent row of one row below level 0. */
  lemma ParentRowOf(tasks: seq<Task>, k: int) returns (i: int)
    requires DistinctIds(tasks)
    requires 0 <= k < |BuildTaskHierarchy(tasks)| && BuildTaskHierarchy(tasks)[k].level > 0
    ensures ParentRowAt(BuildTaskHierarchy(tasks), i, k)
  {
    i := ParentRowAbove(tasks, k);
    ParentRowLinks(tasks, i, k);
    var rows := BuildTaskHierarchy(tasks);
    forall m | i < m < k ensures rows[m].level >= rows[k].level {
      BetweenIsDeeper(tasks, i, m, k);
    }
  }

  /** A row whose chain extends row `i`'s by one task is one level deeper and names row `i`'s task as parent. */
  lemma ParentRowLinks(tasks: seq<Task>, i: int, k: int)
    requires DistinctIds(tasks)
    requires 0 <= i < k < |BuildTaskHierarchy(tasks)|
    requires var q := BuildTrace(tasks)[k];
      |q| > 1 && q == BuildTrace(tasks)[i] + [Last(q)]
    ensures var rows := BuildTaskHierarchy(tasks);
      rows[i].level + 1 == rows[k].level && rows[k].task.parentId == Some(rows[i].task.id)
  {
    var tr := BuildTrace(tasks);
    RowTrace(tasks, k);
    RowTrace(tasks, i);
    ChainParent(tasks, tr[k]);
    assert tr[k][|tr[k]| - 2] == Last(tr[i]);
  }

  /** Pre-order layout: every row below level 0 has its parent's row above it,
      so each task is followed by its whole subtree. */
  lemma ParentRowPrecedes(tasks: seq<Task>)
    requires DistinctIds(tasks)
    ensures var rows := BuildTaskHierarchy(tasks);
      forall k :: 0 <= k < |rows| && rows[k].level > 0 ==> exists i :: ParentRowAt(rows, i, k)
  {
    var rows := BuildTaskHierarchy(tasks);
    forall k | 0 <= k < |rows| && rows[k].level > 0 ensures exists i :: ParentRowAt(rows, i, k) {
      var i := ParentRowOf(tasks, k);
    }
  }

  /** Two rows whose tasks share a parent id trace chains that differ only in their last task. */
  lemma SiblingChains(tasks: seq<Task>, i: int, j: int)
    requires DistinctIds(tasks)
    requires 0 <= i < |BuildTaskHierarchy(tasks)| && 0 <= j < |BuildTaskHierarchy(tasks)|
    requires BuildTaskHierarchy(tasks)[i].task.parentId == BuildTaskHierarchy(tasks)[j].task.parentId
    ensures var p, q := BuildTrace(tasks)[i], BuildTrace(tasks)[j];
      p != [] && q != [] && p[..|p| - 1] == q[..|q| - 1]
  {
    var tr := BuildTrace(tasks);
    RowTrace(tasks, i);
    RowTrace(tasks, j);
    SameParentSamePrefix(tasks, tr[i], tr[j]);
  }

  /** Two sibling rows, the earlier one first in sibling order. */
  lemma SiblingPairInOrder(tasks: seq<Task>, i: int, j: int)
    requires DistinctIds(tasks)
    requires 0 <= i < j < |BuildTaskHierarchy(tasks)|
    requires BuildTaskHierarchy(tasks)[i].task.parentId == BuildTaskHierarchy(tasks)[j].task.parentId
    ensures SiblingBefore(tasks, BuildTaskHierarchy(tasks)[i].task, BuildTaskHierarchy(tasks)[j].task)
  {
    var tr := BuildTrace(tasks);
    SiblingChains(tasks, i, j);
    RowTrace(tasks, i);
    RowTrace(tasks, j);
    RowsLexOrdered(tasks, i, j);
    var p, q := tr[i], tr[j];
    var pu := p[..|p| - 1];
    SplitLast(p);
    SplitLast(q);
    LexSiblings(tasks, pu, Last(p), Last(q));
  }

  /** Siblings (rows whose tasks share a parent id, the roots included) appear open
      before completed, by creation time within each group, and in input order on
      equal creation times. */
  lemma SiblingsInOrder(tasks: seq<Task>)
    requires DistinctIds(tasks)
    ensures var rows := BuildTaskHierarchy(tasks);
      forall i, j :: 0 <= i < j < |rows| && rows[i].task.parentId == rows[j].task.parentId ==>
        SiblingBefore(tasks, rows[i].task, rows[j].task)
  {
    var rows := BuildTaskHierarchy(tasks);
    forall i, j | 0 <= i < j < |rows| && rows[i].task.parentId == rows[j].task.parentId
      ensures SiblingBefore(tasks, rows[i].task, rows[j].task)
    {
      SiblingPairInOrder(tasks, i, j);
    }
  }

  /** The level-0 rows: open roots first, then completed roots, each group in
      ascending creation time, ties in input order. */
  lemma TopLevelOrder(tasks: seq<Task>)
    requires DistinctIds(tasks)
    ensures var rows := BuildTaskHierarchy(tasks);
      forall i, j :: 0 <= i < j < |rows| && rows[i].level == 0 && rows[j].level == 0 ==>
        && (rows[i].task.completed ==> rows[j].task.completed)
        && (rows[i].task.completed == rows[j].task.completed ==>
              rows[i].task.createdAt <= rows[j].task.createdAt)
        && (rows[i].task.completed == rows[j].task.completed
            && rows[i].task.createdAt == rows[j].task.createdAt ==>
              IndexOf(tasks, rows[i].task) < IndexOf(tasks, rows[j].task))
  {
    RootsAtLevelZero(tasks);
    SiblingsInOrder(tasks);
  }
}
