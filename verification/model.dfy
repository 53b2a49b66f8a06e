/** The stored records the core reads, as fetched from the store: a workspace
    and a task. Timestamps are abstracted to integers (their order is all the
    core uses); the description, workspace id and update time of a task are not
    read by the core and are left out. */
module Model {
  import opened Wrappers
  import opened Seqs

  datatype Workspace = Workspace(id: int, name: string)

  datatype Task = Task(
    id: int,
    title: string,
    completed: bool,
    parentId: Option<int>,
    createdAt: int)

  /** Task ids are row ids of the store, so no two fetched tasks share one. */
  predicate DistinctIds(ts: seq<Task>) {
    forall i, j :: 0 <= i < j < |ts| ==> ts[i].id != ts[j].id
  }

  lemma DistinctIdsDistinct(ts: seq<Task>)
    requires DistinctIds(ts)
    ensures Distinct(ts)
  {
  }

  /** Within a list with distinct ids, an id names exactly one task. */
  lemma SameIdSameTask(ts: seq<Task>, a: Task, b: Task)
    requires DistinctIds(ts) && a in ts && b in ts && a.id == b.id
    ensures a == b
  {
    var i := IndexOf(ts, a);
    var j := IndexOf(ts, b);
    assert ts[i] == a && ts[j] == b;
  }
}
