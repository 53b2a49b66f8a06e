/** How the hierarchical front end's cursor behaves across a reload. */
module TreeScenarios {
  import opened Wrappers
  import opened Model
  import opened TaskTree
  import opened TaskTreeFacts
  import opened Session
  import opened TreeApp

  /** The cursor follows the index, not the task: with the first row selected,
      completing that top-level task while another top-level task is still open
      sends it below the open one, yet the cursor keeps index 0, so afterwards
      the other task is the one selected. */
  lemma ToggleKeepsIndexNotTask(a: App, s: Store, done: Task, open: Task)
    requires a.focus == Tasks && SelectedWorkspace(a).Some? && a.taskCursor == Some(0)
    requires SelectedRow(a).Some? && SelectedRow(a).value.task == done
    requires done.parentId == None && open.parentId == None && !open.completed && done.id != open.id
    requires s.tasksOf == (_ => [done.(completed := true), open])
    ensures var e := Toggle(a, s);
      && e.call == Some(ToggleTask(done.id))
      && e.app.taskCursor == Some(0)
      && SelectedRow(e.app).Some?
      && SelectedRow(e.app).value.task == open
  {
    var after := [done.(completed := true), open];
    assert DistinctIds(after);
    assert WellFormedStore(s);
    var e := Toggle(a, s);
    var rows := BuildTaskHierarchy(after);
    assert e.app.rows == rows;
    var k := RootShown(after, open);
    RowFacts(after, 0);
    TopLevelOrder(after);
  }
}
