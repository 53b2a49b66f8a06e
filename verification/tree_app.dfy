/** The application state of the hierarchical front end and every operation
    the event loop drives: loading, navigation, creation, completion toggling,
    renaming, deletion, help, and the key dispatch itself. Store calls are not
    performed; an operation names the call it issues and receives the store as
    it reads back afterwards. */
module TreeApp {
  import opened Wrappers
  import opened Model
  import opened TaskTree
  import opened Cursor
  import opened Session

  /** The application state. `wsCursor` is the workspace selection; the source
      keeps it twice (list state and `selected_workspace`). Every operation here
      sets both together; only the clamp the renderer applies to the list state
      can move one apart from the other, and rendering is not part of this model. */
  datatype App = App(
    workspaces: seq<Workspace>,
    tasks: seq<Task>,
    rows: seq<Row>,
    taskCursor: Option<nat>,
    wsCursor: Option<nat>,
    focus: Focus,
    mode: Mode,
    buffer: string,
    deleteTarget: Option<string>,
    creatingSubtask: bool)

  /** The new state and the store call the operation issued, if any. */
  datatype Effect = Effect(app: App, call: Option<Call>)

  /** What one key press does to the running session. */
  datatype Outcome = Running(app: App, call: Option<Call>) | Ended | Crashed(fault: Fault)

  /** Task ids are row ids, hence distinct within every workspace. */
  ghost predicate WellFormedStore(s: Store) {
    forall id :: DistinctIds(s.tasksOf(id))
  }

  function SelectedWorkspace(a: App): Option<Workspace> {
    if a.wsCursor.Some? && a.wsCursor.value < |a.workspaces| then Some(a.workspaces[a.wsCursor.value]) else None
  }

  function SelectedRow(a: App): Option<Row> {
    if a.taskCursor.Some? && a.taskCursor.value < |a.rows| then Some(a.rows[a.taskCursor.value]) else None
  }

  /** The task pane shows workspace `w` as just read from `s`, with the cursor on
      the first row, or on nothing when there are no rows. */
  predicate ShowsFresh(r: App, s: Store, w: Workspace) {
    && r.tasks == s.tasksOf(w.id)
    && DistinctIds(r.tasks)
    && r.rows == BuildTaskHierarchy(r.tasks)
    && (r.taskCursor == None <==> r.rows == [])
    && (r.rows != [] ==> r.taskCursor == Some(0))
  }

  /** The fields no store read touches are the same in both states. */
  predicate SameSession(a: App, r: App) {
    && a.focus == r.focus && a.mode == r.mode && a.buffer == r.buffer
    && a.deleteTarget == r.deleteTarget && a.creatingSubtask == r.creatingSubtask
  }

  /** A deletion is pending exactly in DeleteConfirm mode, and the input buffer
      holds text only while typing. */
  predicate Consistent(a: App) {
    && (a.deleteTarget.Some? <==> a.mode == DeleteConfirm)
    && (a.mode == Normal || a.mode == Help || a.mode == DeleteConfirm ==> a.buffer == [])
  }

  /** The freshly started application. */
  function Init(): (a: App)
    ensures Consistent(a) && a.mode == Normal && a.focus == Workspaces
    ensures a.workspaces == [] && a.rows == [] && a.taskCursor == None
    ensures a.wsCursor == Some(0) && SelectedWorkspace(a) == None && SelectedRow(a) == None
  {
    App([], [], [], None, Some(0), Workspaces, Normal, [], None, false)
  }

  /** Re-reads the tasks of the selected workspace and rebuilds the rows; with
      no workspace at the selection, nothing happens. */
  function LoadTasks(a: App, s: Store): (r: App)
    requires WellFormedStore(s)
    ensures SameSession(a, r) && r.workspaces == a.workspaces && r.wsCursor == a.wsCursor
    ensures SelectedWorkspace(a).None? ==> r == a
    ensures SelectedWorkspace(a).Some? ==> ShowsFresh(r, s, SelectedWorkspace(a).value)
  {
    match SelectedWorkspace(a)
    case None => a
    case Some(w) =>
      var tasks := s.tasksOf(w.id);
      var rows := BuildTaskHierarchy(tasks);
      a.(tasks := tasks, rows := rows, taskCursor := if rows == [] then None else Some(0))
  }

  /** Reloading twice is reloading once. */
  lemma LoadTasksIdempotent(a: App, s: Store)
    requires WellFormedStore(s)
    ensures LoadTasks(LoadTasks(a, s), s) == LoadTasks(a, s)
  {
  }

  /** Re-reads the workspace list; when it is not empty, selects the first
      workspace and loads its tasks. An empty list leaves the selection and the
      task pane as they were. */
  function LoadWorkspaces(a: App, s: Store): (r: App)
    requires WellFormedStore(s)
    ensures SameSession(a, r) && r.workspaces == s.workspaces
    ensures s.workspaces == [] ==> r == a.(workspaces := [])
    ensures s.workspaces != [] ==>
      r.wsCursor == Some(0) && ShowsFresh(r, s, s.workspaces[0]) && SelectedWorkspace(r) == Some(s.workspaces[0])
  {
    var a1 := a.(workspaces := s.workspaces);
    if s.workspaces == [] then a1 else LoadTasks(a1.(wsCursor := Some(0)), s)
  }

  /** Selects workspace `i` and loads its tasks. */
  function ShowWorkspace(a: App, i: nat, s: Store): (r: App)
    requires WellFormedStore(s)
    ensures r == LoadTasks(a.(wsCursor := Some(i)), s) && r.wsCursor == Some(i)
    ensures SameSession(a, r) && r.workspaces == a.workspaces
    ensures i < |a.workspaces| ==> ShowsFresh(r, s, a.workspaces[i])
  {
    var b := a.(wsCursor := Some(i));
    assert i < |a.workspaces| ==> SelectedWorkspace(b) == Some(a.workspaces[i]);
    LoadTasks(b, s)
  }

  /** Moves the workspace selection down, with wraparound, and loads the tasks
      of the workspace reached. */
  function NextWorkspace(a: App, s: Store): (r: Result<App, Fault>)
    requires WellFormedStore(s)
    ensures r.Failure? <==> a.wsCursor.Some? && a.workspaces == []
    ensures r.Success? ==> SameSession(a, r.value) && r.value.workspaces == a.workspaces
    ensures r.Success? ==> r.value == LoadTasks(a.(wsCursor := r.value.wsCursor), s)
    ensures a.wsCursor.None? ==> r.Success? && r.value.wsCursor == Some(0)
    ensures a.wsCursor.Some? && a.wsCursor.value < |a.workspaces| ==>
      var j := (a.wsCursor.value + 1) % |a.workspaces|;
      r.Success? && r.value.wsCursor == Some(j) && ShowsFresh(r.value, s, a.workspaces[j])
    ensures (a.wsCursor.None? || |a.workspaces| <= a.wsCursor.value) && a.workspaces != [] ==>
      r.Success? && r.value.wsCursor == Some(0) && ShowsFresh(r.value, s, a.workspaces[0])
  {
    match Next(a.wsCursor, |a.workspaces|)
    case Failure(e) => Failure(e)
    case Success(i) =>
      assert a.wsCursor.Some? && a.wsCursor.value < |a.workspaces| ==> i == (a.wsCursor.value + 1) % |a.workspaces| < |a.workspaces|;
      Success(ShowWorkspace(a, i, s))
  }

  /** Moves the workspace selection up, with wraparound, and loads the tasks of
      the workspace reached. */
  function PreviousWorkspace(a: App, s: Store): (r: Result<App, Fault>)
    requires WellFormedStore(s)
    ensures r.Failure? <==> a.wsCursor == Some(0) && a.workspaces == []
    ensures r.Success? ==> SameSession(a, r.value) && r.value.workspaces == a.workspaces
    ensures r.Success? ==> r.value == LoadTasks(a.(wsCursor := r.value.wsCursor), s)
    ensures a.wsCursor.None? ==> r.Success? && r.value.wsCursor == Some(0)
    ensures a.wsCursor.None? && a.workspaces != [] ==> ShowsFresh(r.value, s, a.workspaces[0])
    ensures a.wsCursor.Some? && a.wsCursor.value < |a.workspaces| ==>
      var j := (a.wsCursor.value + |a.workspaces| - 1) % |a.workspaces|;
      r.Success? && r.value.wsCursor == Some(j) && ShowsFresh(r.value, s, a.workspaces[j])
    ensures a.wsCursor.Some? && 0 < a.wsCursor.value ==>
      r.Success? && r.value.wsCursor == Some(a.wsCursor.value - 1)
  {
    match Previous(a.wsCursor, |a.workspaces|)
    case Failure(e) => Failure(e)
    case Success(i) =>
      assert a.wsCursor.Some? && a.wsCursor.value < |a.workspaces| ==> i == (a.wsCursor.value + |a.workspaces| - 1) % |a.workspaces| < |a.workspaces|;
      Success(ShowWorkspace(a, i, s))
  }

  /** Down then up from a selected workspace comes back to it, showing what the
      store holds for it. */
  lemma WorkspaceRoundTrip(a: App, s: Store)
    requires WellFormedStore(s)
    requires SelectedWorkspace(a).Some?
    ensures NextWorkspace(a, s).Success?
    ensures var b := PreviousWorkspace(NextWorkspace(a, s).value, s);
      b.Success? && b.value.wsCursor == a.wsCursor && ShowsFresh(b.value, s, SelectedWorkspace(a).value)
  {
    NextPreviousInverse(a.wsCursor.value, |a.workspaces|);
  }

  /** Moves the row selection down with wraparound; only the cursor changes. */
  function NextTask(a: App): (r: Result<App, Fault>)
    ensures r.Failure? <==> a.taskCursor.Some? && a.rows == []
    ensures r.Success? ==> r.value == a.(taskCursor := r.value.taskCursor) && r.value.taskCursor.Some?
    ensures a.taskCursor.None? ==> r == Success(a.(taskCursor := Some(0)))
    ensures a.taskCursor.Some? && a.taskCursor.value < |a.rows| ==>
      r == Success(a.(taskCursor := Some((a.taskCursor.value + 1) % |a.rows|)))
    ensures a.taskCursor.Some? && 0 < |a.rows| <= a.taskCursor.value ==> r == Success(a.(taskCursor := Some(0)))
  {
    match Next(a.taskCursor, |a.rows|)
    case Failure(e) => Failure(e)
    case Success(i) => Success(a.(taskCursor := Some(i)))
  }

  /** Moves the row selection up with wraparound; only the cursor changes. */
  function PreviousTask(a: App): (r: Result<App, Fault>)
    ensures r.Failure? <==> a.taskCursor == Some(0) && a.rows == []
    ensures r.Success? ==> r.value == a.(taskCursor := r.value.taskCursor) && r.value.taskCursor.Some?
    ensures a.taskCursor.None? ==> r == Success(a.(taskCursor := Some(0)))
    ensures a.taskCursor.Some? && a.taskCursor.value < |a.rows| ==>
      r == Success(a.(taskCursor := Some((a.taskCursor.value + |a.rows| - 1) % |a.rows|)))
    ensures a.taskCursor.Some? && 0 < a.taskCursor.value ==> r == Success(a.(taskCursor := Some(a.taskCursor.value - 1)))
  {
    match Previous(a.taskCursor, |a.rows|)
    case Failure(e) => Failure(e)
    case Success(i) => Success(a.(taskCursor := Some(i)))
  }

  /** Down then up, and up then down, from a selected row restore the state. */
  lemma TaskRoundTrip(a: App)
    requires SelectedRow(a).Some?
    ensures NextTask(a).Success? && PreviousTask(NextTask(a).value) == Success(a)
    ensures PreviousTask(a).Success? && NextTask(PreviousTask(a).value) == Success(a)
  {
    NextPreviousInverse(a.taskCursor.value, |a.rows|);
  }

  /** Opens the create prompt with an empty buffer; `subtask` records whether
      the new task goes under the selected row. */
  function StartCreating(a: App, subtask: bool): (r: App)
    ensures r.mode == Creating && r.buffer == [] && r.creatingSubtask == subtask
    ensures r == a.(mode := r.mode, buffer := r.buffer, creatingSubtask := r.creatingSubtask)
  {
    a.(buffer := [], creatingSubtask := subtask, mode := Creating)
  }

  /** Leaves the create prompt, discarding the typed text. */
  function CancelCreating(a: App): (r: App)
    ensures r.mode == Normal && r.buffer == []
    ensures r == a.(mode := r.mode, buffer := r.buffer)
  {
    a.(mode := Normal, buffer := [])
  }

  /** The store call a non-blank create prompt submits: a workspace in
      Workspaces focus; in Tasks focus, a subtask of the selected row when one
      was asked for and a row is selected, otherwise a top-level task; no call
      when no workspace is selected. */
  function CreateCall(a: App): (c: Option<Call>)
    ensures a.focus == Workspaces ==> c == Some(CreateWorkspace(a.buffer))
    ensures a.focus == Tasks ==> (c.Some? <==> SelectedWorkspace(a).Some?)
    ensures c.Some? && c.value.CreateSubtask? <==> a.focus == Tasks && SelectedWorkspace(a).Some? && a.creatingSubtask && SelectedRow(a).Some?
    ensures c.Some? && c.value.CreateSubtask? ==>
      c.value == CreateSubtask(a.buffer, SelectedWorkspace(a).value.id, SelectedRow(a).value.task.id)
    ensures c.Some? && c.value.CreateTask? ==> c.value == CreateTask(a.buffer, SelectedWorkspace(a).value.id)
  {
    match a.focus
    case Workspaces => Some(CreateWorkspace(a.buffer))
    case Tasks =>
      match SelectedWorkspace(a)
      case None => None
      case Some(w) =>
        if a.creatingSubtask && SelectedRow(a).Some? then Some(CreateSubtask(a.buffer, w.id, SelectedRow(a).value.task.id))
        else Some(CreateTask(a.buffer, w.id))
  }

  /** Submits the create prompt. Blank input issues nothing; otherwise the call
      goes out and the list it touched is re-read. Either way the prompt closes. */
  function FinishCreating(a: App, s: Store): (r: Effect)
    requires WellFormedStore(s)
    ensures r.app.mode == Normal && r.app.buffer == []
    ensures r.app.focus == a.focus && r.app.deleteTarget == a.deleteTarget && r.app.creatingSubtask == a.creatingSubtask
    ensures IsBlank(a.buffer) ==> r == Effect(a.(mode := Normal, buffer := []), None)
    ensures !IsBlank(a.buffer) ==> r.call == CreateCall(a)
    ensures r.call.None? ==> r.app == a.(mode := Normal, buffer := [])
    ensures r.call.Some? && a.focus == Workspaces ==> r.app.workspaces == s.workspaces
    ensures r.call.Some? && a.focus == Workspaces && s.workspaces == [] ==>
      r.app == a.(workspaces := [], mode := Normal, buffer := [])
    ensures r.call.Some? && a.focus == Workspaces && s.workspaces != [] ==>
      r.app.wsCursor == Some(0) && ShowsFresh(r.app, s, s.workspaces[0])
    ensures r.call.Some? && a.focus == Tasks ==>
      && r.app.workspaces == a.workspaces && r.app.wsCursor == a.wsCursor
      && ShowsFresh(r.app, s, SelectedWorkspace(a).value)
  {
    if IsBlank(a.buffer) then Effect(CancelCreating(a), None)
    else
      var loaded := if a.focus == Workspaces then LoadWorkspaces(a, s) else LoadTasks(a, s);
      Effect(CancelCreating(loaded), CreateCall(a))
  }

  /** After a create, the panes are exactly what reading the store again
      would show: reloading the list the call touched is a no-op. */
  lemma CreateShowsStore(a: App, s: Store)
    requires WellFormedStore(s)
    ensures var e := FinishCreating(a, s);
      && (e.call.Some? && a.focus == Workspaces ==> LoadWorkspaces(e.app, s) == e.app)
      && (e.call.Some? ==> LoadTasks(e.app, s) == e.app)
  {
  }

  /** Flips the completion of the selected task and re-reads the rows, then puts
      back the index the cursor had; the row at that index may now show another
      task. Outside Tasks focus or with no row selected, nothing happens. */
  function Toggle(a: App, s: Store): (r: Effect)
    requires WellFormedStore(s)
    ensures r.app.taskCursor == a.taskCursor
    ensures r.call.Some? <==> a.focus == Tasks && SelectedRow(a).Some?
    ensures r.call.None? ==> r.app == a
    ensures r.call.Some? ==>
      && r.call.value == ToggleTask(SelectedRow(a).value.task.id)
      && SameSession(a, r.app) && r.app.workspaces == a.workspaces && r.app.wsCursor == a.wsCursor
      && (SelectedWorkspace(a).Some? ==>
            && r.app.tasks == s.tasksOf(SelectedWorkspace(a).value.id)
            && r.app.rows == BuildTaskHierarchy(r.app.tasks))
      && (SelectedWorkspace(a).None? ==> r.app == a)
  {
    if a.focus == Tasks && SelectedRow(a).Some? then
      Effect(LoadTasks(a, s).(taskCursor := a.taskCursor), Some(ToggleTask(SelectedRow(a).value.task.id)))
    else Effect(a, None)
  }

  /** After a toggle, the rows are what reading the store again would show;
      a reload would differ only by moving the cursor to the top. */
  lemma ToggleShowsStore(a: App, s: Store)
    requires WellFormedStore(s)
    ensures var e := Toggle(a, s);
      e.call.Some? ==> LoadTasks(e.app, s) == e.app.(taskCursor := LoadTasks(e.app, s).taskCursor)
  {
  }

  /** The name of the selected item in the focused pane, or empty text when the
      cursor is past the end. */
  function SelectedName(a: App): string {
    match a.focus
    case Workspaces => if SelectedWorkspace(a).Some? then SelectedWorkspace(a).value.name else []
    case Tasks => if SelectedRow(a).Some? then SelectedRow(a).value.task.title else []
  }

  /** Opens the rename prompt, pre-filled with the selected item's name. */
  function StartRename(a: App): (r: App)
    ensures r.mode == Insert && r == a.(mode := Insert, buffer := r.buffer)
    ensures a.focus == Workspaces && SelectedWorkspace(a).Some? ==> r.buffer == SelectedWorkspace(a).value.name
    ensures a.focus == Tasks && SelectedRow(a).Some? ==> r.buffer == SelectedRow(a).value.task.title
    ensures a.focus == Workspaces && SelectedWorkspace(a).None? ==> r.buffer == []
    ensures a.focus == Tasks && SelectedRow(a).None? ==> r.buffer == []
  {
    a.(buffer := SelectedName(a), mode := Insert)
  }

  /** Submits the rename prompt: the selected item takes the typed name (even a
      blank one) and the list is re-read, which moves the cursor to the top. */
  function FinishRename(a: App, s: Store): (r: Effect)
    requires WellFormedStore(s)
    ensures r.app.mode == Normal && r.app.buffer == []
    ensures a.focus == Workspaces ==>
      r.call == (if SelectedWorkspace(a).Some? then Some(RenameWorkspace(SelectedWorkspace(a).value.id, a.buffer)) else None)
    ensures a.focus == Tasks ==>
      r.call == (if SelectedRow(a).Some? then Some(RenameTask(SelectedRow(a).value.task.id, a.buffer)) else None)
    ensures r.app.focus == a.focus && r.app.deleteTarget == a.deleteTarget && r.app.creatingSubtask == a.creatingSubtask
    ensures r.call.None? ==> r.app == a.(mode := Normal, buffer := [])
    ensures r.call.Some? && a.focus == Workspaces ==> r.app.workspaces == s.workspaces
    ensures r.call.Some? && a.focus == Workspaces && s.workspaces == [] ==>
      r.app == a.(workspaces := [], mode := Normal, buffer := [])
    ensures r.call.Some? && a.focus == Workspaces && s.workspaces != [] ==>
      r.app.wsCursor == Some(0) && ShowsFresh(r.app, s, s.workspaces[0])
    ensures r.call.Some? && a.focus == Tasks ==> r.app.workspaces == a.workspaces && r.app.wsCursor == a.wsCursor
    ensures r.call.Some? && a.focus == Tasks && SelectedWorkspace(a).Some? ==>
      ShowsFresh(r.app, s, SelectedWorkspace(a).value)
    ensures r.call.Some? && a.focus == Tasks && SelectedWorkspace(a).None? ==>
      r.app == a.(mode := Normal, buffer := [])
  {
    var e := match a.focus
      case Workspaces =>
        if SelectedWorkspace(a).Some? then
          Effect(LoadWorkspaces(a, s), Some(RenameWorkspace(SelectedWorkspace(a).value.id, a.buffer)))
        else Effect(a, None)
      case Tasks =>
        if SelectedRow(a).Some? then Effect(LoadTasks(a, s), Some(RenameTask(SelectedRow(a).value.task.id, a.buffer)))
        else Effect(a, None);
    Effect(e.app.(mode := Normal, buffer := []), e.call)
  }

  /** After a rename, reloading the list the call touched is a no-op. */
  lemma RenameShowsStore(a: App, s: Store)
    requires WellFormedStore(s)
    ensures var e := FinishRename(a, s);
      && (e.call.Some? && a.focus == Workspaces ==> LoadWorkspaces(e.app, s) == e.app)
      && (e.call.Some? ==> LoadTasks(e.app, s) == e.app)
  {
  }

  /** Leaves the rename prompt, discarding the typed text. */
  function CancelRename(a: App): (r: App)
    ensures r.mode == Normal && r.buffer == []
    ensures r == a.(mode := r.mode, buffer := r.buffer)
  {
    a.(mode := Normal, buffer := [])
  }

  /** The cursor of the focused pane. */
  function FocusedCursor(a: App): Option<nat> {
    if a.focus == Workspaces then a.wsCursor else a.taskCursor
  }

  /** Asks for confirmation before deleting the selected item; with no cursor in
      the focused pane nothing happens. */
  function StartDeleteConfirm(a: App): (r: App)
    ensures FocusedCursor(a).None? ==> r == a
    ensures FocusedCursor(a).Some? ==>
      r == a.(mode := DeleteConfirm, deleteTarget := Some(SelectedName(a)))
  {
    if FocusedCursor(a).None? then a
    else a.(deleteTarget := Some(SelectedName(a)), mode := DeleteConfirm)
  }

  /** Leaves the confirmation, forgetting the target. */
  function CancelDeleteConfirm(a: App): (r: App)
    ensures r.mode == Normal && r.deleteTarget == None
    ensures r == a.(mode := r.mode, deleteTarget := r.deleteTarget)
  {
    a.(mode := Normal, deleteTarget := None)
  }

  /** Deletes the selected item and re-reads. The cursor stays at its index when
      that is still in range and moves to the last item otherwise. Deleting the
      last workspace leaves the selection and the task pane as they were. */
  function ConfirmDelete(a: App, s: Store): (r: Effect)
    requires WellFormedStore(s)
    ensures r.app.mode == Normal && r.app.deleteTarget == None
    ensures r.app.focus == a.focus && r.app.buffer == a.buffer
    ensures a.focus == Workspaces ==>
      r.call == (if SelectedWorkspace(a).Some? then Some(DeleteWorkspace(SelectedWorkspace(a).value.id)) else None)
    ensures a.focus == Tasks ==>
      r.call == (if SelectedRow(a).Some? then Some(DeleteTask(SelectedRow(a).value.task.id)) else None)
    ensures r.call.None? ==> r.app == a.(mode := Normal, deleteTarget := None)
    ensures r.call.Some? && a.focus == Workspaces && s.workspaces == [] ==>
      r.app == a.(workspaces := [], mode := Normal, deleteTarget := None)
    ensures r.call.Some? && a.focus == Workspaces && s.workspaces != [] ==>
      r.app.wsCursor.Some? &&
      var j := r.app.wsCursor.value;
      && j < |s.workspaces| && j <= a.wsCursor.value
      && (a.wsCursor.value < |s.workspaces| ==> j == a.wsCursor.value)
      && (|s.workspaces| <= a.wsCursor.value ==> j == |s.workspaces| - 1)
      && r.app.workspaces == s.workspaces
      && ShowsFresh(r.app, s, s.workspaces[j])
    ensures r.call.Some? && a.focus == Tasks ==>
      && r.app.workspaces == a.workspaces && r.app.wsCursor == a.wsCursor
      && (SelectedWorkspace(a).Some? ==>
            && r.app.tasks == s.tasksOf(SelectedWorkspace(a).value.id)
            && r.app.rows == BuildTaskHierarchy(r.app.tasks))
      && (SelectedWorkspace(a).None? ==> r.app.tasks == a.tasks && r.app.rows == a.rows)
      && (r.app.rows == [] <==> r.app.taskCursor == None)
      && (r.app.rows != [] ==>
            var j := r.app.taskCursor.value;
            && j < |r.app.rows| && j <= a.taskCursor.value
            && (a.taskCursor.value < |r.app.rows| ==> j == a.taskCursor.value)
            && (|r.app.rows| <= a.taskCursor.value ==> j == |r.app.rows| - 1))
  {
    var e := match a.focus
      case Workspaces => DeleteSelectedWorkspace(a, s)
      case Tasks => DeleteSelectedTask(a, s);
    Effect(CancelDeleteConfirm(e.app), e.call)
  }

  /** After a delete, the workspace list and the rows are what reading the
      store again would show; a reload of the rows would differ only by the
      cursor, and after a workspace deletion not even by that. */
  lemma DeleteShowsStore(a: App, s: Store)
    requires WellFormedStore(s)
    ensures var e := ConfirmDelete(a, s);
      && (e.call.Some? && a.focus == Workspaces ==> e.app.workspaces == s.workspaces && LoadTasks(e.app, s) == e.app)
      && (e.call.Some? ==> LoadTasks(e.app, s) == e.app.(taskCursor := LoadTasks(e.app, s).taskCursor))
  {
  }

  /** The workspace half of `ConfirmDelete`, before the mode is reset. */
  function DeleteSelectedWorkspace(a: App, s: Store): (r: Effect)
    requires WellFormedStore(s) && a.focus == Workspaces
    ensures SameSession(a, r.app)
    ensures r.call == (if SelectedWorkspace(a).Some? then Some(DeleteWorkspace(SelectedWorkspace(a).value.id)) else None)
    ensures r.call.None? ==> r.app == a
    ensures r.call.Some? && s.workspaces == [] ==> r.app == a.(workspaces := [])
    ensures r.call.Some? && s.workspaces != [] ==>
      r.app.wsCursor.Some? &&
      var j := r.app.wsCursor.value;
      && j < |s.workspaces| && j <= a.wsCursor.value
      && (a.wsCursor.value < |s.workspaces| ==> j == a.wsCursor.value)
      && (|s.workspaces| <= a.wsCursor.value ==> j == |s.workspaces| - 1)
      && r.app.workspaces == s.workspaces
      && ShowsFresh(r.app, s, s.workspaces[j])
  {
    if SelectedWorkspace(a).None? then Effect(a, None)
    else
      var i := a.wsCursor.value;
      var a1 := LoadWorkspaces(a, s);
      var a2 := if a1.workspaces == [] then a1 else LoadTasks(a1.(wsCursor := Some(Clamp(i, |a1.workspaces|))), s);
      Effect(a2, Some(DeleteWorkspace(SelectedWorkspace(a).value.id)))
  }

  /** The task half of `ConfirmDelete`, before the mode is reset. */
  function DeleteSelectedTask(a: App, s: Store): (r: Effect)
    requires WellFormedStore(s) && a.focus == Tasks
    ensures SameSession(a, r.app)
    ensures r.call == (if SelectedRow(a).Some? then Some(DeleteTask(SelectedRow(a).value.task.id)) else None)
    ensures r.call.None? ==> r.app == a
    ensures r.call.Some? ==>
      && r.app.workspaces == a.workspaces && r.app.wsCursor == a.wsCursor
      && (SelectedWorkspace(a).Some? ==>
            && r.app.tasks == s.tasksOf(SelectedWorkspace(a).value.id)
            && r.app.rows == BuildTaskHierarchy(r.app.tasks))
      && (SelectedWorkspace(a).None? ==> r.app.tasks == a.tasks && r.app.rows == a.rows)
      && (r.app.rows == [] <==> r.app.taskCursor == None)
      && (r.app.rows != [] ==>
            var j := r.app.taskCursor.value;
            && j < |r.app.rows| && j <= a.taskCursor.value
            && (a.taskCursor.value < |r.app.rows| ==> j == a.taskCursor.value)
            && (|r.app.rows| <= a.taskCursor.value ==> j == |r.app.rows| - 1))
  {
    if SelectedRow(a).None? then Effect(a, None)
    else
      var i := a.taskCursor.value;
      var a1 := LoadTasks(a, s);
      var a2 := if a1.rows == [] then a1 else a1.(taskCursor := Some(Clamp(i, |a1.rows|)));
      Effect(a2, Some(DeleteTask(SelectedRow(a).value.task.id)))
  }

  function ShowHelp(a: App): (r: App)
    ensures r.mode == Help && r == a.(mode := Help)
  {
    a.(mode := Help)
  }

  function HideHelp(a: App): (r: App)
    ensures r.mode == Normal && r == a.(mode := Normal)
  {
    a.(mode := Normal)
  }

  /** One pass of the event loop: the key is read in the current mode and the
      matching operation runs. `q` in Normal mode ends the session; a
      navigation step that underflows ends it with a fault. */
  function Step(a: App, key: Key, s: Store): (o: Outcome)
    requires WellFormedStore(s)
    ensures o.Ended? <==> a.mode == Normal && key == Char('q')
    ensures o.Crashed? ==> a.mode == Normal && KeyAction(a.mode, key) in {MoveDown, MoveUp}
    ensures Consistent(a) && o.Running? ==> Consistent(o.app)
    ensures a.mode == DeleteConfirm ==>
      && o.Running?
      && (o.app.mode == Normal <==> IsConfirmKey(key) || IsRefuseKey(key))
      && (o.call.Some? ==> IsConfirmKey(key))
      && (!IsConfirmKey(key) && !IsRefuseKey(key) ==> o == Running(a, None))
    ensures a.mode == Help ==> o == Running(if IsCloseHelpKey(key) then a.(mode := Normal) else a, None)
    ensures a.mode == Insert || a.mode == Creating ==>
      && o.Running?
      && (key.Char? ==> o == Running(a.(buffer := a.buffer + [key.c]), None))
      && (key == Backspace ==> o == Running(a.(buffer := Pop(a.buffer)), None))
      && (key == Enter || key == Esc ==> o.app.mode == Normal && o.app.buffer == [])
      && (key == Esc ==> o.call == None)
    ensures a.mode == Normal && key == Char('a') ==> o == Running(StartCreating(a, a.focus == Tasks), None)
    ensures a.mode == Normal && key == Char('A') ==> o == Running(StartCreating(a, false), None)
    ensures a.mode == Normal && key == Char('r') ==> o == Running(StartRename(a), None)
    ensures a.mode == Normal && key == Char('D') ==> o == Running(StartDeleteConfirm(a), None)
    ensures a.mode == Normal && key == Char('?') ==> o == Running(ShowHelp(a), None)
    ensures a.mode == Normal && key == Char('c') ==> o == Running(Toggle(a, s).app, Toggle(a, s).call)
    ensures KeyAction(a.mode, key) == Ignore ==> o == Running(a, None)
    ensures a.mode == DeleteConfirm && IsConfirmKey(key) ==> o == Running(ConfirmDelete(a, s).app, ConfirmDelete(a, s).call)
    ensures a.mode == DeleteConfirm && IsRefuseKey(key) ==> o == Running(CancelDeleteConfirm(a), None)
    ensures a.mode == Insert && key == Enter ==> o == Running(FinishRename(a, s).app, FinishRename(a, s).call)
    ensures a.mode == Creating && key == Enter ==> o == Running(FinishCreating(a, s).app, FinishCreating(a, s).call)
    ensures a.mode == Insert && key == Esc ==> o == Running(CancelRename(a), None)
    ensures a.mode == Creating && key == Esc ==> o == Running(CancelCreating(a), None)
  {
    if IsModalAction(KeyAction(a.mode, key)) then ModalStep(a, key, s) else CommandStep(a, key, s)
  }

  /** From Normal mode, which keys open which mode: `a` and `A` the create
      prompt, `r` the rename prompt, `D` the delete confirmation (when the
      focused pane has a cursor), `?` the help; every other key leaves the mode
      Normal, and only `c` issues a store call. */
  lemma NormalTransitions(a: App, key: Key, s: Store)
    requires WellFormedStore(s) && a.mode == Normal
    ensures var o := Step(a, key, s);
      o.Running? ==>
        && (o.app.mode == Creating <==> key == Char('a') || key == Char('A'))
        && (o.app.mode == Insert <==> key == Char('r'))
        && (o.app.mode == DeleteConfirm <==> key == Char('D') && FocusedCursor(a).Some?)
        && (o.app.mode == Help <==> key == Char('?'))
        && (o.call.Some? ==> key == Char('c'))
  {
    if IsModalAction(KeyAction(a.mode, key)) {
      IgnoredKeyTransitions(a, key, s);
    } else {
      CommandKeyTransitions(a, key, s);
    }
  }

  /** `NormalTransitions` for an unbound key: nothing changes. */
  lemma IgnoredKeyTransitions(a: App, key: Key, s: Store)
    requires WellFormedStore(s) && a.mode == Normal && IsModalAction(KeyAction(a.mode, key))
    ensures var o := Step(a, key, s);
      o.Running? ==>
        && (o.app.mode == Creating <==> key == Char('a') || key == Char('A'))
        && (o.app.mode == Insert <==> key == Char('r'))
        && (o.app.mode == DeleteConfirm <==> key == Char('D') && FocusedCursor(a).Some?)
        && (o.app.mode == Help <==> key == Char('?'))
        && (o.call.Some? ==> key == Char('c'))
  {
    assert KeyAction(a.mode, key) == Ignore;
    assert Step(a, key, s) == ModalStep(a, key, s) == Running(a, None);
  }

  /** `NormalTransitions` for a bound key, from `CommandTransitions`. */
  lemma CommandKeyTransitions(a: App, key: Key, s: Store)
    requires WellFormedStore(s) && a.mode == Normal && !IsModalAction(KeyAction(a.mode, key))
    ensures var o := Step(a, key, s);
      o.Running? ==>
        && (o.app.mode == Creating <==> key == Char('a') || key == Char('A'))
        && (o.app.mode == Insert <==> key == Char('r'))
        && (o.app.mode == DeleteConfirm <==> key == Char('D') && FocusedCursor(a).Some?)
        && (o.app.mode == Help <==> key == Char('?'))
        && (o.call.Some? ==> key == Char('c'))
  {
    assert Step(a, key, s) == CommandStep(a, key, s);
    CommandTransitions(a, key, s);
  }

  /** `NormalTransitions` for the keys `CommandStep` handles. */
  lemma CommandTransitions(a: App, key: Key, s: Store)
    requires WellFormedStore(s) && a.mode == Normal && !IsModalAction(KeyAction(a.mode, key))
    ensures var o := CommandStep(a, key, s);
      o.Running? ==>
        && (o.app.mode == Creating <==> key == Char('a') || key == Char('A'))
        && (o.app.mode == Insert <==> key == Char('r'))
        && (o.app.mode == DeleteConfirm <==> key == Char('D') && FocusedCursor(a).Some?)
        && (o.app.mode == Help <==> key == Char('?'))
        && (o.call.Some? ==> key == Char('c'))
  {
    var o := CommandStep(a, key, s);
    match KeyAction(a.mode, key)
    case Quit =>
    case MoveDown =>
      assert key == Down || key == Char('j');
      assert o.Running? ==> o.app.mode == Normal && o.call.None?;
    case MoveUp =>
      assert key == Up || key == Char('k');
      assert o.Running? ==> o.app.mode == Normal && o.call.None?;
    case AddHere =>
      assert key == Char('a');
      assert o.app.mode == Creating && o.call.None?;
    case AddRoot =>
      assert key == Char('A');
      assert o.app.mode == Creating && o.call.None?;
    case ToggleDone =>
      assert key == Char('c');
      assert o.app.mode == Normal;
    case Rename =>
      assert key == Char('r');
      assert o.app.mode == Insert && o.call.None?;
    case Delete =>
      assert key == Char('D');
      assert o.call.None? && o.app.mode == (if FocusedCursor(a).Some? then DeleteConfirm else Normal);
    case ShowHelp =>
      assert key == Char('?');
      assert o.app.mode == Help && o.call.None?;
    case FocusTasks =>
      assert key == Right || key == Char('l');
      assert o.app.mode == Normal && o.call.None?;
    case FocusWorkspaces =>
      assert key == Left || key == Char('h');
      assert o.app.mode == Normal && o.call.None?;
    case SwitchFocus =>
      assert key == Tab;
      assert o.app.mode == Normal && o.call.None?;
    case _ =>
  }

  /** Opening a prompt, the delete confirmation or the help from a consistent
      Normal state and then pressing Esc comes back to that state; the create
      prompt leaves only its subtask flag behind. */
  lemma EscapeReturns(a: App, key: Key, s: Store)
    requires WellFormedStore(s) && Consistent(a) && a.mode == Normal
    requires key == Char('a') || key == Char('A') || key == Char('r') || key == Char('D') || key == Char('?')
    ensures var o := Step(a, key, s);
      o.Running? && Step(o.app, Esc, s) == Running(a.(creatingSubtask := o.app.creatingSubtask), None)
  {
  }

  /** In a prompt, typing a character and erasing it leaves the state as it was. */
  lemma TypeThenErase(a: App, c: char, s: Store)
    requires WellFormedStore(s) && (a.mode == Insert || a.mode == Creating)
    ensures var o := Step(a, Char(c), s);
      o.Running? && Step(o.app, Backspace, s) == Running(a, None)
  {
    PopUndoesTyping(a.buffer, c);
  }

  /** The commands of the normal mode. */
  function CommandStep(a: App, key: Key, s: Store): (o: Outcome)
    requires WellFormedStore(s) && a.mode == Normal && !IsModalAction(KeyAction(a.mode, key))
    ensures o.Ended? <==> key == Char('q')
    ensures o.Crashed? ==> KeyAction(a.mode, key) in {MoveDown, MoveUp}
    ensures Consistent(a) && o.Running? ==> Consistent(o.app)
    ensures key == Down || key == Char('j') ==>
      o == (if a.focus == Workspaces then Lift(NextWorkspace(a, s)) else Lift(NextTask(a)))
    ensures key == Up || key == Char('k') ==>
      o == (if a.focus == Workspaces then Lift(PreviousWorkspace(a, s)) else Lift(PreviousTask(a)))
    ensures key == Right || key == Char('l') ==> o == Running(a.(focus := Tasks), None)
    ensures key == Left || key == Char('h') ==> o == Running(a.(focus := Workspaces), None)
    ensures key == Tab ==> o == Running(a.(focus := if a.focus == Workspaces then Tasks else Workspaces), None)
    ensures key == Char('a') ==> o == Running(StartCreating(a, a.focus == Tasks), None)
    ensures key == Char('A') ==> o == Running(StartCreating(a, false), None)
    ensures key == Char('c') ==> o == Running(Toggle(a, s).app, Toggle(a, s).call)
    ensures key == Char('r') ==> o == Running(StartRename(a), None)
    ensures key == Char('D') ==> o == Running(StartDeleteConfirm(a), None)
    ensures key == Char('?') ==> o == Running(ShowHelp(a), None)
  {
    match KeyAction(a.mode, key)
    case Quit => Ended
    case MoveDown =>
      if a.focus == Workspaces then Lift(NextWorkspace(a, s)) else Lift(NextTask(a))
    case MoveUp =>
      if a.focus == Workspaces then Lift(PreviousWorkspace(a, s)) else Lift(PreviousTask(a))
    case FocusTasks => Running(a.(focus := Tasks), None)
    case FocusWorkspaces => Running(a.(focus := Workspaces), None)
    case SwitchFocus => Running(a.(focus := if a.focus == Workspaces then Tasks else Workspaces), None)
    case AddHere => Running(StartCreating(a, a.focus == Tasks), None)
    case AddRoot => Running(StartCreating(a, false), None)
    case ToggleDone => Running(Toggle(a, s).app, Toggle(a, s).call)
    case Rename => Running(StartRename(a), None)
    case Delete => Running(StartDeleteConfirm(a), None)
    case ShowHelp => Running(ShowHelp(a), None)
    case _ => Running(a, None)
  }

  /** Keys while a prompt, the help or the delete confirmation is open, and ignored keys. */
  function ModalStep(a: App, key: Key, s: Store): (o: Outcome)
    requires WellFormedStore(s) && IsModalAction(KeyAction(a.mode, key))
    ensures o.Running?
    ensures Consistent(a) ==> Consistent(o.app)
    ensures a.mode == DeleteConfirm ==>
      && (o.app.mode == Normal <==> IsConfirmKey(key) || IsRefuseKey(key))
      && (o.call.Some? ==> IsConfirmKey(key))
      && (!IsConfirmKey(key) && !IsRefuseKey(key) ==> o == Running(a, None))
    ensures a.mode == Help ==> o == Running(if IsCloseHelpKey(key) then a.(mode := Normal) else a, None)
    ensures a.mode == Insert || a.mode == Creating ==>
      && (key.Char? ==> o == Running(a.(buffer := a.buffer + [key.c]), None))
      && (key == Backspace ==> o == Running(a.(buffer := Pop(a.buffer)), None))
      && (key == Enter || key == Esc ==> o.app.mode == Normal && o.app.buffer == [])
      && (key == Esc ==> o.call == None)
    ensures KeyAction(a.mode, key) == Ignore ==> o == Running(a, None)
    ensures a.mode == DeleteConfirm && IsConfirmKey(key) ==> o == Running(ConfirmDelete(a, s).app, ConfirmDelete(a, s).call)
    ensures a.mode == DeleteConfirm && IsRefuseKey(key) ==> o == Running(CancelDeleteConfirm(a), None)
    ensures a.mode == Insert && key == Enter ==> o == Running(FinishRename(a, s).app, FinishRename(a, s).call)
    ensures a.mode == Creating && key == Enter ==> o == Running(FinishCreating(a, s).app, FinishCreating(a, s).call)
    ensures a.mode == Insert && key == Esc ==> o == Running(CancelRename(a), None)
    ensures a.mode == Creating && key == Esc ==> o == Running(CancelCreating(a), None)
  {
    match KeyAction(a.mode, key)
    case Submit =>
      var e := if a.mode == Insert then FinishRename(a, s) else FinishCreating(a, s);
      Running(e.app, e.call)
    case Cancel =>
      if a.mode == Insert then Running(CancelRename(a), None)
      else if a.mode == Creating then Running(CancelCreating(a), None)
      else Running(CancelDeleteConfirm(a), None)
    case Type(c) => Running(a.(buffer := a.buffer + [c]), None)
    case Erase => Running(a.(buffer := Pop(a.buffer)), None)
    case Confirm =>
      var e := ConfirmDelete(a, s);
      Running(e.app, e.call)
    case CloseHelp => Running(HideHelp(a), None)
    case _ => Running(a, None)
  }

  function Lift(r: Result<App, Fault>): Outcome {
    match r
    case Success(b) => Running(b, None)
    case Failure(e) => Crashed(e)
  }
}
