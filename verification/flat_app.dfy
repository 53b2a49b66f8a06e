/** The application state of the flat front end, whose task pane lists the
    workspace's tasks in store order with no hierarchy, and every operation its
    event loop drives. Store calls are not performed; an operation names the
    call it issues and receives the store as it reads back afterwards. */
module FlatApp {
  import opened Wrappers
  import opened Model
  import opened Cursor
  import opened Session

  /** The application state; `taskCursor` indexes `tasks` directly. */
  datatype App = App(
    workspaces: seq<Workspace>,
    tasks: seq<Task>,
    taskCursor: Option<nat>,
    wsCursor: Option<nat>,
    focus: Focus,
    mode: Mode,
    buffer: string,
    deleteTarget: Option<string>)

  datatype Effect = Effect(app: App, call: Option<Call>)

  datatype Outcome = Running(app: App, call: Option<Call>) | Ended | Crashed(fault: Fault)

  function SelectedWorkspace(a: App): Option<Workspace> {
    if a.wsCursor.Some? && a.wsCursor.value < |a.workspaces| then Some(a.workspaces[a.wsCursor.value]) else None
  }

  function SelectedTask(a: App): Option<Task> {
    if a.taskCursor.Some? && a.taskCursor.value < |a.tasks| then Some(a.tasks[a.taskCursor.value]) else None
  }

  /** The task pane shows workspace `w` as just read from `s`, with the cursor on
      the first task, or on nothing when there are none. */
  predicate ShowsFresh(r: App, s: Store, w: Workspace) {
    && r.tasks == s.tasksOf(w.id)
    && (r.taskCursor == None <==> r.tasks == [])
    && (r.tasks != [] ==> r.taskCursor == Some(0))
  }

  predicate SameSession(a: App, r: App) {
    a.focus == r.focus && a.mode == r.mode && a.buffer == r.buffer && a.deleteTarget == r.deleteTarget
  }

  /** A deletion is pending exactly in DeleteConfirm mode, and the input buffer
      holds text only while typing. */
  predicate Consistent(a: App) {
    && (a.deleteTarget.Some? <==> a.mode == DeleteConfirm)
    && (a.mode == Normal || a.mode == Help || a.mode == DeleteConfirm ==> a.buffer == [])
  }

  function Init(): (a: App)
    ensures Consistent(a) && a.mode == Normal && a.focus == Workspaces
    ensures a.workspaces == [] && a.tasks == [] && a.taskCursor == None
    ensures a.wsCursor == Some(0) && SelectedWorkspace(a) == None && SelectedTask(a) == None
  {
    App([], [], None, Some(0), Workspaces, Normal, [], None)
  }

  /** Re-reads the tasks of the selected workspace; with no workspace at the
      selection, nothing happens. */
  function LoadTasks(a: App, s: Store): (r: App)
    ensures SameSession(a, r) && r.workspaces == a.workspaces && r.wsCursor == a.wsCursor
    ensures SelectedWorkspace(a).None? ==> r == a
    ensures SelectedWorkspace(a).Some? ==> ShowsFresh(r, s, SelectedWorkspace(a).value)
  {
    match SelectedWorkspace(a)
    case None => a
    case Some(w) =>
      var tasks := s.tasksOf(w.id);
      a.(tasks := tasks, taskCursor := if tasks == [] then None else Some(0))
  }

  /** Re-reads the workspace list; when it is not empty, selects the first
      workspace and loads its tasks. */
  function LoadWorkspaces(a: App, s: Store): (r: App)
    ensures SameSession(a, r) && r.workspaces == s.workspaces
    ensures s.workspaces == [] ==> r == a.(workspaces := [])
    ensures s.workspaces != [] ==>
      r.wsCursor == Some(0) && ShowsFresh(r, s, s.workspaces[0]) && SelectedWorkspace(r) == Some(s.workspaces[0])
  {
    var a1 := a.(workspaces := s.workspaces);
    if s.workspaces == [] then a1 else LoadTasks(a1.(wsCursor := Some(0)), s)
  }

  /** Moves the workspace selection down with wraparound, then reloads the tasks. */
  function NextWorkspace(a: App, s: Store): (r: Result<App, Fault>)
    ensures r.Failure? <==> a.wsCursor.Some? && a.workspaces == []
    ensures r.Success? ==> SameSession(a, r.value) && r.value.workspaces == a.workspaces
    ensures r.Success? ==> r.value == LoadTasks(a.(wsCursor := r.value.wsCursor), s)
    ensures a.wsCursor.None? ==> r.Success? && r.value.wsCursor == Some(0)
    ensures a.wsCursor.Some? && a.wsCursor.value < |a.workspaces| ==>
      var j := (a.wsCursor.value + 1) % |a.workspaces|;
      r.Success? && r.value.wsCursor == Some(j) && ShowsFresh(r.value, s, a.workspaces[j])
    ensures (a.wsCursor.None? || |a.workspaces| <= a.wsCursor.value) && a.workspaces != [] ==>
      r.Success? && r.value.wsCursor == Some(0) && ShowsFresh(r.value, s, a.workspaces[0])
  {
    match Next(a.wsCursor, |a.workspaces|)
    case Failure(e) => Failure(e)
    case Success(i) =>
      assert a.wsCursor.Some? && a.wsCursor.value < |a.workspaces| ==> i == (a.wsCursor.value + 1) % |a.workspaces| < |a.workspaces|;
      var b := a.(wsCursor := Some(i));
      assert i < |a.workspaces| ==> SelectedWorkspace(b) == Some(a.workspaces[i]);
      Success(LoadTasks(b, s))
  }

  /** Moves the workspace selection up with wraparound, then reloads the tasks. */
  function PreviousWorkspace(a: App, s: Store): (r: Result<App, Fault>)
    ensures r.Failure? <==> a.wsCursor == Some(0) && a.workspaces == []
    ensures r.Success? ==> SameSession(a, r.value) && r.value.workspaces == a.workspaces
    ensures r.Success? ==> r.value == LoadTasks(a.(wsCursor := r.value.wsCursor), s)
    ensures a.wsCursor.None? ==> r.Success? && r.value.wsCursor == Some(0)
    ensures a.wsCursor.None? && a.workspaces != [] ==> ShowsFresh(r.value, s, a.workspaces[0])
    ensures a.wsCursor.Some? && a.wsCursor.value < |a.workspaces| ==>
      var j := (a.wsCursor.value + |a.workspaces| - 1) % |a.workspaces|;
      r.Success? && r.value.wsCursor == Some(j) && ShowsFresh(r.value, s, a.workspaces[j])
    ensures a.wsCursor.Some? && 0 < a.wsCursor.value ==>
      r.Success? && r.value.wsCursor == Some(a.wsCursor.value - 1)
  {
    match Previous(a.wsCursor, |a.workspaces|)
    case Failure(e) => Failure(e)
    case Success(i) =>
      assert a.wsCursor.Some? && a.wsCursor.value < |a.workspaces| ==> i == (a.wsCursor.value + |a.workspaces| - 1) % |a.workspaces| < |a.workspaces|;
      var b := a.(wsCursor := Some(i));
      assert i < |a.workspaces| ==> SelectedWorkspace(b) == Some(a.workspaces[i]);
      Success(LoadTasks(b, s))
  }

  /** Up then down from a selected workspace comes back to it. */
  lemma WorkspaceRoundTrip(a: App, s: Store)
    requires SelectedWorkspace(a).Some?
    ensures PreviousWorkspace(a, s).Success?
    ensures var b := NextWorkspace(PreviousWorkspace(a, s).value, s);
      b.Success? && b.value.wsCursor == a.wsCursor && ShowsFresh(b.value, s, SelectedWorkspace(a).value)
  {
    NextPreviousInverse(a.wsCursor.value, |a.workspaces|);
  }

  function NextTask(a: App): (r: Result<App, Fault>)
    ensures r.Failure? <==> a.taskCursor.Some? && a.tasks == []
    ensures r.Success? ==> r.value == a.(taskCursor := r.value.taskCursor) && r.value.taskCursor.Some?
    ensures a.taskCursor.None? ==> r == Success(a.(taskCursor := Some(0)))
    ensures a.taskCursor.Some? && a.taskCursor.value < |a.tasks| ==>
      r == Success(a.(taskCursor := Some((a.taskCursor.value + 1) % |a.tasks|)))
    ensures a.taskCursor.Some? && 0 < |a.tasks| <= a.taskCursor.value ==> r == Success(a.(taskCursor := Some(0)))
  {
    match Next(a.taskCursor, |a.tasks|)
    case Failure(e) => Failure(e)
    case Success(i) => Success(a.(taskCursor := Some(i)))
  }

  function PreviousTask(a: App): (r: Result<App, Fault>)
    ensures r.Failure? <==> a.taskCursor == Some(0) && a.tasks == []
    ensures r.Success? ==> r.value == a.(taskCursor := r.value.taskCursor) && r.value.taskCursor.Some?
    ensures a.taskCursor.None? ==> r == Success(a.(taskCursor := Some(0)))
    ensures a.taskCursor.Some? && a.taskCursor.value < |a.tasks| ==>
      r == Success(a.(taskCursor := Some((a.taskCursor.value + |a.tasks| - 1) % |a.tasks|)))
    ensures a.taskCursor.Some? && 0 < a.taskCursor.value ==> r == Success(a.(taskCursor := Some(a.taskCursor.value - 1)))
  {
    match Previous(a.taskCursor, |a.tasks|)
    case Failure(e) => Failure(e)
    case Success(i) => Success(a.(taskCursor := Some(i)))
  }

  /** Down then up, and up then down, from a selected task restore the state. */
  lemma TaskRoundTrip(a: App)
    requires SelectedTask(a).Some?
    ensures NextTask(a).Success? && PreviousTask(NextTask(a).value) == Success(a)
    ensures PreviousTask(a).Success? && NextTask(PreviousTask(a).value) == Success(a)
  {
    NextPreviousInverse(a.taskCursor.value, |a.tasks|);
  }

  /** `n` presses of the down key from a task cursor. */
  function TasksDown(a: App, n: nat): (r: Result<App, Fault>)
    ensures a.taskCursor.Some? && a.taskCursor.value < |a.tasks| ==>
      r == Success(a.(taskCursor := Some(StepsDown(a.taskCursor.value, n, |a.tasks|))))
  {
    if n == 0 then Success(a)
    else
      match TasksDown(a, n - 1)
      case Failure(e) => Failure(e)
      case Success(b) => NextTask(b)
  }

  /** As many down presses as there are tasks bring a selected task back. */
  lemma TaskFullCircle(a: App)
    requires SelectedTask(a).Some?
    ensures TasksDown(a, |a.tasks|) == Success(a)
  {
    DownFullCircle(a.taskCursor.value, |a.tasks|);
  }

  /** Opens the create prompt with an empty buffer. */
  function StartCreating(a: App): (r: App)
    ensures r.mode == Creating && r.buffer == [] && r == a.(mode := Creating, buffer := [])
  {
    a.(buffer := [], mode := Creating)
  }

  function CancelCreating(a: App): (r: App)
    ensures r.mode == Normal && r.buffer == [] && r == a.(mode := Normal, buffer := [])
  {
    a.(mode := Normal, buffer := [])
  }

  /** Submits the create prompt. Blank input issues nothing; a workspace is
      created in Workspaces focus, a top-level task of the selected workspace in
      Tasks focus (nothing without a selected workspace); the touched list is
      re-read and the prompt closes. */
  function FinishCreating(a: App, s: Store): (r: Effect)
    ensures r.app.mode == Normal && r.app.buffer == []
    ensures r.app.focus == a.focus && r.app.deleteTarget == a.deleteTarget
    ensures IsBlank(a.buffer) ==> r == Effect(a.(mode := Normal, buffer := []), None)
    ensures r.call.None? ==> r.app == a.(mode := Normal, buffer := [])
    ensures !IsBlank(a.buffer) && a.focus == Workspaces ==>
      && r.call == Some(CreateWorkspace(a.buffer)) && r.app.workspaces == s.workspaces
      && (s.workspaces == [] ==> r.app == a.(workspaces := [], mode := Normal, buffer := []))
      && (s.workspaces != [] ==> r.app.wsCursor == Some(0) && ShowsFresh(r.app, s, s.workspaces[0]))
    ensures !IsBlank(a.buffer) && a.focus == Tasks ==>
      && (r.call.Some? <==> SelectedWorkspace(a).Some?)
      && (r.call.Some? ==>
            && r.call == Some(CreateTask(a.buffer, SelectedWorkspace(a).value.id))
            && r.app.workspaces == a.workspaces && r.app.wsCursor == a.wsCursor
            && ShowsFresh(r.app, s, SelectedWorkspace(a).value))
  {
    if IsBlank(a.buffer) then Effect(CancelCreating(a), None)
    else
      match a.focus
      case Workspaces => Effect(CancelCreating(LoadWorkspaces(a, s)), Some(CreateWorkspace(a.buffer)))
      case Tasks =>
        match SelectedWorkspace(a)
        case None => Effect(CancelCreating(a), None)
        case Some(w) => Effect(CancelCreating(LoadTasks(a, s)), Some(CreateTask(a.buffer, w.id)))
  }

  /** After a create, reloading the list the call touched is a no-op. */
  lemma CreateShowsStore(a: App, s: Store)
    ensures var e := FinishCreating(a, s);
      && (e.call.Some? && a.focus == Workspaces ==> LoadWorkspaces(e.app, s) == e.app)
      && (e.call.Some? ==> LoadTasks(e.app, s) == e.app)
  {
  }

  /** Flips the completion of the selected task, re-reads, and puts back the
      cursor index. Outside Tasks focus or with no task selected, nothing happens. */
  function Toggle(a: App, s: Store): (r: Effect)
    ensures r.app.taskCursor == a.taskCursor
    ensures r.call.Some? <==> a.focus == Tasks && SelectedTask(a).Some?
    ensures r.call.None? ==> r.app == a
    ensures r.call.Some? ==>
      && r.call.value == ToggleTask(SelectedTask(a).value.id)
      && SameSession(a, r.app) && r.app.workspaces == a.workspaces && r.app.wsCursor == a.wsCursor
      && (SelectedWorkspace(a).Some? ==> r.app.tasks == s.tasksOf(SelectedWorkspace(a).value.id))
      && (SelectedWorkspace(a).None? ==> r.app == a)
  {
    if a.focus == Tasks && SelectedTask(a).Some? then
      Effect(LoadTasks(a, s).(taskCursor := a.taskCursor), Some(ToggleTask(SelectedTask(a).value.id)))
    else Effect(a, None)
  }

  /** After a toggle, the tasks are what reading the store again would show;
      a reload would differ only by moving the cursor to the top. */
  lemma ToggleShowsStore(a: App, s: Store)
    ensures var e := Toggle(a, s);
      e.call.Some? ==> LoadTasks(e.app, s) == e.app.(taskCursor := LoadTasks(e.app, s).taskCursor)
  {
  }

  function SelectedName(a: App): string {
    match a.focus
    case Workspaces => if SelectedWorkspace(a).Some? then SelectedWorkspace(a).value.name else []
    case Tasks => if SelectedTask(a).Some? then SelectedTask(a).value.title else []
  }

  /** Opens the rename prompt, pre-filled with the selected item's name. */
  function StartRename(a: App): (r: App)
    ensures r.mode == Insert && r == a.(mode := Insert, buffer := r.buffer)
    ensures a.focus == Workspaces && SelectedWorkspace(a).Some? ==> r.buffer == SelectedWorkspace(a).value.name
    ensures a.focus == Tasks && SelectedTask(a).Some? ==> r.buffer == SelectedTask(a).value.title
    ensures a.focus == Workspaces && SelectedWorkspace(a).None? ==> r.buffer == []
    ensures a.focus == Tasks && SelectedTask(a).None? ==> r.buffer == []
  {
    a.(buffer := SelectedName(a), mode := Insert)
  }

  /** Submits the rename prompt and re-reads the renamed item's list. */
  function FinishRename(a: App, s: Store): (r: Effect)
    ensures r.app.mode == Normal && r.app.buffer == []
    ensures a.focus == Workspaces ==>
      r.call == (if SelectedWorkspace(a).Some? then Some(RenameWorkspace(SelectedWorkspace(a).value.id, a.buffer)) else None)
    ensures a.focus == Tasks ==>
      r.call == (if SelectedTask(a).Some? then Some(RenameTask(SelectedTask(a).value.id, a.buffer)) else None)
    ensures r.app.focus == a.focus && r.app.deleteTarget == a.deleteTarget
    ensures r.call.None? ==> r.app == a.(mode := Normal, buffer := [])
    ensures r.call.Some? && a.focus == Workspaces ==> r.app.workspaces == s.workspaces
    ensures r.call.Some? && a.focus == Workspaces && s.workspaces == [] ==>
      r.app == a.(workspaces := [], mode := Normal, buffer := [])
    ensures r.call.Some? && a.focus == Workspaces && s.workspaces != [] ==>
      r.app.wsCursor == Some(0) && ShowsFresh(r.app, s, s.workspaces[0])
    ensures r.call.Some? && a.focus == Tasks ==> r.app.workspaces == a.workspaces && r.app.wsCursor == a.wsCursor
    ensures r.call.Some? && a.focus == Tasks && SelectedWorkspace(a).Some? ==>
      ShowsFresh(r.app, s, SelectedWorkspace(a).value)
    ensures r.call.Some? && a.focus == Tasks && SelectedWorkspace(a).None? ==>
      r.app == a.(mode := Normal, buffer := [])
  {
    var e := match a.focus
      case Workspaces =>
        if SelectedWorkspace(a).Some? then
          Effect(LoadWorkspaces(a, s), Some(RenameWorkspace(SelectedWorkspace(a).value.id, a.buffer)))
        else Effect(a, None)
      case Tasks =>
        if SelectedTask(a).Some? then Effect(LoadTasks(a, s), Some(RenameTask(SelectedTask(a).value.id, a.buffer)))
        else Effect(a, None);
    Effect(e.app.(mode := Normal, buffer := []), e.call)
  }

  /** After a rename, reloading the list the call touched is a no-op. */
  lemma RenameShowsStore(a: App, s: Store)
    ensures var e := FinishRename(a, s);
      && (e.call.Some? && a.focus == Workspaces ==> LoadWorkspaces(e.app, s) == e.app)
      && (e.call.Some? ==> LoadTasks(e.app, s) == e.app)
  {
  }

  function CancelRename(a: App): (r: App)
    ensures r.mode == Normal && r.buffer == [] && r == a.(mode := Normal, buffer := [])
  {
    a.(mode := Normal, buffer := [])
  }

  function FocusedCursor(a: App): Option<nat> {
    if a.focus == Workspaces then a.wsCursor else a.taskCursor
  }

  /** Asks for confirmation before deleting the selected item; with no cursor in
      the focused pane nothing happens. */
  function StartDeleteConfirm(a: App): (r: App)
    ensures FocusedCursor(a).None? ==> r == a
    ensures FocusedCursor(a).Some? ==> r == a.(mode := DeleteConfirm, deleteTarget := Some(SelectedName(a)))
  {
    if FocusedCursor(a).None? then a
    else a.(deleteTarget := Some(SelectedName(a)), mode := DeleteConfirm)
  }

  function CancelDeleteConfirm(a: App): (r: App)
    ensures r.mode == Normal && r.deleteTarget == None && r == a.(mode := Normal, deleteTarget := None)
  {
    a.(mode := Normal, deleteTarget := None)
  }

  /** Deletes the selected item and re-reads; the cursor keeps its index when
      still in range and moves to the last item otherwise. Deleting the last
      workspace leaves the selection and the task pane as they were. */
  function ConfirmDelete(a: App, s: Store): (r: Effect)
    ensures r.app.mode == Normal && r.app.deleteTarget == None
    ensures r.app.focus == a.focus && r.app.buffer == a.buffer
    ensures a.focus == Workspaces ==>
      r.call == (if SelectedWorkspace(a).Some? then Some(DeleteWorkspace(SelectedWorkspace(a).value.id)) else None)
    ensures a.focus == Tasks ==>
      r.call == (if SelectedTask(a).Some? then Some(DeleteTask(SelectedTask(a).value.id)) else None)
    ensures r.call.None? ==> r.app == a.(mode := Normal, deleteTarget := None)
    ensures r.call.Some? && a.focus == Workspaces && s.workspaces == [] ==>
      r.app == a.(workspaces := [], mode := Normal, deleteTarget := None)
    ensures r.call.Some? && a.focus == Workspaces && s.workspaces != [] ==>
      r.app.wsCursor.Some? &&
      var j := r.app.wsCursor.value;
      && j < |s.workspaces| && j <= a.wsCursor.value
      && (a.wsCursor.value < |s.workspaces| ==> j == a.wsCursor.value)
      && (|s.workspaces| <= a.wsCursor.value ==> j == |s.workspaces| - 1)
      && r.app.workspaces == s.workspaces
      && ShowsFresh(r.app, s, s.workspaces[j])
    ensures r.call.Some? && a.focus == Tasks ==>
      && r.app.workspaces == a.workspaces && r.app.wsCursor == a.wsCursor
      && (SelectedWorkspace(a).Some? ==> r.app.tasks == s.tasksOf(SelectedWorkspace(a).value.id))
      && (SelectedWorkspace(a).None? ==> r.app.tasks == a.tasks)
      && (r.app.tasks == [] <==> r.app.taskCursor == None)
      && (r.app.tasks != [] ==>
            var j := r.app.taskCursor.value;
            && j < |r.app.tasks| && j <= a.taskCursor.value
            && (a.taskCursor.value < |r.app.tasks| ==> j == a.taskCursor.value)
            && (|r.app.tasks| <= a.taskCursor.value ==> j == |r.app.tasks| - 1))
  {
    var e := match a.focus
      case Workspaces =>
        if SelectedWorkspace(a).None? then Effect(a, None)
        else
          var i := a.wsCursor.value;
          var a1 := LoadWorkspaces(a, s);
          var a2 := if a1.workspaces == [] then a1 else LoadTasks(a1.(wsCursor := Some(Clamp(i, |a1.workspaces|))), s);
          Effect(a2, Some(DeleteWorkspace(SelectedWorkspace(a).value.id)))
      case Tasks =>
        if SelectedTask(a).None? then Effect(a, None)
        else
          var i := a.taskCursor.value;
          var a1 := LoadTasks(a, s);
          var a2 := if a1.tasks == [] then a1 else a1.(taskCursor := Some(Clamp(i, |a1.tasks|)));
          Effect(a2, Some(DeleteTask(SelectedTask(a).value.id)));
    Effect(CancelDeleteConfirm(e.app), e.call)
  }

  /** After a delete, the workspace list and the tasks are what reading the
      store again would show; a reload of the tasks would differ only by the
      cursor, and after a workspace deletion not even by that. */
  lemma DeleteShowsStore(a: App, s: Store)
    ensures var e := ConfirmDelete(a, s);
      && (e.call.Some? && a.focus == Workspaces ==> e.app.workspaces == s.workspaces && LoadTasks(e.app, s) == e.app)
      && (e.call.Some? ==> LoadTasks(e.app, s) == e.app.(taskCursor := LoadTasks(e.app, s).taskCursor))
  {
  }

  function ShowHelp(a: App): (r: App)
    ensures r.mode == Help && r == a.(mode := Help)
  {
    a.(mode := Help)
  }

  function HideHelp(a: App): (r: App)
    ensures r.mode == Normal && r == a.(mode := Normal)
  {
    a.(mode := Normal)
  }

  /** One pass of the event loop. `a` opens the create prompt whatever the
      focus; `A` is not bound here. */
  function Step(a: App, key: Key, s: Store): (o: Outcome)
    ensures o.Ended? <==> a.mode == Normal && key == Char('q')
    ensures o.Crashed? ==> a.mode == Normal && KeyAction(a.mode, key) in {MoveDown, MoveUp}
    ensures Consistent(a) && o.Running? ==> Consistent(o.app)
    ensures a.mode == Normal && key == Char('A') ==> o == Running(a, None)
    ensures a.mode == Normal && key == Char('a') ==> o == Running(StartCreating(a), None)
    ensures a.mode == Normal && key == Char('r') ==> o == Running(StartRename(a), None)
    ensures a.mode == Normal && key == Char('D') ==> o == Running(StartDeleteConfirm(a), None)
    ensures a.mode == Normal && key == Char('?') ==> o == Running(ShowHelp(a), None)
    ensures a.mode == Normal && key == Char('c') ==> o == Running(Toggle(a, s).app, Toggle(a, s).call)
    ensures a.mode == DeleteConfirm ==>
      && o.Running?
      && (o.app.mode == Normal <==> IsConfirmKey(key) || IsRefuseKey(key))
      && (o.call.Some? ==> IsConfirmKey(key))
      && (!IsConfirmKey(key) && !IsRefuseKey(key) ==> o == Running(a, None))
    ensures a.mode == Help ==> o == Running(if IsCloseHelpKey(key) then a.(mode := Normal) else a, None)
    ensures a.mode == Insert || a.mode == Creating ==>
      && o.Running?
      && (key.Char? ==> o == Running(a.(buffer := a.buffer + [key.c]), None))
      && (key == Backspace ==> o == Running(a.(buffer := Pop(a.buffer)), None))
      && (key == Enter || key == Esc ==> o.app.mode == Normal && o.app.buffer == [])
      && (key == Esc ==> o.call == None)
    ensures KeyAction(a.mode, key) == Ignore ==> o == Running(a, None)
    ensures a.mode == DeleteConfirm && IsConfirmKey(key) ==> o == Running(ConfirmDelete(a, s).app, ConfirmDelete(a, s).call)
    ensures a.mode == DeleteConfirm && IsRefuseKey(key) ==> o == Running(CancelDeleteConfirm(a), None)
    ensures a.mode == Insert && key == Enter ==> o == Running(FinishRename(a, s).app, FinishRename(a, s).call)
    ensures a.mode == Creating && key == Enter ==> o == Running(FinishCreating(a, s).app, FinishCreating(a, s).call)
    ensures a.mode == Insert && key == Esc ==> o == Running(CancelRename(a), None)
    ensures a.mode == Creating && key == Esc ==> o == Running(CancelCreating(a), None)
  {
    if IsModalAction(KeyAction(a.mode, key)) then ModalStep(a, key, s) else CommandStep(a, key, s)
  }

  /** From Normal mode, which keys open which mode: `a` the create prompt,
      `r` the rename prompt, `D` the delete confirmation (when the focused pane
      has a cursor), `?` the help; every other key leaves the mode Normal, and
      only `c` issues a store call. */
  lemma NormalTransitions(a: App, key: Key, s: Store)
    requires a.mode == Normal
    ensures var o := Step(a, key, s);
      o.Running? ==>
        && (o.app.mode == Creating <==> key == Char('a'))
        && (o.app.mode == Insert <==> key == Char('r'))
        && (o.app.mode == DeleteConfirm <==> key == Char('D') && FocusedCursor(a).Some?)
        && (o.app.mode == Help <==> key == Char('?'))
        && (o.call.Some? ==> key == Char('c'))
  {
    if IsModalAction(KeyAction(a.mode, key)) {
      IgnoredKeyTransitions(a, key, s);
    } else {
      CommandKeyTransitions(a, key, s);
    }
  }

  /** `NormalTransitions` for an unbound key: nothing changes. */
  lemma IgnoredKeyTransitions(a: App, key: Key, s: Store)
    requires a.mode == Normal && IsModalAction(KeyAction(a.mode, key))
    ensures var o := Step(a, key, s);
      o.Running? ==>
        && (o.app.mode == Creating <==> key == Char('a'))
        && (o.app.mode == Insert <==> key == Char('r'))
        && (o.app.mode == DeleteConfirm <==> key == Char('D') && FocusedCursor(a).Some?)
        && (o.app.mode == Help <==> key == Char('?'))
        && (o.call.Some? ==> key == Char('c'))
  {
    assert KeyAction(a.mode, key) == Ignore;
    assert Step(a, key, s) == ModalStep(a, key, s) == Running(a, None);
  }

  /** `NormalTransitions` for a bound key, from `CommandTransitions`. */
  lemma CommandKeyTransitions(a: App, key: Key, s: Store)
    requires a.mode == Normal && !IsModalAction(KeyAction(a.mode, key))
    ensures var o := Step(a, key, s);
      o.Running? ==>
        && (o.app.mode == Creating <==> key == Char('a'))
        && (o.app.mode == Insert <==> key == Char('r'))
        && (o.app.mode == DeleteConfirm <==> key == Char('D') && FocusedCursor(a).Some?)
        && (o.app.mode == Help <==> key == Char('?'))
        && (o.call.Some? ==> key == Char('c'))
  {
    assert Step(a, key, s) == CommandStep(a, key, s);
    CommandTransitions(a, key, s);
  }

  /** `NormalTransitions` for the keys `CommandStep` handles. */
  lemma CommandTransitions(a: App, key: Key, s: Store)
    requires a.mode == Normal && !IsModalAction(KeyAction(a.mode, key))
    ensures var o := CommandStep(a, key, s);
      o.Running? ==>
        && (o.app.mode == Creating <==> key == Char('a'))
        && (o.app.mode == Insert <==> key == Char('r'))
        && (o.app.mode == DeleteConfirm <==> key == Char('D') && FocusedCursor(a).Some?)
        && (o.app.mode == Help <==> key == Char('?'))
        && (o.call.Some? ==> key == Char('c'))
  {
    var o := CommandStep(a, key, s);
    match KeyAction(a.mode, key)
    case Quit =>
    case MoveDown =>
      assert key == Down || key == Char('j');
      assert o.Running? ==> o.app.mode == Normal && o.call.None?;
    case MoveUp =>
      assert key == Up || key == Char('k');
      assert o.Running? ==> o.app.mode == Normal && o.call.None?;
    case AddHere =>
      assert key == Char('a');
      assert o.app.mode == Creating && o.call.None?;
    case ToggleDone =>
      assert key == Char('c');
      assert o.app.mode == Normal;
    case Rename =>
      assert key == Char('r');
      assert o.app.mode == Insert && o.call.None?;
    case Delete =>
      assert key == Char('D');
      assert o.call.None? && o.app.mode == (if FocusedCursor(a).Some? then DeleteConfirm else Normal);
    case ShowHelp =>
      assert key == Char('?');
      assert o.app.mode == Help && o.call.None?;
    case FocusTasks =>
      assert key == Right || key == Char('l');
      assert o.app.mode == Normal && o.call.None?;
    case FocusWorkspaces =>
      assert key == Left || key == Char('h');
      assert o.app.mode == Normal && o.call.None?;
    case SwitchFocus =>
      assert key == Tab;
      assert o.app.mode == Normal && o.call.None?;
    case AddRoot =>
      assert key == Char('A');
      assert o == Running(a, None);
    case _ =>
  }

  /** Opening a prompt, the delete confirmation or the help from a consistent
      Normal state and then pressing Esc comes back to that state. */
  lemma EscapeReturns(a: App, key: Key, s: Store)
    requires Consistent(a) && a.mode == Normal
    requires key == Char('a') || key == Char('r') || key == Char('D') || key == Char('?')
    ensures var o := Step(a, key, s);
      o.Running? && Step(o.app, Esc, s) == Running(a, None)
  {
  }

  /** In a prompt, typing a character and erasing it leaves the state as it was. */
  lemma TypeThenErase(a: App, c: char, s: Store)
    requires (a.mode == Insert || a.mode == Creating)
    ensures var o := Step(a, Char(c), s);
      o.Running? && Step(o.app, Backspace, s) == Running(a, None)
  {
    PopUndoesTyping(a.buffer, c);
  }

  /** The commands of the normal mode; `A` is not bound here. */
  function CommandStep(a: App, key: Key, s: Store): (o: Outcome)
    requires a.mode == Normal && !IsModalAction(KeyAction(a.mode, key))
    ensures o.Ended? <==> key == Char('q')
    ensures o.Crashed? ==> KeyAction(a.mode, key) in {MoveDown, MoveUp}
    ensures Consistent(a) && o.Running? ==> Consistent(o.app)
    ensures key == Down || key == Char('j') ==>
      o == (if a.focus == Workspaces then Lift(NextWorkspace(a, s)) else Lift(NextTask(a)))
    ensures key == Up || key == Char('k') ==>
      o == (if a.focus == Workspaces then Lift(PreviousWorkspace(a, s)) else Lift(PreviousTask(a)))
    ensures key == Right || key == Char('l') ==> o == Running(a.(focus := Tasks), None)
    ensures key == Left || key == Char('h') ==> o == Running(a.(focus := Workspaces), None)
    ensures key == Tab ==> o == Running(a.(focus := if a.focus == Workspaces then Tasks else Workspaces), None)
    ensures key == Char('a') ==> o == Running(StartCreating(a), None)
    ensures key == Char('A') ==> o == Running(a, None)
    ensures key == Char('c') ==> o == Running(Toggle(a, s).app, Toggle(a, s).call)
    ensures key == Char('r') ==> o == Running(StartRename(a), None)
    ensures key == Char('D') ==> o == Running(StartDeleteConfirm(a), None)
    ensures key == Char('?') ==> o == Running(ShowHelp(a), None)
  {
    match KeyAction(a.mode, key)
    case Quit => Ended
    case MoveDown =>
      if a.focus == Workspaces then Lift(NextWorkspace(a, s)) else Lift(NextTask(a))
    case MoveUp =>
      if a.focus == Workspaces then Lift(PreviousWorkspace(a, s)) else Lift(PreviousTask(a))
    case FocusTasks => Running(a.(focus := Tasks), None)
    case FocusWorkspaces => Running(a.(focus := Workspaces), None)
    case SwitchFocus => Running(a.(focus := if a.focus == Workspaces then Tasks else Workspaces), None)
    case AddHere => Running(StartCreating(a), None)
    case ToggleDone => Running(Toggle(a, s).app, Toggle(a, s).call)
    case Rename => Running(StartRename(a), None)
    case Delete => Running(StartDeleteConfirm(a), None)
    case ShowHelp => Running(ShowHelp(a), None)
    case _ => Running(a, None)
  }

  /** Keys while a prompt, the help or the delete confirmation is open, and ignored keys. */
  function ModalStep(a: App, key: Key, s: Store): (o: Outcome)
    requires IsModalAction(KeyAction(a.mode, key))
    ensures o.Running?
    ensures Consistent(a) ==> Consistent(o.app)
    ensures a.mode == DeleteConfirm ==>
      && (o.app.mode == Normal <==> IsConfirmKey(key) || IsRefuseKey(key))
      && (o.call.Some? ==> IsConfirmKey(key))
      && (!IsConfirmKey(key) && !IsRefuseKey(key) ==> o == Running(a, None))
    ensures a.mode == Help ==> o == Running(if IsCloseHelpKey(key) then a.(mode := Normal) else a, None)
    ensures a.mode == Insert || a.mode == Creating ==>
      && (key.Char? ==> o == Running(a.(buffer := a.buffer + [key.c]), None))
      && (key == Backspace ==> o == Running(a.(buffer := Pop(a.buffer)), None))
      && (key == Enter || key == Esc ==> o.app.mode == Normal && o.app.buffer == [])
      && (key == Esc ==> o.call == None)
    ensures KeyAction(a.mode, key) == Ignore ==> o == Running(a, None)
    ensures a.mode == DeleteConfirm && IsConfirmKey(key) ==> o == Running(ConfirmDelete(a, s).app, ConfirmDelete(a, s).call)
    ensures a.mode == DeleteConfirm && IsRefuseKey(key) ==> o == Running(CancelDeleteConfirm(a), None)
    ensures a.mode == Insert && key == Enter ==> o == Running(FinishRename(a, s).app, FinishRename(a, s).call)
    ensures a.mode == Creating && key == Enter ==> o == Running(FinishCreating(a, s).app, FinishCreating(a, s).call)
    ensures a.mode == Insert && key == Esc ==> o == Running(CancelRename(a), None)
    ensures a.mode == Creating && key == Esc ==> o == Running(CancelCreating(a), None)
  {
    match KeyAction(a.mode, key)
    case Submit =>
      var e := if a.mode == Insert then FinishRename(a, s) else FinishCreating(a, s);
      Running(e.app, e.call)
    case Cancel =>
      if a.mode == Insert then Running(CancelRename(a), None)
      else if a.mode == Creating then Running(CancelCreating(a), None)
      else Running(CancelDeleteConfirm(a), None)
    case Type(c) => Running(a.(buffer := a.buffer + [c]), None)
    case Erase => Running(a.(buffer := Pop(a.buffer)), None)
    case Confirm =>
      var e := ConfirmDelete(a, s);
      Running(e.app, e.call)
    case CloseHelp => Running(HideHelp(a), None)
    case _ => Running(a, None)
  }

  function Lift(r: Result<App, Fault>): Outcome {
    match r
    case Success(b) => Running(b, None)
    case Failure(e) => Crashed(e)
  }
}
