# Task tracker core: the task tree view and the selection state machine

The tracker is a terminal application. It keeps workspaces, each holding
tasks that may nest: a task names its parent through `parent_task_id`. Two
front ends share the same store. The hierarchical one is `todo-tui/src/ui.rs`.
The older flat one is `src/ui.rs`. This project models their pure core in
Dafny and proves what that core promises.

1. **The task tree view.** `build_task_hierarchy` and `add_task_and_children`
   turn the flat task list of a workspace into display rows `(task, level,
   index)`.
   - Parentless tasks start the trees.
   - At every level, open tasks come before completed ones. Each group is in
     ascending creation time, and equal times keep store order.
   - Every task is followed by its whole subtree.

   The model is `TaskTree.BuildTaskHierarchy`. The facts about its output are
   in `TaskTreeFacts`.

2. **The selection and input-mode state machine.** This covers:
   - wraparound cursors over workspaces and rows;
   - what the cursor does after each reload: reset, index kept, or clamped;
   - the target of a create;
   - the confirmations;
   - the key map of the event loop in each input mode.

   `TreeApp` models the hierarchical front end and `FlatApp` the flat one.
   `Cursor` and `Session` hold what both share.

Module layout:

- `Wrappers`: `Option` and `Result`.
- `Seqs`: the list filter, positions in a list, and order-preservation lemmas.
- `Model`: the workspace and task records.
- `StableSort`: `sort_by_key(created_at)` as a stable insertion sort.
- `TaskTree`: the flattener.
- `TaskTreeOrder` and `TaskTreeFacts`: the proofs about the flattener.
- `Cursor`, `Session`, `TreeApp`, `TreeScenarios`, `FlatApp`: the state machine.

How the store is modelled. No store call is performed. An operation returns
the `Session.Call` it would issue, such as `CreateSubtask(title, workspace,
parent)`. It also receives a `Session.Store`: the workspace list and the
per-workspace task lists as the reads after the call return them. Key events
are reduced to `Session.Key`.

The termination argument for the recursion. `add_task_and_children` recurses
over children found by parent id. It stops only because task ids are distinct:
they are row ids. The model therefore requires distinct ids. It carries the
ancestor chain of the current task as a ghost argument, and the measure is the
set of tasks not yet on that chain. The ghost functions `TaskTree.NodeTrace` and
`TaskTree.ForestTrace` mirror the recursion. They list the ancestor chain behind
every row. The theorems say that these chains are:

- the parent-linked chains of the input, all of them, each exactly once;
- in lexicographic pre-order, where siblings compare open-before-completed,
  then by creation time, then by store position.

Every statement about rows in `TaskTreeFacts` comes from that.

## Behaviour at the edges

Three behaviours of the code are easy to miss; the model keeps each of them.

- **Cursor after a reload.** Create and rename reload the list they touched,
  which puts the cursor on row 0. Toggle reloads and then puts the old index
  back unchanged. Completing a task moves it behind the open tasks, so after a
  toggle the cursor can sit on a different task than the one toggled.
  `TreeScenarios.ToggleKeepsIndexNotTask` proves this for a workspace of two
  top-level tasks, the second one open: completing the selected first one
  leaves the cursor at index 0, now on the second.
- **Dangling parent ids.** A task whose parent id names no fetched task is
  never shown. It is neither promoted to a root nor flagged. This is
  `TaskTreeFacts.DanglingParentNeverShown`.
- **Failed store calls.** Every store call is followed by `?` inside the event
  loop, so a failing call returns from the loop and ends the session, possibly
  after part of an operation already happened. That path is outside the model
  (see below).

## Model

| member | source | states |
|---|---|---|
| StableSort.SortByCreated | todo-tui/src/ui.rs:111 | the sort keeps the length and exactly the members of its input |
| StableSort.SortSorted | todo-tui/src/ui.rs:111 | the sorted list is in non-decreasing creation time |
| StableSort.SortPermutes | todo-tui/src/ui.rs:111 | the sort is a permutation: every task occurs as often in the result as in the input |
| StableSort.SortStable | todo-tui/src/ui.rs:150 | the sort is stable: tasks with equal creation time keep the relative order they had in the store list |
| Seqs.FilterAscending | todo-tui/src/ui.rs:106-110 | filtering keeps the surviving tasks in their store order |
| StableSort.FilterStable | todo-tui/src/ui.rs:152-155 | splitting sorted children into open and completed keeps each part sorted by creation time, ties in store order |
| TaskTree.RootOrder | todo-tui/src/ui.rs:106-118 | the top-level list holds exactly the input tasks without a parent |
| TaskTree.ChildOrder | todo-tui/src/ui.rs:145-155 | the child list of a task holds exactly the input tasks whose parent id is that task's id |
| TaskTreeOrder.RootOrderSorted | todo-tui/src/ui.rs:106-128 | top-level tasks are visited open before completed, each group by creation time, ties in store order |
| TaskTreeOrder.ChildOrderSorted | todo-tui/src/ui.rs:145-163 | children are visited open before completed, each group by creation time, ties in store order |
| TaskTree.ExtendChain | todo-tui/src/ui.rs:157-163 | with distinct ids, a child is never already on its ancestor chain, so each recursive call has strictly fewer unvisited tasks and the recursion ends |
| TaskTree.AddTaskAndChildren | todo-tui/src/ui.rs:131-164 | the task's own row comes first, at the given level and index; the rows of its descendants follow with consecutive indexes, each one level deeper per ancestor |
| TaskTree.AddSubtrees | todo-tui/src/ui.rs:122-127 | the subtrees of a sibling list are laid out one after another, with the running index carried across them |
| TaskTree.BuildTaskHierarchy | todo-tui/src/ui.rs:102-129 | row k shows the last task of the k-th ancestor chain, at level (chain length - 1), with index k |
| TaskTreeOrder.ChainUnique | todo-tui/src/ui.rs:145-149 | with distinct ids, a task has at most one ancestor chain, because parents are found by id |
| TaskTreeOrder.NodeTraceSorted | todo-tui/src/ui.rs:138-163 | a subtree is listed in pre-order: a task before its descendants, and a sibling's whole subtree before the next sibling's |
| TaskTreeOrder.ForestTraceComplete | todo-tui/src/ui.rs:157-163 | every ancestor chain below a visited sibling list is listed, so no reachable descendant is skipped |
| TaskTreeOrder.LexBetween | todo-tui/src/ui.rs:138-163 | in pre-order, anything between a task and one of its children lies inside that task's subtree |
| TaskTreeFacts.RowsAreDistinctInputTasks | todo-tui/src/ui.rs:138-149 | every row shows a task of the input, and no task is shown twice |
| TaskTreeFacts.ShownIffReachable | todo-tui/src/ui.rs:106-149 | a task is shown exactly when following parent ids from it ends at a parentless task of the input |
| TaskTreeFacts.DanglingParentNeverShown | todo-tui/src/ui.rs:145-149 | a task whose parent id names no fetched task appears in no row |
| TaskTreeFacts.RootsAtLevelZero | todo-tui/src/ui.rs:120-143 | row indexes equal positions; a row is at level 0 exactly when its task has no parent; every parentless task is shown at level 0 |
| TaskTreeFacts.NoRowsIffNoRoots | todo-tui/src/ui.rs:103-128 | the view is empty exactly when the input has no parentless task (so an empty list gives no rows) |
| TaskTreeFacts.ParentRowPrecedes | todo-tui/src/ui.rs:138-163 | each row below level 0 has its parent's row above it, one level up, and all rows in between are at least as deep (contiguous subtrees) |
| TaskTreeFacts.SiblingsInOrder | todo-tui/src/ui.rs:145-163 | any two rows whose tasks share a parent id appear open before completed, then by creation time, then in store order |
| TaskTreeFacts.TopLevelOrder | todo-tui/src/ui.rs:106-128 | level-0 rows: all open ones before all completed ones, ascending creation time within each group, store order on ties |
| Cursor.Next | todo-tui/src/ui.rs:200-212 | moving down: none goes to 0, an in-range index i goes to (i + 1) mod len, past the end goes to 0; a set cursor on an empty list underflows |
| Cursor.Previous | todo-tui/src/ui.rs:214-226 | moving up: none goes to 0, an in-range index i goes to (i + len - 1) mod len, a larger index just decreases; index 0 on an empty list underflows |
| Cursor.NextPreviousInverse | todo-tui/src/ui.rs:200-226 | for an in-range index, down then up and up then down return to it |
| Cursor.DownFullCircle | todo-tui/src/ui.rs:200-212 | len moves down from an in-range index come back to it |
| Cursor.UpFullCircle | todo-tui/src/ui.rs:214-226 | len moves up from an in-range index come back to it |
| Cursor.Clamp | todo-tui/src/ui.rs:420-426 | after a deletion the cursor is the old index if still in range, else the last index: in range, never above the old index |
| Session.Pop | todo-tui/src/ui.rs:539-541 | Backspace removes exactly the last character, and does nothing on an empty buffer |
| Session.PopUndoesTyping | todo-tui/src/ui.rs:539-544 | typing a character then pressing Backspace restores the buffer |
| Session.KeyAction | todo-tui/src/ui.rs:485-576 | in Normal mode, each binding in both directions: q quits; Down/j and Up/k move; Right/l, Left/h and Tab change focus; a, A, c, r, D and ? add, add at top level, toggle, rename, delete and open help; every other key is ignored. Outside Normal mode no key navigates or quits; DeleteConfirm confirms on y/Y only and cancels on n/N/Esc only; Help closes on ?/Esc/q only; the prompts type on any character, erase on Backspace, submit on Enter, cancel on Esc |
| TreeApp.Init | todo-tui/src/ui.rs:57-75 | the session starts consistent, in Normal mode, focused on workspaces, with no workspaces, no rows and no row cursor, but with the workspace cursor already at 0 |
| TreeApp.LoadTasks | todo-tui/src/ui.rs:87-100 | with a workspace selected: its tasks are re-read, the rows rebuilt, and the cursor put on row 0 (none when there are no rows); without one, nothing changes; no other field changes |
| TreeApp.LoadTasksIdempotent | todo-tui/src/ui.rs:87-100 | reloading twice from the same store is reloading once |
| TreeApp.LoadWorkspaces | todo-tui/src/ui.rs:77-85 | the workspace list is re-read; if non-empty the first workspace is selected and its tasks shown fresh, otherwise selection and rows are left as they were |
| TreeApp.NextWorkspace | todo-tui/src/ui.rs:166-181 | with no cursor, or a cursor past the end, the cursor goes to 0; otherwise it wraps downwards; the reached workspace is shown fresh with the task cursor reset, and the result equals re-reading the store with the new cursor; underflow exactly when a set cursor meets an empty list |
| TreeApp.PreviousWorkspace | todo-tui/src/ui.rs:183-198 | with no cursor the cursor goes to 0; from 0 it wraps to the last workspace, from any later index (even past the end) it goes one up; the reached workspace is shown fresh with the task cursor reset, and the result equals re-reading the store with the new cursor |
| TreeApp.WorkspaceRoundTrip | todo-tui/src/ui.rs:166-198 | down then up from a selected workspace comes back to it, freshly loaded |
| TreeApp.NextTask | todo-tui/src/ui.rs:200-212 | only the task cursor moves: from none to row 0, from an in-range row to the next with wraparound, from past the end to row 0; a set cursor over no rows underflows |
| TreeApp.PreviousTask | todo-tui/src/ui.rs:214-226 | only the task cursor moves: from none to row 0, from an in-range row to the previous with wraparound, from any index above 0 one step down; index 0 over no rows underflows |
| TreeApp.TaskRoundTrip | todo-tui/src/ui.rs:200-226 | with a row selected, down then up and up then down restore the whole state |
| TreeApp.StartCreating | todo-tui/src/ui.rs:228-238 | the create prompt opens empty and records whether a subtask is wanted; nothing else changes |
| TreeApp.CancelCreating | todo-tui/src/ui.rs:289-292 | back to Normal with an empty buffer, nothing else changes |
| TreeApp.CreateCall | todo-tui/src/ui.rs:246-283 | workspace focus creates a workspace; task focus with a workspace selected creates a subtask of the selected row exactly when a subtask was asked for and a row is selected, and a top-level task otherwise; no workspace, no call |
| TreeApp.FinishCreating | todo-tui/src/ui.rs:240-287 | blank input issues no call and only closes the prompt; otherwise the create call goes out. In workspace focus the workspace list is the store's; when it is not empty the cursor is on the first workspace, shown fresh, and when it is empty nothing else changes. In task focus the workspace list and cursor stay and the selected workspace is shown fresh. Focus, target and subtask flag are kept; the prompt always ends in Normal with an empty buffer |
| TreeApp.CreateShowsStore | todo-tui/src/ui.rs:240-287 | after a create call, reloading the workspace list (in workspace focus) or the rows changes nothing: the view is what the store holds |
| TreeApp.Toggle | todo-tui/src/ui.rs:294-306 | with a row selected in task focus, the toggle call names that row's task, the tasks are re-read from the store and the rows rebuilt from them, the workspaces, workspace cursor and session fields stay, and the row cursor keeps its raw index; otherwise nothing happens |
| TreeScenarios.ToggleKeepsIndexNotTask | todo-tui/src/ui.rs:294-306 | completing the selected first top-level task while another stays open leaves the cursor at index 0, now showing the other task |
| TreeApp.ToggleShowsStore | todo-tui/src/ui.rs:294-306 | after a toggle call, a reload of the rows would differ from the result only in the row cursor |
| TreeApp.StartRename | todo-tui/src/ui.rs:308-333 | the rename prompt opens holding the selected item's name, or empty text when nothing is selected |
| TreeApp.FinishRename | todo-tui/src/ui.rs:335-361 | the selected item is renamed to the buffer (blank allowed). A workspace rename re-reads the workspace list and, when it is not empty, selects the first workspace and shows it fresh; a task rename keeps the workspaces and their cursor and shows the selected workspace fresh. With nothing selected, no call. Focus, target and subtask flag are kept; always back to Normal with an empty buffer |
| TreeApp.RenameShowsStore | todo-tui/src/ui.rs:335-361 | after a rename call, reloading the workspace list (in workspace focus) or the rows changes nothing |
| TreeApp.CancelRename | todo-tui/src/ui.rs:363-366 | back to Normal with an empty buffer, nothing else changes |
| TreeApp.StartDeleteConfirm | todo-tui/src/ui.rs:368-393 | without a cursor in the focused pane nothing changes; otherwise the confirmation opens naming the selected item |
| TreeApp.ConfirmDelete | todo-tui/src/ui.rs:395-434 | the selected item's delete call goes out. After a workspace deletion the list is the store's and the workspace at the kept-or-clamped cursor is shown fresh; deleting the last workspace leaves selection and rows untouched. After a task deletion the workspaces and their cursor stay, the tasks are re-read and the rows rebuilt from them, and the row cursor keeps its index when still in range, else moves to the last row. Ends in Normal with no target |
| TreeApp.DeleteShowsStore | todo-tui/src/ui.rs:395-434 | after a delete call the workspace list is the store's; a reload of the rows would differ only in the row cursor, and after a workspace deletion not at all |
| TreeApp.DeleteSelectedWorkspace | todo-tui/src/ui.rs:397-414 | with a workspace selected, that workspace's delete call goes out; if workspaces remain, the list is the store's, the cursor keeps its index when still in range, else moves to the last one, and that workspace is shown fresh; if none remain, only the list empties; without a selection, no call and nothing changes |
| TreeApp.DeleteSelectedTask | todo-tui/src/ui.rs:415-429 | with a row selected, that task's delete call goes out, the workspaces and their cursor stay, and the tasks are re-read and the rows rebuilt; the cursor is none exactly when no rows remain, and otherwise keeps its index when still in range, else moves to the last row; without a selection, no call and nothing changes |
| TreeApp.CancelDeleteConfirm | todo-tui/src/ui.rs:436-439 | back to Normal with no target, nothing else changes |
| TreeApp.ShowHelp | todo-tui/src/ui.rs:441-443 | only the mode changes, to Help |
| TreeApp.HideHelp | todo-tui/src/ui.rs:445-447 | only the mode changes, back to Normal |
| TreeApp.Step | todo-tui/src/ui.rs:477-580 | the session ends exactly on q in Normal mode; only navigation can fault; a consistent state stays consistent; in Normal mode a opens the create prompt (a subtask prompt in task focus), A the top-level create prompt, r the rename prompt, D the delete confirmation, ? the help, and c toggles; DeleteConfirm reaches Normal exactly on y/Y/n/N/Esc, issues a call only on y/Y and ignores other keys; Help closes only on ?/Esc/q; the prompts append, erase, and end in Normal with an empty buffer on Enter/Esc; every modal key runs the same operation as in ModalStep (y/Y ConfirmDelete, n/N/Esc CancelDeleteConfirm, Enter FinishRename/FinishCreating, Esc CancelRename/CancelCreating), and keys bound to nothing leave the state as it was with no call |
| TreeApp.EscapeReturns | todo-tui/src/ui.rs:508-576 | opening either create prompt, the rename prompt, the delete confirmation or the help from a consistent Normal state and then pressing Esc comes back to that state, except for the subtask flag the create prompt sets |
| TreeApp.TypeThenErase | todo-tui/src/ui.rs:532-570 | in either prompt, typing a character and then Backspace leaves the state unchanged with no call |
| TreeApp.NormalTransitions | todo-tui/src/ui.rs:486-531 | from Normal mode the create prompt opens exactly on a or A, the rename prompt exactly on r, the delete confirmation exactly on D with a cursor in the focused pane, the help exactly on ?; only c issues a store call |
| TreeApp.CommandStep | todo-tui/src/ui.rs:486-531 | in Normal mode the session ends exactly on q; Down/j and Up/k move the cursor of the focused pane and only they can fault; Right/l, Left/h and Tab set the focus; a, A, c, r, D and ? open the create prompt (subtask flag set in task focus only), the top-level create prompt, toggle, open rename, delete confirmation and help; a consistent state stays consistent |
| TreeApp.ModalStep | todo-tui/src/ui.rs:532-576 | the modal keys never end or fault the session; in DeleteConfirm, y/Y is exactly ConfirmDelete and n/N/Esc exactly CancelDeleteConfirm; in the prompts, Enter is exactly FinishRename or FinishCreating and Esc exactly CancelRename or CancelCreating; ?/Esc/q close the help; keys bound to nothing leave the state as it was with no call |
| FlatApp.Init | src/ui.rs:49-65 | the session starts consistent, in Normal mode, focused on workspaces, with no workspaces, no tasks and no task cursor, but with the workspace cursor already at 0 |
| FlatApp.LoadTasks | src/ui.rs:77-85 | with a workspace selected its tasks are re-read in store order and the cursor put on the first (none when empty); otherwise nothing changes |
| FlatApp.LoadWorkspaces | src/ui.rs:67-75 | the workspace list is re-read; if non-empty the first workspace is selected and its tasks loaded fresh |
| FlatApp.NextWorkspace | src/ui.rs:87-102 | with no cursor, or a cursor past the end, the cursor goes to 0; otherwise it wraps downwards; the reached workspace's tasks are shown fresh with the task cursor reset, and the result equals re-reading the store with the new cursor; underflow exactly when a set cursor meets an empty list |
| FlatApp.PreviousWorkspace | src/ui.rs:104-119 | with no cursor the cursor goes to 0; from 0 it wraps to the last workspace, from any later index (even past the end) it goes one up; the reached workspace's tasks are shown fresh with the task cursor reset, and the result equals re-reading the store with the new cursor |
| FlatApp.WorkspaceRoundTrip | src/ui.rs:87-119 | up then down from a selected workspace comes back to it, freshly loaded |
| FlatApp.NextTask | src/ui.rs:121-133 | only the task cursor moves: from none to 0, from an in-range task to the next with wraparound, from past the end to 0; a set cursor over no tasks underflows |
| FlatApp.PreviousTask | src/ui.rs:135-147 | only the task cursor moves: from none to 0, from an in-range task to the previous with wraparound, from any index above 0 one step down; index 0 over no tasks underflows |
| FlatApp.TaskFullCircle | src/ui.rs:121-133 | pressing down once per task brings a selected task back, the rest of the state unchanged |
| FlatApp.TasksDown | src/ui.rs:121-133 | n presses of down from an in-range cursor succeed and land where n wraparound steps of the cursor land |
| FlatApp.TaskRoundTrip | src/ui.rs:121-147 | with a task selected, down then up and up then down restore the whole state |
| FlatApp.StartCreating | src/ui.rs:149-152 | the create prompt opens empty, nothing else changes |
| FlatApp.CancelCreating | src/ui.rs:178-181 | back to Normal with an empty buffer |
| FlatApp.FinishCreating | src/ui.rs:154-176 | blank input issues no call; workspace focus creates a workspace, re-reads the list and, when it is not empty, selects the first workspace and shows it fresh; task focus always creates a top-level task in the selected workspace (no call without one), keeps the workspaces and their cursor and shows the workspace fresh; focus and target are kept; ends in Normal with an empty buffer |
| FlatApp.CreateShowsStore | src/ui.rs:154-176 | after a create call, reloading the workspace list (in workspace focus) or the tasks changes nothing |
| FlatApp.Toggle | src/ui.rs:183-195 | with a task selected in task focus the toggle call names it, the tasks are re-read from the store, the workspaces, workspace cursor and session fields stay, and the cursor keeps its index; otherwise nothing happens |
| FlatApp.ToggleShowsStore | src/ui.rs:183-195 | after a toggle call, a reload of the tasks would differ from the result only in the cursor |
| FlatApp.StartRename | src/ui.rs:197-216 | the rename prompt opens holding the selected item's name, or empty text |
| FlatApp.FinishRename | src/ui.rs:218-240 | the selected item is renamed to the buffer. A workspace rename re-reads the workspace list and, when it is not empty, selects the first workspace and shows it fresh; a task rename keeps the workspaces and their cursor and shows the selected workspace fresh. With nothing selected, no call. Focus and target are kept; always back to Normal with an empty buffer |
| FlatApp.RenameShowsStore | src/ui.rs:218-240 | after a rename call, reloading the workspace list (in workspace focus) or the tasks changes nothing |
| FlatApp.CancelRename | src/ui.rs:242-245 | back to Normal with an empty buffer |
| FlatApp.StartDeleteConfirm | src/ui.rs:247-266 | without a cursor in the focused pane nothing changes; otherwise the confirmation opens naming the selected item |
| FlatApp.ConfirmDelete | src/ui.rs:268-307 | the selected item's delete call goes out. After a workspace deletion the list is the store's and the workspace at the kept-or-clamped cursor is shown fresh; deleting the last workspace re-selects nothing. After a task deletion the workspaces and their cursor stay, the tasks are re-read, and the cursor keeps its index when in range, else moves to the last task. Ends in Normal with no target |
| FlatApp.DeleteShowsStore | src/ui.rs:268-307 | after a delete call the workspace list is the store's; a reload of the tasks would differ only in the cursor, and after a workspace deletion not at all |
| FlatApp.CancelDeleteConfirm | src/ui.rs:309-312 | back to Normal with no target |
| FlatApp.ShowHelp | src/ui.rs:314-316 | only the mode changes, to Help |
| FlatApp.HideHelp | src/ui.rs:318-320 | only the mode changes, back to Normal |
| FlatApp.Step | src/ui.rs:350-450 | as in the hierarchical front end, except that in Normal mode a opens the same create prompt in either focus and A does nothing; r, D, ? and c open rename, delete confirmation, help and toggle; the modal keys run the same operations as in the hierarchical front end, and keys bound to nothing leave the state as it was with no call |
| FlatApp.EscapeReturns | src/ui.rs:385-446 | opening the create prompt, the rename prompt, the delete confirmation or the help from a consistent Normal state and then pressing Esc comes back to exactly that state |
| FlatApp.TypeThenErase | src/ui.rs:402-440 | in either prompt, typing a character and then Backspace leaves the state unchanged with no call |
| FlatApp.NormalTransitions | src/ui.rs:359-401 | from Normal mode the create prompt opens exactly on a, the rename prompt exactly on r, the delete confirmation exactly on D with a cursor in the focused pane, the help exactly on ?; only c issues a store call |
| FlatApp.CommandStep | src/ui.rs:359-401 | in Normal mode the session ends exactly on q; Down/j and Up/k move the cursor of the focused pane and only they can fault; Right/l, Left/h and Tab set the focus; a, c, r, D and ? open the create prompt, toggle, open rename, delete confirmation and help; A does nothing; a consistent state stays consistent |
| FlatApp.ModalStep | src/ui.rs:402-446 | the modal keys never end or fault the session and keep a consistent state consistent; in DeleteConfirm, y/Y is exactly ConfirmDelete and n/N/Esc exactly CancelDeleteConfirm; in the prompts, Enter is exactly FinishRename or FinishCreating and Esc exactly CancelRename or CancelCreating; keys bound to nothing leave the state as it was with no call |

## Left out

- Store access (`src/db.rs`) is not modelled: SQLite queries, migrations and the data directory. A call is named, and its effect arrives as the `Store` read back afterwards.
- Rendering (`ui()`, `centered_rect`) and the terminal setup in `run_app` are not modelled. The draw step can also clamp a list selection to the list's length; that is not modelled either.
- Async execution and error paths are not modelled. In the code a failing store call ends the event loop, possibly after a mutation already went through. Those partial states are not represented.
- `build.rs`, both `main.rs` files and the `todo_core` crate are not part of this model. The task shape is taken from `src/models.rs:14-24`.
- Task fields are reduced: `description`, `workspace_id` and `updated_at` are not read by the core and are left out. Timestamps become integers, because only their order matters.
- TaskTree.BuildTaskHierarchy: requires distinct task ids, which the store guarantees. With a repeated id the source can recurse forever, and the model does not describe that case.
- Session.IsWhitespace: covers ASCII whitespace only. `trim` also strips the other Unicode white-space characters.
- Cursor.Next: models the underflow of `len - 1` on an empty list as the fault a debug build panics with. A release build would wrap the subtraction instead.
- Cursor.Previous: the same debug-build reading of the underflow as `Cursor.Next`.
- TreeApp.Toggle: does not prove that the restored index is still in range. That holds only when the reload yields at least as many rows as before.
- FlatApp.Toggle: the same caveat as `TreeApp.Toggle`, for the task list.
- Session.KeyAction: key modifiers and non-key terminal events are not modelled. Unbound key codes are folded into one `OtherKey`.
- Building the rows twice from the same list gives the same rows, because the flattener is a pure function; only the reload is stated as a lemma (`TreeApp.LoadTasksIdempotent`).
