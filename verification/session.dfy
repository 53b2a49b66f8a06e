/** What both terminal front ends share: input modes, focus, key events, the
    store calls an operation can issue, the store as read back, and how a key
    is read in each mode. */
module Session {
  import opened Wrappers
  import opened Model

  datatype Focus = Workspaces | Tasks

  datatype Mode = Normal | Insert | DeleteConfirm | Help | Creating

  /** A key event, reduced to the codes the event loop distinguishes. */
  datatype Key = Char(c: char) | Up | Down | Left | Right | Tab | Enter | Esc | Backspace | OtherKey

  /** A mutating store call, with the arguments it is given. */
  datatype Call =
    | CreateWorkspace(name: string)
    | CreateTask(title: string, workspaceId: int)
    | CreateSubtask(title: string, workspaceId: int, parentId: int)
    | ToggleTask(taskId: int)
    | RenameWorkspace(workspaceId: int, newName: string)
    | RenameTask(taskId: int, newTitle: string)
    | DeleteWorkspace(workspaceId: int)
    | DeleteTask(taskId: int)

  /** The store as it answers the reads that follow a call: the workspace list,
      and the tasks of each workspace id. */
  datatype Store = Store(workspaces: seq<Workspace>, tasksOf: int -> seq<Task>)

  /** ASCII whitespace; stands in for the Unicode class `trim` removes. */
  predicate IsWhitespace(c: char) {
    c == ' ' || c == '\t' || c == '\n' || c == '\r' || c == '\U{0B}' || c == '\U{0C}'
  }

  /** `trim().is_empty()`: the text has nothing but whitespace. */
  predicate IsBlank(s: string) {
    forall i :: 0 <= i < |s| ==> IsWhitespace(s[i])
  }

  /** Backspace on the input buffer: drop the last character, if there is one. */
  function Pop(buffer: string): (r: string)
    ensures buffer == [] ==> r == []
    ensures buffer != [] ==> r + [buffer[|buffer| - 1]] == buffer
  {
    if buffer == [] then [] else buffer[..|buffer| - 1]
  }

  /** Backspace undoes a typed character. */
  lemma PopUndoesTyping(buffer: string, c: char)
    ensures Pop(buffer + [c]) == buffer
  {
    assert (buffer + [c])[..|buffer|] == buffer;
  }

  /** What a key asks for. `AddHere` is `a`, `AddRoot` is `A`. */
  datatype Action =
    | Quit | MoveDown | MoveUp | FocusTasks | FocusWorkspaces | SwitchFocus
    | AddHere | AddRoot | ToggleDone | Rename | Delete | ShowHelp
    | Submit | Cancel | Type(c: char) | Erase | Confirm | CloseHelp | Ignore

  /** Keys that confirm or cancel a deletion, and keys that close the help. */
  predicate IsConfirmKey(k: Key) { k == Char('y') || k == Char('Y') }
  predicate IsRefuseKey(k: Key) { k == Char('n') || k == Char('N') || k == Esc }
  predicate IsCloseHelpKey(k: Key) { k == Char('?') || k == Esc || k == Char('q') }

  /** Actions that exist outside Normal mode: editing, answering, closing. */
  predicate IsModalAction(a: Action) {
    a.Type? || a in {Submit, Cancel, Erase, Confirm, CloseHelp, Ignore}
  }

  /** The key map of the event loop, mode by mode. `A` is bound only by the
      hierarchical front end; the flat one reads it as `Ignore`. */
  function KeyAction(mode: Mode, key: Key): (a: Action)
    ensures mode == Normal ==>
      && (a == Quit <==> key == Char('q'))
      && (a == MoveDown <==> key == Down || key == Char('j'))
      && (a == MoveUp <==> key == Up || key == Char('k'))
      && (a == FocusTasks <==> key == Right || key == Char('l'))
      && (a == FocusWorkspaces <==> key == Left || key == Char('h'))
      && (a == SwitchFocus <==> key == Tab)
      && (a == AddHere <==> key == Char('a'))
      && (a == AddRoot <==> key == Char('A'))
      && (a == ToggleDone <==> key == Char('c'))
      && (a == Rename <==> key == Char('r'))
      && (a == Delete <==> key == Char('D'))
      && (a == ShowHelp <==> key == Char('?'))
      && (IsModalAction(a) ==> a == Ignore)
    ensures mode != Normal ==> IsModalAction(a)
    ensures mode == DeleteConfirm ==>
      && (a == Confirm <==> IsConfirmKey(key))
      && (a == Cancel <==> IsRefuseKey(key))
      && (a == Confirm || a == Cancel || a == Ignore)
    ensures mode == Help ==> (a == CloseHelp <==> IsCloseHelpKey(key)) && (a == CloseHelp || a == Ignore)
    ensures mode == Insert || mode == Creating ==>
      && (key.Char? <==> a.Type?)
      && (key.Char? ==> a == Type(key.c))
      && (a == Erase <==> key == Backspace)
      && (a == Submit <==> key == Enter)
      && (a == Cancel <==> key == Esc)
      && (key in {Up, Down, Left, Right, Tab, OtherKey} <==> a == Ignore)
  {
    match mode
    case Normal =>
      (match key
       case Char('q') => Quit
       case Down | Char('j') => MoveDown
       case Up | Char('k') => MoveUp
       case Right | Char('l') => FocusTasks
       case Left | Char('h') => FocusWorkspaces
       case Tab => SwitchFocus
       case Char('a') => AddHere
       case Char('A') => AddRoot
       case Char('c') => ToggleDone
       case Char('r') => Rename
       case Char('D') => Delete
       case Char('?') => ShowHelp
       case _ => Ignore)
    case Insert | Creating =>
      (match key
       case Enter => Submit
       case Esc => Cancel
       case Backspace => Erase
       case Char(c) => Type(c)
       case _ => Ignore)
    case DeleteConfirm =>
      if IsConfirmKey(key) then Confirm
      else if IsRefuseKey(key) then Cancel
      else Ignore
    case Help =>
      if IsCloseHelpKey(key) then CloseHelp else Ignore
  }
}
