/** What every operation of the workspace core does, as a step of a state machine. */
module WorkspaceSpec {
  import opened Options
  import opened Integers
  import opened PaneTree
  import opened WorkspaceModel
  import opened Sums

  /** The core's state: the open workspace, if any, and whether it has unsaved changes. */
  datatype Core = Core(ws: Option<Workspace>, dirty: bool)

  /** What an operation answers: success, `false`, or an exception. */
  datatype Reply = Yes | No | Fault

  /** The operations; ids and times that the program generates are parameters. */
  datatype Op =
    | AddWindow(newWindow: WindowId, title: string, now: i64)
    | RemoveWindow(window: WindowId)
    | RenameWindow(window: WindowId, title: string)
    | FocusWindow(window: WindowId)
    | AddTab(window: WindowId, newTab: TabId, title: string, tree: Tree)
    | AddNoteTab(window: WindowId, newTab: TabId, title: string, note: NoteTabState)
    | SetTabNoteState(window: WindowId, tab: TabId, note: NoteTabState)
    | RemoveTab(window: WindowId, tab: TabId)
    | FocusTab(window: WindowId, tab: TabId)
    | SplitPane(tab: TabId, kind: SplitKind, ratio: real, newPane: PaneId)
    | RemovePane(tab: TabId, pane: PaneId)
    | FocusPane(tab: TabId, pane: PaneId)
    | SetPaneRatio(tab: TabId, pane: PaneId, ratio: real)
    | AddCommand(tab: TabId, pane: PaneId, record: CommandRecord)
    | SetPinned(tab: TabId, pane: PaneId, command: string, pinned: bool)
    | ClearHistory
    | ApplyRuntime(tab: TabId, pane: PaneId, snap: RuntimeSnapshot)

  function Titled(title: string, default: string): string { if title == "" then default else title }

  // ---- the parts of a step ------------------------------------------------------------------

  function WithoutWindow(ws: seq<Window>, id: WindowId): seq<Window> {
    Filter(ws, OtherWindow(id))
  }

  function OtherWindow(id: WindowId): Window -> bool { (w: Window) => w.id != id }

  function OtherTab(id: TabId): Tab -> bool { (t: Tab) => t.id != id }

  function WithoutTab(tabs: seq<Tab>, id: TabId): seq<Tab> {
    Filter(tabs, OtherTab(id))
  }

  /** The focused pane of the window as the id to look for; no focus looks for the empty id. */
  function FocusId(w: Window): PaneId { if w.focusPane.Some? then w.focusPane.value else "" }

  /** The tree after a split request: a bare pane is split, else the window's focused pane, else a
      pane with the empty id; failing all three the tree stays as it is. */
  function SplitTree(w: Window, tree: Tree, kind: SplitKind, ratio: real, newPane: PaneId): Tree {
    var pane := Pane(newPane, BLANK_STATE);
    if tree.Leaf? then Split(kind, ratio, tree, Leaf(pane))
    else if Has(tree, FocusId(w)) then SplitAt(tree, FocusId(w), kind, ratio, pane)
    else if Has(tree, "") then SplitAt(tree, "", kind, ratio, pane)
    else tree
  }

  /** The window in which the tab is focused and holds the pane. */
  function FocusIndex(ws: seq<Window>, tab: TabId, pane: PaneId, from: nat): (r: Option<nat>)
    requires from <= |ws|
    ensures r.Some? ==> from <= r.value < |ws|
    decreases |ws| - from
  {
    if from == |ws| then None
    else if ws[from].focusTab == Some(tab) && ShowsPane(ws[from].tabs, tab, pane) then Some(from)
    else FocusIndex(ws, tab, pane, from + 1)
  }

  predicate ShowsPane(tabs: seq<Tab>, tab: TabId, pane: PaneId) {
    exists i :: 0 <= i < |tabs| && tabs[i].id == tab && Has(tabs[i].tree, pane)
  }

  /** A runtime snapshot laid over a pane's state; an empty history keeps the stored one, and the
      environment is not captured. */
  function Overlay(s: PaneState, snap: RuntimeSnapshot): PaneState {
    PaneState(snap.cwd, snap.shell, snap.cols, snap.rows, s.environment,
              if snap.history == [] then s.history else snap.history, snap.snapshot, snap.interrupted)
  }

  /** The new state of the addressed pane, or None when the operation is refused. */
  function NewState(s: PaneState, op: Op): Option<PaneState>
    requires ChangesState(op)
  {
    match op
    case AddCommand(_, _, r) => if r.command == "" then None else Some(s.(history := Capped(s.history + [r])))
    case SetPinned(_, _, c, p) =>
      if c == "" then None
      else
        var h := Pin(s.history, c, p);
        if h.None? then None else Some(s.(history := h.value))
    case ApplyRuntime(_, _, snap) => Some(Overlay(s, snap))
  }

  // ---- the step -----------------------------------------------------------------------------

  /** The operations on the state of one pane. */
  predicate ChangesState(op: Op) { op.AddCommand? || op.SetPinned? || op.ApplyRuntime? }

  predicate TargetsPane(op: Op) { op.SplitPane? || op.RemovePane? || op.SetPaneRatio? || ChangesState(op) }

  /** An operation on the tab `t` of window `w`: the new tab and the window's new focused pane. */
  function TabStep(w: Window, t: Tab, op: Op): Option<(Tab, Option<PaneId>)>
    requires TargetsPane(op)
  {
    if op.SplitPane? then
      Some((t.(tree := SplitTree(w, t.tree, op.kind, op.ratio, op.newPane)), Some(op.newPane)))
    else if op.RemovePane? then
      if Has(t.tree, op.pane) then
        Some((t.(tree := Remove(t.tree, op.pane)), if w.focusPane == Some(op.pane) then None else w.focusPane))
      else None
    else if op.SetPaneRatio? then
      if 0.0 <= op.ratio <= 1.0 && HasParent(t.tree, op.pane) then
        Some((t.(tree := SetRatio(t.tree, op.pane, op.ratio)), w.focusPane))
      else None
    else if Has(t.tree, op.pane) then
      var s := NewState(Find(t.tree, op.pane).value.state, op);
      if s.None? then None else Some((t.(tree := WithState(t.tree, op.pane, s.value)), w.focusPane))
    else None
  }

  /** A refused operation leaves everything as it is. A successful one marks the workspace dirty. */
  function Transition(ws: Workspace, op: Op): Option<Workspace> {
    var wins := ws.windows;
    match op
    case AddWindow(id, title, now) =>
      var w := Window(id, Titled(title, "window"), 0, 0, 0, 0, now, now, [], None, None);
      Some(ws.(windows := wins + [w], focusWindow := Some(id)))
    case RemoveWindow(id) =>
      Some(ws.(windows := WithoutWindow(wins, id),
               focusWindow := if ws.focusWindow == Some(id) then None else ws.focusWindow))
    case RenameWindow(id, title) =>
      var i := WindowIndex(wins, id, 0);
      if i.None? then None else Some(ws.(windows := wins[i.value := wins[i.value].(name := title)]))
    case FocusWindow(id) =>
      if WindowIndex(wins, id, 0).None? then None else Some(ws.(focusWindow := Some(id)))
    case AddTab(id, newTab, title, tree) =>
      AppendTab(ws, id, Tab(newTab, Titled(title, "tab"), Terminal, None, tree))
    case AddNoteTab(id, newTab, title, note) =>
      AppendTab(ws, id, Tab(newTab, Titled(title, "note"), Note, Some(note), Empty))
    case SetTabNoteState(id, tab, note) =>
      var p := LocateIn(wins, id, tab, 0);
      if p.None? || TabAt(wins, p.value).kind != Note then None
      else Some(ws.(windows := SetTab(wins, p.value, TabAt(wins, p.value).(note := Some(note)))))
    case RemoveTab(id, tab) =>
      var i := WindowIndex(wins, id, 0);
      if i.None? then None
      else
        var w := wins[i.value];
        Some(ws.(windows := wins[i.value := w.(tabs := WithoutTab(w.tabs, tab),
                                              focusTab := if w.focusTab == Some(tab) then None else w.focusTab)]))
    case FocusTab(id, tab) =>
      var i := WindowIndex(wins, id, 0);
      if i.None? then None else Some(ws.(windows := wins[i.value := wins[i.value].(focusTab := Some(tab))]))
    case FocusPane(tab, pane) =>
      var i := FocusIndex(wins, tab, pane, 0);
      if i.None? then None else Some(ws.(windows := wins[i.value := wins[i.value].(focusPane := Some(pane))]))
    case ClearHistory => Some(ws.(windows := ClearWindows(wins)))
    case _ =>
      var p := Locate(wins, op.tab, 0);
      if p.None? then None
      else
        var r := TabStep(wins[p.value.w], TabAt(wins, p.value), op);
        if r.None? then None
        else
          var w := wins[p.value.w];
          Some(ws.(windows := wins[p.value.w := w.(tabs := w.tabs[p.value.t := r.value.0], focusPane := r.value.1)]))
  }

  function AppendTab(ws: Workspace, id: WindowId, tab: Tab): Option<Workspace> {
    var i := WindowIndex(ws.windows, id, 0);
    if i.None? then None
    else
      var w := ws.windows[i.value];
      Some(ws.(windows := ws.windows[i.value := w.(tabs := w.tabs + [tab], focusTab := Some(tab.id))]))
  }

  /** Re-running the newest command is accepted without any change. */
  predicate IsRepeat(ws: Workspace, op: Op) {
    op.AddCommand? && op.record.command != "" &&
    var p := Locate(ws.windows, op.tab, 0);
    p.Some? && Has(TabAt(ws.windows, p.value).tree, op.pane)
    && Repeats(Find(TabAt(ws.windows, p.value).tree, op.pane).value.state.history, op.record)
  }

  /** Which operations throw instead of answering `false`. */
  predicate Throws(ws: Option<Workspace>, op: Op) {
    match op
    case AddWindow(_, _, _) => ws.None?
    case AddTab(_, _, _, _) => true
    case AddNoteTab(_, _, _, _) => true
    case SplitPane(_, _, _, _) => true
    case _ => false
  }

  function Apply(c: Core, op: Op): (Core, Reply) {
    var refused := if Throws(c.ws, op) then Fault else No;
    if c.ws.None? then (c, refused)
    else if IsRepeat(c.ws.value, op) then (c, Yes)
    else
      var r := Transition(c.ws.value, op);
      if r.None? then (c, refused) else (Core(r, true), Yes)
  }

  function Run(c: Core, ops: seq<Op>): Core
    decreases |ops|
  {
    if ops == [] then c else Run(Apply(c, ops[0]).0, ops[1..])
  }
}
