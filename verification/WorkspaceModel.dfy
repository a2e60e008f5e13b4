/** The workspace: windows with tabs, tabs with pane trees. */
module WorkspaceModel {
  import opened Options
  import opened Integers
  import opened PaneTree
  import Base64

  type WindowId = string
  type TabId = string

  datatype TabKind = Terminal | Note

  datatype NoteTabState = NoteTabState(
    documentId: string, path: string, title: string, content: string, modified: bool,
    cursor: i32, scroll: real, previewEnabled: bool, splitRatio: real, syncScroll: bool)

  datatype Tab = Tab(id: TabId, title: string, kind: TabKind, note: Option<NoteTabState>, tree: Tree)

  /** Times of a window are nanoseconds since the epoch. */
  datatype Window = Window(
    id: WindowId, name: string, x: i32, y: i32, width: u32, height: u32,
    createdAt: i64, lastActive: i64,
    tabs: seq<Tab>, focusTab: Option<TabId>, focusPane: Option<PaneId>)

  datatype DirectoryTree = DirectoryTree(
    currentDir: string, expanded: seq<string>, selected: string, filter: string,
    scrollAnchor: string, anchorOffset: real)

  const SCHEMA_VERSION: i32 := 1

  /** Times of a workspace are nanoseconds since the epoch. */
  datatype Workspace = Workspace(
    id: string, name: string, workingDirectory: string, createdAt: i64, lastSavedAt: i64,
    tags: seq<string>, schemaVersion: i32, generation: u64,
    windows: seq<Window>, focusWindow: Option<WindowId>, snapshotIds: seq<string>, ui: DirectoryTree)

  /** What one terminal pane looks like at runtime, captured before a checkpoint. */
  datatype RuntimeSnapshot = RuntimeSnapshot(
    cwd: string, shell: string, cols: u32, rows: u32, snapshot: seq<Base64.byte>,
    history: seq<CommandRecord>, interrupted: Option<Interrupted>)

  // ---- places -------------------------------------------------------------------------------

  datatype Place = Place(w: nat, t: nat)

  predicate IsPlace(ws: seq<Window>, p: Place) { p.w < |ws| && p.t < |ws[p.w].tabs| }

  function TabAt(ws: seq<Window>, p: Place): Tab
    requires IsPlace(ws, p)
  {
    ws[p.w].tabs[p.t]
  }

  /** The first tab with this id, at or after index `from`. */
  function TabIndex(tabs: seq<Tab>, id: TabId, from: nat): (r: Option<nat>)
    requires from <= |tabs|
    ensures r.Some? ==> from <= r.value < |tabs| && tabs[r.value].id == id
    decreases |tabs| - from
  {
    if from == |tabs| then None else if tabs[from].id == id then Some(from) else TabIndex(tabs, id, from + 1)
  }

  /** The first tab with this id in any window at or after index `from`. */
  function Locate(ws: seq<Window>, id: TabId, from: nat): (r: Option<Place>)
    requires from <= |ws|
    ensures r.Some? ==> IsPlace(ws, r.value) && TabAt(ws, r.value).id == id
    decreases |ws| - from
  {
    if from == |ws| then None
    else
      var t := TabIndex(ws[from].tabs, id, 0);
      if t.Some? then Some(Place(from, t.value)) else Locate(ws, id, from + 1)
  }

  /** The same, looking only at windows with id `window`. */
  function LocateIn(ws: seq<Window>, window: WindowId, id: TabId, from: nat): (r: Option<Place>)
    requires from <= |ws|
    ensures r.Some? ==> IsPlace(ws, r.value) && TabAt(ws, r.value).id == id && ws[r.value.w].id == window
    decreases |ws| - from
  {
    if from == |ws| then None
    else
      var t := if ws[from].id == window then TabIndex(ws[from].tabs, id, 0) else None;
      if t.Some? then Some(Place(from, t.value)) else LocateIn(ws, window, id, from + 1)
  }

  /** The first window with this id, at or after index `from`. */
  function WindowIndex(ws: seq<Window>, id: WindowId, from: nat): (r: Option<nat>)
    requires from <= |ws|
    ensures r.Some? ==> from <= r.value < |ws| && ws[r.value].id == id
    decreases |ws| - from
  {
    if from == |ws| then None else if ws[from].id == id then Some(from) else WindowIndex(ws, id, from + 1)
  }

  function SetTab(ws: seq<Window>, p: Place, t: Tab): (r: seq<Window>)
    requires IsPlace(ws, p)
  {
    ws[p.w := ws[p.w].(tabs := ws[p.w].tabs[p.t := t])]
  }

  // ---- panes across the workspace -----------------------------------------------------------

  /** The first pane with this id, in window, tab and tree order. */
  function FindInTabs(tabs: seq<Tab>, id: PaneId): Option<Pane> {
    if tabs == [] then None
    else
      var p := FindInTabs(tabs[..|tabs| - 1], id);
      if p.Some? then p else Find(tabs[|tabs| - 1].tree, id)
  }

  function FindInWindows(ws: seq<Window>, id: PaneId): Option<Pane> {
    if ws == [] then None
    else
      var p := FindInWindows(ws[..|ws| - 1], id);
      if p.Some? then p else FindInTabs(ws[|ws| - 1].tabs, id)
  }

  // ---- command history ----------------------------------------------------------------------

  const MAX_HISTORY: nat := 1000

  /** The last `MAX_HISTORY` records. */
  function Capped(h: seq<CommandRecord>): seq<CommandRecord> {
    if |h| > MAX_HISTORY then h[|h| - MAX_HISTORY..] else h
  }

  /** The record would only repeat the newest command. */
  predicate Repeats(h: seq<CommandRecord>, r: CommandRecord) {
    h != [] && h[|h| - 1].command == r.command
  }

  /** Pin or unpin the newest record of a command. */
  function Pin(h: seq<CommandRecord>, command: string, pinned: bool): (r: Option<seq<CommandRecord>>)
  {
    if h == [] then None
    else
      var last := |h| - 1;
      if h[last].command == command then Some(h[last := h[last].(pinned := pinned)])
      else
        var rest := Pin(h[..last], command, pinned);
        if rest.None? then None else Some(rest.value + [h[last]])
  }

  function ClearTree(t: Tree): Tree {
    match t
    case Empty => t
    case Leaf(p) => Leaf(p.(state := p.state.(history := [])))
    case Split(k, r, a, b) => Split(k, r, ClearTree(a), ClearTree(b))
  }

  function ClearTabs(tabs: seq<Tab>): (r: seq<Tab>)
    ensures |r| == |tabs|
  {
    seq(|tabs|, i requires 0 <= i < |tabs| => tabs[i].(tree := ClearTree(tabs[i].tree)))
  }

  function ClearWindows(ws: seq<Window>): (r: seq<Window>)
    ensures |r| == |ws|
  {
    seq(|ws|, i requires 0 <= i < |ws| => ws[i].(tabs := ClearTabs(ws[i].tabs)))
  }
}
