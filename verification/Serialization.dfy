/** The workspace as JSON: writing, reading with the defaults and legacy forms of older files, and what
    is read back of a workspace that was written. */
module Serialization {
  import opened Options
  import opened Integers
  import opened Json
  import opened WorkspaceModel
  import opened IsoTime
  import Base64
  import P = PaneTree

  // ---- panes --------------------------------------------------------------------------------------

  function SourceText(s: P.Source): string {
    match s
    case CtrlC => "ctrl_c"
    case ProcessExit => "process_exit"
    case Unknown => "unknown"
  }

  function SourceOf(s: string): P.Source {
    if s == "ctrl_c" then P.CtrlC else if s == "process_exit" then P.ProcessExit else P.Unknown
  }

  function WriteInterrupted(c: P.Interrupted): Json {
    Obj(map[Key.Command := Str(c.command), Key.TimestampUs := Int(c.timestampUs),
      Key.Source := Str(SourceText(c.source))])
  }

  /** Older files hold only the command. */
  function ReadInterrupted(j: Json): Result<P.Interrupted> {
    if j.Str? then Ok(P.Interrupted(j.s, 0, P.Unknown))
    else
      var command :- StringAt(j, Key.Command, "");
      var timestampUs :- I64At(j, Key.TimestampUs);
      var source :- StringAt(j, Key.Source, "unknown");
      Ok(P.Interrupted(command, timestampUs, SourceOf(source)))
  }

  function WriteRecord(r: P.CommandRecord): Json {
    var j := Obj(map[Key.Command := Str(r.command), Key.TimestampUs := Int(r.timestampUs)]);
    if r.pinned then Set(j, Key.Pinned, Bool(true)) else j
  }

  /** Older files hold only the command. */
  function ReadRecord(j: Json): Result<P.CommandRecord> {
    if j.Str? then Ok(P.CommandRecord(j.s, 0, false))
    else
      var command :- StringAt(j, Key.Command, "");
      var timestampUs :- I64At(j, Key.TimestampUs);
      var pinned :- BoolAt(j, Key.Pinned);
      Ok(P.CommandRecord(command, timestampUs, pinned))
  }

  /** The environment is not written. */
  function WritePaneState(s: P.PaneState): Json {
    var j := Obj(map[
      Key.Cwd := Str(s.cwd),
      Key.Shell := Str(s.shell),
      Key.Cols := Int(s.cols),
      Key.Rows := Int(s.rows),
      Key.CommandHistory := WriteArray(s.history, WriteRecord),
      Key.SnapshotData := Str(Base64.Encode(s.snapshot))]);
    if s.interrupted.Some? then Set(j, Key.InterruptedCommand, WriteInterrupted(s.interrupted.value)) else j
  }

  /** A missing snapshot is empty, also in older files that hold the scrollback as text. */
  function ReadPaneState(j: Json): Result<P.PaneState> {
    var cwd :- StringAt(j, Key.Cwd, "");
    var shell :- StringAt(j, Key.Shell, "");
    var cols :- U32At(j, Key.Cols);
    var rows :- U32At(j, Key.Rows);
    var history :- if Contains(j, Key.CommandHistory) then ReadArray(At(j, Key.CommandHistory), ReadRecord) else Ok([]);
    var data :- StringAt(j, Key.SnapshotData, "");
    var interrupted :- ReadOptional(j, Key.InterruptedCommand, ReadInterrupted);
    Ok(P.PaneState(cwd, shell, cols, rows, [], history, Base64.Decode(data), interrupted))
  }

  function ReadOptional<T>(j: Json, k: Key, read: Json -> Result<T>): Result<Option<T>> {
    if !Contains(j, k) then Ok(None)
    else
      var x :- read(At(j, k));
      Ok(Some(x))
  }

  function WritePane(p: P.Pane): Json { Obj(map[Key.Id := Str(p.id), Key.State := WritePaneState(p.state)]) }

  function ReadPane(j: Json): Result<P.Pane> {
    var id :- StringAt(j, Key.Id, "");
    var state :- if Contains(j, Key.State) then ReadPaneState(At(j, Key.State)) else Ok(P.BLANK_STATE);
    Ok(P.Pane(id, state))
  }

  // ---- pane trees ---------------------------------------------------------------------------------

  const BLANK_LEAF: P.Tree := P.Leaf(P.Pane("", P.BLANK_STATE))

  function WriteTree(t: P.Tree): Json {
    match t
    case Empty => Obj(map[Key.Kind := Str("empty")])
    case Leaf(p) => Obj(map[Key.Kind := Str("pane"), Key.Pane := WritePane(p)])
    case Split(kind, ratio, first, second) =>
      Obj(map[
        Key.Kind := Str("split"),
        Key.Orientation := Str(if kind == P.Horizontal then "horizontal" else "vertical"),
        Key.Ratio := Real(ratio),
        Key.First := WriteTree(first),
        Key.Second := WriteTree(second)])
  }

  /** Whatever is neither a pane nor empty reads as a split, with blank panes for missing children. */
  function ReadTree(j: Json): Result<P.Tree> {
    var kind :- StringAt(j, Key.Kind, "pane");
    if kind == "pane" && Contains(j, Key.Pane) then
      var p :- ReadPane(At(j, Key.Pane));
      Ok(P.Leaf(p))
    else if kind == "empty" then Ok(BLANK_LEAF)
    else
      var orientation :- StringAt(j, Key.Orientation, "horizontal");
      var ratio :- RealAt(j, Key.Ratio, 0.5);
      var first :- if Contains(j, Key.First) then ReadTree(At(j, Key.First)) else Ok(BLANK_LEAF);
      var second :- if Contains(j, Key.Second) then ReadTree(At(j, Key.Second)) else Ok(BLANK_LEAF);
      Ok(P.Split(if orientation == "vertical" then P.Vertical else P.Horizontal, ratio, first, second))
  }

  // ---- tabs ---------------------------------------------------------------------------------------

  function WriteNote(n: NoteTabState): Json {
    Obj(map[
      Key.DocumentId := Str(n.documentId),
      Key.Path := Str(n.path),
      Key.Title := Str(n.title),
      Key.Content := Str(n.content),
      Key.Modified := Bool(n.modified),
      Key.Cursor := Int(n.cursor),
      Key.Scroll := Real(n.scroll),
      Key.PreviewEnabled := Bool(n.previewEnabled),
      Key.SplitRatio := Real(n.splitRatio),
      Key.SyncScroll := Bool(n.syncScroll)])
  }

  function ReadNote(j: Json): Result<NoteTabState> {
    var documentId :- StringAt(j, Key.DocumentId, "");
    var path :- StringAt(j, Key.Path, "");
    var title :- StringAt(j, Key.Title, "");
    var content :- StringAt(j, Key.Content, "");
    var modified :- BoolAt(j, Key.Modified);
    var cursor :- I32At(j, Key.Cursor, 0);
    var scroll :- RealAt(j, Key.Scroll, 0.0);
    var previewEnabled :- BoolAt(j, Key.PreviewEnabled);
    var splitRatio :- RealAt(j, Key.SplitRatio, 0.5);
    var syncScroll :- BoolAt(j, Key.SyncScroll);
    Ok(NoteTabState(documentId, path, title, content, modified, cursor, scroll, previewEnabled, splitRatio, syncScroll))
  }

  function WriteTab(t: Tab): Json {
    var j := Obj(map[
      Key.Id := Str(t.id),
      Key.Title := Str(t.title),
      Key.Kind := Str(if t.kind == Note then "note" else "terminal"),
      Key.PaneTree := WriteTree(t.tree)]);
    if t.note.Some? then Set(j, Key.NoteState, WriteNote(t.note.value)) else j
  }

  function ReadTab(j: Json): Result<Tab> {
    var id :- StringAt(j, Key.Id, "");
    var title :- StringAt(j, Key.Title, "");
    var kind :- StringAt(j, Key.Kind, "terminal");
    var tree :- if Contains(j, Key.PaneTree) then ReadTree(At(j, Key.PaneTree)) else Ok(P.Empty);
    var note :- if Contains(j, Key.NoteState) && At(j, Key.NoteState) == Null then Ok(None)
                else ReadOptional(j, Key.NoteState, ReadNote);
    Ok(Tab(id, title, if kind == "note" then Note else Terminal, note, tree))
  }

  // ---- windows ------------------------------------------------------------------------------------

  function WriteWindow(w: Window): Json {
    var j := Obj(map[
      Key.Id := Str(w.id),
      Key.Label := Str(w.name),
      Key.X := Int(w.x),
      Key.Y := Int(w.y),
      Key.Width := Int(w.width),
      Key.Height := Int(w.height),
      Key.CreatedAt := Int(w.createdAt),
      Key.LastActive := Int(w.lastActive),
      Key.Tabs := WriteArray(w.tabs, WriteTab)]);
    var j := if w.focusTab.Some? then Set(j, Key.FocusTabId, Str(w.focusTab.value)) else j;
    if w.focusPane.Some? then Set(j, Key.FocusPaneId, Str(w.focusPane.value)) else j
  }

  /** Older files hold the label as the title. */
  function ReadWindow(j: Json): Result<Window> {
    var id :- StringAt(j, Key.Id, "");
    var name :- StringAt(j, if Contains(j, Key.Label) then Key.Label else Key.Title, "");
    var x :- I32At(j, Key.X, 0);
    var y :- I32At(j, Key.Y, 0);
    var width :- U32At(j, Key.Width);
    var height :- U32At(j, Key.Height);
    var createdAt :- I64At(j, Key.CreatedAt);
    var lastActive :- I64At(j, Key.LastActive);
    var tabs :- if Contains(j, Key.Tabs) then ReadArray(At(j, Key.Tabs), ReadTab) else Ok([]);
    var focusTab :- ReadOptional(j, Key.FocusTabId, GetString);
    var focusPane :- ReadOptional(j, Key.FocusPaneId, GetString);
    Ok(Window(id, name, x, y, width, height, createdAt, lastActive, tabs, focusTab, focusPane))
  }

  // ---- the workspace ------------------------------------------------------------------------------

  const BLANK_DIRECTORY: DirectoryTree := DirectoryTree.DirectoryTree("", [], "", "", "", 0.0)

  function WriteUi(d: DirectoryTree): Json {
    Obj(map[Key.DirectoryTree := Obj(map[
      Key.CurrentDir := Str(d.currentDir),
      Key.Expanded := WriteArray(d.expanded, PutString),
      Key.Selected := Str(d.selected),
      Key.FilterText := Str(d.filter),
      Key.ScrollAnchor := Str(d.scrollAnchor),
      Key.AnchorOffset := Real(d.anchorOffset)])])
  }

  function ReadStrings(j: Json, k: Key): Result<seq<string>> {
    if !Contains(j, k) then Ok([])
    else
      var items :- Elements(At(j, k));
      ReadEach(items, GetString)
  }

  function ReadDirectory(j: Json): Result<DirectoryTree> {
    var currentDir :- StringAt(j, Key.CurrentDir, "");
    var selected :- StringAt(j, Key.Selected, "");
    var filter :- StringAt(j, Key.FilterText, "");
    var scrollAnchor :- StringAt(j, Key.ScrollAnchor, "");
    var anchorOffset :- RealAt(j, Key.AnchorOffset, 0.0);
    var expanded :- ReadStrings(j, Key.Expanded);
    Ok(DirectoryTree.DirectoryTree(currentDir, expanded, selected, filter, scrollAnchor, anchorOffset))
  }

  function ReadUi(j: Json): Result<DirectoryTree> {
    if Contains(j, Key.DirectoryTree) then ReadDirectory(At(j, Key.DirectoryTree)) else Ok(BLANK_DIRECTORY)
  }

  function WriteWorkspace(c: Calendar, w: Workspace): Json {
    var j := Obj(map[
      Key.Id := Str(w.id),
      Key.Name := Str(w.name),
      Key.WorkingDirectory := Str(w.workingDirectory),
      Key.CreatedAt := Str(ToIso(c, w.createdAt)),
      Key.LastSavedAt := Str(ToIso(c, w.lastSavedAt)),
      Key.SchemaVersion := Int(w.schemaVersion),
      Key.Generation := Int(w.generation),
      Key.Tags := WriteArray(w.tags, PutString),
      Key.Windows := WriteArray(w.windows, WriteWindow),
      Key.Ui := WriteUi(w.ui),
      Key.Snapshots := WriteArray(w.snapshotIds, PutString)]);
    if w.focusWindow.Some? then Set(j, Key.FocusWindowId, Str(w.focusWindow.value)) else j
  }

  /** The generation is read as 32 bits. */
  function ReadWorkspace(c: Calendar, j: Json): Result<Workspace> {
    var id :- StringAt(j, Key.Id, "");
    var name :- StringAt(j, Key.Name, "");
    var workingDirectory :- StringAt(j, Key.WorkingDirectory, "");
    var createdAt :- StringAt(j, Key.CreatedAt, "");
    var lastSavedAt :- StringAt(j, Key.LastSavedAt, "");
    var schemaVersion :- I32At(j, Key.SchemaVersion, SCHEMA_VERSION);
    var generation :- U32At(j, Key.Generation);
    var tags :- if Contains(j, Key.Tags) then ReadArray(At(j, Key.Tags), GetString) else Ok([]);
    var windows :- if Contains(j, Key.Windows) then ReadArray(At(j, Key.Windows), ReadWindow) else Ok([]);
    var ui :- if Contains(j, Key.Ui) then ReadUi(At(j, Key.Ui)) else Ok(BLANK_DIRECTORY);
    var snapshotIds :- ReadStrings(j, Key.Snapshots);
    var focusWindow :- ReadOptional(j, Key.FocusWindowId, GetString);
    Ok(Workspace(id, name, workingDirectory, FromIso(c, createdAt), FromIso(c, lastSavedAt), tags,
                 schemaVersion, generation, windows, focusWindow, snapshotIds, ui))
  }

  // ---- what is read back --------------------------------------------------------------------------

  function NormalState(s: P.PaneState): P.PaneState { s.(environment := []) }

  /** An empty node is read back as a blank pane; environments are lost. */
  function NormalTree(t: P.Tree): P.Tree {
    match t
    case Empty => BLANK_LEAF
    case Leaf(p) => P.Leaf(p.(state := NormalState(p.state)))
    case Split(kind, ratio, first, second) => P.Split(kind, ratio, NormalTree(first), NormalTree(second))
  }

  function NormalTab(t: Tab): Tab { t.(tree := NormalTree(t.tree)) }

  function NormalTabs(tabs: seq<Tab>): (r: seq<Tab>)
    ensures |r| == |tabs|
  {
    seq(|tabs|, i requires 0 <= i < |tabs| => NormalTab(tabs[i]))
  }

  function NormalWindow(w: Window): Window { w.(tabs := NormalTabs(w.tabs)) }

  function NormalWindows(ws: seq<Window>): (r: seq<Window>)
    ensures |r| == |ws|
  {
    seq(|ws|, i requires 0 <= i < |ws| => NormalWindow(ws[i]))
  }

  /** Besides, times are cut to milliseconds and the generation to 32 bits. */
  function Normal(w: Workspace): Workspace {
    w.(createdAt := Reread(w.createdAt), lastSavedAt := Reread(w.lastSavedAt),
       generation := ToU32(w.generation), windows := NormalWindows(w.windows))
  }

  lemma {:induction false} InterruptedReadsBack(c: P.Interrupted)
    ensures ReadInterrupted(WriteInterrupted(c)) == Ok(c)
  {
  }

  lemma {:induction false} RecordReadsBack(r: P.CommandRecord)
    ensures ReadRecord(WriteRecord(r)) == Ok(r)
  {
  }

  lemma {:induction false} PaneStateMembers(s: P.PaneState)
    ensures var j := WritePaneState(s);
            && StringAt(j, Key.Cwd, "") == Ok(s.cwd) && StringAt(j, Key.Shell, "") == Ok(s.shell)
            && U32At(j, Key.Cols) == Ok(s.cols) && U32At(j, Key.Rows) == Ok(s.rows)
            && Contains(j, Key.CommandHistory) && At(j, Key.CommandHistory) == WriteArray(s.history, WriteRecord)
            && StringAt(j, Key.SnapshotData, "") == Ok(Base64.Encode(s.snapshot))
            && (Contains(j, Key.InterruptedCommand) <==> s.interrupted.Some?)
            && (s.interrupted.Some? ==> At(j, Key.InterruptedCommand) == WriteInterrupted(s.interrupted.value))
  {
    hide Base64.Encode, WriteArray, WriteRecord, WriteInterrupted;
  }

  lemma {:induction false} PaneStateReadsBack(s: P.PaneState)
    ensures ReadPaneState(WritePaneState(s)) == Ok(NormalState(s))
  {
    hide Base64.Encode, Base64.Decode, ReadRecord, WriteRecord, ReadInterrupted, WriteInterrupted;
    hide WritePaneState, StringAt, U32At;
    PaneStateMembers(s);
    Base64.DecodeOfEncode(s.snapshot);
    forall i | 0 <= i < |s.history| ensures ReadRecord(WriteRecord(s.history[i])) == Ok(s.history[i]) {
      RecordReadsBack(s.history[i]);
    }
    ReadEachIs(WriteArray(s.history, WriteRecord).items, ReadRecord, s.history);
    if s.interrupted.Some? { InterruptedReadsBack(s.interrupted.value); }
  }

  lemma {:induction false} PaneReadsBack(p: P.Pane)
    ensures ReadPane(WritePane(p)) == Ok(p.(state := NormalState(p.state)))
  {
    hide ReadPaneState, WritePaneState;
    PaneStateReadsBack(p.state);
  }

  lemma {:induction false} TreeReadsBack(t: P.Tree)
    ensures ReadTree(WriteTree(t)) == Ok(NormalTree(t))
  {
    hide ReadPane, WritePane;
    match t
    case Empty =>
    case Leaf(p) =>
      PaneReadsBack(p);
    case Split(kind, ratio, first, second) =>
      TreeReadsBack(first);
      TreeReadsBack(second);
  }

  ghost predicate NoEnvironments(t: P.Tree) {
    match t
    case Empty => true
    case Leaf(p) => p.state.environment == []
    case Split(_, _, a, b) => NoEnvironments(a) && NoEnvironments(b)
  }

  /** A pane tree is read back as it was exactly when every leaf holds a pane and no pane has an
      environment. */
  lemma {:induction false} TreeRoundTrip(t: P.Tree)
    ensures ReadTree(WriteTree(t)) == Ok(t) <==> P.Full(t) && NoEnvironments(t)
  {
    TreeReadsBack(t);
    NormalTreeIs(t);
  }

  lemma {:induction false} NormalTreeIs(t: P.Tree)
    ensures NormalTree(t) == t <==> P.Full(t) && NoEnvironments(t)
  {
    if t.Split? {
      NormalTreeIs(t.first);
      NormalTreeIs(t.second);
    }
  }

  lemma {:induction false} NoteReadsBack(n: NoteTabState)
    ensures ReadNote(WriteNote(n)) == Ok(n)
  {
  }

  lemma {:induction false} NoteIsObject(n: NoteTabState)
    ensures WriteNote(n).Obj?
  {
  }

  lemma {:induction false} TabReadsBack(t: Tab)
    ensures ReadTab(WriteTab(t)) == Ok(NormalTab(t))
  {
    hide ReadTree, WriteTree, ReadNote, WriteNote;
    TreeReadsBack(t.tree);
    if t.note.Some? {
      NoteReadsBack(t.note.value);
      NoteIsObject(t.note.value);
    }
  }

  lemma {:induction false} WindowMembers(w: Window)
    ensures var j := WriteWindow(w);
            && StringAt(j, Key.Id, "") == Ok(w.id)
            && Contains(j, Key.Label) && StringAt(j, Key.Label, "") == Ok(w.name)
            && Contains(j, Key.Tabs) && At(j, Key.Tabs) == WriteArray(w.tabs, WriteTab)
  {
    hide WriteArray, WriteTab;
  }

  lemma {:induction false} WindowNumbers(w: Window)
    ensures var j := WriteWindow(w);
            && I32At(j, Key.X, 0) == Ok(w.x) && I32At(j, Key.Y, 0) == Ok(w.y)
            && U32At(j, Key.Width) == Ok(w.width) && U32At(j, Key.Height) == Ok(w.height)
            && I64At(j, Key.CreatedAt) == Ok(w.createdAt) && I64At(j, Key.LastActive) == Ok(w.lastActive)
  {
    hide WriteArray, WriteTab;
  }

  lemma {:induction false} WindowFocus(w: Window)
    ensures var j := WriteWindow(w);
            && ReadOptional(j, Key.FocusTabId, GetString) == Ok(w.focusTab)
            && ReadOptional(j, Key.FocusPaneId, GetString) == Ok(w.focusPane)
  {
    hide WriteArray, WriteTab;
  }

  lemma {:induction false} WindowReadsBack(w: Window)
    ensures ReadWindow(WriteWindow(w)) == Ok(NormalWindow(w))
  {
    hide ReadTab, WriteTab, NormalTab, WriteWindow, StringAt, I32At, U32At, I64At, ReadOptional, ReadEach;
    WindowMembers(w);
    WindowNumbers(w);
    WindowFocus(w);
    forall i | 0 <= i < |w.tabs| ensures ReadTab(WriteTab(w.tabs[i])) == Ok(NormalTabs(w.tabs)[i]) {
      TabReadsBack(w.tabs[i]);
    }
    ReadEachIs(WriteArray(w.tabs, WriteTab).items, ReadTab, NormalTabs(w.tabs));
  }

  lemma {:induction false} UiReadsBack(d: DirectoryTree)
    ensures ReadUi(WriteUi(d)) == Ok(d)
  {
    StringsReadBack(d.expanded);
  }

  lemma {:induction false} WorkspaceMembers(c: Calendar, w: Workspace)
    ensures var j := WriteWorkspace(c, w);
            && StringAt(j, Key.Id, "") == Ok(w.id)
            && StringAt(j, Key.Name, "") == Ok(w.name)
            && StringAt(j, Key.WorkingDirectory, "") == Ok(w.workingDirectory)
            && StringAt(j, Key.CreatedAt, "") == Ok(ToIso(c, w.createdAt))
            && StringAt(j, Key.LastSavedAt, "") == Ok(ToIso(c, w.lastSavedAt))
            && I32At(j, Key.SchemaVersion, SCHEMA_VERSION) == Ok(w.schemaVersion)
            && U32At(j, Key.Generation) == Ok(ToU32(w.generation))
            && Contains(j, Key.Tags) && At(j, Key.Tags) == WriteArray(w.tags, PutString)
            && Contains(j, Key.Windows) && At(j, Key.Windows) == WriteArray(w.windows, WriteWindow)
            && Contains(j, Key.Ui) && At(j, Key.Ui) == WriteUi(w.ui)
            && Contains(j, Key.Snapshots) && At(j, Key.Snapshots) == WriteArray(w.snapshotIds, PutString)
            && ReadOptional(j, Key.FocusWindowId, GetString) == Ok(w.focusWindow)
  {
    hide WriteArray, WriteWindow, WriteUi, ToIso;
  }

  lemma {:induction false} WindowsReadBack(ws: seq<Window>)
    ensures ReadArray(WriteArray(ws, WriteWindow), ReadWindow) == Ok(NormalWindows(ws))
  {
    hide ReadWindow, WriteWindow, NormalWindow;
    forall i | 0 <= i < |ws| ensures ReadWindow(WriteWindow(ws[i])) == Ok(NormalWindows(ws)[i]) {
      WindowReadsBack(ws[i]);
    }
    ReadEachIs(WriteArray(ws, WriteWindow).items, ReadWindow, NormalWindows(ws));
  }

  /** A workspace that was written is read back normalised, and nothing else of it is lost. */
  lemma {:induction false} WorkspaceReadsBack(c: Calendar, w: Workspace)
    requires IsCalendar(c)
    ensures ReadWorkspace(c, WriteWorkspace(c, w)) == Ok(Normal(w))
  {
    hide WriteWorkspace, StringAt, I32At, U32At, ReadOptional, ReadEach, ReadWindow, WriteWindow, NormalWindow,
      ReadUi, WriteUi, FromIso, ToIso, Reread, IsCalendar;
    WorkspaceMembers(c, w);
    FromIsoOfToIso(c, w.createdAt);
    FromIsoOfToIso(c, w.lastSavedAt);
    StringsReadBack(w.tags);
    StringsReadBack(w.snapshotIds);
    UiReadsBack(w.ui);
    WindowsReadBack(w.windows);
  }

  lemma {:induction false} NormalTreeTwice(t: P.Tree)
    ensures NormalTree(NormalTree(t)) == NormalTree(t)
  {
    if t.Split? {
      NormalTreeTwice(t.first);
      NormalTreeTwice(t.second);
    }
  }

  /** Normalising is idempotent: writing and reading again changes nothing more. */
  lemma {:induction false} NormalTwice(w: Workspace)
    ensures Normal(Normal(w)) == Normal(w)
  {
    hide Reread;
    RereadTwice(w.createdAt);
    RereadTwice(w.lastSavedAt);
    forall i | 0 <= i < |w.windows|
      ensures NormalWindow(NormalWindow(w.windows[i])) == NormalWindow(w.windows[i])
    {
      var tabs := w.windows[i].tabs;
      forall k | 0 <= k < |tabs| ensures NormalTab(NormalTab(tabs[k])) == NormalTab(tabs[k]) {
        NormalTreeTwice(tabs[k].tree);
      }
      assert NormalTabs(NormalTabs(tabs)) == NormalTabs(tabs);
    }
    assert NormalWindows(NormalWindows(w.windows)) == NormalWindows(w.windows);
  }
}
