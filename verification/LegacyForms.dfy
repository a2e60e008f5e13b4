/** Files of older versions of the program, and what is read of them. */
module LegacyForms {
  import opened Options
  import opened Integers
  import opened Json
  import opened WorkspaceModel
  import opened Serialization
  import opened IsoTime
  import Base64
  import Migration
  import P = PaneTree

  // ---- how older versions wrote -------------------------------------------------------------------

  /** A history was a list of commands. */
  function OldRecord(r: P.CommandRecord): Json { Str(r.command) }

  /** A pane had its scrollback as text instead of a snapshot, and the bare text of an interrupted command. */
  function WriteOldState(s: P.PaneState, scrollback: string): Json {
    var j := Obj(map[
      Key.Cwd := Str(s.cwd),
      Key.Shell := Str(s.shell),
      Key.Cols := Int(s.cols),
      Key.Rows := Int(s.rows),
      Key.CommandHistory := WriteArray(s.history, OldRecord),
      Key.Scrollback := Str(scrollback)]);
    if s.interrupted.Some? then Set(j, Key.InterruptedCommand, Str(s.interrupted.value.command)) else j
  }

  function WriteOldPane(p: P.Pane, scrollback: string): Json {
    Obj(map[Key.Id := Str(p.id), Key.State := WriteOldState(p.state, scrollback)])
  }

  function WriteOldTree(t: P.Tree, scrollback: string): Json {
    match t
    case Empty => Obj(map[Key.Kind := Str("empty")])
    case Leaf(p) => Obj(map[Key.Kind := Str("pane"), Key.Pane := WriteOldPane(p, scrollback)])
    case Split(kind, ratio, first, second) =>
      Obj(map[
        Key.Kind := Str("split"),
        Key.Orientation := Str(if kind == P.Horizontal then "horizontal" else "vertical"),
        Key.Ratio := Real(ratio),
        Key.First := WriteOldTree(first, scrollback),
        Key.Second := WriteOldTree(second, scrollback)])
  }

  /** There were no note tabs. */
  function WriteOldTab(scrollback: string): Tab -> Json {
    (t: Tab) => Obj(map[
      Key.Id := Str(t.id),
      Key.Title := Str(t.title),
      Key.PaneTree := WriteOldTree(t.tree, scrollback)])
  }

  /** The label of a window was its title. */
  function WriteOldWindow(scrollback: string): Window -> Json { (w: Window) => OldWindowJson(w, scrollback) }

  function OldWindowJson(w: Window, scrollback: string): Json {
    var j := Obj(map[
      Key.Id := Str(w.id),
      Key.Title := Str(w.name),
      Key.X := Int(w.x),
      Key.Y := Int(w.y),
      Key.Width := Int(w.width),
      Key.Height := Int(w.height),
      Key.CreatedAt := Int(w.createdAt),
      Key.LastActive := Int(w.lastActive),
      Key.Tabs := WriteArray(w.tabs, WriteOldTab(scrollback))]);
    var j := if w.focusTab.Some? then Set(j, Key.FocusTabId, Str(w.focusTab.value)) else j;
    if w.focusPane.Some? then Set(j, Key.FocusPaneId, Str(w.focusPane.value)) else j
  }

  /** There was no schema version, no generation and no state of the user interface. */
  function WriteOldWorkspace(c: Calendar, w: Workspace, scrollback: string): Json {
    var j := Obj(map[
      Key.Id := Str(w.id),
      Key.Name := Str(w.name),
      Key.WorkingDirectory := Str(w.workingDirectory),
      Key.CreatedAt := Str(ToIso(c, w.createdAt)),
      Key.LastSavedAt := Str(ToIso(c, w.lastSavedAt)),
      Key.Tags := WriteArray(w.tags, PutString),
      Key.Windows := WriteArray(w.windows, WriteOldWindow(scrollback)),
      Key.Snapshots := WriteArray(w.snapshotIds, PutString)]);
    if w.focusWindow.Some? then Set(j, Key.FocusWindowId, Str(w.focusWindow.value)) else j
  }

  // ---- what is read of it -------------------------------------------------------------------------

  /** Commands without times and pins. */
  function CommandsOnly(h: seq<P.CommandRecord>): seq<P.CommandRecord> {
    seq(|h|, i requires 0 <= i < |h| => P.CommandRecord(h[i].command, 0, false))
  }

  function OldState(s: P.PaneState): P.PaneState {
    var interrupted :=
      if s.interrupted.None? then None else Some(P.Interrupted(s.interrupted.value.command, 0, P.Unknown));
    s.(environment := [], history := CommandsOnly(s.history), snapshot := [], interrupted := interrupted)
  }

  function OldTree(t: P.Tree): P.Tree {
    match t
    case Empty => P.Leaf(P.Pane("", P.BLANK_STATE))
    case Leaf(p) => P.Leaf(P.Pane(p.id, OldState(p.state)))
    case Split(kind, ratio, first, second) => P.Split(kind, ratio, OldTree(first), OldTree(second))
  }

  function OldTab(t: Tab): Tab { t.(kind := Terminal, note := None, tree := OldTree(t.tree)) }

  function OldTabs(tabs: seq<Tab>): (r: seq<Tab>)
    ensures |r| == |tabs|
  {
    seq(|tabs|, i requires 0 <= i < |tabs| => OldTab(tabs[i]))
  }

  function OldWindow(w: Window): Window { w.(tabs := OldTabs(w.tabs)) }

  function OldWindows(ws: seq<Window>): (r: seq<Window>)
    ensures |r| == |ws|
  {
    seq(|ws|, i requires 0 <= i < |ws| => OldWindow(ws[i]))
  }

  function OldWorkspace(w: Workspace): Workspace {
    w.(createdAt := Reread(w.createdAt), lastSavedAt := Reread(w.lastSavedAt), schemaVersion := 1, generation := 0,
       windows := OldWindows(w.windows), ui := DirectoryTree.DirectoryTree("", [], "", "", "", 0.0))
  }

  /** A history may mix both forms: strings read as commands at time 0 without a pin, and records as they are. */
  lemma {:induction false} EitherFormReads(items: seq<Json>, h: seq<P.CommandRecord>)
    requires |items| == |h|
    requires forall i :: 0 <= i < |h| ==>
               items[i] == WriteRecord(h[i]) || (items[i] == Str(h[i].command) && h[i].timestampUs == 0 && !h[i].pinned)
    ensures ReadArray(Arr(items), ReadRecord) == Ok(h)
  {
    forall i | 0 <= i < |h| ensures ReadRecord(items[i]) == Ok(h[i]) { RecordReadsBack(h[i]); }
    ReadEachIs(items, ReadRecord, h);
  }

  lemma {:induction false} OldStateMembers(s: P.PaneState, scrollback: string)
    ensures var j := WriteOldState(s, scrollback);
            && StringAt(j, Key.Cwd, "") == Ok(s.cwd) && StringAt(j, Key.Shell, "") == Ok(s.shell)
            && U32At(j, Key.Cols) == Ok(s.cols) && U32At(j, Key.Rows) == Ok(s.rows)
            && Contains(j, Key.CommandHistory) && At(j, Key.CommandHistory) == WriteArray(s.history, OldRecord)
            && StringAt(j, Key.SnapshotData, "") == Ok("")
            && (Contains(j, Key.InterruptedCommand) <==> s.interrupted.Some?)
            && (s.interrupted.Some? ==> At(j, Key.InterruptedCommand) == Str(s.interrupted.value.command))
  {
    hide WriteArray;
  }

  lemma {:induction false} OldStateReads(s: P.PaneState, scrollback: string)
    ensures ReadPaneState(WriteOldState(s, scrollback)) == Ok(OldState(s))
  {
    hide WriteOldState, StringAt, U32At, ReadRecord;
    OldStateMembers(s, scrollback);
    var items := WriteArray(s.history, OldRecord).items;
    forall i | 0 <= i < |items| ensures items[i] == Str(CommandsOnly(s.history)[i].command) {
      assert items[i] == OldRecord(s.history[i]);
    }
    EitherFormReads(items, CommandsOnly(s.history));
    assert Base64.Decode("") == [];
  }

  lemma {:induction false} OldPaneReads(p: P.Pane, scrollback: string)
    ensures ReadPane(WriteOldPane(p, scrollback)) == Ok(P.Pane(p.id, OldState(p.state)))
  {
    hide ReadPaneState, WriteOldState, OldState;
    OldStateReads(p.state, scrollback);
  }

  lemma {:induction false} OldTreeReads(t: P.Tree, scrollback: string)
    ensures ReadTree(WriteOldTree(t, scrollback)) == Ok(OldTree(t))
  {
    hide ReadPane, WriteOldPane, OldState;
    match t
    case Empty =>
    case Leaf(p) =>
      OldPaneReads(p, scrollback);
    case Split(_, _, first, second) =>
      OldTreeReads(first, scrollback);
      OldTreeReads(second, scrollback);
  }

  lemma {:induction false} OldTabReads(t: Tab, scrollback: string)
    ensures ReadTab(WriteOldTab(scrollback)(t)) == Ok(OldTab(t))
  {
    hide ReadTree, WriteOldTree, OldTree;
    OldTreeReads(t.tree, scrollback);
  }

  lemma {:induction false} OldWindowMembers(w: Window, scrollback: string)
    ensures var j := OldWindowJson(w, scrollback);
            && StringAt(j, Key.Id, "") == Ok(w.id)
            && !Contains(j, Key.Label) && StringAt(j, Key.Title, "") == Ok(w.name)
            && Contains(j, Key.Tabs) && At(j, Key.Tabs) == WriteArray(w.tabs, WriteOldTab(scrollback))
            && ReadOptional(j, Key.FocusTabId, GetString) == Ok(w.focusTab)
            && ReadOptional(j, Key.FocusPaneId, GetString) == Ok(w.focusPane)
  {
    hide WriteArray, WriteOldTab;
  }

  lemma {:induction false} OldWindowNumbers(w: Window, scrollback: string)
    ensures var j := OldWindowJson(w, scrollback);
            && I32At(j, Key.X, 0) == Ok(w.x) && I32At(j, Key.Y, 0) == Ok(w.y)
            && U32At(j, Key.Width) == Ok(w.width) && U32At(j, Key.Height) == Ok(w.height)
            && I64At(j, Key.CreatedAt) == Ok(w.createdAt) && I64At(j, Key.LastActive) == Ok(w.lastActive)
  {
    hide WriteArray, WriteOldTab;
  }

  lemma {:induction false} OldWindowReads(w: Window, scrollback: string)
    ensures ReadWindow(OldWindowJson(w, scrollback)) == Ok(OldWindow(w))
  {
    hide ReadTab, WriteOldTab, OldTab, OldWindowJson, StringAt, I32At, U32At, I64At, ReadOptional, ReadEach;
    OldWindowMembers(w, scrollback);
    OldWindowNumbers(w, scrollback);
    var items := WriteArray(w.tabs, WriteOldTab(scrollback)).items;
    forall i | 0 <= i < |w.tabs| ensures ReadTab(items[i]) == Ok(OldTabs(w.tabs)[i]) {
      OldTabReads(w.tabs[i], scrollback);
    }
    ReadEachIs(items, ReadTab, OldTabs(w.tabs));
  }

  lemma {:induction false} OldWindowsRead(ws: seq<Window>, scrollback: string)
    ensures ReadArray(WriteArray(ws, WriteOldWindow(scrollback)), ReadWindow) == Ok(OldWindows(ws))
  {
    hide ReadWindow, OldWindowJson, OldWindow;
    var items := WriteArray(ws, WriteOldWindow(scrollback)).items;
    forall i | 0 <= i < |ws| ensures ReadWindow(items[i]) == Ok(OldWindows(ws)[i]) {
      OldWindowReads(ws[i], scrollback);
    }
    ReadEachIs(items, ReadWindow, OldWindows(ws));
  }

  lemma {:induction false} OldWorkspaceMembers(c: Calendar, w: Workspace, scrollback: string)
    ensures var j := WriteOldWorkspace(c, w, scrollback);
            && StringAt(j, Key.Id, "") == Ok(w.id) && StringAt(j, Key.Name, "") == Ok(w.name)
            && StringAt(j, Key.WorkingDirectory, "") == Ok(w.workingDirectory)
            && StringAt(j, Key.CreatedAt, "") == Ok(ToIso(c, w.createdAt))
            && StringAt(j, Key.LastSavedAt, "") == Ok(ToIso(c, w.lastSavedAt))
            && I32At(j, Key.SchemaVersion, SCHEMA_VERSION) == Ok(1) && U32At(j, Key.Generation) == Ok(0)
            && !Contains(j, Key.Ui)
            && Contains(j, Key.Tags) && At(j, Key.Tags) == WriteArray(w.tags, PutString)
            && Contains(j, Key.Windows) && At(j, Key.Windows) == WriteArray(w.windows, WriteOldWindow(scrollback))
            && Contains(j, Key.Snapshots) && At(j, Key.Snapshots) == WriteArray(w.snapshotIds, PutString)
            && ReadOptional(j, Key.FocusWindowId, GetString) == Ok(w.focusWindow)
  {
    hide WriteArray, WriteOldWindow, ToIso;
  }

  /** Every workspace that an older version wrote can be read: commands keep their texts, at time 0 and without
      pins, interrupted commands have an unknown source, and what did not exist has its default. */
  lemma {:induction false} OldWorkspaceReads(c: Calendar, w: Workspace, scrollback: string)
    requires IsCalendar(c)
    ensures ReadWorkspace(c, WriteOldWorkspace(c, w, scrollback)) == Ok(OldWorkspace(w))
  {
    hide WriteOldWorkspace, StringAt, I32At, U32At, ReadOptional, ReadEach, ReadWindow, WriteOldWindow, OldWindow,
      FromIso, ToIso, Reread, IsCalendar;
    OldWorkspaceMembers(c, w, scrollback);
    FromIsoOfToIso(c, w.createdAt);
    FromIsoOfToIso(c, w.lastSavedAt);
    StringsReadBack(w.tags);
    StringsReadBack(w.snapshotIds);
    OldWindowsRead(w.windows, scrollback);
  }

  /** Migrating such a file does not change that, and writing it again gives it the current form. */
  lemma {:induction false} OldWorkspaceMigrates(c: Calendar, w: Workspace, scrollback: string)
    requires IsCalendar(c)
    ensures var m := Migration.Migrate(WriteOldWorkspace(c, w, scrollback));
            m.Ok? && ReadWorkspace(c, m.value) == Ok(OldWorkspace(w))
    ensures ReadWorkspace(c, WriteWorkspace(c, OldWorkspace(w))) == Ok(OldWorkspace(w))
  {
    hide ReadWorkspace, WriteWorkspace, WriteOldWorkspace, Migration.Migrate, OldWorkspace, IsCalendar, Normal;
    OldWorkspaceReads(c, w, scrollback);
    Migration.MigrateKeepsMeaning(c, WriteOldWorkspace(c, w, scrollback));
    WorkspaceReadsBack(c, OldWorkspace(w));
    OldIsNormal(w);
  }

  lemma {:induction false} OldTreeIsNormal(t: P.Tree)
    ensures NormalTree(OldTree(t)) == OldTree(t)
  {
    if t.Split? {
      OldTreeIsNormal(t.first);
      OldTreeIsNormal(t.second);
    }
  }

  lemma {:induction false} OldIsNormal(w: Workspace)
    ensures Normal(OldWorkspace(w)) == OldWorkspace(w)
  {
    hide Reread;
    RereadTwice(w.createdAt);
    RereadTwice(w.lastSavedAt);
    var wins := OldWindows(w.windows);
    forall i | 0 <= i < |wins| ensures NormalWindow(wins[i]) == wins[i] {
      var tabs := OldTabs(w.windows[i].tabs);
      forall k | 0 <= k < |tabs| ensures NormalTab(tabs[k]) == tabs[k] { OldTreeIsNormal(w.windows[i].tabs[k].tree); }
      assert NormalTabs(tabs) == tabs;
    }
    assert NormalWindows(wins) == wins;
  }

  // ---- missing members ----------------------------------------------------------------------------

  const NOTHING: Json := Obj(map[])

  /** The defaults of all missing members. An object without a tree in it reads as a split of two blank panes. */
  lemma {:induction false} DefaultsOfParts()
    ensures ReadRecord(NOTHING) == Ok(P.CommandRecord("", 0, false))
    ensures ReadInterrupted(NOTHING) == Ok(P.Interrupted("", 0, P.Unknown))
    ensures ReadPane(NOTHING) == Ok(P.Pane("", P.PaneState("", "", 0, 0, [], [], [], None)))
    ensures ReadTree(NOTHING) == Ok(P.Split(P.Horizontal, 0.5, BLANK_LEAF, BLANK_LEAF))
    ensures ReadNote(NOTHING) == Ok(NoteTabState("", "", "", "", false, 0, 0.0, false, 0.5, false))
    ensures ReadTab(NOTHING) == Ok(Tab("", "", Terminal, None, P.Empty))
    ensures ReadUi(NOTHING) == Ok(DirectoryTree.DirectoryTree("", [], "", "", "", 0.0))
  {
  }

  lemma {:induction false} DefaultsOfStates()
    ensures ReadPaneState(NOTHING) == Ok(P.PaneState("", "", 0, 0, [], [], [], None))
    ensures ReadDirectory(NOTHING) == Ok(DirectoryTree.DirectoryTree("", [], "", "", "", 0.0))
    ensures ReadWindow(NOTHING) == Ok(Window("", "", 0, 0, 0, 0, 0, 0, [], None, None))
  {
    assert Base64.Decode("") == [];
  }

  lemma {:induction false} DefaultsOfWorkspace(c: Calendar)
    ensures ReadWorkspace(c, NOTHING) ==
              Ok(Workspace("", "", "", FromIso(c, ""), FromIso(c, ""), [], 1, 0, [], None, [],
                           DirectoryTree.DirectoryTree("", [], "", "", "", 0.0)))
    ensures c.read("") == None ==> FromIso(c, "") == 0
  {
    hide FromIso;
    TimeWithoutDate(c, "");
  }

  lemma {:induction false} TimeWithoutDate(c: Calendar, s: string)
    ensures c.read(s) == None ==> FromIso(c, s) == 0
  {
  }

  function Only(k: Key, v: Json): Json { Obj(map[k := v]) }

  /** Every member is read by its own name. */
  lemma {:induction false} NoteTextsByName(s: string)
    ensures var none := ReadNote(NOTHING).value;
            && ReadNote(Only(Key.DocumentId, Str(s))) == Ok(none.(documentId := s))
            && ReadNote(Only(Key.Path, Str(s))) == Ok(none.(path := s))
            && ReadNote(Only(Key.Title, Str(s))) == Ok(none.(title := s))
            && ReadNote(Only(Key.Content, Str(s))) == Ok(none.(content := s))
  {
  }

  lemma {:induction false} NoteFlagsByName(b: bool)
    ensures var none := ReadNote(NOTHING).value;
            && ReadNote(Only(Key.Modified, Bool(b))) == Ok(none.(modified := b))
            && ReadNote(Only(Key.PreviewEnabled, Bool(b))) == Ok(none.(previewEnabled := b))
            && ReadNote(Only(Key.SyncScroll, Bool(b))) == Ok(none.(syncScroll := b))
  {
  }

  lemma {:induction false} NoteNumbersByName(n: i32, r: real)
    ensures var none := ReadNote(NOTHING).value;
            && ReadNote(Only(Key.Cursor, Int(n))) == Ok(none.(cursor := n))
            && ReadNote(Only(Key.Scroll, Real(r))) == Ok(none.(scroll := r))
            && ReadNote(Only(Key.SplitRatio, Real(r))) == Ok(none.(splitRatio := r))
  {
  }

  lemma {:induction false} DirectoryMembersByName(s: string, r: real)
    ensures var none := ReadDirectory(NOTHING).value;
            && ReadDirectory(Only(Key.CurrentDir, Str(s))) == Ok(none.(currentDir := s))
            && ReadDirectory(Only(Key.Selected, Str(s))) == Ok(none.(selected := s))
            && ReadDirectory(Only(Key.FilterText, Str(s))) == Ok(none.(filter := s))
            && ReadDirectory(Only(Key.ScrollAnchor, Str(s))) == Ok(none.(scrollAnchor := s))
            && ReadDirectory(Only(Key.AnchorOffset, Real(r))) == Ok(none.(anchorOffset := r))
  {
  }

  lemma {:induction false} RecordMembersByName(s: string, b: bool, n: i64)
    ensures ReadRecord(Only(Key.Command, Str(s))) == Ok(P.CommandRecord(s, 0, false))
    ensures ReadRecord(Only(Key.TimestampUs, Int(n))) == Ok(P.CommandRecord("", n, false))
    ensures ReadRecord(Only(Key.Pinned, Bool(b))) == Ok(P.CommandRecord("", 0, b))
    ensures ReadInterrupted(Only(Key.Command, Str(s))) == Ok(P.Interrupted(s, 0, P.Unknown))
    ensures ReadInterrupted(Only(Key.TimestampUs, Int(n))) == Ok(P.Interrupted("", n, P.Unknown))
    ensures ReadInterrupted(Only(Key.Source, Str("ctrl_c"))) == Ok(P.Interrupted("", 0, P.CtrlC))
    ensures ReadInterrupted(Only(Key.Source, Str("process_exit"))) == Ok(P.Interrupted("", 0, P.ProcessExit))
    ensures s != "ctrl_c" && s != "process_exit" ==>
              ReadInterrupted(Only(Key.Source, Str(s))) == Ok(P.Interrupted("", 0, P.Unknown))
  {
  }

  /** Only "note" makes a note tab. */
  lemma {:induction false} TabKindsByName(s: string)
    ensures ReadTab(Only(Key.Kind, Str(s))) == Ok(Tab("", "", if s == "note" then Note else Terminal, None, P.Empty))
  {
  }

  /** Only "empty" makes an empty node, which is read as a blank pane, and only "vertical" a vertical split. */
  lemma {:induction false} TreeMembersByName(s: string, r: real)
    ensures ReadTree(Only(Key.Kind, Str(s))) ==
              Ok(if s == "empty" then BLANK_LEAF else P.Split(P.Horizontal, 0.5, BLANK_LEAF, BLANK_LEAF))
    ensures ReadTree(Only(Key.Orientation, Str(s))) ==
              Ok(P.Split(if s == "vertical" then P.Vertical else P.Horizontal, 0.5, BLANK_LEAF, BLANK_LEAF))
    ensures ReadTree(Only(Key.Ratio, Real(r))) == Ok(P.Split(P.Horizontal, r, BLANK_LEAF, BLANK_LEAF))
  {
  }

  // ---- numbers ------------------------------------------------------------------------------------

  /** Numbers with a fraction are cut toward zero. */
  lemma {:induction false} TruncIsTowardZero(r: real)
    ensures r >= 0.0 ==> 0 <= Trunc(r) && Trunc(r) as real <= r < Trunc(r) as real + 1.0
    ensures r <= 0.0 ==> Trunc(r) <= 0 && Trunc(r) as real - 1.0 < r <= Trunc(r) as real
  {
  }

  /** An integer is read as it is, also where a real number is asked for. */
  lemma {:induction false} IntegersAreRead(k: Key, i: i64)
    ensures RealAt(Only(k, Int(i)), k, 0.5) == Ok(i as real) && I64At(Only(k, Int(i)), k) == Ok(i)
  {
    hide Trunc, ToI64;
    FittingStays(i);
  }

  /** Where a number is asked for, false is read as 0 and true as 1. */
  lemma {:induction false} FlagsAreNumbers(k: Key, b: bool)
    ensures U32At(Only(k, Bool(b)), k) == Ok(if b then 1 else 0)
    ensures I32At(Only(k, Bool(b)), k, 7) == Ok(if b then 1 else 0)
  {
    hide Trunc;
  }

  /** An integer that is too wide keeps its low bits. */
  lemma {:induction false} WideNumbersAreCut(k: Key)
    ensures U32At(Only(k, Int(-1)), k) == Ok(0xFFFF_FFFF) && I32At(Only(k, Int(0x8000_0000)), k, 0) == Ok(-0x8000_0000)
  {
    hide Trunc;
  }

  /** A text is no number, and a number is no text. */
  lemma {:induction false} OtherTypesThrow(k: Key, i: i64, b: bool, s: string)
    ensures U32At(Only(k, Str(s)), k) == Throws && I64At(Only(k, Str(s)), k) == Throws
    ensures I64At(Only(k, Bool(b)), k) == Throws && RealAt(Only(k, Str(s)), k, 0.5) == Throws
    ensures StringAt(Only(k, Int(i)), k, "") == Throws && BoolAt(Only(k, Int(i)), k) == Throws
    ensures StringAt(Str(s), k, "") == Throws
  {
    hide Trunc, ToI32, ToU32, ToI64;
  }

  /** What a list of strings is read of: a list, nothing, or a single string. */
  lemma {:induction false} StringsOf(xs: seq<string>, s: string, k: Key)
    ensures ReadStrings(Obj(map[k := WriteArray(xs, PutString)]), k) == Ok(xs)
    ensures ReadStrings(Obj(map[k := Null]), k) == Ok([]) && ReadStrings(Obj(map[k := Str(s)]), k) == Ok([s])
  {
    StringsReadBack(xs);
    ReadEachIs([Str(s)], GetString, [s]);
  }
}
