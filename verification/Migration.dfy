/** Upgrading the JSON of older workspaces to the current form, against simply reading it. */
module Migration {
  import opened Integers
  import opened Json
  import opened Serialization
  import opened IsoTime
  import WorkspaceModel

  // ---- specification ------------------------------------------------------------------------------

  /** An assignment to a member of a value: null becomes an object, other values have no members. */
  function Assign(j: Json, k: Key, v: Json): Result<Json> {
    if j.Null? then Ok(Obj(map[k := v])) else if j.Obj? then Ok(Set(j, k, v)) else Throws
  }

  function AssignMissing(j: Json, k: Key, v: Json): Result<Json> { if Contains(j, k) then Ok(j) else Assign(j, k, v) }

  /** A command line that was stopped, in the form that is written today. */
  function InterruptedObject(command: string): Json {
    Obj(map[Key.Command := Str(command), Key.TimestampUs := Int(0), Key.Source := Str("unknown")])
  }

  function MigrateState(st: Json): Json {
    if Contains(st, Key.InterruptedCommand) && At(st, Key.InterruptedCommand).Str?
    then Set(st, Key.InterruptedCommand, InterruptedObject(At(st, Key.InterruptedCommand).s))
    else st
  }

  /** Only a pane at the root of the tree is migrated. */
  function MigrateTree(tree: Json): Json {
    if Contains(tree, Key.Pane) && Contains(At(tree, Key.Pane), Key.State) then
      var pane := At(tree, Key.Pane);
      Set(tree, Key.Pane, Set(pane, Key.State, MigrateState(At(pane, Key.State))))
    else tree
  }

  function MigrateTab(tab: Json): Result<Json> {
    var t :- AssignMissing(tab, Key.Kind, Str("terminal"));
    var t :- AssignMissing(t, Key.NoteState, Null);
    Ok(if Contains(t, Key.PaneTree) then Set(t, Key.PaneTree, MigrateTree(At(t, Key.PaneTree))) else t)
  }

  /** What a loop that migrates the elements of a value in place leaves: the items of an array, the values
      of an object, or the value itself; null has none. */
  function Each(j: Json, migrate: Json -> Result<Json>): Result<Json> {
    match j
    case Null => Ok(j)
    case Arr(items) =>
      var r :- ReadEach(items, migrate);
      Ok(Arr(r))
    case Obj(fields) =>
      if forall k | k in fields :: migrate(fields[k]).Ok?
      then Ok(Obj(map k | k in fields :: migrate(fields[k]).value)) else Throws
    case _ => migrate(j)
  }

  function MigrateWindow(win: Json): Result<Json> {
    if !Contains(win, Key.Tabs) then Ok(win)
    else
      var tabs :- Each(At(win, Key.Tabs), MigrateTab);
      Ok(Set(win, Key.Tabs, tabs))
  }

  /** The members of the workspace that are always present afterwards. */
  function MigrateHeader(j: Json): Result<Json> {
    var schemaVersion :- I32At(j, Key.SchemaVersion, WorkspaceModel.SCHEMA_VERSION);
    var j := Set(j, Key.SchemaVersion, Int(schemaVersion));
    var generation :- U32At(j, Key.Generation);
    AssignMissing(Set(j, Key.Generation, Int(generation)), Key.Ui, Obj(map[]))
  }

  function Migrate(j: Json): Result<Json> {
    var j :- MigrateHeader(j);
    if !Contains(j, Key.Windows) then Ok(j)
    else
      var windows :- Each(At(j, Key.Windows), MigrateWindow);
      Ok(Set(j, Key.Windows, windows))
  }

  // ---- the migration ------------------------------------------------------------------------------

  /** The loop over the elements of a value. */
  method MigrateElements(j: Json, migrate: Json -> Result<Json>) returns (r: Result<Json>)
    ensures r == Each(j, migrate)
  {
    match j
    case Null =>
      r := Ok(j);
    case Arr(items) =>
      var done: seq<Json> := [];
      for i := 0 to |items|
        invariant |done| == i
        invariant forall k :: 0 <= k < i ==> migrate(items[k]) == Ok(done[k])
      {
        var m := migrate(items[i]);
        if m.Throws? {
          EachNeeds(items, migrate, i);
          return Throws;
        }
        done := done + [m.value];
      }
      ReadEachIs(items, migrate, done);
      r := Ok(Arr(done));
    case Obj(fields) =>
      var done: map<Key, Json> := map[];
      var keys := fields.Keys;
      while keys != {}
        invariant keys <= fields.Keys && done.Keys == fields.Keys - keys
        invariant forall k | k in done :: migrate(fields[k]) == Ok(done[k])
        decreases |keys|
      {
        var k :| k in keys;
        keys := keys - {k};
        var m := migrate(fields[k]);
        if m.Throws? {
          return Throws;
        }
        done := done[k := m.value];
      }
      assert done == map k | k in fields :: migrate(fields[k]).value;
      r := Ok(Obj(done));
    case _ =>
      r := migrate(j);
  }

  method MigrateWorkspaceJson(j: Json) returns (r: Result<Json>)
    ensures r == Migrate(j)
  {
    var schemaVersion :- I32At(j, Key.SchemaVersion, WorkspaceModel.SCHEMA_VERSION);
    var out := Set(j, Key.SchemaVersion, Int(schemaVersion));
    var generation :- U32At(out, Key.Generation);
    out := Set(out, Key.Generation, Int(generation));
    if !Contains(out, Key.Ui) {
      out := Set(out, Key.Ui, Obj(map[]));
    }
    if Contains(out, Key.Windows) {
      var windows := MigrateElements(At(out, Key.Windows), MigrateWindow);
      if windows.Throws? {
        return Throws;
      }
      out := Set(out, Key.Windows, windows.value);
    }
    r := Ok(out);
  }

  lemma {:induction false} EachNeeds<T>(items: seq<Json>, read: Json -> Result<T>, i: nat)
    requires i < |items| && read(items[i]).Throws?
    ensures ReadEach(items, read).Throws?
  {
    if i > 0 { EachNeeds(items[1..], read, i - 1); }
  }

  // ---- migration keeps what is read ---------------------------------------------------------------

  lemma {:induction false} StateMeaning(st: Json)
    ensures ReadPaneState(MigrateState(st)) == ReadPaneState(st)
  {
    hide ReadArray;
    var st' := MigrateState(st);
    assert StringAt(st', Key.Cwd, "") == StringAt(st, Key.Cwd, "");
    assert StringAt(st', Key.Shell, "") == StringAt(st, Key.Shell, "");
    assert U32At(st', Key.Cols) == U32At(st, Key.Cols) && U32At(st', Key.Rows) == U32At(st, Key.Rows);
    assert StringAt(st', Key.SnapshotData, "") == StringAt(st, Key.SnapshotData, "");
    assert ReadOptional(st', Key.InterruptedCommand, ReadInterrupted) ==
      ReadOptional(st, Key.InterruptedCommand, ReadInterrupted);
  }

  lemma {:induction false} TreeMeaning(tree: Json)
    ensures ReadTree(MigrateTree(tree)) == ReadTree(tree)
  {
    hide ReadPaneState, MigrateState;
    if Contains(tree, Key.Pane) && Contains(At(tree, Key.Pane), Key.State) {
      var pane, tree' := At(tree, Key.Pane), MigrateTree(tree);
      StateMeaning(At(pane, Key.State));
      assert StringAt(tree', Key.Kind, "pane") == StringAt(tree, Key.Kind, "pane");
      assert StringAt(tree', Key.Orientation, "horizontal") == StringAt(tree, Key.Orientation, "horizontal");
      assert RealAt(tree', Key.Ratio, 0.5) == RealAt(tree, Key.Ratio, 0.5);
      assert ReadPane(At(tree', Key.Pane)) == ReadPane(pane);
      assert Contains(tree', Key.First) ==> At(tree', Key.First) == At(tree, Key.First);
      assert Contains(tree', Key.Second) ==> At(tree', Key.Second) == At(tree, Key.Second);
    }
  }

  /** Migrating a tab does not change what is read of it, nor whether it can be read, unless it is null. */
  lemma {:induction false} TabMeaning(tab: Json)
    requires MigrateTab(tab).Ok? && tab != Null
    ensures ReadTab(MigrateTab(tab).value) == ReadTab(tab)
  {
    hide ReadTree, MigrateTree, ReadNote;
    var tab' := MigrateTab(tab).value;
    assert StringAt(tab', Key.Id, "") == StringAt(tab, Key.Id, "");
    assert StringAt(tab', Key.Title, "") == StringAt(tab, Key.Title, "");
    assert StringAt(tab', Key.Kind, "terminal") == StringAt(tab, Key.Kind, "terminal");
    if Contains(tab, Key.PaneTree) { TreeMeaning(At(tab, Key.PaneTree)); }
  }

  lemma {:induction false} ReadableTabMigrates(tab: Json)
    requires ReadTab(tab).Ok?
    ensures MigrateTab(tab).Ok? && tab != Null
  {
    hide ReadTree, ReadNote, MigrateTree;
  }

  /** Migrating the items of an array that reads keeps what is read. */
  lemma {:induction false} ArrayMeaning<T>(j: Json, read: Json -> Result<T>, migrate: Json -> Result<Json>)
    requires ReadArray(j, read).Ok?
    requires forall x | read(x).Ok? :: migrate(x).Ok? && read(migrate(x).value) == read(x)
    ensures Each(j, migrate).Ok? && ReadArray(Each(j, migrate).value, read) == ReadArray(j, read)
  {
    var items := j.items;
    var xs := ReadArray(j, read).value;
    ReadEachGives(items, read);
    var items' := seq(|items|, i requires 0 <= i < |items| =>
      if migrate(items[i]).Ok? then migrate(items[i]).value else Null);
    ReadEachIs(items, migrate, items');
    ReadEachIs(items', read, xs);
  }

  lemma {:induction false} WindowMeaning(win: Json)
    requires ReadWindow(win).Ok?
    ensures MigrateWindow(win).Ok? && ReadWindow(MigrateWindow(win).value) == ReadWindow(win)
  {
    hide ReadTab, MigrateTab, ReadArray, Each;
    if Contains(win, Key.Tabs) {
      forall x | ReadTab(x).Ok? ensures MigrateTab(x).Ok? && ReadTab(MigrateTab(x).value) == ReadTab(x) {
        ReadableTabMigrates(x);
        TabMeaning(x);
      }
      ArrayMeaning(At(win, Key.Tabs), ReadTab, MigrateTab);
      OtherWindowMembers(win, Each(At(win, Key.Tabs), MigrateTab).value);
    }
  }

  lemma {:induction false} OtherWindowMembers(win: Json, tabs: Json)
    requires Contains(win, Key.Tabs) && ReadArray(tabs, ReadTab) == ReadArray(At(win, Key.Tabs), ReadTab)
    ensures ReadWindow(Set(win, Key.Tabs, tabs)) == ReadWindow(win)
  {
    hide ReadTab, ReadArray, StringAt, I32At, U32At, I64At, ReadOptional;
    WindowMembersAgree(win, tabs);
  }

  lemma {:induction false} WindowMembersAgree(win: Json, tabs: Json)
    requires win.Obj?
    ensures var win' := Set(win, Key.Tabs, tabs);
            && StringAt(win', Key.Id, "") == StringAt(win, Key.Id, "")
            && StringAt(win', Key.Label, "") == StringAt(win, Key.Label, "")
            && StringAt(win', Key.Title, "") == StringAt(win, Key.Title, "")
            && I32At(win', Key.X, 0) == I32At(win, Key.X, 0) && I32At(win', Key.Y, 0) == I32At(win, Key.Y, 0)
            && U32At(win', Key.Width) == U32At(win, Key.Width) && U32At(win', Key.Height) == U32At(win, Key.Height)
            && I64At(win', Key.CreatedAt) == I64At(win, Key.CreatedAt)
            && I64At(win', Key.LastActive) == I64At(win, Key.LastActive)
            && ReadOptional(win', Key.FocusTabId, GetString) == ReadOptional(win, Key.FocusTabId, GetString)
            && ReadOptional(win', Key.FocusPaneId, GetString) == ReadOptional(win, Key.FocusPaneId, GetString)
  {
  }

  /** The members of two workspaces read the same. */
  ghost predicate MembersAgree(j: Json, j': Json) {
    && StringAt(j', Key.Id, "") == StringAt(j, Key.Id, "")
    && StringAt(j', Key.Name, "") == StringAt(j, Key.Name, "")
    && StringAt(j', Key.WorkingDirectory, "") == StringAt(j, Key.WorkingDirectory, "")
    && StringAt(j', Key.CreatedAt, "") == StringAt(j, Key.CreatedAt, "")
    && StringAt(j', Key.LastSavedAt, "") == StringAt(j, Key.LastSavedAt, "")
    && I32At(j', Key.SchemaVersion, WorkspaceModel.SCHEMA_VERSION) ==
      I32At(j, Key.SchemaVersion, WorkspaceModel.SCHEMA_VERSION)
    && U32At(j', Key.Generation) == U32At(j, Key.Generation)
    && ListAt(j', Key.Tags, GetString) == ListAt(j, Key.Tags, GetString)
    && ListAt(j', Key.Windows, ReadWindow) == ListAt(j, Key.Windows, ReadWindow)
    && UiAt(j') == UiAt(j)
    && ReadStrings(j', Key.Snapshots) == ReadStrings(j, Key.Snapshots)
    && ReadOptional(j', Key.FocusWindowId, GetString) == ReadOptional(j, Key.FocusWindowId, GetString)
  }

  ghost function ListAt<T>(j: Json, k: Key, read: Json -> Result<T>): Result<seq<T>> {
    if Contains(j, k) then ReadArray(At(j, k), read) else Ok([])
  }

  ghost function UiAt(j: Json): Result<WorkspaceModel.DirectoryTree> {
    if Contains(j, Key.Ui) then ReadUi(At(j, Key.Ui)) else Ok(BLANK_DIRECTORY)
  }

  /** Nothing but these members is read. */
  lemma {:induction false} AgreeingMembers(c: Calendar, j: Json, j': Json)
    requires MembersAgree(j, j')
    ensures ReadWorkspace(c, j') == ReadWorkspace(c, j)
  {
    hide ReadArray, ReadWindow, ReadUi, FromIso, StringAt, I32At, U32At, ReadStrings, ReadOptional, Contains;
  }

  lemma {:induction false} SchemaMeaning(c: Calendar, j: Json, v: i32)
    requires j.Obj? && I32At(j, Key.SchemaVersion, WorkspaceModel.SCHEMA_VERSION) == Ok(v)
    ensures ReadWorkspace(c, Set(j, Key.SchemaVersion, Int(v))) == ReadWorkspace(c, j)
  {
    hide ReadArray, ReadWindow, ReadUi;
    AgreeingMembers(c, j, Set(j, Key.SchemaVersion, Int(v)));
  }

  lemma {:induction false} GenerationMeaning(c: Calendar, j: Json, v: u32)
    requires j.Obj? && U32At(j, Key.Generation) == Ok(v)
    ensures ReadWorkspace(c, Set(j, Key.Generation, Int(v))) == ReadWorkspace(c, j)
  {
    hide ReadArray, ReadWindow, ReadUi;
    AgreeingMembers(c, j, Set(j, Key.Generation, Int(v)));
  }

  lemma {:induction false} UiMeaning(c: Calendar, j: Json)
    requires j.Obj? && !Contains(j, Key.Ui)
    ensures ReadWorkspace(c, Set(j, Key.Ui, Obj(map[]))) == ReadWorkspace(c, j)
  {
    hide ReadArray, ReadWindow;
    AgreeingMembers(c, j, Set(j, Key.Ui, Obj(map[])));
  }

  lemma {:induction false} HeaderRead(c: Calendar, j: Json)
    requires ReadWorkspace(c, j).Ok?
    ensures MigrateHeader(j).Ok?
  {
    hide ReadArray, ReadWindow, ReadUi, FromIso, ReadStrings, ReadOptional;
  }

  /** Filling in the header does not change what is read, nor whether it can be read. */
  lemma {:induction false} HeaderMeaning(c: Calendar, j: Json)
    requires MigrateHeader(j).Ok?
    ensures ReadWorkspace(c, MigrateHeader(j).value) == ReadWorkspace(c, j)
  {
    hide ReadWorkspace, I32At, U32At;
    assert j.Obj? by { HeaderOfObject(j); }
    var version := I32At(j, Key.SchemaVersion, WorkspaceModel.SCHEMA_VERSION).value;
    var j1 := Set(j, Key.SchemaVersion, Int(version));
    SchemaMeaning(c, j, version);
    var generation := U32At(j1, Key.Generation).value;
    GenerationMeaning(c, j1, generation);
    var j2 := Set(j1, Key.Generation, Int(generation));
    if !Contains(j2, Key.Ui) { UiMeaning(c, j2); }
  }

  lemma {:induction false} HeaderOfObject(j: Json)
    requires MigrateHeader(j).Ok?
    ensures j.Obj? && MigrateHeader(j).value.Obj?
    ensures Contains(MigrateHeader(j).value, Key.Windows) <==> Contains(j, Key.Windows)
    ensures Contains(j, Key.Windows) ==> At(MigrateHeader(j).value, Key.Windows) == At(j, Key.Windows)
  {
  }

  lemma {:induction false} OtherWorkspaceMembers(c: Calendar, j: Json, windows: Json)
    requires Contains(j, Key.Windows) && ReadArray(windows, ReadWindow) == ReadArray(At(j, Key.Windows), ReadWindow)
    ensures ReadWorkspace(c, Set(j, Key.Windows, windows)) == ReadWorkspace(c, j)
  {
    hide ReadArray, ReadWindow, ReadUi;
    AgreeingMembers(c, j, Set(j, Key.Windows, windows));
  }

  /** Whatever JSON reads as a workspace can be migrated, and then reads as the same workspace. */
  lemma {:induction false} MigrateKeepsMeaning(c: Calendar, j: Json)
    requires ReadWorkspace(c, j).Ok?
    ensures Migrate(j).Ok? && ReadWorkspace(c, Migrate(j).value) == ReadWorkspace(c, j)
  {
    hide MigrateHeader, MigrateWindow, ReadWindow, ReadArray, Each;
    HeaderRead(c, j);
    HeaderMeaning(c, j);
    var j' := MigrateHeader(j).value;
    if Contains(j', Key.Windows) {
      WindowsRead(c, j');
      forall x | ReadWindow(x).Ok? ensures MigrateWindow(x).Ok? && ReadWindow(MigrateWindow(x).value) == ReadWindow(x) {
        WindowMeaning(x);
      }
      ArrayMeaning(At(j', Key.Windows), ReadWindow, MigrateWindow);
      OtherWorkspaceMembers(c, j', Each(At(j', Key.Windows), MigrateWindow).value);
    }
  }

  lemma {:induction false} WindowsRead(c: Calendar, j: Json)
    requires ReadWorkspace(c, j).Ok? && Contains(j, Key.Windows)
    ensures ReadArray(At(j, Key.Windows), ReadWindow).Ok?
  {
    hide ReadArray, ReadWindow, ReadUi, FromIso, StringAt, I32At, U32At, ReadStrings, ReadOptional;
  }

  // ---- exactly when migration keeps what is read --------------------------------------------------

  /** The window has a list of tabs with a null among them. */
  predicate HasNullTab(win: Json) {
    Contains(win, Key.Tabs) && At(win, Key.Tabs).Arr? && Null in At(win, Key.Tabs).items
  }

  predicate HasNullTabs(j: Json) {
    Contains(j, Key.Windows) && At(j, Key.Windows).Arr?
    && exists i :: 0 <= i < |At(j, Key.Windows).items| && HasNullTab(At(j, Key.Windows).items[i])
  }

  lemma {:induction false} ReadEachSame<T>(a: seq<Json>, b: seq<Json>, read: Json -> Result<T>)
    requires |a| == |b| && forall i :: 0 <= i < |a| ==> read(a[i]) == read(b[i])
    ensures ReadEach(a, read) == ReadEach(b, read)
  {
    if a != [] { ReadEachSame(a[1..], b[1..], read); }
  }

  /** Without a null tab, migrating a window changes neither what is read nor whether it can be read. */
  lemma {:induction false} WindowKeepsReading(win: Json)
    requires MigrateWindow(win).Ok? && !HasNullTab(win)
    ensures ReadWindow(MigrateWindow(win).value) == ReadWindow(win)
  {
    hide ReadTab, MigrateTab, ReadWindow;
    if Contains(win, Key.Tabs) {
      var tabs := At(win, Key.Tabs);
      var tabs' := Each(tabs, MigrateTab).value;
      if tabs.Arr? {
        ReadEachGives(tabs.items, MigrateTab);
        forall i | 0 <= i < |tabs.items| ensures ReadTab(tabs'.items[i]) == ReadTab(tabs.items[i]) {
          assert tabs.items[i] in tabs.items;
          TabMeaning(tabs.items[i]);
        }
        ReadEachSame(tabs'.items, tabs.items, ReadTab);
      } else if !tabs.Null? && !tabs.Obj? {
        TabIsObject(tabs);
      }
      assert ReadArray(tabs', ReadTab) == ReadArray(tabs, ReadTab);
      OtherWindowMembers(win, tabs');
    }
  }

  /** A window with a null tab cannot be read. */
  lemma {:induction false} NullTabThrows(win: Json)
    requires HasNullTab(win)
    ensures ReadWindow(win).Throws?
  {
    hide ReadTab, StringAt, I32At, U32At, I64At, ReadOptional;
    var items := At(win, Key.Tabs).items;
    assert ReadTab(Null).Throws? by { NullReads(); }
    var i :| 0 <= i < |items| && items[i] == Null;
    EachNeeds(items, ReadTab, i);
  }

  lemma {:induction false} NullReads()
    ensures ReadTab(Null).Throws?
  {
  }

  lemma {:induction false} WorkspaceThrows(c: Calendar, j: Json, i: nat)
    requires Contains(j, Key.Windows) && At(j, Key.Windows).Arr?
    requires i < |At(j, Key.Windows).items| && ReadWindow(At(j, Key.Windows).items[i]).Throws?
    ensures ReadWorkspace(c, j).Throws?
  {
    hide ReadWindow, ReadUi, FromIso, StringAt, I32At, U32At, ReadStrings, ReadOptional;
    EachNeeds(At(j, Key.Windows).items, ReadWindow, i);
  }

  lemma {:induction false} ReadableWindows(c: Calendar, j: Json)
    requires ReadWorkspace(c, j).Ok? && Contains(j, Key.Windows)
    ensures At(j, Key.Windows).Arr?
  {
    hide ReadEach, ReadUi, FromIso, StringAt, I32At, U32At, ReadStrings, ReadOptional;
  }

  /** Where the migrated value reads, it reads as the original does exactly when no window has a null tab;
      with one the original does not read at all. */
  lemma {:induction false} MigrateKeepsReading(c: Calendar, j: Json)
    requires Migrate(j).Ok? && ReadWorkspace(c, Migrate(j).value).Ok?
    ensures ReadWorkspace(c, Migrate(j).value) == ReadWorkspace(c, j) <==> !HasNullTabs(j)
    ensures HasNullTabs(j) ==> ReadWorkspace(c, j).Throws?
  {
    hide MigrateHeader, MigrateWindow, ReadWindow, ReadWorkspace, HasNullTab;
    HeaderOfObject(j);
    HeaderMeaning(c, j);
    var h, j' := MigrateHeader(j).value, Migrate(j).value;
    if Contains(j, Key.Windows) {
      ReadableWindows(c, j');
      var windows, windows' := At(j, Key.Windows), At(j', Key.Windows);
      if windows.Arr? {
        ReadEachGives(windows.items, MigrateWindow);
        if HasNullTabs(j) {
          var i :| 0 <= i < |windows.items| && HasNullTab(windows.items[i]);
          NullTabThrows(windows.items[i]);
          WorkspaceThrows(c, j, i);
        } else {
          forall i | 0 <= i < |windows.items| ensures ReadWindow(windows'.items[i]) == ReadWindow(windows.items[i]) {
            WindowKeepsReading(windows.items[i]);
          }
          ReadEachSame(windows'.items, windows.items, ReadWindow);
          OtherWorkspaceMembers(c, h, windows');
        }
      } else if !windows.Null? && !windows.Obj? {
        NonObjectStays(windows);
      }
    }
  }

  /** A workspace with one window whose one tab is null does not read, but migrated it reads as one with a
      terminal tab. */
  lemma {:induction false} NullTabBecomesReadable(c: Calendar)
    ensures var win := Obj(map[Key.Tabs := Arr([Null])]);
            var j := Obj(map[Key.Windows := Arr([win])]);
            ReadWorkspace(c, j).Throws? && Migrate(j).Ok? && ReadWorkspace(c, Migrate(j).value).Ok?
  {
    hide Migrate, ReadWorkspace;
    var win := Obj(map[Key.Tabs := Arr([Null])]);
    var j := Obj(map[Key.Windows := Arr([win])]);
    assert Null in At(win, Key.Tabs).items;
    NullTabThrows(win);
    WorkspaceThrows(c, j, 0);
    var tab' := Obj(map[Key.Kind := Str("terminal"), Key.NoteState := Null]);
    NullTabMigrates(tab');
    PlainReads(c, Migrate(j).value, Obj(map[Key.Tabs := Arr([tab'])]), tab');
  }

  lemma {:induction false} HeaderOfWindows(windows: seq<Json>)
    ensures MigrateHeader(Obj(map[Key.Windows := Arr(windows)])) == Ok(Obj(map[
              Key.Windows := Arr(windows), Key.SchemaVersion := Int(1), Key.Generation := Int(0),
                Key.Ui := Obj(map[])]))
  {
    var j := Obj(map[Key.Windows := Arr(windows)]);
    assert j.fields[Key.SchemaVersion := Int(1)][Key.Generation := Int(0)][Key.Ui := Obj(map[])]
        == map[
          Key.Windows := Arr(windows), Key.SchemaVersion := Int(1), Key.Generation := Int(0), Key.Ui := Obj(map[])];
  }

  lemma {:induction false} NullTabMigrates(tab: Json)
    requires tab == Obj(map[Key.Kind := Str("terminal"), Key.NoteState := Null])
    ensures var win, win' := Obj(map[Key.Tabs := Arr([Null])]), Obj(map[Key.Tabs := Arr([tab])]);
            Migrate(Obj(map[Key.Windows := Arr([win])])) == Ok(Obj(map[
              Key.Windows := Arr([win']), Key.SchemaVersion := Int(1), Key.Generation := Int(0), Key.Ui := Obj(map[])]))
  {
    var win, win' := Obj(map[Key.Tabs := Arr([Null])]), Obj(map[Key.Tabs := Arr([tab])]);
    var j := Obj(map[Key.Windows := Arr([win])]);
    hide MigrateWindow, MigrateTab, MigrateHeader;
    NullTabWindow(tab);
    ReadEachIs([win], MigrateWindow, [win']);
    var h := map[Key.Windows := Arr([win]), Key.SchemaVersion := Int(1), Key.Generation := Int(0),
      Key.Ui := Obj(map[])];
    HeaderOfWindows([win]);
    assert h[Key.Windows := Arr([win'])]
        == map[Key.Windows := Arr([win']), Key.SchemaVersion := Int(1), Key.Generation := Int(0), Key.Ui := Obj(map[])];
  }

  lemma {:induction false} NullTabWindow(tab: Json)
    requires tab == Obj(map[Key.Kind := Str("terminal"), Key.NoteState := Null])
    ensures MigrateWindow(Obj(map[Key.Tabs := Arr([Null])])) == Ok(Obj(map[Key.Tabs := Arr([tab])]))
  {
    var win := Obj(map[Key.Tabs := Arr([Null])]);
    assert MigrateTab(Null) == Ok(tab);
    ReadEachIs([Null], MigrateTab, [tab]);
    assert win.fields[Key.Tabs := Arr([tab])] == map[Key.Tabs := Arr([tab])];
  }

  lemma {:induction false} PlainReads(c: Calendar, j: Json, win: Json, tab: Json)
    requires tab == Obj(map[Key.Kind := Str("terminal"), Key.NoteState := Null])
             && win == Obj(map[Key.Tabs := Arr([tab])])
    requires j == Obj(map[Key.Windows := Arr([win]), Key.SchemaVersion := Int(1), Key.Generation := Int(0),
              Key.Ui := Obj(map[])])
    ensures ReadWorkspace(c, j).Ok?
  {
    hide FromIso, ReadWindow;
    PlainWindowReads(win, tab);
    ReadEachIs([win], ReadWindow, [ReadWindow(win).value]);
    assert ReadUi(Obj(map[])).Ok?;
  }

  lemma {:induction false} PlainWindowReads(win: Json, tab: Json)
    requires tab == Obj(map[Key.Kind := Str("terminal"), Key.NoteState := Null])
             && win == Obj(map[Key.Tabs := Arr([tab])])
    ensures ReadWindow(win).Ok?
  {
    hide ReadTab;
    PlainTabReads(tab);
    ReadEachIs([tab], ReadTab, [ReadTab(tab).value]);
  }

  lemma {:induction false} PlainTabReads(tab: Json)
    requires tab == Obj(map[Key.Kind := Str("terminal"), Key.NoteState := Null])
    ensures ReadTab(tab).Ok?
  {
  }

  // ---- migrating twice ----------------------------------------------------------------------------

  lemma {:induction false} TabTwice(tab: Json)
    requires MigrateTab(tab).Ok?
    ensures MigrateTab(MigrateTab(tab).value) == MigrateTab(tab)
  {
    var tab' := MigrateTab(tab).value;
    if Contains(tab', Key.PaneTree) {
      var tree' := At(tab', Key.PaneTree);
      TreeTwice(tree', if Contains(tab, Key.PaneTree) then At(tab, Key.PaneTree) else tree');
      assert tab'.fields[Key.PaneTree := tree'] == tab'.fields;
    }
  }

  lemma {:induction false} TreeTwice(tree': Json, tree: Json)
    requires tree' == MigrateTree(tree) || tree' == tree
    ensures tree' == MigrateTree(tree) ==> MigrateTree(tree') == tree'
  {
    if tree' == MigrateTree(tree) && Contains(tree, Key.Pane) && Contains(At(tree, Key.Pane), Key.State) {
      var pane' := At(tree', Key.Pane);
      var st' := At(pane', Key.State);
      assert MigrateState(st') == st';
      assert pane'.fields[Key.State := st'] == pane'.fields;
      assert tree'.fields[Key.Pane := pane'] == tree'.fields;
    }
  }

  lemma {:induction false} EachTwice(j: Json, migrate: Json -> Result<Json>)
    requires Each(j, migrate).Ok?
    requires forall x | migrate(x).Ok? :: migrate(migrate(x).value) == migrate(x)
    requires forall x | migrate(x).Ok? && !x.Null? :: x.Obj? || migrate(x).value == x
    ensures Each(Each(j, migrate).value, migrate) == Each(j, migrate)
  {
    if j.Arr? {
      ReadEachGives(j.items, migrate);
      var items' := Each(j, migrate).value.items;
      ReadEachIs(items', migrate, items');
    } else if j.Obj? {
      var fields' := Each(j, migrate).value.fields;
      forall k | k in fields' ensures migrate(fields'[k]) == Ok(fields'[k]) {
        assert fields'[k] == migrate(j.fields[k]).value;
      }
      assert (map k | k in fields' :: migrate(fields'[k]).value) == fields';
    }
  }

  lemma {:induction false} WindowTwice(win: Json)
    requires MigrateWindow(win).Ok?
    ensures MigrateWindow(MigrateWindow(win).value) == MigrateWindow(win)
  {
    hide MigrateTab, Each;
    if Contains(win, Key.Tabs) {
      forall x | MigrateTab(x).Ok? ensures MigrateTab(MigrateTab(x).value) == MigrateTab(x) { TabTwice(x); }
      forall x | MigrateTab(x).Ok? && !x.Null? ensures x.Obj? { TabIsObject(x); }
      EachTwice(At(win, Key.Tabs), MigrateTab);
      var win' := MigrateWindow(win).value;
      assert win'.fields[Key.Tabs := At(win', Key.Tabs)] == win'.fields;
    }
  }

  lemma {:induction false} TabIsObject(tab: Json)
    requires MigrateTab(tab).Ok? && !tab.Null?
    ensures tab.Obj?
  {
  }

  lemma {:induction false} NonObjectStays(win: Json)
    ensures !win.Obj? ==> MigrateWindow(win) == Ok(win)
  {
  }

  lemma {:induction false} HeaderTwice(j: Json, windows: Json)
    requires MigrateHeader(j).Ok?
    ensures var j' := MigrateHeader(j).value;
            j'.Obj? && MigrateHeader(j') == Ok(j')
            && (Contains(j', Key.Windows) ==>
              MigrateHeader(Set(j', Key.Windows, windows)) == Ok(Set(j', Key.Windows, windows)))
  {
    var j' := MigrateHeader(j).value;
    HeaderKept(j');
    HeaderKept(Set(j', Key.Windows, windows));
  }

  lemma {:induction false} HeaderKept(j: Json)
    requires Contains(j, Key.SchemaVersion) && Contains(j, Key.Generation) && Contains(j, Key.Ui)
    requires At(j, Key.SchemaVersion).Int? && ToI32(At(j, Key.SchemaVersion).i) == At(j, Key.SchemaVersion).i
    requires At(j, Key.Generation).Int? && ToU32(At(j, Key.Generation).i) == At(j, Key.Generation).i
    ensures MigrateHeader(j) == Ok(j)
  {
    assert j.fields[Key.SchemaVersion := At(j, Key.SchemaVersion)] == j.fields;
    assert j.fields[Key.Generation := At(j, Key.Generation)] == j.fields;
  }

  /** Migrating again changes nothing. */
  lemma {:induction false} MigrateTwice(j: Json)
    requires Migrate(j).Ok?
    ensures Migrate(Migrate(j).value) == Migrate(j)
  {
    hide MigrateHeader, MigrateWindow, Each;
    var h, j' := MigrateHeader(j).value, Migrate(j).value;
    if Contains(h, Key.Windows) {
      var windows := At(h, Key.Windows);
      HeaderTwice(j, At(j', Key.Windows));
      forall x | MigrateWindow(x).Ok? ensures MigrateWindow(MigrateWindow(x).value) == MigrateWindow(x) {
        WindowTwice(x);
      }
      forall x | MigrateWindow(x).Ok? && !x.Null? ensures x.Obj? || MigrateWindow(x).value == x {
        NonObjectStays(x);
      }
      EachTwice(windows, MigrateWindow);
      assert j'.fields[Key.Windows := At(j', Key.Windows)] == j'.fields;
    } else {
      HeaderTwice(j, Null);
    }
  }

  // ---- what migrating achieves --------------------------------------------------------------------

  /** A tab in today's form. */
  predicate TabIsCurrent(tab: Json) {
    && Contains(tab, Key.Kind) && Contains(tab, Key.NoteState)
    && (Contains(tab, Key.PaneTree) ==> TreeIsCurrent(At(tab, Key.PaneTree)))
  }

  /** The pane at the root does not hold a bare command as its interrupted command. */
  predicate TreeIsCurrent(tree: Json) {
    Contains(tree, Key.Pane) && Contains(At(tree, Key.Pane), Key.State)
    && Contains(At(At(tree, Key.Pane), Key.State), Key.InterruptedCommand)
    ==> !At(At(At(tree, Key.Pane), Key.State), Key.InterruptedCommand).Str?
  }

  /** A workspace in today's form: nothing in it is left to defaults that older versions did not know. */
  predicate IsCurrent(j: Json) {
    && Contains(j, Key.SchemaVersion) && Contains(j, Key.Generation) && Contains(j, Key.Ui)
    && (Contains(j, Key.Windows) && At(j, Key.Windows).Arr? ==>
          forall i :: 0 <= i < |At(j, Key.Windows).items| ==> WindowIsCurrent(At(j, Key.Windows).items[i]))
  }

  predicate WindowIsCurrent(win: Json) {
    Contains(win, Key.Tabs) && At(win, Key.Tabs).Arr? ==>
      forall i :: 0 <= i < |At(win, Key.Tabs).items| ==> TabIsCurrent(At(win, Key.Tabs).items[i])
  }

  lemma {:induction false} WindowBecomesCurrent(win: Json)
    requires MigrateWindow(win).Ok?
    ensures WindowIsCurrent(MigrateWindow(win).value)
  {
    hide MigrateTab, TabIsCurrent;
    var win' := MigrateWindow(win).value;
    if Contains(win, Key.Tabs) && At(win, Key.Tabs).Arr? {
      var items := At(win, Key.Tabs).items;
      ReadEachGives(items, MigrateTab);
      forall i | 0 <= i < |items| ensures TabIsCurrent(At(win', Key.Tabs).items[i]) { TabBecomesCurrent(items[i]); }
    } else if Contains(win, Key.Tabs) && !At(win, Key.Tabs).Null? && !At(win, Key.Tabs).Obj? {
      TabIsObject(At(win, Key.Tabs));
    }
  }

  lemma {:induction false} TabBecomesCurrent(tab: Json)
    requires MigrateTab(tab).Ok?
    ensures TabIsCurrent(MigrateTab(tab).value)
  {
  }

  /** Migrating brings a workspace into today's form. */
  lemma {:induction false} MigratedIsCurrent(j: Json)
    requires Migrate(j).Ok?
    ensures IsCurrent(Migrate(j).value)
  {
    hide MigrateWindow, WindowIsCurrent;
    if Contains(j, Key.Windows) && At(j, Key.Windows).Arr? {
      var items := At(j, Key.Windows).items;
      assert At(MigrateHeader(j).value, Key.Windows) == At(j, Key.Windows);
      ReadEachGives(items, MigrateWindow);
      var items' := At(Migrate(j).value, Key.Windows).items;
      forall i | 0 <= i < |items'| ensures WindowIsCurrent(items'[i]) { WindowBecomesCurrent(items[i]); }
    } else if Contains(j, Key.Windows) && !At(j, Key.Windows).Obj? && !At(j, Key.Windows).Null? {
      NonObjectStays(At(j, Key.Windows));
    }
  }

  // ---- what migrating leaves alone ----------------------------------------------------------------

  /** All members but the given ones are as before. */
  ghost predicate KeepsBut(j: Json, j': Json, changed: set<Key>) {
    j.Obj? && j'.Obj? && forall k :: k !in changed ==>
      (Contains(j', k) <==> Contains(j, k)) && (Contains(j, k) && Contains(j', k) ==> At(j', k) == At(j, k))
  }

  /** A pane's state keeps everything but a bare interrupted command, which becomes an object with its text. */
  lemma {:induction false} StateKeepsMembers(st: Json)
    requires st.Obj?
    ensures KeepsBut(st, MigrateState(st), {Key.InterruptedCommand})
    ensures Contains(MigrateState(st), Key.InterruptedCommand) <==> Contains(st, Key.InterruptedCommand)
    ensures Contains(st, Key.InterruptedCommand) ==>
              var before, after := At(st, Key.InterruptedCommand), At(MigrateState(st), Key.InterruptedCommand);
              && (!before.Str? ==> after == before)
              && (before.Str? ==> after == Obj(map[
                    Key.Command := before, Key.TimestampUs := Int(0), Key.Source := Str("unknown")]))
  {
  }

  /** A tab keeps everything but what was missing, and the state of a pane at the root of its tree. */
  lemma {:induction false} TabKeepsMembers(tab: Json)
    ensures MigrateTab(tab).Ok? <==> tab.Null? || tab.Obj?
    ensures tab.Obj? ==>
              var t := MigrateTab(tab).value;
              && KeepsBut(tab, t, {Key.Kind, Key.NoteState, Key.PaneTree})
              && Contains(t, Key.Kind) && Contains(t, Key.NoteState)
              && At(t, Key.Kind) == (if Contains(tab, Key.Kind) then At(tab, Key.Kind) else Str("terminal"))
              && At(t, Key.NoteState) == (if Contains(tab, Key.NoteState) then At(tab, Key.NoteState) else Null)
              && (Contains(t, Key.PaneTree) <==> Contains(tab, Key.PaneTree))
              && (Contains(tab, Key.PaneTree) ==> TreeKept(At(tab, Key.PaneTree), At(t, Key.PaneTree)))
  {
    hide MigrateTree, TreeKept;
    if Contains(tab, Key.PaneTree) { TreeKeepsMembers(At(tab, Key.PaneTree)); }
  }

  /** Only a pane at the root changes, and of that only its state. */
  ghost predicate TreeKept(tree: Json, tree': Json) {
    if Contains(tree, Key.Pane) && Contains(At(tree, Key.Pane), Key.State) then
      && KeepsBut(tree, tree', {Key.Pane}) && Contains(tree', Key.Pane)
      && KeepsBut(At(tree, Key.Pane), At(tree', Key.Pane), {Key.State}) && Contains(At(tree', Key.Pane), Key.State)
      && At(At(tree', Key.Pane), Key.State) == MigrateState(At(At(tree, Key.Pane), Key.State))
    else tree' == tree
  }

  lemma {:induction false} TreeKeepsMembers(tree: Json)
    ensures TreeKept(tree, MigrateTree(tree))
  {
    hide MigrateState;
  }

  lemma {:induction false} EachItem(items: seq<Json>, migrate: Json -> Result<Json>)
    ensures Each(Arr(items), migrate).Ok? <==> forall i :: 0 <= i < |items| ==> migrate(items[i]).Ok?
    ensures Each(Arr(items), migrate).Ok? ==>
              var r := Each(Arr(items), migrate).value;
              r.Arr? && |r.items| == |items| && forall i :: 0 <= i < |items| ==> migrate(items[i]) == Ok(r.items[i])
  {
    if ReadEach(items, migrate).Ok? {
      ReadEachGives(items, migrate);
    } else {
      ReadEachThrows(items, migrate);
    }
  }

  lemma {:induction false} ReadEachThrows<T>(items: seq<Json>, read: Json -> Result<T>)
    requires ReadEach(items, read).Throws?
    ensures exists i :: 0 <= i < |items| && read(items[i]).Throws?
  {
    if read(items[0]).Ok? {
      ReadEachThrows(items[1..], read);
      var i :| 0 <= i < |items| - 1 && read(items[1..][i]).Throws?;
      assert items[i + 1] == items[1..][i];
    }
  }

  /** A list of tabs migrates exactly when each of them is an object or null, tab by tab. */
  lemma {:induction false} WindowKeepsMembers(win: Json)
    requires Contains(win, Key.Tabs) && At(win, Key.Tabs).Arr?
    ensures var tabs := At(win, Key.Tabs).items;
            && (MigrateWindow(win).Ok? <==> forall i :: 0 <= i < |tabs| ==> tabs[i].Null? || tabs[i].Obj?)
            && (MigrateWindow(win).Ok? ==>
                  var w := MigrateWindow(win).value;
                  && KeepsBut(win, w, {Key.Tabs}) && Contains(w, Key.Tabs) && At(w, Key.Tabs).Arr?
                  && |At(w, Key.Tabs).items| == |tabs|
                  && forall i :: 0 <= i < |tabs| ==> MigrateTab(tabs[i]) == Ok(At(w, Key.Tabs).items[i]))
  {
    hide MigrateTab, Each;
    var tabs := At(win, Key.Tabs).items;
    EachItem(tabs, MigrateTab);
    forall i | 0 <= i < |tabs| ensures MigrateTab(tabs[i]).Ok? <==> tabs[i].Null? || tabs[i].Obj? {
      TabKeepsMembers(tabs[i]);
    }
  }

  predicate IsNumber(j: Json) { j.Int? || j.Real? || j.Bool? }

  /** An object in which version and generation are numbers, if they are there. */
  predicate HasHeader(j: Json) {
    && j.Obj?
    && (Contains(j, Key.SchemaVersion) ==> IsNumber(At(j, Key.SchemaVersion)))
    && (Contains(j, Key.Generation) ==> IsNumber(At(j, Key.Generation)))
  }

  /** A workspace migrates exactly when it is an object, its version and generation are numbers if they are
      there, and its windows migrate; all other members, and a state of the user interface, are kept. */
  lemma {:induction false} WorkspaceKeepsMembers(j: Json)
    ensures MigrateHeader(j).Ok? <==> HasHeader(j)
    ensures MigrateHeader(j).Ok? ==>
              var h := MigrateHeader(j).value;
              && KeepsBut(j, h, {Key.SchemaVersion, Key.Generation, Key.Ui}) && Contains(h, Key.Ui)
              && At(h, Key.Ui) == (if Contains(j, Key.Ui) then At(j, Key.Ui) else Obj(map[]))
    ensures MigrateHeader(j).Ok? && Contains(j, Key.Windows) && At(j, Key.Windows).Arr? ==>
              var windows := At(j, Key.Windows).items;
              && (Migrate(j).Ok? <==> forall i :: 0 <= i < |windows| ==> MigrateWindow(windows[i]).Ok?)
              && (Migrate(j).Ok? ==>
                    && KeepsBut(MigrateHeader(j).value, Migrate(j).value, {Key.Windows})
                    && Contains(Migrate(j).value, Key.Windows) && At(Migrate(j).value, Key.Windows).Arr?
                    && |At(Migrate(j).value, Key.Windows).items| == |windows|
                    && forall i :: 0 <= i < |windows| ==>
                         MigrateWindow(windows[i]) == Ok(At(Migrate(j).value, Key.Windows).items[i]))
    ensures !Contains(j, Key.Windows) ==> Migrate(j) == MigrateHeader(j)
  {
    hide MigrateWindow, Each;
    if Contains(j, Key.Windows) && At(j, Key.Windows).Arr? { EachItem(At(j, Key.Windows).items, MigrateWindow); }
  }
}
