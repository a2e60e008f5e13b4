/** The workspace core: the object through which every frontend changes the open workspace. Each
    method is proved to do what the state machine of module WorkspaceSpec does. */
module WorkspaceCore {
  import opened Options
  import opened Integers
  import opened PaneTree
  import opened WorkspaceModel
  import opened WorkspaceSpec

  class WorkspaceCore {
    var current: Option<Workspace>
    var dirty: bool

    ghost function State(): Core
      reads this
    {
      Core(current, dirty)
    }

    constructor ()
      ensures State() == Core(None, false)
    {
      current, dirty := None, false;
    }

    // ---- helpers --------------------------------------------------------------------------------

    method Store(windows: seq<Window>)
      requires current.Some?
      modifies this
      ensures State() == Core(Some(old(current).value.(windows := windows)), true)
    {
      current := Some(current.value.(windows := windows));
      dirty := true;
    }

    method IndexOfWindow(id: WindowId) returns (r: Option<nat>)
      requires current.Some?
      ensures r == WindowIndex(current.value.windows, id, 0)
    {
      var wins := current.value.windows;
      for i := 0 to |wins|
        invariant WindowIndex(wins, id, 0) == WindowIndex(wins, id, i)
      {
        if wins[i].id == id {
          return Some(i);
        }
      }
      return None;
    }

    method LocateTab(tab: TabId) returns (r: Option<Place>)
      requires current.Some?
      ensures r == Locate(current.value.windows, tab, 0)
    {
      var wins := current.value.windows;
      for i := 0 to |wins|
        invariant Locate(wins, tab, 0) == Locate(wins, tab, i)
      {
        var tabs := wins[i].tabs;
        for j := 0 to |tabs|
          invariant TabIndex(tabs, tab, 0) == TabIndex(tabs, tab, j)
        {
          if tabs[j].id == tab {
            return Some(Place(i, j));
          }
        }
      }
      return None;
    }

    /** Overwrite the tree of a tab and the pane focus of its window. */
    method StoreTree(p: Place, tree: Tree, focusPane: Option<PaneId>)
      requires current.Some? && IsPlace(current.value.windows, p)
      modifies this
      ensures var wins := old(current).value.windows;
              var w := wins[p.w];
              State() == Core(Some(old(current).value.(windows :=
                wins[p.w := w.(tabs := w.tabs[p.t := w.tabs[p.t].(tree := tree)], focusPane := focusPane)])), true)
    {
      var wins := current.value.windows;
      var w := wins[p.w];
      Store(wins[p.w := w.(tabs := w.tabs[p.t := w.tabs[p.t].(tree := tree)], focusPane := focusPane)]);
    }

    // ---- windows --------------------------------------------------------------------------------

    method AddWindow(title: string, newWindow: WindowId, now: i64) returns (r: Reply)
      modifies this
      ensures Apply(old(State()), Op.AddWindow(newWindow, title, now)) == (State(), r)
    {
      if current.None? {
        return Fault;
      }
      var win := Window(newWindow, if title == "" then "window" else title, 0, 0, 0, 0, now, now, [], None, None);
      Store(current.value.windows + [win]);
      current := Some(current.value.(focusWindow := Some(newWindow)));
      return Yes;
    }

    method RemoveWindow(id: WindowId) returns (r: Reply)
      modifies this
      ensures Apply(old(State()), Op.RemoveWindow(id)) == (State(), r)
    {
      if current.None? {
        return No;
      }
      Store(WithoutWindow(current.value.windows, id));
      if current.value.focusWindow == Some(id) {
        current := Some(current.value.(focusWindow := None));
      }
      return Yes;
    }

    method RenameWindow(id: WindowId, title: string) returns (r: Reply)
      modifies this
      ensures Apply(old(State()), Op.RenameWindow(id, title)) == (State(), r)
    {
      if current.None? {
        return No;
      }
      var i := IndexOfWindow(id);
      if i.None? {
        return No;
      }
      var wins := current.value.windows;
      Store(wins[i.value := wins[i.value].(name := title)]);
      return Yes;
    }

    method FocusWindow(id: WindowId) returns (r: Reply)
      modifies this
      ensures Apply(old(State()), Op.FocusWindow(id)) == (State(), r)
    {
      if current.None? {
        return No;
      }
      var i := IndexOfWindow(id);
      if i.None? {
        return No;
      }
      current := Some(current.value.(focusWindow := Some(id)));
      dirty := true;
      return Yes;
    }

    // ---- tabs -----------------------------------------------------------------------------------

    method AddTab(window: WindowId, title: string, initial: Tree, newTab: TabId) returns (r: Reply)
      modifies this
      ensures Apply(old(State()), Op.AddTab(window, newTab, title, initial)) == (State(), r)
    {
      if current.None? {
        return Fault;
      }
      var i := IndexOfWindow(window);
      if i.None? {
        return Fault;
      }
      var tab := Tab(newTab, if title == "" then "tab" else title, Terminal, None, initial);
      var wins := current.value.windows;
      var w := wins[i.value];
      Store(wins[i.value := w.(tabs := w.tabs + [tab], focusTab := Some(newTab))]);
      return Yes;
    }

    method AddNoteTab(window: WindowId, title: string, note: NoteTabState, newTab: TabId) returns (r: Reply)
      modifies this
      ensures Apply(old(State()), Op.AddNoteTab(window, newTab, title, note)) == (State(), r)
    {
      if current.None? {
        return Fault;
      }
      var i := IndexOfWindow(window);
      if i.None? {
        return Fault;
      }
      var tab := Tab(newTab, if title == "" then "note" else title, Note, Some(note), Empty);
      var wins := current.value.windows;
      var w := wins[i.value];
      Store(wins[i.value := w.(tabs := w.tabs + [tab], focusTab := Some(newTab))]);
      return Yes;
    }

    method SetTabNoteState(window: WindowId, tab: TabId, note: NoteTabState) returns (r: Reply)
      modifies this
      ensures Apply(old(State()), Op.SetTabNoteState(window, tab, note)) == (State(), r)
    {
      if current.None? {
        return No;
      }
      var wins := current.value.windows;
      for i := 0 to |wins|
        invariant State() == old(State())
        invariant LocateIn(wins, window, tab, 0) == LocateIn(wins, window, tab, i)
      {
        if wins[i].id != window {
          continue;
        }
        var tabs := wins[i].tabs;
        for j := 0 to |tabs|
          invariant State() == old(State())
          invariant TabIndex(tabs, tab, 0) == TabIndex(tabs, tab, j)
        {
          if tabs[j].id != tab {
            continue;
          }
          if tabs[j].kind != Note {
            return No;
          }
          Store(SetTab(wins, Place(i, j), tabs[j].(note := Some(note))));
          return Yes;
        }
      }
      return No;
    }

    method RemoveTab(window: WindowId, tab: TabId) returns (r: Reply)
      modifies this
      ensures Apply(old(State()), Op.RemoveTab(window, tab)) == (State(), r)
    {
      if current.None? {
        return No;
      }
      var i := IndexOfWindow(window);
      if i.None? {
        return No;
      }
      var wins := current.value.windows;
      var w := wins[i.value].(tabs := WithoutTab(wins[i.value].tabs, tab));
      if w.focusTab == Some(tab) {
        w := w.(focusTab := None);
      }
      Store(wins[i.value := w]);
      return Yes;
    }

    method FocusTab(window: WindowId, tab: TabId) returns (r: Reply)
      modifies this
      ensures Apply(old(State()), Op.FocusTab(window, tab)) == (State(), r)
    {
      if current.None? {
        return No;
      }
      var i := IndexOfWindow(window);
      if i.None? {
        return No;
      }
      var wins := current.value.windows;
      Store(wins[i.value := wins[i.value].(focusTab := Some(tab))]);
      return Yes;
    }

    // ---- panes ----------------------------------------------------------------------------------

    method SplitPane(tab: TabId, kind: SplitKind, ratio: real, newPane: PaneId) returns (r: Reply)
      modifies this
      ensures Apply(old(State()), Op.SplitPane(tab, kind, ratio, newPane)) == (State(), r)
    {
      if current.None? {
        return Fault;
      }
      var p := LocateTab(tab);
      if p.None? {
        return Fault;
      }
      var w := current.value.windows[p.value.w];
      var tree := w.tabs[p.value.t].tree;
      var pane := Pane(newPane, BLANK_STATE);
      if tree.Leaf? {
        tree := Split(kind, ratio, tree, Leaf(pane));
      } else {
        var focus := Find(tree, if w.focusPane.Some? then w.focusPane.value else "");
        if focus.None? {
          focus := Find(tree, "");
        }
        if focus.Some? {
          tree := SplitAt(tree, focus.value.id, kind, ratio, pane);
        }
      }
      StoreTree(p.value, tree, Some(newPane));
      return Yes;
    }

    method RemovePane(tab: TabId, pane: PaneId) returns (r: Reply)
      modifies this
      ensures Apply(old(State()), Op.RemovePane(tab, pane)) == (State(), r)
    {
      if current.None? {
        return No;
      }
      var p := LocateTab(tab);
      if p.None? {
        return No;
      }
      var w := current.value.windows[p.value.w];
      var tree := w.tabs[p.value.t].tree;
      if !Has(tree, pane) {
        return No;
      }
      StoreTree(p.value, Remove(tree, pane), if w.focusPane == Some(pane) then None else w.focusPane);
      return Yes;
    }

    method FocusPane(tab: TabId, pane: PaneId) returns (r: Reply)
      modifies this
      ensures Apply(old(State()), Op.FocusPane(tab, pane)) == (State(), r)
    {
      if current.None? {
        return No;
      }
      var wins := current.value.windows;
      for i := 0 to |wins|
        invariant State() == old(State())
        invariant FocusIndex(wins, tab, pane, 0) == FocusIndex(wins, tab, pane, i)
      {
        if wins[i].focusTab != Some(tab) {
          continue;
        }
        var tabs := wins[i].tabs;
        for j := 0 to |tabs|
          invariant State() == old(State())
          invariant forall k :: 0 <= k < j ==> !(tabs[k].id == tab && Has(tabs[k].tree, pane))
        {
          if tabs[j].id == tab && Has(tabs[j].tree, pane) {
            Store(wins[i := wins[i].(focusPane := Some(pane))]);
            return Yes;
          }
        }
      }
      return No;
    }

    method SetPaneRatio(tab: TabId, pane: PaneId, ratio: real) returns (r: Reply)
      modifies this
      ensures Apply(old(State()), Op.SetPaneRatio(tab, pane, ratio)) == (State(), r)
    {
      if current.None? {
        return No;
      }
      var p := LocateTab(tab);
      if p.None? {
        return No;
      }
      if ratio < 0.0 || ratio > 1.0 {
        return No;
      }
      var w := current.value.windows[p.value.w];
      var tree := w.tabs[p.value.t].tree;
      if !HasParent(tree, pane) {
        return No;
      }
      StoreTree(p.value, SetRatio(tree, pane, ratio), w.focusPane);
      return Yes;
    }

    // ---- command history ------------------------------------------------------------------------

    method AddCommand(tab: TabId, pane: PaneId, record: CommandRecord) returns (r: Reply)
      modifies this
      ensures Apply(old(State()), Op.AddCommand(tab, pane, record)) == (State(), r)
    {
      if current.None? || record.command == "" {
        return No;
      }
      var p := LocateTab(tab);
      if p.None? {
        return No;
      }
      var w := current.value.windows[p.value.w];
      var tree := w.tabs[p.value.t].tree;
      var node := Find(tree, pane);
      if node.None? {
        return No;
      }
      var hist := node.value.state.history;
      if hist != [] && hist[|hist| - 1].command == record.command {
        return Yes;
      }
      hist := hist + [record];
      if |hist| > MAX_HISTORY {
        var drop := |hist| - MAX_HISTORY;
        hist := hist[drop..];
      }
      StoreTree(p.value, WithState(tree, pane, node.value.state.(history := hist)), w.focusPane);
      return Yes;
    }

    method SetPinned(tab: TabId, pane: PaneId, command: string, pinned: bool) returns (r: Reply)
      modifies this
      ensures Apply(old(State()), Op.SetPinned(tab, pane, command, pinned)) == (State(), r)
    {
      if current.None? || command == "" {
        return No;
      }
      var p := LocateTab(tab);
      if p.None? {
        return No;
      }
      var w := current.value.windows[p.value.w];
      var tree := w.tabs[p.value.t].tree;
      var node := Find(tree, pane);
      if node.None? {
        return No;
      }
      var hist := PinNewest(node.value.state.history, command, pinned);
      if hist.None? {
        return No;
      }
      StoreTree(p.value, WithState(tree, pane, node.value.state.(history := hist.value)), w.focusPane);
      return Yes;
    }

    method ClearHistory() returns (r: Reply)
      modifies this
      ensures Apply(old(State()), Op.ClearHistory) == (State(), r)
    {
      if current.None? {
        return No;
      }
      var wins := current.value.windows;
      var cleared: seq<Window> := [];
      for i := 0 to |wins|
        invariant |cleared| == i && forall k :: 0 <= k < i ==> cleared[k] == ClearWindows(wins)[k]
      {
        var tabs: seq<Tab> := [];
        for j := 0 to |wins[i].tabs|
          invariant |tabs| == j && forall k :: 0 <= k < j ==> tabs[k] == ClearTabs(wins[i].tabs)[k]
        {
          tabs := tabs + [wins[i].tabs[j].(tree := ClearTree(wins[i].tabs[j].tree))];
        }
        assert tabs == ClearTabs(wins[i].tabs);
        cleared := cleared + [wins[i].(tabs := tabs)];
      }
      assert cleared == ClearWindows(wins);
      Store(cleared);
      return Yes;
    }

    method ApplyRuntime(tab: TabId, pane: PaneId, snap: RuntimeSnapshot) returns (r: Reply)
      modifies this
      ensures Apply(old(State()), Op.ApplyRuntime(tab, pane, snap)) == (State(), r)
    {
      if current.None? {
        return No;
      }
      var p := LocateTab(tab);
      if p.None? {
        return No;
      }
      var w := current.value.windows[p.value.w];
      var tree := w.tabs[p.value.t].tree;
      var node := Find(tree, pane);
      if node.None? {
        return No;
      }
      var st := node.value.state.(cwd := snap.cwd, shell := snap.shell, cols := snap.cols, rows := snap.rows,
                                  snapshot := snap.snapshot, interrupted := snap.interrupted);
      if snap.history != [] {
        st := st.(history := snap.history);
      }
      StoreTree(p.value, WithState(tree, pane, st), w.focusPane);
      return Yes;
    }
  }

  /** Search from the newest record for the command and set its pin. */
  method PinNewest(hist: seq<CommandRecord>, command: string, pinned: bool) returns (r: Option<seq<CommandRecord>>)
    ensures r == Pin(hist, command, pinned)
  {
    var i := |hist|;
    assert hist[..i] == hist && hist[i..] == [];
    assert forall h: seq<CommandRecord> :: h + [] == h;
    while i > 0
      invariant 0 <= i <= |hist|
      invariant Pin(hist, command, pinned) == PinnedBefore(hist, i, command, pinned)
    {
      i := i - 1;
      ghost var rest := Pin(hist[..i], command, pinned);
      assert hist[..i + 1][..i] == hist[..i];
      if hist[i].command == command {
        assert hist[i := hist[i].(pinned := pinned)] == hist[..i + 1][i := hist[i].(pinned := pinned)] + hist[i + 1..];
        return Some(hist[i := hist[i].(pinned := pinned)]);
      }
      assert rest.Some? ==> (rest.value + [hist[i]]) + hist[i + 1..] == rest.value + hist[i..];
    }
    return None;
  }

  /** The pin lands before index `i`, if anywhere. */
  ghost function PinnedBefore(hist: seq<CommandRecord>, i: nat, command: string,
                              pinned: bool): Option<seq<CommandRecord>>
    requires i <= |hist|
  {
    var rest := Pin(hist[..i], command, pinned);
    if rest.None? then None else Some(rest.value + hist[i..])
  }
}
