/** Which operations of the workspace core are accepted and what they change, told by what can be observed
    before and after. */
module WorkspaceSteps {
  import opened Options
  import opened PaneTree
  import opened WorkspaceModel
  import opened WorkspaceSpec
  import opened Sums

  // ---- the addressed window and tab ---------------------------------------------------------------

  ghost predicate FirstWindow(ws: seq<Window>, id: WindowId, i: int) {
    0 <= i < |ws| && ws[i].id == id && forall k :: 0 <= k < i ==> ws[k].id != id
  }

  /** The first tab with this id, in window and tab order. */
  ghost predicate FirstTab(ws: seq<Window>, tab: TabId, p: Place) {
    && IsPlace(ws, p) && TabAt(ws, p).id == tab
    && (forall j :: 0 <= j < p.t ==> ws[p.w].tabs[j].id != tab)
    && (forall i, j :: 0 <= i < p.w && 0 <= j < |ws[i].tabs| ==> ws[i].tabs[j].id != tab)
  }

  /** The same, over the windows with this id only. */
  ghost predicate FirstTabIn(ws: seq<Window>, window: WindowId, tab: TabId, p: Place) {
    && IsPlace(ws, p) && ws[p.w].id == window && TabAt(ws, p).id == tab
    && (forall j :: 0 <= j < p.t ==> ws[p.w].tabs[j].id != tab)
    && (forall i, j :: 0 <= i < p.w && ws[i].id == window && 0 <= j < |ws[i].tabs| ==> ws[i].tabs[j].id != tab)
  }

  ghost predicate ShowsIn(w: Window, tab: TabId, pane: PaneId) {
    w.focusTab == Some(tab) && exists j :: 0 <= j < |w.tabs| && w.tabs[j].id == tab && Has(w.tabs[j].tree, pane)
  }

  /** The first window in which the tab is focused and holds the pane. */
  ghost predicate FirstShowing(ws: seq<Window>, tab: TabId, pane: PaneId, i: int) {
    0 <= i < |ws| && ShowsIn(ws[i], tab, pane) && forall k :: 0 <= k < i ==> !ShowsIn(ws[k], tab, pane)
  }

  lemma {:induction false} WindowIndexIsFirst(ws: seq<Window>, id: WindowId, from: nat)
    requires from <= |ws| && forall k :: 0 <= k < from ==> ws[k].id != id
    ensures match WindowIndex(ws, id, from)
            case Some(i) => FirstWindow(ws, id, i)
            case None => forall k :: 0 <= k < |ws| ==> ws[k].id != id
    decreases |ws| - from
  {
    if from < |ws| && ws[from].id != id { WindowIndexIsFirst(ws, id, from + 1); }
  }

  lemma {:induction false} TabIndexIsFirst(tabs: seq<Tab>, id: TabId, from: nat)
    requires from <= |tabs| && forall k :: 0 <= k < from ==> tabs[k].id != id
    ensures match TabIndex(tabs, id, from)
            case Some(j) => forall k :: 0 <= k < j ==> tabs[k].id != id
            case None => forall k :: 0 <= k < |tabs| ==> tabs[k].id != id
    decreases |tabs| - from
  {
    if from < |tabs| && tabs[from].id != id { TabIndexIsFirst(tabs, id, from + 1); }
  }

  lemma {:induction false} LocateIsFirst(ws: seq<Window>, id: TabId, from: nat)
    requires from <= |ws| && forall i, j :: 0 <= i < from && 0 <= j < |ws[i].tabs| ==> ws[i].tabs[j].id != id
    ensures match Locate(ws, id, from)
            case Some(p) => FirstTab(ws, id, p)
            case None => forall i, j :: 0 <= i < |ws| && 0 <= j < |ws[i].tabs| ==> ws[i].tabs[j].id != id
    decreases |ws| - from
  {
    if from < |ws| {
      TabIndexIsFirst(ws[from].tabs, id, 0);
      if TabIndex(ws[from].tabs, id, 0).None? { LocateIsFirst(ws, id, from + 1); }
    }
  }

  lemma {:induction false} LocateInIsFirst(ws: seq<Window>, window: WindowId, id: TabId, from: nat)
    requires from <= |ws|
    requires forall i, j :: 0 <= i < from && ws[i].id == window && 0 <= j < |ws[i].tabs| ==> ws[i].tabs[j].id != id
    ensures match LocateIn(ws, window, id, from)
            case Some(p) => FirstTabIn(ws, window, id, p)
            case None =>
              forall i, j :: 0 <= i < |ws| && ws[i].id == window && 0 <= j < |ws[i].tabs| ==> ws[i].tabs[j].id != id
    decreases |ws| - from
  {
    if from < |ws| {
      if ws[from].id == window { TabIndexIsFirst(ws[from].tabs, id, 0); }
      if ws[from].id != window || TabIndex(ws[from].tabs, id, 0).None? { LocateInIsFirst(ws, window, id, from + 1); }
    }
  }

  lemma {:induction false} FocusIndexIsFirst(ws: seq<Window>, tab: TabId, pane: PaneId, from: nat)
    requires from <= |ws| && forall k :: 0 <= k < from ==> !ShowsIn(ws[k], tab, pane)
    ensures match FocusIndex(ws, tab, pane, from)
            case Some(i) => FirstShowing(ws, tab, pane, i)
            case None => forall k :: 0 <= k < |ws| ==> !ShowsIn(ws[k], tab, pane)
    decreases |ws| - from
  {
    if from < |ws| && !ShowsIn(ws[from], tab, pane) { FocusIndexIsFirst(ws, tab, pane, from + 1); }
  }

  // ---- what stays of a list -----------------------------------------------------------------------

  /** `at` lists, in order, the positions of the elements of `s` that are kept. */
  ghost predicate KeptAt<T>(s: seq<T>, at: seq<nat>, keep: T -> bool) {
    && (forall k :: 0 <= k < |at| ==> at[k] < |s| && keep(s[at[k]]))
    && (forall j, k :: 0 <= j < k < |at| ==> at[j] < at[k])
    && (forall i :: 0 <= i < |s| ==> Listed(s, at, keep, i))
  }

  ghost predicate Listed<T>(s: seq<T>, at: seq<nat>, keep: T -> bool, i: nat)
    requires i < |s|
  {
    keep(s[i]) ==> i in at
  }

  ghost predicate ElementsAt<T>(s: seq<T>, at: seq<nat>, r: seq<T>) {
    |at| == |r| && forall k :: 0 <= k < |at| ==> at[k] < |s| && r[k] == s[at[k]]
  }

  function KeptPositions<T>(s: seq<T>, keep: T -> bool): (at: seq<nat>)
    ensures forall k :: 0 <= k < |at| ==> at[k] < |s|
    ensures forall j, k :: 0 <= j < k < |at| ==> at[j] < at[k]
  {
    if s == [] then []
    else
      var n := |s| - 1;
      KeptPositions(s[..n], keep) + if keep(s[n]) then [n] else []
  }

  lemma {:induction false} PositionsOfFilter<T>(s: seq<T>, keep: T -> bool)
    ensures ElementsAt(s, KeptPositions(s, keep), Filter(s, keep))
  {
    if s != [] {
      PositionsOfFilter(s[..|s| - 1], keep);
    }
  }

  lemma {:induction false} PositionsAreKept<T>(s: seq<T>, keep: T -> bool, k: nat)
    requires k < |KeptPositions(s, keep)|
    ensures KeptPositions(s, keep)[k] < |s| && keep(s[KeptPositions(s, keep)[k]])
  {
    var init := s[..|s| - 1];
    if k < |KeptPositions(init, keep)| { PositionsAreKept(init, keep, k); }
  }

  lemma {:induction false} KeptIsListed<T>(s: seq<T>, keep: T -> bool, i: nat)
    requires i < |s|
    ensures Listed(s, KeptPositions(s, keep), keep, i)
  {
    if i < |s| - 1 {
      KeptIsListed(s[..|s| - 1], keep, i);
    } else if keep(s[i]) {
      assert KeptPositions(s, keep)[|KeptPositions(s[..i], keep)|] == i;
    }
  }

  lemma {:induction false} FilterLeaves<T>(s: seq<T>, keep: T -> bool)
    ensures KeptAt(s, KeptPositions(s, keep), keep) && ElementsAt(s, KeptPositions(s, keep), Filter(s, keep))
  {
    hide KeptPositions, Filter, Listed;
    PositionsOfFilter(s, keep);
    forall k | 0 <= k < |KeptPositions(s, keep)| ensures keep(s[KeptPositions(s, keep)[k]]) {
      PositionsAreKept(s, keep, k);
    }
    forall i | 0 <= i < |s| ensures Listed(s, KeptPositions(s, keep), keep, i) { KeptIsListed(s, keep, i); }
  }

  /** The windows without those of this id, in order. */
  ghost predicate WindowsLeft(ws: seq<Window>, ws': seq<Window>, id: WindowId) {
    exists at :: KeptAt(ws, at, (w: Window) => w.id != id) && ElementsAt(ws, at, ws')
  }

  ghost predicate TabsLeft(tabs: seq<Tab>, tabs': seq<Tab>, id: TabId) {
    exists at :: KeptAt(tabs, at, (t: Tab) => t.id != id) && ElementsAt(tabs, at, tabs')
  }

  lemma {:induction false} WithoutWindowLeaves(ws: seq<Window>, id: WindowId)
    ensures WindowsLeft(ws, WithoutWindow(ws, id), id)
  {
    FilterLeaves(ws, OtherWindow(id));
    var at := KeptPositions(ws, OtherWindow(id));
    var keep := (w: Window) => w.id != id;
    forall i | 0 <= i < |ws| ensures Listed(ws, at, keep, i) { assert Listed(ws, at, OtherWindow(id), i); }
    assert KeptAt(ws, at, keep);
  }

  lemma {:induction false} WithoutTabLeaves(tabs: seq<Tab>, id: TabId)
    ensures TabsLeft(tabs, WithoutTab(tabs, id), id)
  {
    FilterLeaves(tabs, OtherTab(id));
    var at := KeptPositions(tabs, OtherTab(id));
    var keep := (t: Tab) => t.id != id;
    forall i | 0 <= i < |tabs| ensures Listed(tabs, at, keep, i) { assert Listed(tabs, at, OtherTab(id), i); }
    assert KeptAt(tabs, at, keep);
  }

  // ---- one pane -----------------------------------------------------------------------------------

  /** The newest record of a command. */
  ghost predicate Newest(h: seq<CommandRecord>, command: string, k: int) {
    0 <= k < |h| && h[k].command == command && forall j :: k < j < |h| ==> h[j].command != command
  }

  lemma {:induction false} PinMarksNewest(h: seq<CommandRecord>, command: string, pinned: bool)
    ensures Pin(h, command, pinned).Some? <==> exists i :: 0 <= i < |h| && h[i].command == command
    ensures Pin(h, command, pinned).Some? ==>
              exists k :: Newest(h, command, k) && Pin(h, command, pinned).value == h[k := h[k].(pinned := pinned)]
  {
    if h != [] {
      var last := |h| - 1;
      if h[last].command == command {
        assert Newest(h, command, last);
      } else {
        var init := h[..last];
        PinMarksNewest(init, command, pinned);
        if Pin(init, command, pinned).Some? {
          var k :| Newest(init, command, k)
                   && Pin(init, command, pinned).value == init[k := init[k].(pinned := pinned)];
          assert Newest(h, command, k);
          assert init[k := init[k].(pinned := pinned)] + [h[last]] == h[k := h[k].(pinned := pinned)];
        } else {
          forall i | 0 <= i < |h| ensures h[i].command != command {
            if i < last { assert init[i] == h[i]; }
          }
        }
      }
    }
  }

  /** What an accepted operation on a pane's state makes of it. */
  ghost predicate StateEffect(s: PaneState, s': PaneState, op: Op)
    requires ChangesState(op)
  {
    match op
    case AddCommand(_, _, r) =>
      && s'.history != [] && s'.history[|s'.history| - 1] == r
      && |s'.history| == (if |s.history| < 1000 then |s.history| + 1 else 1000)
      && s'.history[..|s'.history| - 1] == s.history[|s.history| + 1 - |s'.history|..]
      && s' == s.(history := s'.history)
    case SetPinned(_, _, command, pinned) =>
      exists k :: Newest(s.history, command, k) && s' == s.(history := s.history[k := s.history[k].(pinned := pinned)])
    case ApplyRuntime(_, _, snap) =>
      && s'.cwd == snap.cwd && s'.shell == snap.shell && s'.cols == snap.cols && s'.rows == snap.rows
      && s'.snapshot == snap.snapshot && s'.interrupted == snap.interrupted && s'.environment == s.environment
      && s'.history == if snap.history != [] then snap.history else s.history
  }

  ghost predicate StateAccepts(s: PaneState, op: Op)
    requires ChangesState(op)
  {
    match op
    case AddCommand(_, _, r) => r.command != ""
    case SetPinned(_, _, command, _) =>
      command != "" && exists i :: 0 <= i < |s.history| && s.history[i].command == command
    case ApplyRuntime(_, _, _) => true
  }

  lemma {:induction false} NewStateIs(s: PaneState, op: Op)
    requires ChangesState(op)
    ensures NewState(s, op).Some? <==> StateAccepts(s, op)
    ensures NewState(s, op).Some? ==> StateEffect(s, NewState(s, op).value, op)
  {
    if op.SetPinned? {
      PinMarksNewest(s.history, op.command, op.pinned);
    } else if op.AddCommand? && op.record.command != "" {
      var h, h' := s.history, NewState(s, op).value.history;
      assert |h| >= 1000 ==> h' == (h + [op.record])[|h| + 1 - 1000..];
      assert h'[..|h'| - 1] == h[|h| + 1 - |h'|..];
    }
  }

  /** The same panes in the same places, and the same state of every other pane. */
  ghost predicate OnlyStateChanged(t: Tree, t': Tree, id: PaneId) {
    forall q ::
      && (Has(t', q) <==> Has(t, q))
      && (Has(t, q) && Has(t', q) ==> Path(t', q) == Path(t, q) && (q != id ==> Find(t', q) == Find(t, q)))
  }

  lemma {:induction false} WithStateKeepsPath(t: Tree, id: PaneId, state: PaneState, q: PaneId)
    requires Has(t, id) && Has(t, q)
    ensures Has(WithState(t, id, state), q) && Path(WithState(t, id, state), q) == Path(t, q)
  {
    WithStateKeepsOthers(t, id, state, q);
    if t.Split? {
      var c := if Has(t.first, id) then t.first else t.second;
      WithStateKeepsOthers(c, id, state, q);
      if Has(c, q) { WithStateKeepsPath(c, id, state, q); }
    }
  }

  lemma {:induction false} WithStateChangesOne(t: Tree, id: PaneId, state: PaneState)
    requires Has(t, id)
    ensures OnlyStateChanged(t, WithState(t, id, state), id)
    ensures Find(WithState(t, id, state), id) == Some(Pane(id, state))
  {
    WithStateKeepsOthers(t, id, state, id);
    forall q
      ensures Has(WithState(t, id, state), q) <==> Has(t, q)
      ensures Has(t, q) ==> Path(WithState(t, id, state), q) == Path(t, q)
      ensures q != id ==> Find(WithState(t, id, state), q) == Find(t, q)
    {
      WithStateKeepsOthers(t, id, state, q);
      if Has(t, q) { WithStateKeepsPath(t, id, state, q); }
    }
  }

  /** The pane that a split request splits, if any: the bare pane, else the focused one, else one with the
      empty id. */
  ghost predicate IsSplitPoint(w: Window, t: Tree, at: PaneId) {
    if t.Leaf? then at == t.pane.id
    else if w.focusPane.Some? && Has(t, w.focusPane.value) then at == w.focusPane.value
    else at == "" && Has(t, "")
  }

  /** The new pane is blank and stands as second child beside the split one, below a split of the requested
      kind and ratio; every other pane keeps state and path. */
  ghost predicate SplitEffect(t: Tree, t': Tree, at: PaneId, kind: SplitKind, ratio: real, newPane: PaneId)
    requires Has(t, at)
  {
    && Has(t', newPane) && Find(t', newPane) == Some(Pane(newPane, BLANK_STATE))
    && Path(t', newPane) == Path(t, at) + [Step(kind, ratio, true)]
    && Has(t', at) && Path(t', at) == Path(t, at) + [Step(kind, ratio, false)] && Find(t', at) == Find(t, at)
    && (forall q :: Has(t', q) <==> Has(t, q) || q == newPane)
    && forall q :: Has(t, q) && Has(t', q) && q != at ==> Path(t', q) == Path(t, q) && Find(t', q) == Find(t, q)
  }

  /** For every orientation, ratio and tree with distinct ids, a split of a tab does just that. */
  lemma {:induction false} SplitTreeIs(w: Window, t: Tree, kind: SplitKind, ratio: real, newPane: PaneId, at: PaneId)
    requires DistinctIds(t) && !Has(t, newPane) && IsSplitPoint(w, t, at)
    ensures Has(t, at) && SplitEffect(t, SplitTree(w, t, kind, ratio, newPane), at, kind, ratio, newPane)
  {
    hide SplitAt, Path, Find;
    var pane := Pane(newPane, BLANK_STATE);
    SplitOfLeaf(t, kind, ratio, pane);
    assert SplitTree(w, t, kind, ratio, newPane) == SplitAt(t, at, kind, ratio, pane);
    forall q ensures Has(SplitAt(t, at, kind, ratio, pane), q) <==> Has(t, q) || q == newPane {
      SplitHas(t, at, kind, ratio, pane, q);
    }
    SplitKeepsOthers(t, at, kind, ratio, pane, newPane);
    SplitKeepsOthers(t, at, kind, ratio, pane, at);
    forall q | Has(t, q) && q != at
      ensures Has(SplitAt(t, at, kind, ratio, pane), q)
      ensures Path(SplitAt(t, at, kind, ratio, pane), q) == Path(t, q)
      ensures Find(SplitAt(t, at, kind, ratio, pane), q) == Find(t, q)
    {
      SplitKeepsOthers(t, at, kind, ratio, pane, q);
    }
  }

  lemma {:induction false} SplitOfLeaf(t: Tree, kind: SplitKind, ratio: real, pane: Pane)
    ensures t.Leaf? ==> SplitAt(t, t.pane.id, kind, ratio, pane) == Split(kind, ratio, t, Leaf(pane))
  {
  }

  /** Without anything to split the tree stays as it is. */
  lemma {:induction false} NothingToSplit(w: Window, t: Tree, kind: SplitKind, ratio: real, newPane: PaneId)
    requires forall at :: !IsSplitPoint(w, t, at)
    ensures SplitTree(w, t, kind, ratio, newPane) == t
  {
    if t.Leaf? { assert IsSplitPoint(w, t, t.pane.id); }
    assert !IsSplitPoint(w, t, "");
    if w.focusPane.Some? { assert !IsSplitPoint(w, t, w.focusPane.value); }
  }

  // ---- whole steps --------------------------------------------------------------------------------

  /** The window is replaced, and nothing else changes. */
  function WithWindow(ws: Workspace, i: int, w: Window): Workspace
    requires 0 <= i < |ws.windows|
  {
    ws.(windows := ws.windows[i := w])
  }

  /** The tab's tree and the window's focused pane are replaced, and nothing else changes. */
  function WithTree(ws: Workspace, p: Place, t: Tree, focus: Option<PaneId>): Workspace
    requires IsPlace(ws.windows, p)
  {
    var w := ws.windows[p.w];
    ws.(windows := ws.windows[p.w := w.(tabs := w.tabs[p.t := w.tabs[p.t].(tree := t)], focusPane := focus)])
  }

  ghost predicate HasWindow(ws: seq<Window>, id: WindowId) { exists i :: 0 <= i < |ws| && ws[i].id == id }

  /** Which operations are accepted. */
  ghost predicate Accepts(ws: Workspace, op: Op) {
    if ChangesState(op) then
      exists p :: FirstTab(ws.windows, op.tab, p) && Has(TabAt(ws.windows, p).tree, op.pane)
        && StateAccepts(Find(TabAt(ws.windows, p).tree, op.pane).value.state, op)
    else
    match op
    case AddWindow(_, _, _) => true
    case RemoveWindow(_) => true
    case ClearHistory => true
    case SetTabNoteState(window, tab, _) =>
      exists p :: FirstTabIn(ws.windows, window, tab, p) && TabAt(ws.windows, p).kind == Note
    case FocusPane(tab, pane) => exists i :: 0 <= i < |ws.windows| && ShowsIn(ws.windows[i], tab, pane)
    case SplitPane(tab, _, _, _) => exists p :: FirstTab(ws.windows, tab, p)
    case RemovePane(tab, pane) => exists p :: FirstTab(ws.windows, tab, p) && Has(TabAt(ws.windows, p).tree, pane)
    case SetPaneRatio(tab, pane, ratio) =>
      0.0 <= ratio <= 1.0 && exists p :: FirstTab(ws.windows, tab, p) && HasParent(TabAt(ws.windows, p).tree, pane)
    case RenameWindow(id, _) => HasWindow(ws.windows, id)
    case FocusWindow(id) => HasWindow(ws.windows, id)
    case AddTab(id, _, _, _) => HasWindow(ws.windows, id)
    case AddNoteTab(id, _, _, _) => HasWindow(ws.windows, id)
    case RemoveTab(id, _) => HasWindow(ws.windows, id)
    case FocusTab(id, _) => HasWindow(ws.windows, id)
  }

  /** What an accepted operation on the whole workspace, a window or a tab changes. */
  ghost predicate Effect(ws: Workspace, ws': Workspace, op: Op)
    requires !TargetsPane(op)
  {
    var wins := ws.windows;
    match op
    case AddWindow(id, title, now) =>
      var name := if title == "" then "window" else title;
      ws' == ws.(windows := wins + [Window(id, name, 0, 0, 0, 0, now, now, [], None, None)], focusWindow := Some(id))
    case RemoveWindow(id) =>
      && WindowsLeft(wins, ws'.windows, id)
      && ws' == ws.(windows := ws'.windows, focusWindow := ws'.focusWindow)
      && ws'.focusWindow == if ws.focusWindow == Some(id) then None else ws.focusWindow
    case RenameWindow(id, title) =>
      exists i :: FirstWindow(wins, id, i) && ws' == WithWindow(ws, i, wins[i].(name := title))
    case FocusWindow(id) =>
      ws' == ws.(focusWindow := Some(id))
    case AddTab(id, newTab, title, tree) =>
      exists i :: FirstWindow(wins, id, i)
        && ws' == WithWindow(ws, i, wins[i].(
             tabs := wins[i].tabs + [Tab(newTab, if title == "" then "tab" else title, Terminal, None, tree)],
             focusTab := Some(newTab)))
    case AddNoteTab(id, newTab, title, note) =>
      exists i :: FirstWindow(wins, id, i)
        && ws' == WithWindow(ws, i, wins[i].(
             tabs := wins[i].tabs + [Tab(newTab, if title == "" then "note" else title, Note, Some(note), Empty)],
             focusTab := Some(newTab)))
    case SetTabNoteState(id, tab, note) =>
      exists p :: FirstTabIn(wins, id, tab, p)
        && ws' == WithWindow(ws, p.w, wins[p.w].(tabs := wins[p.w].tabs[p.t := TabAt(wins, p).(note := Some(note))]))
    case RemoveTab(id, tab) =>
      exists i, tabs :: FirstWindow(wins, id, i) && TabsLeft(wins[i].tabs, tabs, tab)
        && ws' == WithWindow(ws, i, wins[i].(
             tabs := tabs, focusTab := if wins[i].focusTab == Some(tab) then None else wins[i].focusTab))
    case FocusTab(id, tab) =>
      exists i :: FirstWindow(wins, id, i) && ws' == WithWindow(ws, i, wins[i].(focusTab := Some(tab)))
    case FocusPane(tab, pane) =>
      exists i :: FirstShowing(wins, tab, pane, i) && ws' == WithWindow(ws, i, wins[i].(focusPane := Some(pane)))
    case ClearHistory =>
      && ws' == ws.(windows := ws'.windows) && |ws'.windows| == |wins|
      && forall i :: 0 <= i < |wins| ==>
           && ws'.windows[i] == wins[i].(tabs := ws'.windows[i].tabs) && |ws'.windows[i].tabs| == |wins[i].tabs|
           && forall j :: 0 <= j < |wins[i].tabs| ==>
                && ws'.windows[i].tabs[j] == wins[i].tabs[j].(tree := ws'.windows[i].tabs[j].tree)
                && HistoriesCleared(wins[i].tabs[j].tree, ws'.windows[i].tabs[j].tree)
  }

  /** The same tree, except that no pane has a history. */
  ghost predicate HistoriesCleared(t: Tree, t': Tree) {
    match t
    case Empty => t' == Empty
    case Leaf(p) => t' == Leaf(Pane(p.id, p.state.(history := [])))
    case Split(kind, ratio, a, b) =>
      && t'.Split? && t'.kind == kind && t'.ratio == ratio
      && HistoriesCleared(a, t'.first) && HistoriesCleared(b, t'.second)
  }

  lemma {:induction false} ClearTreeClears(t: Tree)
    ensures HistoriesCleared(t, ClearTree(t))
  {
    if t.Split? {
      ClearTreeClears(t.first);
      ClearTreeClears(t.second);
    }
  }

  /** What an accepted operation on one pane changes, at the first tab with the id: its tree and perhaps the
      window's focused pane, and nothing else. */
  ghost predicate PaneEffect(ws: Workspace, ws': Workspace, op: Op, p: Place)
    requires TargetsPane(op) && IsPlace(ws.windows, p)
  {
    var w, t := ws.windows[p.w], TabAt(ws.windows, p).tree;
    exists t', focus :: ws' == WithTree(ws, p, t', focus) && TreeEffect(w, t, t', focus, op)
  }

  ghost predicate TreeEffect(w: Window, t: Tree, t': Tree, focus: Option<PaneId>, op: Op)
    requires TargetsPane(op)
  {
    if op.SplitPane? then
      && focus == Some(op.newPane)
      && ((forall at :: !IsSplitPoint(w, t, at)) ==> t' == t)
      && (DistinctIds(t) && !Has(t, op.newPane) ==>
            forall at :: IsSplitPoint(w, t, at) ==> Has(t, at) && SplitEffect(t, t', at, op.kind, op.ratio, op.newPane))
    else if op.RemovePane? then
      t' == Remove(t, op.pane) && focus == if w.focusPane == Some(op.pane) then None else w.focusPane
    else if op.SetPaneRatio? then
      t' == SetRatio(t, op.pane, op.ratio) && focus == w.focusPane
    else
      && Has(t, op.pane) && Has(t', op.pane) && focus == w.focusPane && OnlyStateChanged(t, t', op.pane)
      && StateEffect(Find(t, op.pane).value.state, Find(t', op.pane).value.state, op)
  }

  // ---- every step is as told ----------------------------------------------------------------------

  lemma {:induction false} WindowStepsAre(ws: Workspace, op: Op)
    requires op.AddWindow? || op.RemoveWindow? || op.RenameWindow? || op.FocusWindow?
    ensures Transition(ws, op).Some? <==> Accepts(ws, op)
    ensures Transition(ws, op).Some? ==> Effect(ws, Transition(ws, op).value, op)
  {
    if op.RemoveWindow? {
      WithoutWindowLeaves(ws.windows, op.window);
    } else if !op.AddWindow? {
      WindowIndexIsFirst(ws.windows, op.window, 0);
    }
  }

  lemma {:induction false} TabStepsAre(ws: Workspace, op: Op)
    requires op.AddTab? || op.AddNoteTab? || op.RemoveTab? || op.FocusTab?
    ensures Transition(ws, op).Some? <==> Accepts(ws, op)
    ensures Transition(ws, op).Some? ==> Effect(ws, Transition(ws, op).value, op)
  {
    WindowIndexIsFirst(ws.windows, op.window, 0);
    if WindowIndex(ws.windows, op.window, 0).Some? {
      var i := WindowIndex(ws.windows, op.window, 0).value;
      if op.RemoveTab? { WithoutTabLeaves(ws.windows[i].tabs, op.tab); }
    }
  }

  lemma {:induction false} NoteStepIs(ws: Workspace, op: Op)
    requires op.SetTabNoteState?
    ensures Transition(ws, op).Some? <==> Accepts(ws, op)
    ensures Transition(ws, op).Some? ==> Effect(ws, Transition(ws, op).value, op)
  {
    LocateInIsFirst(ws.windows, op.window, op.tab, 0);
    forall p, q | FirstTabIn(ws.windows, op.window, op.tab, p) && FirstTabIn(ws.windows, op.window, op.tab, q)
      ensures p == q
    {
      assert p.w == q.w;
    }
  }

  lemma {:induction false} FocusPaneStepIs(ws: Workspace, op: Op)
    requires op.FocusPane?
    ensures Transition(ws, op).Some? <==> Accepts(ws, op)
    ensures Transition(ws, op).Some? ==> Effect(ws, Transition(ws, op).value, op)
  {
    FocusIndexIsFirst(ws.windows, op.tab, op.pane, 0);
  }

  lemma {:induction false} ClearStepIs(ws: Workspace, op: Op)
    requires op.ClearHistory?
    ensures Transition(ws, op).Some? && Accepts(ws, op) && Effect(ws, Transition(ws, op).value, op)
  {
    var wins := ws.windows;
    forall i, j | 0 <= i < |wins| && 0 <= j < |wins[i].tabs|
      ensures HistoriesCleared(wins[i].tabs[j].tree, ClearTree(wins[i].tabs[j].tree))
    {
      ClearTreeClears(wins[i].tabs[j].tree);
    }
  }

  lemma {:induction false} TreeStepIs(w: Window, t: Tab, op: Op)
    requires TargetsPane(op) && TabStep(w, t, op).Some?
    ensures var r := TabStep(w, t, op).value;
            r.0 == t.(tree := r.0.tree) && TreeEffect(w, t.tree, r.0.tree, r.1, op)
  {
    if op.SplitPane? {
      if forall at :: !IsSplitPoint(w, t.tree, at) { NothingToSplit(w, t.tree, op.kind, op.ratio, op.newPane); }
      if DistinctIds(t.tree) && !Has(t.tree, op.newPane) {
        forall at | IsSplitPoint(w, t.tree, at)
          ensures Has(t.tree, at)
          ensures SplitEffect(t.tree, TabStep(w, t, op).value.0.tree, at, op.kind, op.ratio, op.newPane)
        {
          SplitTreeIs(w, t.tree, op.kind, op.ratio, op.newPane, at);
        }
      }
    } else if ChangesState(op) {
      var s := Find(t.tree, op.pane).value.state;
      NewStateIs(s, op);
      WithStateChangesOne(t.tree, op.pane, NewState(s, op).value);
    }
  }

  lemma {:induction false} TreeAccepts(w: Window, t: Tab, op: Op)
    requires TargetsPane(op)
    ensures TabStep(w, t, op).Some? <==>
              if op.SplitPane? then true
              else if op.RemovePane? then Has(t.tree, op.pane)
              else if op.SetPaneRatio? then 0.0 <= op.ratio <= 1.0 && HasParent(t.tree, op.pane)
              else Has(t.tree, op.pane) && StateAccepts(Find(t.tree, op.pane).value.state, op)
  {
    if ChangesState(op) && Has(t.tree, op.pane) { NewStateIs(Find(t.tree, op.pane).value.state, op); }
  }

  lemma {:induction false} FirstTabIsOne(ws: seq<Window>, tab: TabId, p: Place, q: Place)
    requires FirstTab(ws, tab, p) && FirstTab(ws, tab, q)
    ensures p == q
  {
    assert p.w == q.w;
  }

  lemma {:induction false} PaneStepIs(ws: Workspace, op: Op, p: Place)
    requires TargetsPane(op) && Locate(ws.windows, op.tab, 0) == Some(p)
    ensures var r := TabStep(ws.windows[p.w], TabAt(ws.windows, p), op);
            && (r.None? ==> Transition(ws, op) == None)
            && (r.Some? ==> Transition(ws, op) == Some(WithTree(ws, p, r.value.0.tree, r.value.1)))
  {
    hide Remove, SetRatio, SplitTree, WithState, NewState;
  }

  lemma {:induction false} PaneAccepts(ws: Workspace, op: Op, p: Place)
    requires TargetsPane(op) && FirstTab(ws.windows, op.tab, p)
    ensures Accepts(ws, op) <==> TabStep(ws.windows[p.w], TabAt(ws.windows, p), op).Some?
  {
    hide TabStep, StateAccepts, Has, HasParent, Find;
    TreeAccepts(ws.windows[p.w], TabAt(ws.windows, p), op);
    forall q | FirstTab(ws.windows, op.tab, q) ensures q == p { FirstTabIsOne(ws.windows, op.tab, p, q); }
  }

  lemma {:induction false} NoTabNoStep(ws: Workspace, op: Op)
    requires TargetsPane(op) && Locate(ws.windows, op.tab, 0) == None && forall p :: !FirstTab(ws.windows, op.tab, p)
    ensures Transition(ws, op) == None && !Accepts(ws, op)
  {
    hide Has, HasParent, StateAccepts, FirstTab;
  }

  lemma {:induction false} PaneStepsAre(ws: Workspace, op: Op)
    requires TargetsPane(op)
    ensures Transition(ws, op).Some? <==> Accepts(ws, op)
    ensures Transition(ws, op).Some? ==>
              exists p :: FirstTab(ws.windows, op.tab, p) && PaneEffect(ws, Transition(ws, op).value, op, p)
  {
    hide TabStep, TreeEffect, Transition, Accepts, Locate, WithTree;
    LocateIsFirst(ws.windows, op.tab, 0);
    if Locate(ws.windows, op.tab, 0).Some? {
      var p := Locate(ws.windows, op.tab, 0).value;
      PaneStepIs(ws, op, p);
      PaneAccepts(ws, op, p);
      if TabStep(ws.windows[p.w], TabAt(ws.windows, p), op).Some? {
        TreeStepIs(ws.windows[p.w], TabAt(ws.windows, p), op);
      }
    } else {
      NoTabNoStep(ws, op);
    }
  }

  /** What an accepted operation changes. */
  ghost predicate Changes(ws: Workspace, ws': Workspace, op: Op) {
    if TargetsPane(op) then exists p :: FirstTab(ws.windows, op.tab, p) && PaneEffect(ws, ws', op, p)
    else Effect(ws, ws', op)
  }

  /** Every operation is accepted exactly when this module says so, and then does just what it says. */
  lemma {:induction false} StepsAre(ws: Workspace, op: Op)
    ensures Transition(ws, op).Some? <==> Accepts(ws, op)
    ensures Transition(ws, op).Some? ==> Changes(ws, Transition(ws, op).value, op)
  {
    hide Transition, Accepts, Effect, PaneEffect;
    if TargetsPane(op) {
      PaneStepsAre(ws, op);
    } else if op.SetTabNoteState? {
      NoteStepIs(ws, op);
    } else if op.FocusPane? {
      FocusPaneStepIs(ws, op);
    } else if op.ClearHistory? {
      ClearStepIs(ws, op);
    } else if op.AddTab? || op.AddNoteTab? || op.RemoveTab? || op.FocusTab? {
      TabStepsAre(ws, op);
    } else {
      WindowStepsAre(ws, op);
    }
  }

  // ---- answers ------------------------------------------------------------------------------------

  /** The command is the newest one of the pane already. */
  ghost predicate RepeatsNewest(ws: Workspace, op: Op) {
    && op.AddCommand? && op.record.command != ""
    && exists p :: FirstTab(ws.windows, op.tab, p) && Has(TabAt(ws.windows, p).tree, op.pane)
         && var h := Find(TabAt(ws.windows, p).tree, op.pane).value.state.history;
            h != [] && h[|h| - 1].command == op.record.command
  }

  lemma {:induction false} RepeatIs(ws: Workspace, op: Op)
    ensures IsRepeat(ws, op) <==> RepeatsNewest(ws, op)
  {
    if op.AddCommand? {
      LocateIsFirst(ws.windows, op.tab, 0);
      if Locate(ws.windows, op.tab, 0).Some? {
        var p := Locate(ws.windows, op.tab, 0).value;
        forall q | FirstTab(ws.windows, op.tab, q) ensures q == p { FirstTabIsOne(ws.windows, op.tab, p, q); }
      }
    }
  }

  /** The operations that answer a new id have none to answer when they fail, so they throw. */
  predicate AnswersId(op: Op) { op.AddWindow? || op.AddTab? || op.AddNoteTab? || op.SplitPane? }

  /** What every call answers and leaves: without an open workspace and when refused nothing changes, and
      calls that answer an id throw; a repeated command is accepted without a change; every other accepted
      call changes what it should and leaves the workspace dirty. */
  lemma {:induction false} AnswersAre(c: Core, op: Op)
    ensures c.ws.None? ==> Apply(c, op) == (c, if AnswersId(op) then Fault else No)
    ensures c.ws.Some? && RepeatsNewest(c.ws.value, op) ==> Apply(c, op) == (c, Yes)
    ensures c.ws.Some? && !Accepts(c.ws.value, op) ==> Apply(c, op) == (c, if AnswersId(op) then Fault else No)
    ensures c.ws.Some? && Accepts(c.ws.value, op) && !RepeatsNewest(c.ws.value, op) ==>
              && Apply(c, op).1 == Yes && Apply(c, op).0.dirty && Apply(c, op).0.ws.Some?
              && Changes(c.ws.value, Apply(c, op).0.ws.value, op)
  {
    hide Transition, IsRepeat, RepeatsNewest, Changes;
    if c.ws.Some? {
      StepsAre(c.ws.value, op);
      RepeatIs(c.ws.value, op);
      RepeatIsAccepted(c.ws.value, op);
      assert op.AddWindow? ==> Accepts(c.ws.value, op);
    }
  }

  lemma {:induction false} RepeatIsAccepted(ws: Workspace, op: Op)
    ensures RepeatsNewest(ws, op) ==> Accepts(ws, op)
  {
  }
}
