/** What every run of the workspace core keeps. */
module WorkspaceInvariants {
  import opened Options
  import opened PaneTree
  import opened WorkspaceModel
  import opened WorkspaceSpec
  import opened Sums

  // ---- ids in use -----------------------------------------------------------------------------

  /** How often a pane id occurs in a tree. */
  function TreeUses(t: Tree, id: PaneId): nat {
    match t
    case Empty => 0
    case Leaf(p) => if p.id == id then 1 else 0
    case Split(_, _, a, b) => TreeUses(a, id) + TreeUses(b, id)
  }

  function TabPanes(id: PaneId): Tab -> nat { (t: Tab) => TreeUses(t.tree, id) }

  function WindowPanes(id: PaneId): Window -> nat { (w: Window) => Sum(w.tabs, TabPanes(id)) }

  function TabNamed(id: TabId): Tab -> nat { (t: Tab) => if t.id == id then 1 else 0 }

  function WindowTabs(id: TabId): Window -> nat { (w: Window) => Sum(w.tabs, TabNamed(id)) }

  function WindowNamed(id: WindowId): Window -> nat { (w: Window) => if w.id == id then 1 else 0 }

  /** How often an id names a pane, a tab or a window of the workspace. */
  function PaneUses(ws: seq<Window>, id: PaneId): nat { Sum(ws, WindowPanes(id)) }

  function TabUses(ws: seq<Window>, id: TabId): nat { Sum(ws, WindowTabs(id)) }

  function WindowUses(ws: seq<Window>, id: WindowId): nat { Sum(ws, WindowNamed(id)) }

  // ---- the invariant --------------------------------------------------------------------------

  predicate TreeOk(t: Tree) { (t == Empty || Full(t)) && RatiosInRange(t) }

  ghost predicate WindowOk(w: Window) { forall i :: 0 <= i < |w.tabs| ==> TreeOk(w.tabs[i].tree) }

  /** No pane, tab or window id is used twice. The empty pane id is no id: blank panes, as which empty
      trees are read back from storage, all have it. */
  ghost predicate UniqueIds(ws: seq<Window>) {
    && (forall id :: id != "" ==> PaneUses(ws, id) <= 1)
    && (forall id :: TabUses(ws, id) <= 1)
    && (forall id :: WindowUses(ws, id) <= 1)
  }

  /** Ids are unique, trees have no empty leaves, ratios are in range, and the focused window exists. */
  ghost predicate Inv(ws: Workspace) {
    && UniqueIds(ws.windows)
    && (forall i :: 0 <= i < |ws.windows| ==> WindowOk(ws.windows[i]))
    && (ws.focusWindow.Some? ==> WindowUses(ws.windows, ws.focusWindow.value) == 1)
  }

  /** What an operation has to bring along: generated ids are new and not empty, a new tab's tree is well
      formed and new ratios are in range. */
  ghost predicate Fits(ws: Workspace, op: Op) {
    match op
    case AddWindow(id, _, _) => WindowUses(ws.windows, id) == 0
    case AddTab(_, id, _, tree) =>
      && TabUses(ws.windows, id) == 0
      && TreeOk(tree) && forall q :: q != "" ==> TreeUses(tree, q) + PaneUses(ws.windows, q) <= 1
    case AddNoteTab(_, id, _, _) => TabUses(ws.windows, id) == 0
    case SplitPane(_, _, ratio, id) => id != "" && PaneUses(ws.windows, id) == 0 && 0.0 <= ratio <= 1.0
    case _ => true
  }

  // ---- trees ----------------------------------------------------------------------------------

  lemma {:induction false} HasIsUsed(t: Tree, id: PaneId)
    ensures Has(t, id) <==> TreeUses(t, id) > 0
  {
    if t.Split? {
      HasIsUsed(t.first, id);
      HasIsUsed(t.second, id);
    }
  }

  /** A tree in which no id is used twice has distinct ids. */
  lemma {:induction false} UsedOnceIsDistinct(t: Tree)
    requires forall id :: TreeUses(t, id) <= 1
    ensures DistinctIds(t)
  {
    if t.Split? {
      forall id
        ensures TreeUses(t.first, id) <= 1 && TreeUses(t.second, id) <= 1 && !(Has(t.first, id) && Has(t.second, id))
      {
        assert TreeUses(t, id) <= 1;
        HasIsUsed(t.first, id);
        HasIsUsed(t.second, id);
      }
      UsedOnceIsDistinct(t.first);
      UsedOnceIsDistinct(t.second);
    }
  }

  lemma {:induction false} RemoveUses(t: Tree, id: PaneId, q: PaneId)
    requires Has(t, id)
    ensures TreeUses(Remove(t, id), q) == TreeUses(t, q) - if q == id then 1 else 0
  {
    if t.Split? {
      RemoveUses(if Has(t.first, id) then t.first else t.second, id, q);
    }
  }

  lemma {:induction false} RemoveOk(t: Tree, id: PaneId)
    requires TreeOk(t)
    ensures TreeOk(Remove(t, id))
  {
    if t.Split? {
      RemoveKeepsFull(t, id);
      RemoveRatios(t, id);
    }
  }

  lemma {:induction false} RemoveRatios(t: Tree, id: PaneId)
    requires RatiosInRange(t)
    ensures RatiosInRange(Remove(t, id))
  {
    if t.Split? {
      RemoveRatios(t.first, id);
      RemoveRatios(t.second, id);
    }
  }

  lemma {:induction false} SplitAtUses(t: Tree, at: PaneId, kind: SplitKind, ratio: real, pane: Pane, q: PaneId)
    requires Has(t, at)
    ensures TreeUses(SplitAt(t, at, kind, ratio, pane), q) == TreeUses(t, q) + if q == pane.id then 1 else 0
  {
    if t.Split? {
      SplitAtUses(if Has(t.first, at) then t.first else t.second, at, kind, ratio, pane, q);
    }
  }

  lemma {:induction false} SplitAtOk(t: Tree, at: PaneId, kind: SplitKind, ratio: real, pane: Pane)
    requires TreeOk(t) && Has(t, at) && 0.0 <= ratio <= 1.0
    ensures TreeOk(SplitAt(t, at, kind, ratio, pane)) && Full(SplitAt(t, at, kind, ratio, pane))
  {
    if t.Split? {
      SplitAtOk(if Has(t.first, at) then t.first else t.second, at, kind, ratio, pane);
    }
  }

  lemma {:induction false} SetRatioUses(t: Tree, id: PaneId, ratio: real, q: PaneId)
    ensures TreeUses(SetRatio(t, id, ratio), q) == TreeUses(t, q)
  {
    if t.Split? {
      SetRatioUses(t.first, id, ratio, q);
      SetRatioUses(t.second, id, ratio, q);
    }
  }

  lemma {:induction false} WithStateUses(t: Tree, id: PaneId, state: PaneState, q: PaneId)
    ensures TreeUses(WithState(t, id, state), q) == TreeUses(t, q)
    ensures TreeOk(t) ==> TreeOk(WithState(t, id, state))
    ensures Full(WithState(t, id, state)) <==> Full(t)
    ensures WithState(t, id, state) == Empty <==> t == Empty
  {
    if t.Split? {
      WithStateUses(t.first, id, state, q);
      WithStateUses(t.second, id, state, q);
    }
  }

  lemma {:induction false} ClearTreeUses(t: Tree, q: PaneId)
    ensures TreeUses(ClearTree(t), q) == TreeUses(t, q)
    ensures TreeOk(t) ==> TreeOk(ClearTree(t))
    ensures Full(ClearTree(t)) <==> Full(t)
    ensures ClearTree(t) == Empty <==> t == Empty
  {
    if t.Split? {
      ClearTreeUses(t.first, q);
      ClearTreeUses(t.second, q);
    }
  }

  // ---- one tab --------------------------------------------------------------------------------

  /** An operation on one pane keeps its tab well formed and adds no id but the new pane's. */
  lemma {:induction false} TabStepOk(w: Window, t: Tab, op: Op)
    requires TargetsPane(op) && TreeOk(t.tree) && TabStep(w, t, op).Some?
    requires op.SplitPane? ==> 0.0 <= op.ratio <= 1.0
    ensures TreeOk(TabStep(w, t, op).value.0.tree) && TabStep(w, t, op).value.0.id == t.id
  {
    if op.SplitPane? {
      var pane := Pane(op.newPane, BLANK_STATE);
      if Has(t.tree, FocusId(w)) { SplitAtOk(t.tree, FocusId(w), op.kind, op.ratio, pane); }
      if Has(t.tree, "") { SplitAtOk(t.tree, "", op.kind, op.ratio, pane); }
    } else if op.RemovePane? {
      RemoveOk(t.tree, op.pane);
    } else if op.SetPaneRatio? {
      SetRatioKeepsLeaves(t.tree, op.pane, op.ratio, op.pane);
    } else {
      WithStateUses(t.tree, op.pane, NewState(Find(t.tree, op.pane).value.state, op).value, op.pane);
    }
  }

  lemma {:induction false} TabStepUses(w: Window, t: Tab, op: Op, q: PaneId)
    requires TargetsPane(op) && TabStep(w, t, op).Some?
    ensures TreeUses(TabStep(w, t, op).value.0.tree, q) <=
              TreeUses(t.tree, q) + if op.SplitPane? && q == op.newPane then 1 else 0
  {
    if op.SplitPane? {
      var pane := Pane(op.newPane, BLANK_STATE);
      if Has(t.tree, FocusId(w)) { SplitAtUses(t.tree, FocusId(w), op.kind, op.ratio, pane, q); }
      if Has(t.tree, "") { SplitAtUses(t.tree, "", op.kind, op.ratio, pane, q); }
    } else if op.RemovePane? {
      RemoveUses(t.tree, op.pane, q);
    } else if op.SetPaneRatio? {
      SetRatioUses(t.tree, op.pane, op.ratio, q);
    } else {
      WithStateUses(t.tree, op.pane, NewState(Find(t.tree, op.pane).value.state, op).value, q);
    }
  }

  // ---- one window -----------------------------------------------------------------------------

  /** Replacing one window by a well-formed one of the same id keeps the invariant if it brings no id
      that would be used twice. */
  lemma {:induction false} WindowStepKeepsInv(ws: Workspace, i: nat, w: Window)
    requires Inv(ws) && i < |ws.windows| && w.id == ws.windows[i].id && WindowOk(w)
    requires forall q :: q != "" ==> PaneUses(ws.windows, q) - WindowPanes(q)(ws.windows[i]) + WindowPanes(q)(w) <= 1
    requires forall q :: TabUses(ws.windows, q) - WindowTabs(q)(ws.windows[i]) + WindowTabs(q)(w) <= 1
    ensures Inv(ws.(windows := ws.windows[i := w]))
  {
    var wins := ws.windows[i := w];
    forall q | q != "" ensures PaneUses(wins, q) <= 1 { SumUpdate(ws.windows, i, w, WindowPanes(q)); }
    forall q ensures TabUses(wins, q) <= 1 { SumUpdate(ws.windows, i, w, WindowTabs(q)); }
    forall q ensures WindowUses(wins, q) == WindowUses(ws.windows, q) { SumUpdate(ws.windows, i, w, WindowNamed(q)); }
  }

  /** The same, when only properties of the window change. */
  lemma {:induction false} SameTabsKeepInv(ws: Workspace, i: nat, w: Window)
    requires Inv(ws) && i < |ws.windows| && w.id == ws.windows[i].id && w.tabs == ws.windows[i].tabs
    ensures Inv(ws.(windows := ws.windows[i := w]))
  {
    WindowStepKeepsInv(ws, i, w);
  }

  /** The same, when one tab is replaced by a well-formed one. */
  lemma {:induction false} TabUpdateKeepsInv(ws: Workspace, p: Place, t: Tab, focusPane: Option<PaneId>)
    requires Inv(ws) && IsPlace(ws.windows, p) && TreeOk(t.tree) && t.id == TabAt(ws.windows, p).id
    requires forall q :: q != "" ==>
              PaneUses(ws.windows, q) - TreeUses(TabAt(ws.windows, p).tree, q) + TreeUses(t.tree, q) <= 1
    ensures var w := ws.windows[p.w];
            Inv(ws.(windows := ws.windows[p.w := w.(tabs := w.tabs[p.t := t], focusPane := focusPane)]))
  {
    var w := ws.windows[p.w];
    var w' := w.(tabs := w.tabs[p.t := t], focusPane := focusPane);
    forall q ensures WindowPanes(q)(w') == WindowPanes(q)(w) - TreeUses(w.tabs[p.t].tree, q) + TreeUses(t.tree, q) {
      SumUpdate(w.tabs, p.t, t, TabPanes(q));
    }
    forall q ensures WindowTabs(q)(w') == WindowTabs(q)(w) {
      SumUpdate(w.tabs, p.t, t, TabNamed(q));
    }
    WindowStepKeepsInv(ws, p.w, w');
  }

  lemma {:induction false} AppendTabKeepsInv(ws: Workspace, id: WindowId, tab: Tab)
    requires Inv(ws) && AppendTab(ws, id, tab).Some?
    requires TabUses(ws.windows, tab.id) == 0 && TreeOk(tab.tree)
    requires forall q :: q != "" ==> TreeUses(tab.tree, q) + PaneUses(ws.windows, q) <= 1
    ensures Inv(AppendTab(ws, id, tab).value)
  {
    var i := WindowIndex(ws.windows, id, 0).value;
    var w := ws.windows[i];
    var w' := w.(tabs := w.tabs + [tab], focusTab := Some(tab.id));
    forall q ensures WindowPanes(q)(w') == WindowPanes(q)(w) + TreeUses(tab.tree, q) {
      SumSnoc(w.tabs, tab, TabPanes(q));
    }
    forall q ensures WindowTabs(q)(w') == WindowTabs(q)(w) + TabNamed(q)(tab) { SumSnoc(w.tabs, tab, TabNamed(q)); }
    WindowStepKeepsInv(ws, i, w');
  }

  lemma {:induction false} RemoveTabKeepsInv(ws: Workspace, i: nat, tab: TabId, w: Window)
    requires Inv(ws) && i < |ws.windows|
    requires w.id == ws.windows[i].id && w.tabs == WithoutTab(ws.windows[i].tabs, tab)
    ensures Inv(ws.(windows := ws.windows[i := w]))
  {
    var tabs, keep := ws.windows[i].tabs, OtherTab(tab);
    forall q ensures WindowPanes(q)(w) <= WindowPanes(q)(ws.windows[i]) { SumFilter(tabs, keep, TabPanes(q)); }
    forall q ensures WindowTabs(q)(w) <= WindowTabs(q)(ws.windows[i]) { SumFilter(tabs, keep, TabNamed(q)); }
    forall j | 0 <= j < |w.tabs| ensures TreeOk(w.tabs[j].tree) { assert w.tabs[j] in tabs; }
    WindowStepKeepsInv(ws, i, w);
  }

  // ---- one step -------------------------------------------------------------------------------

  /** An operation on one pane uses no id more often, except a new pane's. */
  lemma {:induction false} PaneStepUses(ws: Workspace, op: Op, q: PaneId)
    requires TargetsPane(op) && Transition(ws, op).Some?
    ensures PaneUses(Transition(ws, op).value.windows, q) <=
              PaneUses(ws.windows, q) + if op.SplitPane? && q == op.newPane then 1 else 0
  {
    var p, wins' := Locate(ws.windows, op.tab, 0).value, Transition(ws, op).value.windows;
    var w := ws.windows[p.w];
    TabStepUses(w, w.tabs[p.t], op, q);
    SumUpdate(w.tabs, p.t, wins'[p.w].tabs[p.t], TabPanes(q));
    SumUpdate(ws.windows, p.w, wins'[p.w], WindowPanes(q));
  }

  lemma {:induction false} PaneStepKeepsInv(ws: Workspace, op: Op)
    requires Inv(ws) && Fits(ws, op) && TargetsPane(op) && Transition(ws, op).Some?
    ensures Inv(Transition(ws, op).value)
  {
    var p := Locate(ws.windows, op.tab, 0).value;
    var w, t := ws.windows[p.w], TabAt(ws.windows, p);
    var r := TabStep(w, t, op).value;
    TabStepOk(w, t, op);
    forall q | q != "" ensures PaneUses(ws.windows, q) - TreeUses(t.tree, q) + TreeUses(r.0.tree, q) <= 1 {
      TabStepUses(w, t, op, q);
    }
    TabUpdateKeepsInv(ws, p, r.0, r.1);
  }

  lemma {:induction false} AddWindowKeepsInv(ws: Workspace, op: Op)
    requires Inv(ws) && Fits(ws, op) && op.AddWindow?
    ensures Inv(Transition(ws, op).value)
  {
    var w := Window(op.newWindow, Titled(op.title, "window"), 0, 0, 0, 0, op.now, op.now, [], None, None);
    var wins := ws.windows + [w];
    assert UniqueIds(wins) by {
      forall q
        ensures PaneUses(wins, q) == PaneUses(ws.windows, q) && TabUses(wins, q) == TabUses(ws.windows, q)
        ensures WindowUses(wins, q) == WindowUses(ws.windows, q) + WindowNamed(q)(w)
      {
        SumSnoc(ws.windows, w, WindowPanes(q));
        SumSnoc(ws.windows, w, WindowTabs(q));
        SumSnoc(ws.windows, w, WindowNamed(q));
      }
    }
    SumSnoc(ws.windows, w, WindowNamed(op.newWindow));
    assert forall i :: 0 <= i < |wins| ==> WindowOk(wins[i]);
    assert Transition(ws, op) == Some(ws.(windows := wins, focusWindow := Some(op.newWindow)));
  }

  lemma {:induction false} RemoveWindowKeepsInv(ws: Workspace, op: Op)
    requires Inv(ws) && op.RemoveWindow?
    ensures Inv(Transition(ws, op).value)
  {
    var keep := OtherWindow(op.window);
    var wins := WithoutWindow(ws.windows, op.window);
    forall q
      ensures PaneUses(wins, q) <= PaneUses(ws.windows, q) && TabUses(wins, q) <= TabUses(ws.windows, q)
      ensures WindowUses(wins, q) <= WindowUses(ws.windows, q)
      ensures q != op.window ==> WindowUses(wins, q) == WindowUses(ws.windows, q)
    {
      SumFilter(ws.windows, keep, WindowPanes(q));
      SumFilter(ws.windows, keep, WindowTabs(q));
      SumFilter(ws.windows, keep, WindowNamed(q));
      assert q != op.window ==> forall w :: w in ws.windows && WindowNamed(q)(w) > 0 ==> keep(w);
    }
    forall j | 0 <= j < |wins| ensures WindowOk(wins[j]) { assert wins[j] in ws.windows; }
  }

  lemma {:induction false} ClearTabsUses(tabs: seq<Tab>, q: PaneId)
    ensures Sum(ClearTabs(tabs), TabPanes(q)) == Sum(tabs, TabPanes(q))
    ensures Sum(ClearTabs(tabs), TabNamed(q)) == Sum(tabs, TabNamed(q))
  {
    forall i | 0 <= i < |tabs| ensures TabPanes(q)(ClearTabs(tabs)[i]) == TabPanes(q)(tabs[i]) {
      ClearTreeUses(tabs[i].tree, q);
    }
    SumSame(ClearTabs(tabs), tabs, TabPanes(q), TabPanes(q));
    SumSame(ClearTabs(tabs), tabs, TabNamed(q), TabNamed(q));
  }

  lemma {:induction false} ClearHistoryKeepsInv(ws: Workspace)
    requires Inv(ws)
    ensures Inv(Transition(ws, ClearHistory).value)
  {
    var wins := ClearWindows(ws.windows);
    forall q
      ensures PaneUses(wins, q) == PaneUses(ws.windows, q) && TabUses(wins, q) == TabUses(ws.windows, q)
      ensures WindowUses(wins, q) == WindowUses(ws.windows, q)
    {
      forall i | 0 <= i < |wins|
        ensures WindowPanes(q)(wins[i]) == WindowPanes(q)(ws.windows[i])
        ensures WindowTabs(q)(wins[i]) == WindowTabs(q)(ws.windows[i])
      {
        ClearTabsUses(ws.windows[i].tabs, q);
      }
      SumSame(wins, ws.windows, WindowPanes(q), WindowPanes(q));
      SumSame(wins, ws.windows, WindowTabs(q), WindowTabs(q));
      SumSame(wins, ws.windows, WindowNamed(q), WindowNamed(q));
    }
    forall i, j | 0 <= i < |wins| && 0 <= j < |wins[i].tabs| ensures TreeOk(wins[i].tabs[j].tree) {
      assert WindowOk(ws.windows[i]);
      ClearTreeUses(ws.windows[i].tabs[j].tree, "");
    }
  }

  lemma {:induction false} FocusWindowKeepsInv(ws: Workspace, op: Op)
    requires Inv(ws) && op.FocusWindow? && Transition(ws, op).Some?
    ensures Inv(Transition(ws, op).value)
  {
    var i := WindowIndex(ws.windows, op.window, 0).value;
    SumUpdate(ws.windows, i, ws.windows[i], WindowNamed(op.window));
    assert WindowUses(ws.windows, op.window) <= 1;
  }

  lemma {:induction false} NoteStateKeepsInv(ws: Workspace, op: Op)
    requires Inv(ws) && op.SetTabNoteState? && Transition(ws, op).Some?
    ensures Inv(Transition(ws, op).value)
  {
    var p := LocateIn(ws.windows, op.window, op.tab, 0).value;
    TabUpdateKeepsInv(ws, p, TabAt(ws.windows, p).(note := Some(op.note)), ws.windows[p.w].focusPane);
  }

  /** Every successful operation keeps the invariant. */
  lemma {:induction false} StepKeepsInv(ws: Workspace, op: Op)
    requires Inv(ws) && Fits(ws, op) && Transition(ws, op).Some?
    ensures Inv(Transition(ws, op).value)
  {
    match op
    case AddWindow(_, _, _) => AddWindowKeepsInv(ws, op);
    case RemoveWindow(_) => RemoveWindowKeepsInv(ws, op);
    case RenameWindow(id, title) =>
      var i := WindowIndex(ws.windows, id, 0).value;
      SameTabsKeepInv(ws, i, ws.windows[i].(name := title));
    case FocusWindow(_) => FocusWindowKeepsInv(ws, op);
    case AddTab(id, newTab, title, tree) =>
      AppendTabKeepsInv(ws, id, Tab(newTab, Titled(title, "tab"), Terminal, None, tree));
    case AddNoteTab(id, newTab, title, note) =>
      AppendTabKeepsInv(ws, id, Tab(newTab, Titled(title, "note"), Note, Some(note), Empty));
    case SetTabNoteState(_, _, _) => NoteStateKeepsInv(ws, op);
    case RemoveTab(id, tab) =>
      var i := WindowIndex(ws.windows, id, 0).value;
      RemoveTabKeepsInv(ws, i, tab, Transition(ws, op).value.windows[i]);
    case FocusTab(id, tab) =>
      var i := WindowIndex(ws.windows, id, 0).value;
      SameTabsKeepInv(ws, i, ws.windows[i].(focusTab := Some(tab)));
    case FocusPane(tab, pane) =>
      var i := FocusIndex(ws.windows, tab, pane, 0).value;
      SameTabsKeepInv(ws, i, ws.windows[i].(focusPane := Some(pane)));
    case ClearHistory => ClearHistoryKeepsInv(ws);
    case _ => PaneStepKeepsInv(ws, op);
  }

  // ---- whole runs -----------------------------------------------------------------------------

  ghost predicate CoreInv(c: Core) { c.ws.Some? ==> Inv(c.ws.value) }

  /** Every operation of the run brings along what it has to, in the state it finds. */
  ghost predicate RunFits(c: Core, ops: seq<Op>)
    decreases |ops|
  {
    ops != [] ==> (c.ws.Some? ==> Fits(c.ws.value, ops[0])) && RunFits(Apply(c, ops[0]).0, ops[1..])
  }

  /** Whatever operations are run, accepted or refused, the invariant holds at the end, and so, the
      run being arbitrary, at every point. */
  lemma {:induction false} RunKeepsInv(c: Core, ops: seq<Op>)
    requires CoreInv(c) && RunFits(c, ops)
    ensures CoreInv(Run(c, ops))
    decreases |ops|
  {
    if ops != [] {
      if c.ws.Some? && Transition(c.ws.value, ops[0]).Some? {
        StepKeepsInv(c.ws.value, ops[0]);
      }
      RunKeepsInv(Apply(c, ops[0]).0, ops[1..]);
    }
  }
}
