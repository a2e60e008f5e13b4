/** What the operations of the workspace core do to single panes and to their command histories. */
module WorkspaceEffects {
  import opened Options
  import opened PaneTree
  import opened WorkspaceModel
  import opened WorkspaceSpec
  import opened WorkspaceInvariants
  import opened Sums

  // ---- other panes are untouched --------------------------------------------------------------

  lemma {:induction false} SplitFinds(t: Tree, at: PaneId, kind: SplitKind, ratio: real, pane: Pane, q: PaneId)
    requires Has(t, at) && q != pane.id
    ensures Find(SplitAt(t, at, kind, ratio, pane), q) == Find(t, q)
  {
    if t.Split? {
      var c := if Has(t.first, at) then t.first else t.second;
      SplitFinds(c, at, kind, ratio, pane, q);
      SplitHas(c, at, kind, ratio, pane, q);
    }
  }

  lemma {:induction false} SetRatioFinds(t: Tree, id: PaneId, ratio: real, q: PaneId)
    ensures Find(SetRatio(t, id, ratio), q) == Find(t, q)
  {
    if t.Split? {
      SetRatioFinds(t.first, id, ratio, q);
      SetRatioFinds(t.second, id, ratio, q);
      SetRatioKeepsLeaves(t.first, id, ratio, q);
    }
  }

  /** The pane whose state or presence an operation may change. */
  predicate Affects(op: Op, q: PaneId) {
    if op.SplitPane? then op.newPane == q else (op.RemovePane? || ChangesState(op)) && op.pane == q
  }

  lemma {:induction false} TabStepFinds(w: Window, t: Tab, op: Op, q: PaneId)
    requires TargetsPane(op) && TabStep(w, t, op).Some? && !Affects(op, q)
    ensures Find(TabStep(w, t, op).value.0.tree, q) == Find(t.tree, q)
  {
    if op.SplitPane? {
      var pane := Pane(op.newPane, BLANK_STATE);
      if Has(t.tree, FocusId(w)) { SplitFinds(t.tree, FocusId(w), op.kind, op.ratio, pane, q); }
      if Has(t.tree, "") { SplitFinds(t.tree, "", op.kind, op.ratio, pane, q); }
    } else if op.RemovePane? {
      RemoveKeepsOthers(t.tree, op.pane, q);
    } else if op.SetPaneRatio? {
      SetRatioFinds(t.tree, op.pane, op.ratio, q);
    } else {
      WithStateKeepsOthers(t.tree, op.pane, NewState(Find(t.tree, op.pane).value.state, op).value, q);
    }
  }

  lemma {:induction false} FindInUpdatedTabs(tabs: seq<Tab>, i: nat, t: Tab, q: PaneId)
    requires i < |tabs| && Find(t.tree, q) == Find(tabs[i].tree, q)
    ensures FindInTabs(tabs[i := t], q) == FindInTabs(tabs, q)
  {
    var n := |tabs| - 1;
    if i < n {
      FindInUpdatedTabs(tabs[..n], i, t, q);
      assert tabs[i := t][..n] == tabs[..n][i := t];
    } else {
      assert tabs[i := t][..n] == tabs[..n];
    }
  }

  lemma {:induction false} FindInUpdatedWindows(ws: seq<Window>, i: nat, w: Window, q: PaneId)
    requires i < |ws| && FindInTabs(w.tabs, q) == FindInTabs(ws[i].tabs, q)
    ensures FindInWindows(ws[i := w], q) == FindInWindows(ws, q)
  {
    var n := |ws| - 1;
    if i < n {
      FindInUpdatedWindows(ws[..n], i, w, q);
      assert ws[i := w][..n] == ws[..n][i := w];
    } else {
      assert ws[i := w][..n] == ws[..n];
    }
  }

  /** An operation on one pane leaves every other pane of the workspace as it is. */
  lemma {:induction false} OthersUntouched(ws: Workspace, op: Op, q: PaneId)
    requires TargetsPane(op) && Transition(ws, op).Some? && !Affects(op, q)
    ensures FindInWindows(Transition(ws, op).value.windows, q) == FindInWindows(ws.windows, q)
  {
    var p := Locate(ws.windows, op.tab, 0).value;
    var w, t := ws.windows[p.w], TabAt(ws.windows, p);
    TabStepFinds(w, t, op, q);
    FindInUpdatedTabs(w.tabs, p.t, TabStep(w, t, op).value.0, q);
    FindInUpdatedWindows(ws.windows, p.w, Transition(ws, op).value.windows[p.w], q);
  }

  // ---- the addressed pane -----------------------------------------------------------------------

  lemma {:induction false} FoundInTabs(tabs: seq<Tab>, q: PaneId)
    ensures FindInTabs(tabs, q).Some? <==> Sum(tabs, TabPanes(q)) > 0
  {
    if tabs != [] {
      FoundInTabs(tabs[..|tabs| - 1], q);
      HasIsUsed(tabs[|tabs| - 1].tree, q);
    }
  }

  lemma {:induction false} FoundInWindows(ws: seq<Window>, q: PaneId)
    ensures FindInWindows(ws, q).Some? <==> PaneUses(ws, q) > 0
  {
    if ws != [] {
      FoundInWindows(ws[..|ws| - 1], q);
      FoundInTabs(ws[|ws| - 1].tabs, q);
    }
  }

  lemma {:induction false} OnlyTab(tabs: seq<Tab>, i: nat, q: PaneId)
    requires i < |tabs| && Has(tabs[i].tree, q) && Sum(tabs, TabPanes(q)) <= 1
    ensures FindInTabs(tabs, q) == Find(tabs[i].tree, q)
  {
    var n := |tabs| - 1;
    HasIsUsed(tabs[i].tree, q);
    FoundInTabs(tabs[..n], q);
    if i < n {
      OnlyTab(tabs[..n], i, q);
    }
  }

  lemma {:induction false} OnlyWindow(ws: seq<Window>, i: nat, q: PaneId)
    requires i < |ws| && WindowPanes(q)(ws[i]) > 0 && PaneUses(ws, q) <= 1
    ensures FindInWindows(ws, q) == FindInTabs(ws[i].tabs, q)
  {
    var n := |ws| - 1;
    FoundInTabs(ws[i].tabs, q);
    FoundInWindows(ws[..n], q);
    if i < n {
      OnlyWindow(ws[..n], i, q);
    }
  }

  /** Where ids are unique, a pane found in some tab is the one found in the workspace. */
  lemma {:induction false} OnlyPlace(ws: seq<Window>, p: Place, q: PaneId)
    requires IsPlace(ws, p) && Has(TabAt(ws, p).tree, q) && PaneUses(ws, q) <= 1
    ensures FindInWindows(ws, q) == Find(TabAt(ws, p).tree, q)
  {
    var w := ws[p.w];
    HasIsUsed(w.tabs[p.t].tree, q);
    SumUpdate(w.tabs, p.t, w.tabs[p.t], TabPanes(q));
    SumUpdate(ws, p.w, w, WindowPanes(q));
    OnlyWindow(ws, p.w, q);
    OnlyTab(w.tabs, p.t, q);
  }

  /** An operation on a pane's state gives the pane of that tab the state it computes. */
  lemma {:induction false} StateIsSetInTab(ws: Workspace, op: Op)
    requires ChangesState(op) && Transition(ws, op).Some?
    ensures var p := Locate(ws.windows, op.tab, 0).value;
            var pane, ws' := Find(TabAt(ws.windows, p).tree, op.pane), Transition(ws, op).value;
            && pane.Some? && NewState(pane.value.state, op).Some? && IsPlace(ws'.windows, p)
            && Find(TabAt(ws'.windows, p).tree, op.pane) == Some(Pane(op.pane, NewState(pane.value.state, op).value))
  {
    var t := TabAt(ws.windows, Locate(ws.windows, op.tab, 0).value).tree;
    WithStateKeepsOthers(t, op.pane, NewState(Find(t, op.pane).value.state, op).value, op.pane);
  }

  /** The pane is found in one place only. In a well-formed workspace only blank panes can be in several. */
  ghost predicate NotShared(ws: Workspace, q: PaneId) { q == "" ==> PaneUses(ws.windows, "") <= 1 }

  /** Where the pane is in one place only, it is found with that state in the workspace. */
  lemma {:induction false} StateIsSet(ws: Workspace, op: Op)
    requires Inv(ws) && ChangesState(op) && NotShared(ws, op.pane) && Transition(ws, op).Some?
    ensures FindInWindows(ws.windows, op.pane).Some?
    ensures NewState(FindInWindows(ws.windows, op.pane).value.state, op).Some?
    ensures FindInWindows(Transition(ws, op).value.windows, op.pane)
         == Some(Pane(op.pane, NewState(FindInWindows(ws.windows, op.pane).value.state, op).value))
  {
    var p := Locate(ws.windows, op.tab, 0).value;
    StateIsSetInTab(ws, op);
    assert PaneUses(ws.windows, op.pane) <= 1;
    OnlyPlace(ws.windows, p, op.pane);
    PaneStepUses(ws, op, op.pane);
    OnlyPlace(Transition(ws, op).value.windows, p, op.pane);
  }

  // ---- split and remove ---------------------------------------------------------------------------

  /** Whether a split request finds something to split. */
  predicate CanSplit(w: Window, t: Tree) { t.Leaf? || Has(t, FocusId(w)) || Has(t, "") }

  /** Splitting answers the id of a pane that exists afterwards if and only if the tab is a bare pane,
      or holds the window's focused pane, or holds a pane with the empty id. The window's focus moves
      to the answered id in either case. */
  lemma {:induction false} SplitAddsPane(ws: Workspace, op: Op)
    requires Inv(ws) && Fits(ws, op) && op.SplitPane? && Transition(ws, op).Some?
    ensures var p, ws' := Locate(ws.windows, op.tab, 0).value, Transition(ws, op).value;
            && (FindInWindows(ws'.windows, op.newPane).Some? <==> CanSplit(ws.windows[p.w], TabAt(ws.windows, p).tree))
            && ws'.windows[p.w].focusPane == Some(op.newPane)
  {
    var p, ws' := Locate(ws.windows, op.tab, 0).value, Transition(ws, op).value;
    var w, t := ws.windows[p.w], TabAt(ws.windows, p).tree;
    var pane := Pane(op.newPane, BLANK_STATE);
    var t' := TabAt(ws'.windows, p).tree;
    if Has(t, FocusId(w)) { SplitHas(t, FocusId(w), op.kind, op.ratio, pane, op.newPane); }
    if Has(t, "") { SplitHas(t, "", op.kind, op.ratio, pane, op.newPane); }
    if CanSplit(w, t) {
      StepKeepsInv(ws, op);
      assert PaneUses(ws'.windows, op.newPane) <= 1;
      OnlyPlace(ws'.windows, p, op.newPane);
    } else {
      FoundInWindows(ws.windows, op.newPane);
      FoundInUnchangedTab(ws, op, p);
    }
  }

  /** A window, a tab with two panes of which none is focused, and a split: the answered id is in no tree. */
  lemma {:induction false} SplitWithoutFocus(ws: Workspace)
    requires ws.windows == []
    ensures var ops := [AddWindow("w", "window", 0),
                        AddTab("w", "t", "tab", Split(Vertical, 0.5, Leaf(Pane("a", BLANK_STATE)),
                                                      Leaf(Pane("b", BLANK_STATE)))),
                        SplitPane("t", Vertical, 0.5, "c")];
            var c := Run(Core(Some(ws), false), ops[..2]);
            && Apply(c, ops[2]).1 == Yes && Apply(c, ops[2]).0.ws.Some?
            && FindInWindows(Apply(c, ops[2]).0.ws.value.windows, "c") == None
            && |Apply(c, ops[2]).0.ws.value.windows| == 1
              && Apply(c, ops[2]).0.ws.value.windows[0].focusPane == Some("c")
  {
    var tree := Split(Vertical, 0.5, Leaf(Pane("a", BLANK_STATE)), Leaf(Pane("b", BLANK_STATE)));
    var ops := [AddWindow("w", "window", 0), AddTab("w", "t", "tab", tree), SplitPane("t", Vertical, 0.5, "c")];
    var c0 := Core(Some(ws), false);
    var c1 := Apply(c0, ops[0]).0;
    var c2 := Apply(c1, ops[1]).0;
    assert ops[..2][1..] == [ops[1]] && [ops[1]][1..] == [];
    assert Run(c0, ops[..2]) == Run(c1, [ops[1]]) == Run(c2, []) == c2;
    var w := Window("w", "window", 0, 0, 0, 0, 0, 0, [], None, None);
    var t := Tab("t", "tab", Terminal, None, tree);
    assert c1.ws.value.windows == [w];
    var w2 := w.(tabs := [t], focusTab := Some("t"));
    assert WindowIndex([w], "w", 0) == Some(0) && [] + [t] == [t] && [w][0 := w2] == [w2];
    assert c2.ws.value.windows == [w2];
    MissedSplit(c2.ws.value, w2, t, ops[2]);
  }

  lemma {:induction false} MissedSplit(ws: Workspace, w: Window, t: Tab, op: Op)
    requires ws.windows == [w] && w.tabs == [t] && w.focusPane == None && t.id == "t"
    requires t.tree == Split(Vertical, 0.5, Leaf(Pane("a", BLANK_STATE)), Leaf(Pane("b", BLANK_STATE)))
    requires op == SplitPane("t", Vertical, 0.5, "c")
    ensures Transition(ws, op).Some? && FindInWindows(Transition(ws, op).value.windows, "c") == None
    ensures |Transition(ws, op).value.windows| == 1 && Transition(ws, op).value.windows[0].focusPane == Some("c")
  {
    assert TabIndex([t], "t", 0) == Some(0);
    assert Locate([w], "t", 0) == Some(Place(0, 0));
    assert !CanSplit(w, t.tree);
    FoundInUnchangedTab(ws, op, Place(0, 0));
    assert FindInTabs([t], "c") == None by { assert [t][..0] == []; }
    assert FindInWindows([w], "c") == None by { assert [w][..0] == []; }
  }

  lemma {:induction false} FoundInUnchangedTab(ws: Workspace, op: Op, p: Place)
    requires op.SplitPane? && Locate(ws.windows, op.tab, 0) == Some(p)
    requires !CanSplit(ws.windows[p.w], TabAt(ws.windows, p).tree)
    ensures FindInWindows(Transition(ws, op).value.windows, op.newPane) == FindInWindows(ws.windows, op.newPane)
  {
    var w := ws.windows[p.w];
    FindInUpdatedTabs(w.tabs, p.t, TabStep(w, w.tabs[p.t], op).value.0, op.newPane);
    FindInUpdatedWindows(ws.windows, p.w, Transition(ws, op).value.windows[p.w], op.newPane);
  }

  lemma {:induction false} RemoveUndoesSplitTree(w: Window, t: Tree, op: Op)
    requires op.SplitPane? && TreeOk(t) && CanSplit(w, t) && !Has(t, op.newPane)
    ensures var s := SplitTree(w, t, op.kind, op.ratio, op.newPane);
            Has(s, op.newPane) && Remove(s, op.newPane) == t
  {
    var pane := Pane(op.newPane, BLANK_STATE);
    if !t.Leaf? {
      var at := if Has(t, FocusId(w)) then FocusId(w) else "";
      SplitHas(t, at, op.kind, op.ratio, pane, op.newPane);
      RemoveUndoesSplit(t, at, op.kind, op.ratio, pane);
    }
  }

  /** Removing the pane a split has added restores every tree; only the window's pane focus is lost. */
  lemma {:induction false} RemoveUndoesSplitPane(ws: Workspace, op: Op, p: Place)
    requires Inv(ws) && Fits(ws, op) && op.SplitPane? && Locate(ws.windows, op.tab, 0) == Some(p)
    requires CanSplit(ws.windows[p.w], TabAt(ws.windows, p).tree)
    ensures Transition(Transition(ws, op).value, RemovePane(op.tab, op.newPane)) ==
              Some(ws.(windows := ws.windows[p.w := ws.windows[p.w].(focusPane := None)]))
  {
    hide Remove, SplitTree, CanSplit, Locate;
    var ws' := Transition(ws, op).value;
    var w, t := ws.windows[p.w], TabAt(ws.windows, p);
    assert !Has(t.tree, op.newPane) by {
      HasIsUsed(t.tree, op.newPane);
      SumUpdate(w.tabs, p.t, t, TabPanes(op.newPane));
      SumUpdate(ws.windows, p.w, w, WindowPanes(op.newPane));
    }
    assert TreeOk(t.tree) by { assert WindowOk(w); }
    RemoveUndoesSplitTree(w, t.tree, op);
    LocateAfterUpdate(ws.windows, ws'.windows, op.tab, 0);
    UndoneUpdates(ws.windows, p, TabAt(ws'.windows, p), Some(op.newPane));
  }

  /** Putting a tab back where it was replaced leaves only the changed pane focus. */
  lemma {:induction false} UndoneUpdates(ws: seq<Window>, p: Place, t: Tab, focus: Option<PaneId>)
    requires IsPlace(ws, p)
    ensures var w := ws[p.w];
            var w' := w.(tabs := w.tabs[p.t := t], focusPane := focus);
            ws[p.w := w'][p.w := w'.(tabs := w'.tabs[p.t := w.tabs[p.t]], focusPane := None)]
              == ws[p.w := w.(focusPane := None)]
  {
    var w := ws[p.w];
    assert w.tabs[p.t := t][p.t := w.tabs[p.t]] == w.tabs;
  }

  lemma {:induction false} TabIndexAfterUpdate(a: seq<Tab>, b: seq<Tab>, id: TabId, from: nat)
    requires |a| == |b| && from <= |a| && forall i :: 0 <= i < |a| ==> a[i].id == b[i].id
    ensures TabIndex(a, id, from) == TabIndex(b, id, from)
    decreases |a| - from
  {
    if from < |a| && a[from].id != id {
      TabIndexAfterUpdate(a, b, id, from + 1);
    }
  }

  lemma {:induction false} LocateAfterUpdate(a: seq<Window>, b: seq<Window>, id: TabId, from: nat)
    requires |a| == |b| && from <= |a|
    requires forall i :: 0 <= i < |a| ==> |a[i].tabs| == |b[i].tabs|
    requires forall i, j :: 0 <= i < |a| && 0 <= j < |a[i].tabs| ==> a[i].tabs[j].id == b[i].tabs[j].id
    ensures Locate(a, id, from) == Locate(b, id, from)
    decreases |a| - from
  {
    if from < |a| {
      TabIndexAfterUpdate(a[from].tabs, b[from].tabs, id, 0);
      LocateAfterUpdate(a, b, id, from + 1);
    }
  }
}
