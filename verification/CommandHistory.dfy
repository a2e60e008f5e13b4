/** A pane's command history over whole runs of the workspace core. */
module CommandHistory {
  import opened Options
  import opened PaneTree
  import opened WorkspaceModel
  import opened WorkspaceSpec
  import opened WorkspaceInvariants
  import opened WorkspaceEffects
  import opened Sums
  import opened Collapsing

  // ---- what a history should be -----------------------------------------------------------------

  function Command(r: CommandRecord): string { r.command }

  predicate HasCommand(r: CommandRecord) { r.command != "" }

  /** The records with a command that do not repeat the command run just before. */
  function Collapsed(rs: seq<CommandRecord>): seq<CommandRecord> { Collapse(Filter(rs, HasCommand), Command) }

  /** No two adjacent records have the same command. */
  ghost predicate NoAdjacentRepeat(h: seq<CommandRecord>) {
    forall i :: 0 < i < |h| ==> h[i].command != h[i - 1].command
  }

  // ---- what adding one record at a time does ------------------------------------------------------

  function AddRecord(h: seq<CommandRecord>, r: CommandRecord): seq<CommandRecord> {
    if r.command == "" || Repeats(h, r) then h else Capped(h + [r])
  }

  function AddAll(h: seq<CommandRecord>, rs: seq<CommandRecord>): seq<CommandRecord> {
    if rs == [] then h else AddRecord(AddAll(h, rs[..|rs| - 1]), rs[|rs| - 1])
  }

  /** Starting empty, the history is the last 1000 of all records with adjacent repeats collapsed. */
  lemma {:induction false} AddAllIsCappedCollapse(rs: seq<CommandRecord>)
    ensures AddAll([], rs) == Capped(Collapsed(rs))
    ensures NoAdjacentRepeat(AddAll([], rs)) && |AddAll([], rs)| <= MAX_HISTORY
  {
    if rs != [] {
      var init, r := rs[..|rs| - 1], rs[|rs| - 1];
      AddAllIsCappedCollapse(init);
      var f := Filter(init, HasCommand);
      CappedSnoc(Collapsed(init), r);
      CollapseSnoc(f, r, Command);
      if f != [] { CollapseKeepsLast(f, Command); }
    }
    CollapseHasNoRepeat(Filter(rs, HasCommand), Command);
  }

  lemma {:induction false} CappedSnoc(h: seq<CommandRecord>, r: CommandRecord)
    ensures Capped(Capped(h) + [r]) == Capped(h + [r])
    ensures Repeats(Capped(h), r) <==> Repeats(h, r)
    ensures Capped(h + []) == Capped(h)
  {
    assert h + [] == h;
  }

  // ---- runs -----------------------------------------------------------------------------------------

  /** The history of a pane, if the workspace is open and has the pane. */
  function HistoryOf(c: Core, q: PaneId): Option<seq<CommandRecord>> {
    if c.ws.None? then None
    else
      var p := FindInWindows(c.ws.value.windows, q);
      if p.None? then None else Some(p.value.state.history)
  }

  /** Operations that clear the pane's history or put another one in its place. */
  predicate Replaces(op: Op, q: PaneId) {
    op.ClearHistory? || (op.ApplyRuntime? && op.pane == q && op.snap.history != [])
  }

  /** Those, and pins, which change the marks of a record but not its command. */
  predicate Rewrites(op: Op, q: PaneId) { Replaces(op, q) || (op.SetPinned? && op.pane == q) }

  /** The record an operation adds to the pane's history, if it is accepted. */
  function AddedRecord(c: Core, op: Op, q: PaneId): seq<CommandRecord> {
    if op.AddCommand? && op.pane == q && Apply(c, op).1 == Yes then [op.record] else []
  }

  /** The records that a run adds to the pane's history. */
  function AddedRecords(c: Core, ops: seq<Op>, q: PaneId): seq<CommandRecord>
    decreases |ops|
  {
    if ops == [] then [] else AddedRecord(c, ops[0], q) + AddedRecords(Apply(c, ops[0]).0, ops[1..], q)
  }

  /** The pane exists, in one place, throughout the run, and nothing rewrites its history. */
  ghost predicate OnlyAdds(c: Core, ops: seq<Op>, q: PaneId)
    decreases |ops|
  {
    HistoryOf(c, q).Some? && NotShared(c.ws.value, q)
    && (ops != [] ==> !Rewrites(ops[0], q) && OnlyAdds(Apply(c, ops[0]).0, ops[1..], q))
  }

  lemma {:induction false} FindInFilteredTabs(tabs: seq<Tab>, keep: Tab -> bool, q: PaneId)
    requires Sum(tabs, TabPanes(q)) <= 1 && FindInTabs(Filter(tabs, keep), q).Some?
    ensures FindInTabs(Filter(tabs, keep), q) == FindInTabs(tabs, q)
  {
    var n := |tabs| - 1;
    var init := tabs[..n];
    FoundInTabs(init, q);
    HasIsUsed(tabs[n].tree, q);
    SumFilter(init, keep, TabPanes(q));
    FoundInTabs(Filter(init, keep), q);
    if keep(tabs[n]) {
      assert Filter(tabs, keep)[..|Filter(init, keep)|] == Filter(init, keep);
    }
    if FindInTabs(Filter(init, keep), q).Some? {
      FindInFilteredTabs(init, keep, q);
    }
  }

  lemma {:induction false} FindInFilteredWindows(ws: seq<Window>, keep: Window -> bool, q: PaneId)
    requires PaneUses(ws, q) <= 1 && FindInWindows(Filter(ws, keep), q).Some?
    ensures FindInWindows(Filter(ws, keep), q) == FindInWindows(ws, q)
  {
    var n := |ws| - 1;
    var init := ws[..n];
    FoundInWindows(init, q);
    FoundInTabs(ws[n].tabs, q);
    SumFilter(init, keep, WindowPanes(q));
    FoundInWindows(Filter(init, keep), q);
    if keep(ws[n]) {
      assert Filter(ws, keep)[..|Filter(init, keep)|] == Filter(init, keep);
    }
    if FindInWindows(Filter(init, keep), q).Some? {
      FindInFilteredWindows(init, keep, q);
    }
  }

  lemma {:induction false} FindInWindowsSnoc(ws: seq<Window>, w: Window, q: PaneId)
    requires w.tabs == []
    ensures FindInWindows(ws + [w], q) == FindInWindows(ws, q)
  {
    assert (ws + [w])[..|ws|] == ws;
  }

  /** Replacing one window keeps a pane's state if the pane stays findable and is used once. */
  lemma {:induction false} KeptByWindowUpdate(ws: seq<Window>, i: nat, w: Window, q: PaneId)
    requires i < |ws| && PaneUses(ws, q) <= 1
    requires FindInTabs(ws[i].tabs, q).Some? && FindInTabs(w.tabs, q).Some? ==>
              FindInTabs(w.tabs, q) == FindInTabs(ws[i].tabs, q)
    requires FindInTabs(w.tabs, q).Some? ==> FindInTabs(ws[i].tabs, q).Some?
    requires FindInWindows(ws[i := w], q).Some?
    ensures FindInWindows(ws[i := w], q) == FindInWindows(ws, q)
  {
    FoundInTabs(ws[i].tabs, q);
    FoundInTabs(w.tabs, q);
    if FindInTabs(ws[i].tabs, q).Some? && FindInTabs(w.tabs, q).None? {
      SumUpdate(ws, i, w, WindowPanes(q));
      FoundInWindows(ws[i := w], q);
    } else {
      FindInUpdatedWindows(ws, i, w, q);
    }
  }

  lemma {:induction false} KeptByTabRemoval(ws: seq<Window>, i: nat, w: Window, tab: TabId, q: PaneId)
    requires i < |ws| && PaneUses(ws, q) <= 1 && WindowPanes(q)(ws[i]) <= PaneUses(ws, q)
    requires w.tabs == WithoutTab(ws[i].tabs, tab) && FindInWindows(ws[i := w], q).Some?
    ensures FindInWindows(ws[i := w], q) == FindInWindows(ws, q)
  {
    if FindInTabs(w.tabs, q).Some? {
      FindInFilteredTabs(ws[i].tabs, OtherTab(tab), q);
    }
    KeptByWindowUpdate(ws, i, w, q);
  }

  lemma {:induction false} AddTabKeepsPane(ws: Workspace, op: Op, q: PaneId)
    requires (op.AddTab? || op.AddNoteTab?) && Transition(ws, op).Some?
    requires PaneUses(Transition(ws, op).value.windows, q) <= 1 && FindInWindows(ws.windows, q).Some?
    ensures FindInWindows(Transition(ws, op).value.windows, q) == FindInWindows(ws.windows, q)
  {
    var wins, wins' := ws.windows, Transition(ws, op).value.windows;
    var i := WindowIndex(wins, op.window, 0).value;
    var tab := wins'[i].tabs[|wins[i].tabs|];
    FoundInWindows(wins, q);
    HasIsUsed(tab.tree, q);
    SumSnoc(wins[i].tabs, tab, TabPanes(q));
    SumUpdate(wins, i, wins'[i], WindowPanes(q));
    assert wins'[i].tabs[..|wins[i].tabs|] == wins[i].tabs;
    FindInUpdatedWindows(wins, i, wins'[i], q);
  }

  lemma {:induction false} RemoveTabKeepsPane(ws: Workspace, op: Op, q: PaneId)
    requires op.RemoveTab? && Transition(ws, op).Some? && PaneUses(ws.windows, q) <= 1
    requires FindInWindows(Transition(ws, op).value.windows, q).Some?
    ensures FindInWindows(Transition(ws, op).value.windows, q) == FindInWindows(ws.windows, q)
  {
    var wins, wins' := ws.windows, Transition(ws, op).value.windows;
    var i := WindowIndex(wins, op.window, 0).value;
    SumUpdate(wins, i, wins[i], WindowPanes(q));
    KeptByTabRemoval(wins, i, wins'[i], op.tab, q);
  }

  lemma {:induction false} NoteKeepsPane(ws: Workspace, op: Op, q: PaneId)
    requires op.SetTabNoteState? && Transition(ws, op).Some?
    ensures FindInWindows(Transition(ws, op).value.windows, q) == FindInWindows(ws.windows, q)
  {
    var wins, wins' := ws.windows, Transition(ws, op).value.windows;
    var p := LocateIn(wins, op.window, op.tab, 0).value;
    FindInUpdatedTabs(wins[p.w].tabs, p.t, wins'[p.w].tabs[p.t], q);
    FindInUpdatedWindows(wins, p.w, wins'[p.w], q);
  }

  /** Names and focus are no part of a pane's state. */
  lemma {:induction false} LabelsKeepPane(ws: Workspace, op: Op, q: PaneId)
    requires (op.RenameWindow? || op.FocusTab? || op.FocusPane?) && Transition(ws, op).Some?
    ensures FindInWindows(Transition(ws, op).value.windows, q) == FindInWindows(ws.windows, q)
  {
    var wins, wins' := ws.windows, Transition(ws, op).value.windows;
    var i :=
      if op.FocusPane? then FocusIndex(wins, op.tab, op.pane, 0).value else WindowIndex(wins, op.window, 0).value;
    FindInUpdatedWindows(wins, i, wins'[i], q);
  }

  /** Windows come and go, or get the focus. */
  lemma {:induction false} WindowsKeepPane(ws: Workspace, op: Op, q: PaneId)
    requires (op.AddWindow? || op.RemoveWindow? || op.FocusWindow?) && Transition(ws, op).Some?
    requires PaneUses(ws.windows, q) <= 1 && FindInWindows(Transition(ws, op).value.windows, q).Some?
    ensures FindInWindows(Transition(ws, op).value.windows, q) == FindInWindows(ws.windows, q)
  {
    var wins, wins' := ws.windows, Transition(ws, op).value.windows;
    if op.AddWindow? {
      FindInWindowsSnoc(wins, wins'[|wins|], q);
    } else if op.RemoveWindow? {
      FindInFilteredWindows(wins, OtherWindow(op.window), q);
    }
  }

  /** Structural operations leave the state of a pane alone as long as the pane stays. */
  lemma {:induction false} StructureKeepsPane(ws: Workspace, op: Op, q: PaneId)
    requires Inv(ws) && Fits(ws, op) && Transition(ws, op).Some? && !TargetsPane(op) && !op.ClearHistory?
    requires NotShared(ws, q) && NotShared(Transition(ws, op).value, q)
    requires FindInWindows(ws.windows, q).Some? && FindInWindows(Transition(ws, op).value.windows, q).Some?
    ensures FindInWindows(Transition(ws, op).value.windows, q) == FindInWindows(ws.windows, q)
  {
    hide Transition, Fits, WindowOk;
    assert PaneUses(ws.windows, q) <= 1;
    match op
    case AddWindow(_, _, _) => WindowsKeepPane(ws, op, q);
    case RemoveWindow(_) => WindowsKeepPane(ws, op, q);
    case FocusWindow(_) => WindowsKeepPane(ws, op, q);
    case AddTab(_, _, _, _) =>
      StepKeepsInv(ws, op);
      AddTabKeepsPane(ws, op, q);
    case AddNoteTab(_, _, _, _) =>
      StepKeepsInv(ws, op);
      AddTabKeepsPane(ws, op, q);
    case RemoveTab(_, _) => RemoveTabKeepsPane(ws, op, q);
    case SetTabNoteState(_, _, _) => NoteKeepsPane(ws, op, q);
    case _ => LabelsKeepPane(ws, op, q);
  }

  /** One operation: the history gets the added record, or stays. */
  lemma {:induction false} StepHistory(c: Core, op: Op, q: PaneId)
    requires CoreInv(c) && (c.ws.Some? ==> Fits(c.ws.value, op))
    requires HistoryOf(c, q).Some? && HistoryOf(Apply(c, op).0, q).Some? && !Rewrites(op, q)
    requires NotShared(c.ws.value, q) && NotShared(Apply(c, op).0.ws.value, q)
    ensures HistoryOf(Apply(c, op).0, q).value == AddAll(HistoryOf(c, q).value, AddedRecord(c, op, q))
  {
    var ws := c.ws.value;
    var h := HistoryOf(c, q).value;
    if op.AddCommand? {
      assert AddAll(h, [op.record]) == AddRecord(h, op.record) by {
        assert [op.record][..0] == [];
      }
    }
    if IsRepeat(ws, op) {
      if op.pane == q {
        var p := Locate(ws.windows, op.tab, 0).value;
        assert PaneUses(ws.windows, q) <= 1;
        OnlyPlace(ws.windows, p, q);
      }
    } else if Transition(ws, op).Some? {
      if !TargetsPane(op) {
        StructureKeepsPane(ws, op, q);
      } else if !Affects(op, q) {
        OthersUntouched(ws, op, q);
      } else if ChangesState(op) {
        StateIsSet(ws, op);
        if op.AddCommand? {
          NotRepeating(ws, op);
        }
      } else if op.SplitPane? {
        FoundInWindows(ws.windows, q);
      } else {
        RemovedIsGone(ws, op);
      }
    }
  }

  lemma {:induction false} NotRepeating(ws: Workspace, op: Op)
    requires Inv(ws) && op.AddCommand? && NotShared(ws, op.pane) && Transition(ws, op).Some? && !IsRepeat(ws, op)
    ensures FindInWindows(ws.windows, op.pane).Some?
    ensures !Repeats(FindInWindows(ws.windows, op.pane).value.state.history, op.record)
  {
    var p := Locate(ws.windows, op.tab, 0).value;
    assert PaneUses(ws.windows, op.pane) <= 1;
    OnlyPlace(ws.windows, p, op.pane);
  }

  /** Removing takes away exactly one pane: it is not found any more if and only if it was in one place. */
  lemma {:induction false} RemovedIsGone(ws: Workspace, op: Op)
    requires op.RemovePane? && Transition(ws, op).Some?
    ensures var ws' := Transition(ws, op).value;
            && PaneUses(ws'.windows, op.pane) == PaneUses(ws.windows, op.pane) - 1
            && (FindInWindows(ws'.windows, op.pane) == None <==> PaneUses(ws.windows, op.pane) == 1)
  {
    var p, wins' := Locate(ws.windows, op.tab, 0).value, Transition(ws, op).value.windows;
    var w, t := ws.windows[p.w], TabAt(ws.windows, p);
    var q := op.pane;
    RemoveUses(t.tree, q, q);
    SumUpdate(w.tabs, p.t, wins'[p.w].tabs[p.t], TabPanes(q));
    SumUpdate(ws.windows, p.w, wins'[p.w], WindowPanes(q));
    FoundInWindows(wins', q);
  }

  lemma {:induction false} AddAllConcat(h: seq<CommandRecord>, a: seq<CommandRecord>, b: seq<CommandRecord>)
    ensures AddAll(h, a + b) == AddAll(AddAll(h, a), b)
  {
    if b == [] {
      assert a + b == a;
    } else {
      assert (a + b)[..|a + b| - 1] == a + b[..|b| - 1];
      AddAllConcat(h, a, b[..|b| - 1]);
    }
  }

  /** Over any run of operations of any kind on any panes, a pane's history is what results from
      adding, one by one, the records accepted for that pane, in order. */
  lemma {:induction false} RunHistory(c: Core, ops: seq<Op>, q: PaneId)
    requires CoreInv(c) && RunFits(c, ops) && OnlyAdds(c, ops, q)
    ensures HistoryOf(Run(c, ops), q) == Some(AddAll(HistoryOf(c, q).value, AddedRecords(c, ops, q)))
    decreases |ops|
  {
    var h := HistoryOf(c, q).value;
    if ops != [] {
      var c' := Apply(c, ops[0]).0;
      RunKeepsInv(c, [ops[0]]);
      assert CoreInv(c') by { RunOne(c, ops[0]); }
      assert OnlyAdds(c', ops[1..], q);
      StepHistory(c, ops[0], q);
      RunHistory(c', ops[1..], q);
      AddAllConcat(h, AddedRecord(c, ops[0], q), AddedRecords(c', ops[1..], q));
    }
  }

  lemma {:induction false} RunOne(c: Core, op: Op)
    ensures Run(c, [op]) == Apply(c, op).0
  {
    assert [op][1..] == [];
  }

  /** In particular, a pane that starts with an empty history ends with the last 1000 of the records
      accepted for it, adjacent repeats collapsed to their first record. */
  lemma {:induction false} RunHistoryFromEmpty(c: Core, ops: seq<Op>, q: PaneId)
    requires CoreInv(c) && RunFits(c, ops) && OnlyAdds(c, ops, q) && HistoryOf(c, q) == Some([])
    ensures HistoryOf(Run(c, ops), q) == Some(Capped(Collapsed(AddedRecords(c, ops, q))))
  {
    RunHistory(c, ops, q);
    AddAllIsCappedCollapse(AddedRecords(c, ops, q));
  }

  // ---- runs that also pin -------------------------------------------------------------------------

  function Commands(h: seq<CommandRecord>): seq<string> { seq(|h|, i requires 0 <= i < |h| => h[i].command) }

  /** The pane exists, in one place, throughout the run, and its history is neither cleared nor replaced. */
  ghost predicate AddsOrPins(c: Core, ops: seq<Op>, q: PaneId)
    decreases |ops|
  {
    HistoryOf(c, q).Some? && NotShared(c.ws.value, q)
    && (ops != [] ==> !Replaces(ops[0], q) && AddsOrPins(Apply(c, ops[0]).0, ops[1..], q))
  }

  lemma {:induction false} PinKeepsCommands(h: seq<CommandRecord>, command: string, pinned: bool)
    requires Pin(h, command, pinned).Some?
    ensures Commands(Pin(h, command, pinned).value) == Commands(h)
  {
    if h[|h| - 1].command != command {
      var init := h[..|h| - 1];
      PinKeepsCommands(init, command, pinned);
      assert Commands(h) == Commands(init) + [h[|h| - 1].command];
    }
  }

  /** Whether a record is added depends on the commands only. */
  lemma {:induction false} AddAllByCommands(a: seq<CommandRecord>, b: seq<CommandRecord>, rs: seq<CommandRecord>)
    requires Commands(a) == Commands(b)
    ensures Commands(AddAll(a, rs)) == Commands(AddAll(b, rs))
  {
    if rs != [] {
      AddAllByCommands(a, b, rs[..|rs| - 1]);
      AddByCommands(AddAll(a, rs[..|rs| - 1]), AddAll(b, rs[..|rs| - 1]), rs[|rs| - 1]);
    }
  }

  lemma {:induction false} AddByCommands(a: seq<CommandRecord>, b: seq<CommandRecord>, r: CommandRecord)
    requires Commands(a) == Commands(b)
    ensures Commands(AddRecord(a, r)) == Commands(AddRecord(b, r))
  {
    assert |a| == |Commands(a)| == |b|;
    forall i | 0 <= i < |a| ensures a[i].command == b[i].command {
      assert Commands(a)[i] == Commands(b)[i];
    }
  }

  /** One operation: the commands get the added one, or stay, also when a record is pinned. */
  lemma {:induction false} StepCommands(c: Core, op: Op, q: PaneId)
    requires CoreInv(c) && (c.ws.Some? ==> Fits(c.ws.value, op))
    requires HistoryOf(c, q).Some? && HistoryOf(Apply(c, op).0, q).Some? && !Replaces(op, q)
    requires NotShared(c.ws.value, q) && NotShared(Apply(c, op).0.ws.value, q)
    ensures Commands(HistoryOf(Apply(c, op).0, q).value) ==
              Commands(AddAll(HistoryOf(c, q).value, AddedRecord(c, op, q)))
  {
    hide Transition, Commands;
    if !Rewrites(op, q) {
      StepHistory(c, op, q);
    } else if Transition(c.ws.value, op).Some? {
      StateIsSet(c.ws.value, op);
      PinKeepsCommands(HistoryOf(c, q).value, op.command, op.pinned);
    }
  }

  /** Over any run that neither clears nor replaces a pane's history, its commands are what results from
      adding the records accepted for that pane, whatever is pinned in between. */
  lemma {:induction false} RunCommands(c: Core, ops: seq<Op>, q: PaneId)
    requires CoreInv(c) && RunFits(c, ops) && AddsOrPins(c, ops, q)
    ensures HistoryOf(Run(c, ops), q).Some?
    ensures Commands(HistoryOf(Run(c, ops), q).value) ==
              Commands(AddAll(HistoryOf(c, q).value, AddedRecords(c, ops, q)))
    decreases |ops|
  {
    hide Commands, Apply, CoreInv, NotShared, AddAll;
    var h := HistoryOf(c, q).value;
    if ops != [] {
      var c' := Apply(c, ops[0]).0;
      assert CoreInv(c') by {
        RunKeepsInv(c, [ops[0]]);
        RunOne(c, ops[0]);
      }
      assert AddsOrPins(c', ops[1..], q);
      var added, rest := AddedRecord(c, ops[0], q), AddedRecords(c', ops[1..], q);
      StepCommands(c, ops[0], q);
      RunCommands(c', ops[1..], q);
      AddAllByCommands(HistoryOf(c', q).value, AddAll(h, added), rest);
      AddAllConcat(h, added, rest);
    } else {
      assert AddAll(h, []) == h by { AddAllOfNone(h); }
    }
  }

  lemma {:induction false} AddAllOfNone(h: seq<CommandRecord>)
    ensures AddAll(h, []) == h
  {
  }

  /** In particular, a pane that starts with an empty history ends with the commands of the last 1000 of
      its records, adjacent repeats collapsed. */
  lemma {:induction false} RunCommandsFromEmpty(c: Core, ops: seq<Op>, q: PaneId)
    requires CoreInv(c) && RunFits(c, ops) && AddsOrPins(c, ops, q) && HistoryOf(c, q) == Some([])
    ensures HistoryOf(Run(c, ops), q).Some?
    ensures Commands(HistoryOf(Run(c, ops), q).value) == Commands(Capped(Collapsed(AddedRecords(c, ops, q))))
  {
    RunCommands(c, ops, q);
    AddAllIsCappedCollapse(AddedRecords(c, ops, q));
  }
}
