/** The command history of the whole workspace: a view over the histories of all panes. */
module AggregatedHistory {
  import opened Options
  import opened PaneTree
  import opened WorkspaceModel
  import opened WorkspaceInvariants
  import opened WorkspaceEffects
  import opened Sums

  /** One command with its provenance. */
  datatype HistoryEntry = HistoryEntry(window: WindowId, tab: TabId, pane: PaneId, record: CommandRecord)

  function PaneEntries(w: WindowId, t: TabId, pane: PaneId, h: seq<CommandRecord>): (r: seq<HistoryEntry>) {
    seq(|h|, i requires 0 <= i < |h| => HistoryEntry(w, t, pane, h[i]))
  }

  function LeafEntries(w: WindowId, t: TabId, panes: seq<Pane>): seq<HistoryEntry> {
    if panes == [] then []
    else
      var last := panes[|panes| - 1];
      LeafEntries(w, t, panes[..|panes| - 1]) + PaneEntries(w, t, last.id, last.state.history)
  }

  function TabEntries(w: WindowId, tabs: seq<Tab>): seq<HistoryEntry> {
    if tabs == [] then []
    else TabEntries(w, tabs[..|tabs| - 1]) + LeafEntries(w, tabs[|tabs| - 1].id, Leaves(tabs[|tabs| - 1].tree))
  }

  function WindowEntries(ws: seq<Window>): seq<HistoryEntry> {
    if ws == [] then [] else WindowEntries(ws[..|ws| - 1]) + TabEntries(ws[|ws| - 1].id, ws[|ws| - 1].tabs)
  }

  method CollectTab(w: WindowId, t: Tab, out: seq<HistoryEntry>) returns (r: seq<HistoryEntry>)
    ensures r == out + LeafEntries(w, t.id, Leaves(t.tree))
  {
    r := out;
    var panes := Leaves(t.tree);
    for k := 0 to |panes|
      invariant r == out + LeafEntries(w, t.id, panes[..k])
    {
      ghost var before := LeafEntries(w, t.id, panes[..k]);
      var h := panes[k].state.history;
      ghost var start := r;
      for i := 0 to |h|
        invariant r == start + PaneEntries(w, t.id, panes[k].id, h[..i])
      {
        r := r + [HistoryEntry(w, t.id, panes[k].id, h[i])];
      }
      assert h[..|h|] == h;
      assert panes[..k + 1][..k] == panes[..k];
      assert out + (before + PaneEntries(w, t.id, panes[k].id, h)) == start + PaneEntries(w, t.id, panes[k].id, h);
    }
    assert panes[..|panes|] == panes;
  }

  /** Every command of every pane, in window, tab, pane and command order. */
  method AggregateCommandHistory(ws: seq<Window>) returns (out: seq<HistoryEntry>)
    ensures out == WindowEntries(ws)
  {
    out := [];
    for i := 0 to |ws|
      invariant out == WindowEntries(ws[..i])
    {
      var w := ws[i];
      ghost var before := out;
      for j := 0 to |w.tabs|
        invariant out == before + TabEntries(w.id, w.tabs[..j])
      {
        ghost var inner := TabEntries(w.id, w.tabs[..j]);
        out := CollectTab(w.id, w.tabs[j], out);
        assert w.tabs[..j + 1][..j] == w.tabs[..j];
        assert before + (inner + LeafEntries(w.id, w.tabs[j].id, Leaves(w.tabs[j].tree))) == out;
      }
      assert w.tabs[..|w.tabs|] == w.tabs;
      assert ws[..i + 1][..i] == ws[..i];
    }
    assert ws[..|ws|] == ws;
  }

  // ---- reading one pane's history off the aggregate ---------------------------------------------------

  /** The records of one pane, in order. */
  function OfPane(es: seq<HistoryEntry>, q: PaneId): seq<CommandRecord> {
    if es == [] then []
    else OfPane(es[..|es| - 1], q) + if es[|es| - 1].pane == q then [es[|es| - 1].record] else []
  }

  lemma {:induction false} OfPaneConcat(a: seq<HistoryEntry>, b: seq<HistoryEntry>, q: PaneId)
    ensures OfPane(a + b, q) == OfPane(a, q) + OfPane(b, q)
  {
    if b == [] {
      assert a + b == a;
    } else {
      assert (a + b)[..|a + b| - 1] == a + b[..|b| - 1];
      OfPaneConcat(a, b[..|b| - 1], q);
    }
  }

  lemma {:induction false} OfPaneEntries(w: WindowId, t: TabId, pane: PaneId, h: seq<CommandRecord>, q: PaneId)
    ensures OfPane(PaneEntries(w, t, pane, h), q) == if pane == q then h else []
  {
    if h != [] {
      var n := |h| - 1;
      assert PaneEntries(w, t, pane, h)[..n] == PaneEntries(w, t, pane, h[..n]);
      OfPaneEntries(w, t, pane, h[..n], q);
    }
  }

  lemma {:induction false} LeafEntriesConcat(w: WindowId, t: TabId, a: seq<Pane>, b: seq<Pane>)
    ensures LeafEntries(w, t, a + b) == LeafEntries(w, t, a) + LeafEntries(w, t, b)
  {
    if b == [] {
      assert a + b == a;
    } else {
      assert (a + b)[..|a + b| - 1] == a + b[..|b| - 1];
      LeafEntriesConcat(w, t, a, b[..|b| - 1]);
    }
  }

  function HistoryIn(p: Option<Pane>): seq<CommandRecord> { if p.None? then [] else p.value.state.history }

  lemma {:induction false} OfTree(w: WindowId, t: TabId, tree: Tree, q: PaneId)
    requires TreeUses(tree, q) <= 1
    ensures OfPane(LeafEntries(w, t, Leaves(tree)), q) == HistoryIn(Find(tree, q))
  {
    match tree
    case Empty =>
    case Leaf(p) =>
      OfPaneEntries(w, t, p.id, p.state.history, q);
      assert [p][..0] == [];
      assert LeafEntries(w, t, [p]) == PaneEntries(w, t, p.id, p.state.history);
    case Split(_, _, a, b) =>
      OfTree(w, t, a, q);
      OfTree(w, t, b, q);
      HasIsUsed(a, q);
      HasIsUsed(b, q);
      LeafEntriesConcat(w, t, Leaves(a), Leaves(b));
      OfPaneConcat(LeafEntries(w, t, Leaves(a)), LeafEntries(w, t, Leaves(b)), q);
  }

  lemma {:induction false} OfTabs(w: WindowId, tabs: seq<Tab>, q: PaneId)
    requires Sum(tabs, TabPanes(q)) <= 1
    ensures OfPane(TabEntries(w, tabs), q) == HistoryIn(FindInTabs(tabs, q))
  {
    if tabs != [] {
      var init, last := tabs[..|tabs| - 1], tabs[|tabs| - 1];
      OfTabs(w, init, q);
      OfTree(w, last.id, last.tree, q);
      FoundInTabs(init, q);
      HasIsUsed(last.tree, q);
      OfPaneConcat(TabEntries(w, init), LeafEntries(w, last.id, Leaves(last.tree)), q);
    }
  }

  // ---- order --------------------------------------------------------------------------------------

  lemma {:induction false} TabEntriesConcat(w: WindowId, a: seq<Tab>, b: seq<Tab>)
    ensures TabEntries(w, a + b) == TabEntries(w, a) + TabEntries(w, b)
  {
    hide LeafEntries, Leaves;
    if b == [] {
      assert a + b == a;
    } else {
      var n := |b| - 1;
      assert (a + b)[..|a| + n] == a + b[..n];
      TabEntriesConcat(w, a, b[..n]);
      var last := LeafEntries(w, b[n].id, Leaves(b[n].tree));
      assert TabEntries(w, a) + (TabEntries(w, b[..n]) + last) == (TabEntries(w, a) + TabEntries(w, b[..n])) + last;
    }
  }

  lemma {:induction false} WindowEntriesConcat(a: seq<Window>, b: seq<Window>)
    ensures WindowEntries(a + b) == WindowEntries(a) + WindowEntries(b)
  {
    hide TabEntries;
    if b == [] {
      assert a + b == a;
    } else {
      var n := |b| - 1;
      assert (a + b)[..|a| + n] == a + b[..n];
      WindowEntriesConcat(a, b[..n]);
      var last := TabEntries(b[n].id, b[n].tabs);
      assert WindowEntries(a) + (WindowEntries(b[..n]) + last) == (WindowEntries(a) + WindowEntries(b[..n])) + last;
    }
  }

  /** Wherever windows, the tabs of a window or the panes of a tab are cut in two, the entries of the first part
      come before those of the second: the aggregate is in window, tab, pane and command order. */
  lemma {:induction false} AggregateIsInOrder(a: seq<Window>, w: Window, tabs: seq<Tab>, t: Tab, panes: seq<Pane>,
                                              p: Pane)
    ensures WindowEntries(a + [w]) == WindowEntries(a) + TabEntries(w.id, w.tabs)
    ensures TabEntries(w.id, tabs + [t]) == TabEntries(w.id, tabs) + LeafEntries(w.id, t.id, Leaves(t.tree))
    ensures LeafEntries(w.id, t.id, panes + [p])
         == LeafEntries(w.id, t.id, panes) + PaneEntries(w.id, t.id, p.id, p.state.history)
    ensures |PaneEntries(w.id, t.id, p.id, p.state.history)| == |p.state.history|
    ensures forall i :: 0 <= i < |p.state.history| ==>
              PaneEntries(w.id, t.id, p.id, p.state.history)[i] == HistoryEntry(w.id, t.id, p.id, p.state.history[i])
  {
    WindowEntriesConcat(a, [w]);
    TabEntriesConcat(w.id, tabs, [t]);
    LeafEntriesConcat(w.id, t.id, panes, [p]);
    assert [w][..0] == [] && [t][..0] == [] && [p][..0] == [];
  }

  // ---- where an entry comes from ------------------------------------------------------------------

  /** The entry names a window, a tab and a pane that stand within one another, and a command of that pane. */
  ghost predicate ComesFrom(e: HistoryEntry, ws: seq<Window>) {
    exists i, j :: 0 <= i < |ws| && 0 <= j < |ws[i].tabs| && ws[i].id == e.window && ws[i].tabs[j].id == e.tab
                   && FromPane(e, Leaves(ws[i].tabs[j].tree))
  }

  ghost predicate FromPane(e: HistoryEntry, panes: seq<Pane>) {
    exists k :: 0 <= k < |panes| && panes[k].id == e.pane && e.record in panes[k].state.history
  }

  lemma {:induction false} FromLeaves(w: WindowId, t: TabId, panes: seq<Pane>, e: HistoryEntry)
    requires e in LeafEntries(w, t, panes)
    ensures e.window == w && e.tab == t && FromPane(e, panes)
  {
    var n := |panes| - 1;
    var init, last := panes[..n], panes[n];
    if e in LeafEntries(w, t, init) {
      FromLeaves(w, t, init, e);
      var k :| 0 <= k < |init| && init[k].id == e.pane && e.record in init[k].state.history;
      assert panes[k] == init[k];
    } else {
      var entries := PaneEntries(w, t, last.id, last.state.history);
      var i :| 0 <= i < |entries| && entries[i] == e;
      assert last.state.history[i] == e.record && panes[n].id == e.pane;
    }
  }

  lemma {:induction false} FromTabs(w: WindowId, tabs: seq<Tab>, e: HistoryEntry) returns (j: nat)
    requires e in TabEntries(w, tabs)
    ensures e.window == w && j < |tabs| && tabs[j].id == e.tab && FromPane(e, Leaves(tabs[j].tree))
  {
    var n := |tabs| - 1;
    if e in TabEntries(w, tabs[..n]) {
      j := FromTabs(w, tabs[..n], e);
    } else {
      j := n;
      FromLeaves(w, tabs[n].id, Leaves(tabs[n].tree), e);
    }
  }

  /** Every entry says rightly where its command comes from. */
  lemma {:induction false} EntriesNameTheirPlace(ws: seq<Window>, e: HistoryEntry)
    requires e in WindowEntries(ws)
    ensures ComesFrom(e, ws)
  {
    hide FromPane;
    var n := |ws| - 1;
    if e in WindowEntries(ws[..n]) {
      EntriesNameTheirPlace(ws[..n], e);
      var i, j :| 0 <= i < n && 0 <= j < |ws[..n][i].tabs| && ws[..n][i].id == e.window
                  && ws[..n][i].tabs[j].id == e.tab
                  && FromPane(e, Leaves(ws[..n][i].tabs[j].tree));
      assert ws[i] == ws[..n][i];
    } else {
      var j := FromTabs(ws[n].id, ws[n].tabs, e);
      assert ws[n].tabs[j].id == e.tab;
    }
  }

  /** Where ids are unique, the aggregate holds, for every pane, exactly that pane's history in order. */
  lemma {:induction false} AggregateHoldsHistories(ws: seq<Window>, q: PaneId)
    requires PaneUses(ws, q) <= 1
    ensures OfPane(WindowEntries(ws), q) == HistoryIn(FindInWindows(ws, q))
  {
    if ws != [] {
      var init, last := ws[..|ws| - 1], ws[|ws| - 1];
      AggregateHoldsHistories(init, q);
      OfTabs(last.id, last.tabs, q);
      FoundInWindows(init, q);
      FoundInTabs(last.tabs, q);
      OfPaneConcat(WindowEntries(init), TabEntries(last.id, last.tabs), q);
    }
  }
}
