/** What saving and opening again keep: the invariant of the workspace and the histories of its panes, over
    whole sessions. */
module Sessions {
  import opened Options
  import opened Integers
  import opened PaneTree
  import opened WorkspaceModel
  import opened WorkspaceSpec
  import opened WorkspaceInvariants
  import opened CommandHistory
  import opened Sums
  import opened Serialization
  import opened IsoTime
  import opened Checkpoint

  // ---- ids of what is read back -------------------------------------------------------------------

  /** Tabs without panes; they are read back with a blank one. */
  function TabIsEmpty(q: PaneId): Tab -> nat { (t: Tab) => if q == "" && t.tree == Empty then 1 else 0 }

  function WindowEmpties(q: PaneId): Window -> nat { (w: Window) => Sum(w.tabs, TabIsEmpty(q)) }

  function EmptyTabs(ws: seq<Window>): nat { Sum(ws, WindowEmpties("")) }

  lemma {:induction false} NormalTreeUses(t: Tree, q: PaneId)
    requires Full(t)
    ensures TreeUses(NormalTree(t), q) == TreeUses(t, q) && Full(NormalTree(t))
    ensures RatiosInRange(t) ==> RatiosInRange(NormalTree(t))
  {
    if t.Split? {
      NormalTreeUses(t.first, q);
      NormalTreeUses(t.second, q);
    }
  }

  /** A sum over pairs of counts. */
  lemma {:induction false} SumOfBoth<S, T>(s: seq<S>, t: seq<T>, f: S -> nat, g: T -> nat, h: T -> nat)
    requires |s| == |t| && forall i :: 0 <= i < |s| ==> f(s[i]) == g(t[i]) + h(t[i])
    ensures Sum(s, f) == Sum(t, g) + Sum(t, h)
  {
    if s != [] { SumOfBoth(s[..|s| - 1], t[..|t| - 1], f, g, h); }
  }

  lemma {:induction false} SumOfNothing<T>(s: seq<T>, f: T -> nat)
    requires forall i :: 0 <= i < |s| ==> f(s[i]) == 0
    ensures Sum(s, f) == 0
  {
    if s != [] { SumOfNothing(s[..|s| - 1], f); }
  }

  lemma {:induction false} NormalWindowUses(w: Window, q: PaneId)
    requires WindowOk(w)
    ensures WindowPanes(q)(NormalWindow(w)) == WindowPanes(q)(w) + WindowEmpties(q)(w)
    ensures WindowTabs(q)(NormalWindow(w)) == WindowTabs(q)(w)
  {
    var tabs := NormalTabs(w.tabs);
    forall i | 0 <= i < |tabs| ensures TabPanes(q)(tabs[i]) == TabPanes(q)(w.tabs[i]) + TabIsEmpty(q)(w.tabs[i]) {
      if w.tabs[i].tree != Empty { NormalTreeUses(w.tabs[i].tree, q); }
    }
    SumOfBoth(tabs, w.tabs, TabPanes(q), TabPanes(q), TabIsEmpty(q));
    SumSame(tabs, w.tabs, TabNamed(q), TabNamed(q));
  }

  /** Reading back adds a blank pane for every tab without panes, and changes no other id. */
  lemma {:induction false} NormalUses(ws: seq<Window>, q: PaneId)
    requires forall i :: 0 <= i < |ws| ==> WindowOk(ws[i])
    ensures PaneUses(NormalWindows(ws), q) == PaneUses(ws, q) + if q == "" then EmptyTabs(ws) else 0
    ensures TabUses(NormalWindows(ws), q) == TabUses(ws, q) && WindowUses(NormalWindows(ws), q) == WindowUses(ws, q)
  {
    var wins := NormalWindows(ws);
    forall i | 0 <= i < |ws|
      ensures WindowPanes(q)(wins[i]) == WindowPanes(q)(ws[i]) + WindowEmpties(q)(ws[i])
      ensures WindowTabs(q)(wins[i]) == WindowTabs(q)(ws[i])
    {
      NormalWindowUses(ws[i], q);
    }
    SumOfBoth(wins, ws, WindowPanes(q), WindowPanes(q), WindowEmpties(q));
    SumSame(wins, ws, WindowTabs(q), WindowTabs(q));
    SumSame(wins, ws, WindowNamed(q), WindowNamed(q));
    if q != "" {
      forall i | 0 <= i < |ws| ensures WindowEmpties(q)(ws[i]) == 0 { SumOfNothing(ws[i].tabs, TabIsEmpty(q)); }
      SumOfNothing(ws, WindowEmpties(q));
    }
  }

  /** What is read back of a well-formed workspace is well formed. */
  lemma {:induction false} NormalKeepsInv(ws: Workspace)
    requires Inv(ws)
    ensures Inv(Normal(ws))
  {
    hide Reread;
    var wins := NormalWindows(ws.windows);
    forall q
      ensures q != "" ==> PaneUses(wins, q) == PaneUses(ws.windows, q)
      ensures TabUses(wins, q) == TabUses(ws.windows, q) && WindowUses(wins, q) == WindowUses(ws.windows, q)
    {
      NormalUses(ws.windows, q);
    }
    forall i, j | 0 <= i < |wins| && 0 <= j < |wins[i].tabs| ensures TreeOk(wins[i].tabs[j].tree) {
      assert WindowOk(ws.windows[i]);
      var t := ws.windows[i].tabs[j].tree;
      if t != Empty { NormalTreeUses(t, ""); }
    }
  }

  /** Reading back keeps all pane ids unique, the empty one included, exactly when the workspace has at
      most one blank pane or tab without panes. */
  lemma {:induction false} NormalKeepsAllIds(ws: Workspace)
    requires Inv(ws)
    ensures (forall q :: PaneUses(Normal(ws).windows, q) <= 1) <==>
              PaneUses(ws.windows, "") + EmptyTabs(ws.windows) <= 1
  {
    forall q
      ensures PaneUses(Normal(ws).windows, q) == PaneUses(ws.windows, q) + if q == "" then EmptyTabs(ws.windows) else 0
    {
      NormalUses(ws.windows, q);
    }
    if PaneUses(ws.windows, "") + EmptyTabs(ws.windows) <= 1 {
      forall q ensures PaneUses(Normal(ws).windows, q) <= 1 {
        assert q != "" ==> PaneUses(ws.windows, q) <= 1;
      }
    }
  }

  /** Two note tabs are read back with one blank pane each, under the same id. */
  lemma {:induction false} TwoNotesShareAnId(note: NoteTabState)
    ensures var a, b := Tab("a", "note", Note, Some(note), Empty), Tab("b", "note", Note, Some(note), Empty);
            var ws := [Window("w", "window", 0, 0, 0, 0, 0, 0, [a, b], None, None)];
            UniqueIds(ws) && PaneUses(ws, "") == 0 && PaneUses(NormalWindows(ws), "") == 2
  {
    var a, b := Tab("a", "note", Note, Some(note), Empty), Tab("b", "note", Note, Some(note), Empty);
    var tabs := [a, b];
    var ws := [Window("w", "window", 0, 0, 0, 0, 0, 0, tabs, None, None)];
    assert tabs[..1] == [a] && [a][..0] == [] && ws[..0] == [];
    forall q
      ensures PaneUses(ws, q) == 0 && TabUses(ws, q) <= 1 && WindowUses(ws, q) <= 1
    {
      assert Sum([a], TabPanes(q)) == Sum([], TabPanes(q)) + TabPanes(q)(a) == 0;
      assert Sum([a], TabNamed(q)) == Sum([], TabNamed(q)) + TabNamed(q)(a);
      assert Sum(ws, WindowPanes(q)) == Sum([], WindowPanes(q)) + WindowPanes(q)(ws[0]);
      assert Sum(ws, WindowTabs(q)) == Sum([], WindowTabs(q)) + WindowTabs(q)(ws[0]);
      assert Sum(ws, WindowNamed(q)) == Sum([], WindowNamed(q)) + WindowNamed(q)(ws[0]);
    }
    assert Sum([a], TabIsEmpty("")) == Sum([], TabIsEmpty("")) + TabIsEmpty("")(a) == 1;
    assert Sum(ws, WindowEmpties("")) == Sum([], WindowEmpties("")) + WindowEmpties("")(ws[0]) == 2;
    NormalUses(ws, "");
  }

  // ---- the overlay --------------------------------------------------------------------------------

  lemma {:induction false} OverlayUses(t: Tree, blobs: map<PaneId, Blob>, q: PaneId)
    ensures TreeUses(OverlayTree(t, blobs), q) == TreeUses(t, q)
    ensures Full(OverlayTree(t, blobs)) <==> Full(t)
    ensures RatiosInRange(OverlayTree(t, blobs)) <==> RatiosInRange(t)
    ensures OverlayTree(t, blobs) == Empty <==> t == Empty
  {
    if t.Split? {
      OverlayUses(t.first, blobs, q);
      OverlayUses(t.second, blobs, q);
    }
  }

  lemma {:induction false} OverlayWindowUses(w: Window, blobs: map<PaneId, Blob>, q: PaneId)
    ensures var tabs := OverlayTabs(w.tabs, blobs);
            Sum(tabs, TabPanes(q)) == Sum(w.tabs, TabPanes(q)) && Sum(tabs, TabNamed(q)) == Sum(w.tabs, TabNamed(q))
  {
    var tabs := OverlayTabs(w.tabs, blobs);
    forall i | 0 <= i < |tabs| ensures TabPanes(q)(tabs[i]) == TabPanes(q)(w.tabs[i]) {
      OverlayUses(w.tabs[i].tree, blobs, q);
    }
    SumSame(tabs, w.tabs, TabPanes(q), TabPanes(q));
    SumSame(tabs, w.tabs, TabNamed(q), TabNamed(q));
  }

  lemma {:induction false} OverlayKeepsInv(ws: Workspace, blobs: map<PaneId, Blob>)
    requires Inv(ws)
    ensures Inv(ws.(windows := OverlayWindows(ws.windows, blobs)))
  {
    var wins := OverlayWindows(ws.windows, blobs);
    forall q
      ensures PaneUses(wins, q) == PaneUses(ws.windows, q) && TabUses(wins, q) == TabUses(ws.windows, q)
      ensures WindowUses(wins, q) == WindowUses(ws.windows, q)
    {
      forall i | 0 <= i < |wins|
        ensures WindowPanes(q)(wins[i]) == WindowPanes(q)(ws.windows[i])
        ensures WindowTabs(q)(wins[i]) == WindowTabs(q)(ws.windows[i])
      {
        OverlayWindowUses(ws.windows[i], blobs, q);
      }
      SumSame(wins, ws.windows, WindowPanes(q), WindowPanes(q));
      SumSame(wins, ws.windows, WindowTabs(q), WindowTabs(q));
      SumSame(wins, ws.windows, WindowNamed(q), WindowNamed(q));
    }
    forall i, j | 0 <= i < |wins| && 0 <= j < |wins[i].tabs| ensures TreeOk(wins[i].tabs[j].tree) {
      assert WindowOk(ws.windows[i]);
      OverlayUses(ws.windows[i].tabs[j].tree, blobs, "");
    }
  }

  // ---- whole sessions -----------------------------------------------------------------------------

  /** One step of a session: an operation, a checkpoint, or opening a stored workspace. */
  datatype Event = Edit(op: Op) | Save(now: i64, commits: bool) | Open(id: string)

  function Step(c: Calendar, s: Session, e: Event): Session {
    match e
    case Edit(op) => s.(core := Apply(s.core, op).0)
    case Save(now, commits) => AfterCheckpoint(s, c, now, commits)
    case Open(id) => AfterOpen(s, c, id)
  }

  function RunSession(c: Calendar, s: Session, es: seq<Event>): Session
    decreases |es|
  {
    if es == [] then s else RunSession(c, Step(c, s, es[0]), es[1..])
  }

  /** The open workspace and all that can be read from the database are well formed. */
  ghost predicate SessionInv(c: Calendar, s: Session) {
    CoreInv(s.core) && forall id :: Loaded(s.tables, c, id).Some? ==> Inv(Loaded(s.tables, c, id).value)
  }

  ghost predicate EventFits(s: Session, e: Event) { e.Edit? && s.core.ws.Some? ==> Fits(s.core.ws.value, e.op) }

  ghost predicate SessionFits(c: Calendar, s: Session, es: seq<Event>)
    decreases |es|
  {
    es != [] ==> EventFits(s, es[0]) && SessionFits(c, Step(c, s, es[0]), es[1..])
  }

  /** What a checkpoint has written is loaded normalised; other rows are loaded as before. */
  lemma {:induction false} LoadedAfterSave(c: Calendar, t: Tables, ws: Workspace, id: string)
    requires IsCalendar(c)
    ensures Loaded(Saved(t, c, ws), c, id) == if id == ws.id then Some(Normal(ws)) else Loaded(t, c, id)
  {
    hide ReadWorkspace, WriteWorkspace, StoreAll, Snapshots;
    WorkspaceReadsBack(c, ws);
  }

  lemma {:induction false} StepKeepsSession(c: Calendar, s: Session, e: Event)
    requires IsCalendar(c) && SessionInv(c, s) && EventFits(s, e)
    ensures SessionInv(c, Step(c, s, e))
  {
    hide Loaded, Saved, Apply, Inv, IsCalendar, Normal;
    match e
    case Edit(op) =>
      ApplyKeepsInv(s.core, op);
    case Save(now, commits) =>
      if s.core.ws.Some? {
        var ws := Stamped(s.core.ws.value, now);
        StampKeepsInv(s.core.ws.value, now);
        NormalKeepsInv(ws);
        forall id ensures commits ==> Loaded(Saved(s.tables, c, ws), c, id)
                                      == if id == ws.id then Some(Normal(ws)) else Loaded(s.tables, c, id) {
          LoadedAfterSave(c, s.tables, ws, id);
        }
      }
    case Open(id) =>
      if Loaded(s.tables, c, id).Some? { OverlayKeepsInv(Loaded(s.tables, c, id).value, s.tables.blobs); }
  }

  lemma {:induction false} ApplyKeepsInv(core: Core, op: Op)
    requires CoreInv(core) && (core.ws.Some? ==> Fits(core.ws.value, op))
    ensures CoreInv(Apply(core, op).0)
  {
    hide Inv, Transition;
    if core.ws.Some? && Transition(core.ws.value, op).Some? { StepKeepsInv(core.ws.value, op); }
  }

  lemma {:induction false} StampKeepsInv(ws: Workspace, now: i64)
    requires Inv(ws)
    ensures Inv(Stamped(ws, now))
  {
  }

  /** Over every session of operations, checkpoints and openings, the open workspace and everything stored
      stay well formed. */
  lemma {:induction false} SessionsKeepInv(c: Calendar, s: Session, es: seq<Event>)
    requires IsCalendar(c) && SessionInv(c, s) && SessionFits(c, s, es)
    ensures SessionInv(c, RunSession(c, s, es))
    decreases |es|
  {
    hide SessionInv, EventFits, Step, IsCalendar;
    if es != [] {
      StepKeepsSession(c, s, es[0]);
      SessionsKeepInv(c, Step(c, s, es[0]), es[1..]);
    }
  }

  /** The start: an empty database and no open workspace. */
  const FRESH: Session := Session(Core(None, false), Tables(map[], map[]))

  lemma {:induction false} FreshSession(c: Calendar)
    ensures SessionInv(c, FRESH)
  {
  }

  /** Every session from an empty database whose operations bring new ids stays well formed. */
  lemma {:induction false} FreshSessionsKeepInv(c: Calendar, es: seq<Event>)
    requires IsCalendar(c) && SessionFits(c, FRESH, es)
    ensures SessionInv(c, RunSession(c, FRESH, es))
  {
    FreshSession(c);
    SessionsKeepInv(c, FRESH, es);
  }

  // ---- what a checkpoint leaves -------------------------------------------------------------------

  /** A checkpoint stamps the open workspace with its time and the next generation and changes nothing else of
      it. When it is written, the workspace is no longer dirty, its own row reads as that workspace, and all
      other rows are as before; when it is refused, database and dirty mark are as before. */
  lemma {:induction false} CheckpointLeaves(c: Calendar, s: Session, now: i64, commits: bool, id: string)
    requires IsCalendar(c)
    ensures s.core.ws.None? ==> AfterCheckpoint(s, c, now, commits) == s
    ensures s.core.ws.Some? ==>
              var ws, s' := s.core.ws.value, AfterCheckpoint(s, c, now, commits);
              var next := if ws.generation == 0xFFFF_FFFF_FFFF_FFFF then 0 else ws.generation + 1;
              var stamped := ws.(lastSavedAt := now, generation := next);
              && s'.core.ws == Some(stamped)
              && (commits ==> !s'.core.dirty)
              && (commits && id == ws.id ==> Loaded(s'.tables, c, id) == Some(Normal(stamped)))
              && (commits && id != ws.id ==> Loaded(s'.tables, c, id) == Loaded(s.tables, c, id))
              && (!commits ==> s'.tables == s.tables && s'.core.dirty == s.core.dirty)
  {
    hide Loaded, Saved, Normal;
    if s.core.ws.Some? { LoadedAfterSave(c, s.tables, Stamped(s.core.ws.value, now), id); }
  }

  /** Every pane of the tree has its stored snapshot, if there is one, and is otherwise as before. */
  ghost predicate BlobsInTree(t: Tree, t': Tree, blobs: map<PaneId, Blob>) {
    && |Leaves(t')| == |Leaves(t)|
    && (forall k :: 0 <= k < |Leaves(t)| ==> HasBlob(Leaves(t)[k], Leaves(t')[k], blobs))
    && (forall q :: (Has(t', q) <==> Has(t, q)) && (Has(t, q) && Has(t', q) ==> Path(t', q) == Path(t, q)))
  }

  ghost predicate HasBlob(p: Pane, p': Pane, blobs: map<PaneId, Blob>) {
    && p' == p.(state := p.state.(snapshot := p'.state.snapshot))
    && p'.state.snapshot == if p.id in blobs && blobs[p.id] != [] then blobs[p.id] else p.state.snapshot
  }

  ghost predicate BlobsInWorkspace(ws: Workspace, ws': Workspace, blobs: map<PaneId, Blob>) {
    && ws' == ws.(windows := ws'.windows) && |ws'.windows| == |ws.windows|
    && (forall i :: 0 <= i < |ws.windows| ==>
          && ws'.windows[i] == ws.windows[i].(tabs := ws'.windows[i].tabs)
          && |ws'.windows[i].tabs| == |ws.windows[i].tabs|)
    && forall i, j :: 0 <= i < |ws.windows| && 0 <= j < |ws.windows[i].tabs| ==>
         var t, t' := ws.windows[i].tabs[j], ws'.windows[i].tabs[j];
         t' == t.(tree := t'.tree) && BlobsInTree(t.tree, t'.tree, blobs)
  }

  lemma {:induction false} BlobsAreLaid(t: Tree, blobs: map<PaneId, Blob>)
    ensures BlobsInTree(t, OverlayTree(t, blobs), blobs)
  {
    if t.Split? {
      BlobsAreLaid(t.first, blobs);
      BlobsAreLaid(t.second, blobs);
    }
  }

  /** Opening changes neither the database nor the dirty mark. If the row reads as a workspace, that workspace is
      open, each of its panes with its stored snapshot; otherwise nothing changes. */
  lemma {:induction false} OpenLeaves(c: Calendar, s: Session, id: string)
    ensures var s' := Step(c, s, Open(id));
            && s'.tables == s.tables && s'.core.dirty == s.core.dirty
            && (Loaded(s.tables, c, id).None? ==> s' == s)
            && (Loaded(s.tables, c, id).Some? ==>
                  s'.core.ws.Some? && BlobsInWorkspace(Loaded(s.tables, c, id).value, s'.core.ws.value, s.tables.blobs))
  {
    hide Loaded, BlobsInTree, OverlayTree;
    if Loaded(s.tables, c, id).Some? {
      var ws := Loaded(s.tables, c, id).value;
      forall i, j | 0 <= i < |ws.windows| && 0 <= j < |ws.windows[i].tabs|
        ensures BlobsInTree(ws.windows[i].tabs[j].tree, OverlayTree(ws.windows[i].tabs[j].tree, s.tables.blobs),
                            s.tables.blobs)
      {
        BlobsAreLaid(ws.windows[i].tabs[j].tree, s.tables.blobs);
      }
    }
  }

  /** Operations change neither identity nor times nor generation of the workspace. */
  lemma {:induction false} EditKeepsHeader(ws: Workspace, op: Op)
    requires Transition(ws, op).Some?
    ensures Transition(ws, op).value == ws.(windows := Transition(ws, op).value.windows,
                                            focusWindow := Transition(ws, op).value.focusWindow)
  {
    hide TabStep;
  }

  function Saves(es: seq<Event>): nat {
    if es == [] then 0 else Saves(es[..|es| - 1]) + if es[|es| - 1].Save? then 1 else 0
  }

  lemma {:induction false} RunSnoc(c: Calendar, s: Session, es: seq<Event>, e: Event)
    ensures RunSession(c, s, es + [e]) == Step(c, RunSession(c, s, es), e)
    decreases |es|
  {
    hide Step;
    if es == [] {
      assert [] + [e] == [e] && [e][1..] == [];
    } else {
      assert (es + [e])[1..] == es[1..] + [e];
      RunSnoc(c, Step(c, s, es[0]), es[1..], e);
    }
  }

  lemma {:induction false} StepCounts(c: Calendar, s: Session, e: Event)
    requires s.core.ws.Some? && !e.Open?
    ensures var s' := Step(c, s, e);
            && s'.core.ws.Some? && s'.core.ws.value.id == s.core.ws.value.id
            && s'.core.ws.value.generation ==
                 (s.core.ws.value.generation + if e.Save? then 1 else 0) % 0x1_0000_0000_0000_0000
  {
    hide Transition, Saved;
    if e.Edit? && Transition(s.core.ws.value, e.op).Some? { EditKeepsHeader(s.core.ws.value, e.op); }
  }

  lemma {:induction false} CountOn(a: nat, d: nat)
    ensures (a % 0x1_0000_0000_0000_0000 + d) % 0x1_0000_0000_0000_0000 == (a + d) % 0x1_0000_0000_0000_0000
  {
  }

  /** Over any run of operations and checkpoints the generation counts the checkpoints, refused ones included,
      modulo 64 bits. */
  lemma {:induction false} GenerationCountsSaves(c: Calendar, s: Session, es: seq<Event>)
    requires s.core.ws.Some? && forall i :: 0 <= i < |es| ==> !es[i].Open?
    ensures var s' := RunSession(c, s, es);
            && s'.core.ws.Some? && s'.core.ws.value.id == s.core.ws.value.id
            && s'.core.ws.value.generation == (s.core.ws.value.generation + Saves(es)) % 0x1_0000_0000_0000_0000
  {
    hide Step;
    if es != [] {
      var init, e := es[..|es| - 1], es[|es| - 1];
      GenerationCountsSaves(c, s, init);
      assert RunSession(c, s, es) == Step(c, RunSession(c, s, init), e) by {
        RunSnoc(c, s, init, e);
        assert es == init + [e];
      }
      StepCounts(c, RunSession(c, s, init), e);
      CountOn(s.core.ws.value.generation + Saves(init), if e.Save? then 1 else 0);
    }
  }

  // ---- histories ----------------------------------------------------------------------------------

  function HistoryOfPane(p: Option<Pane>): Option<seq<CommandRecord>> {
    if p.None? then None else Some(p.value.state.history)
  }

  lemma {:induction false} ReadBackTreeHistory(t: Tree, blobs: map<PaneId, Blob>, q: PaneId)
    requires q != ""
    ensures var u := OverlayTree(NormalTree(t), blobs);
            (Has(u, q) <==> Has(t, q)) && HistoryOfPane(Find(u, q)) == HistoryOfPane(Find(t, q))
  {
    if t.Split? {
      ReadBackTreeHistory(t.first, blobs, q);
      ReadBackTreeHistory(t.second, blobs, q);
    }
  }

  lemma {:induction false} ReadBackTabHistory(tabs: seq<Tab>, blobs: map<PaneId, Blob>, q: PaneId)
    requires q != ""
    ensures HistoryOfPane(FindInTabs(OverlayTabs(NormalTabs(tabs), blobs), q)) == HistoryOfPane(FindInTabs(tabs, q))
  {
    if tabs != [] {
      var n := |tabs| - 1;
      ReadBackTabHistory(tabs[..n], blobs, q);
      ReadBackTreeHistory(tabs[n].tree, blobs, q);
      assert OverlayTabs(NormalTabs(tabs), blobs)[..n] == OverlayTabs(NormalTabs(tabs[..n]), blobs);
    }
  }

  lemma {:induction false} ReadBackHistory(ws: seq<Window>, blobs: map<PaneId, Blob>, q: PaneId)
    requires q != ""
    ensures HistoryOfPane(FindInWindows(OverlayWindows(NormalWindows(ws), blobs), q)) ==
              HistoryOfPane(FindInWindows(ws, q))
  {
    if ws != [] {
      var n := |ws| - 1;
      ReadBackHistory(ws[..n], blobs, q);
      ReadBackTabHistory(ws[n].tabs, blobs, q);
      assert OverlayWindows(NormalWindows(ws), blobs)[..n] == OverlayWindows(NormalWindows(ws[..n]), blobs);
    }
  }

  /** A checkpoint followed by opening keeps every pane's history; so the history of a pane over a run of
      operations goes on where it was. */
  lemma {:induction false} ReopenKeepsHistory(c: Calendar, s: Session, now: i64, q: PaneId)
    requires IsCalendar(c) && s.core.ws.Some? && q != ""
    ensures var reopened := AfterOpen(AfterCheckpoint(s, c, now, true), c, s.core.ws.value.id);
            HistoryOf(reopened.core, q) == HistoryOf(s.core, q)
  {
    hide Loaded, Saved, OverlayWindows, NormalWindows;
    var ws := Stamped(s.core.ws.value, now);
    LoadedAfterSave(c, s.tables, ws, ws.id);
    ReadBackHistory(ws.windows, Saved(s.tables, c, ws).blobs, q);
  }
}
