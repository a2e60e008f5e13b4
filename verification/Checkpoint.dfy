/** Saving the open workspace with the snapshots of its panes, and opening it again. */
module Checkpoint {
  import opened Options
  import opened Integers
  import opened PaneTree
  import opened WorkspaceModel
  import opened WorkspaceSpec
  import opened WorkspaceInvariants
  import opened Sums
  import opened Serialization
  import opened IsoTime
  import Base64
  import J = Json
  import C = WorkspaceCore

  type Blob = seq<Base64.byte>

  // ---- specification ------------------------------------------------------------------------------

  /** The two tables of the database: a row of JSON per workspace, a blob per pane. */
  datatype Tables = Tables(rows: map<string, J.Json>, blobs: map<PaneId, Blob>)

  /** The stored blob of a pane; empty if there is none. */
  function BlobOf(blobs: map<PaneId, Blob>, q: PaneId): Blob { if q in blobs then blobs[q] else [] }

  datatype Snapshot = Snapshot(pane: PaneId, data: Blob)

  function PaneSnapshots(panes: seq<Pane>): seq<Snapshot> {
    if panes == [] then []
    else
      var p := panes[|panes| - 1];
      PaneSnapshots(panes[..|panes| - 1]) + if p.state.snapshot == [] then [] else [Snapshot(p.id, p.state.snapshot)]
  }

  function TabSnapshots(tabs: seq<Tab>): seq<Snapshot> {
    if tabs == [] then []
    else TabSnapshots(tabs[..|tabs| - 1]) + PaneSnapshots(Leaves(tabs[|tabs| - 1].tree))
  }

  /** The snapshots of all panes that have one. */
  function Snapshots(ws: seq<Window>): seq<Snapshot> {
    if ws == [] then [] else Snapshots(ws[..|ws| - 1]) + TabSnapshots(ws[|ws| - 1].tabs)
  }

  function StoreAll(blobs: map<PaneId, Blob>, snaps: seq<Snapshot>): map<PaneId, Blob> {
    if snaps == [] then blobs
    else
      var s := snaps[|snaps| - 1];
      StoreAll(blobs, snaps[..|snaps| - 1])[s.pane := s.data]
  }

  /** What a checkpoint makes of the workspace before it is written. */
  function Stamped(ws: Workspace, now: i64): Workspace {
    ws.(lastSavedAt := now, generation := ToU64(ws.generation + 1))
  }

  function Saved(t: Tables, c: Calendar, ws: Workspace): Tables {
    Tables(t.rows[ws.id := WriteWorkspace(c, ws)], StoreAll(t.blobs, Snapshots(ws.windows)))
  }

  function OverlayTree(t: Tree, blobs: map<PaneId, Blob>): Tree {
    match t
    case Empty => t
    case Leaf(p) =>
      var blob := BlobOf(blobs, p.id);
      if blob == [] then t else Leaf(p.(state := p.state.(snapshot := blob)))
    case Split(k, r, a, b) => Split(k, r, OverlayTree(a, blobs), OverlayTree(b, blobs))
  }

  function OverlayTabs(tabs: seq<Tab>, blobs: map<PaneId, Blob>): (r: seq<Tab>)
    ensures |r| == |tabs|
  {
    seq(|tabs|, i requires 0 <= i < |tabs| => tabs[i].(tree := OverlayTree(tabs[i].tree, blobs)))
  }

  function OverlayWindows(ws: seq<Window>, blobs: map<PaneId, Blob>): (r: seq<Window>)
    ensures |r| == |ws|
  {
    seq(|ws|, i requires 0 <= i < |ws| => ws[i].(tabs := OverlayTabs(ws[i].tabs, blobs)))
  }

  function Loaded(t: Tables, c: Calendar, id: string): Option<Workspace> {
    if id !in t.rows then None
    else
      match ReadWorkspace(c, t.rows[id])
      case Throws => None
      case Ok(ws) => Some(ws)
  }

  /** The workspace that opening gives: the stored row, with stored blobs over the snapshots of its panes. */
  function Opened(t: Tables, c: Calendar, id: string): Option<Workspace> {
    match Loaded(t, c, id)
    case None => None
    case Some(ws) => Some(ws.(windows := OverlayWindows(ws.windows, t.blobs)))
  }

  /** The core and the database across saving and opening. */
  datatype Session = Session(core: Core, tables: Tables)

  function AfterCheckpoint(s: Session, c: Calendar, now: i64, commits: bool): Session {
    if s.core.ws.None? then s
    else
      var ws := Stamped(s.core.ws.value, now);
      if commits then Session(Core(Some(ws), false), Saved(s.tables, c, ws))
      else s.(core := Core(Some(ws), s.core.dirty))
  }

  function AfterOpen(s: Session, c: Calendar, id: string): Session {
    var ws := Opened(s.tables, c, id);
    if ws.None? then s else s.(core := Core(ws, s.core.dirty))
  }

  // ---- storage ------------------------------------------------------------------------------------

  class Storage {
    var rows: map<string, J.Json>
    var blobs: map<PaneId, Blob>

    ghost function State(): Tables
      reads this
    {
      Tables(rows, blobs)
    }

    constructor ()
      ensures State() == Tables(map[], map[])
    {
      rows, blobs := map[], map[];
    }

    /** One transaction; `commits` says whether the database lets it through. */
    method WriteCheckpoint(id: string, state: J.Json, snaps: seq<Snapshot>, commits: bool) returns (ok: bool)
      modifies this
      ensures ok == commits
      ensures State() == if ok then Tables(old(rows)[id := state], StoreAll(old(blobs), snaps)) else old(State())
    {
      var rows', blobs' := rows[id := state], blobs;
      for i := 0 to |snaps|
        invariant State() == old(State()) && blobs' == StoreAll(old(blobs), snaps[..i])
      {
        assert snaps[..i + 1][..i] == snaps[..i];
        blobs' := blobs'[snaps[i].pane := snaps[i].data];
      }
      assert snaps[..|snaps|] == snaps;
      if commits {
        rows, blobs := rows', blobs';
      }
      ok := commits;
    }

    method LoadWorkspace(c: Calendar, id: string) returns (r: Option<Workspace>)
      ensures r == Loaded(State(), c, id)
    {
      if id !in rows {
        return None;
      }
      var ws := ReadWorkspace(c, rows[id]);
      r := if ws.Throws? then None else Some(ws.value);
    }
  }

  // ---- the two operations of the core -------------------------------------------------------------

  method CollectTree(t: Tree, out: seq<Snapshot>) returns (r: seq<Snapshot>)
    ensures r == out + PaneSnapshots(Leaves(t))
  {
    var panes := Leaves(t);
    r := out;
    for k := 0 to |panes|
      invariant r == out + PaneSnapshots(panes[..k])
    {
      ghost var before := PaneSnapshots(panes[..k]);
      assert panes[..k + 1][..k] == panes[..k];
      var p := panes[k];
      if p.state.snapshot != [] {
        r := r + [Snapshot(p.id, p.state.snapshot)];
        assert r == out + (before + [Snapshot(p.id, p.state.snapshot)]);
      } else {
        assert before + [] == before;
      }
    }
    assert panes[..|panes|] == panes;
  }

  method CollectTabs(tabs: seq<Tab>, out: seq<Snapshot>) returns (r: seq<Snapshot>)
    ensures r == out + TabSnapshots(tabs)
  {
    hide PaneSnapshots, Leaves;
    r := out;
    for j := 0 to |tabs|
      invariant r == out + TabSnapshots(tabs[..j])
    {
      ghost var inner, last := TabSnapshots(tabs[..j]), PaneSnapshots(Leaves(tabs[j].tree));
      r := CollectTree(tabs[j].tree, r);
      assert tabs[..j + 1][..j] == tabs[..j];
      assert out + (inner + last) == (out + inner) + last;
    }
    assert tabs[..|tabs|] == tabs;
  }

  method CollectSnapshots(ws: seq<Window>) returns (r: seq<Snapshot>)
    ensures r == Snapshots(ws)
  {
    hide TabSnapshots;
    r := [];
    for i := 0 to |ws|
      invariant r == Snapshots(ws[..i])
    {
      r := CollectTabs(ws[i].tabs, r);
      assert ws[..i + 1][..i] == ws[..i];
    }
    assert ws[..|ws|] == ws;
  }

  /** Time and generation move on even when the database refuses. */
  method TakeCheckpoint(core: C.WorkspaceCore, store: Storage, c: Calendar, now: i64, commits: bool) returns (ok: bool)
    modifies core, store
    ensures ok <==> old(core.current).Some? && commits
    ensures Session(core.State(), store.State())
         == AfterCheckpoint(Session(old(core.State()), old(store.State())), c, now, commits)
  {
    if core.current.None? {
      return false;
    }
    var ws := Stamped(core.current.value, now);
    core.current := Some(ws);
    var snaps := CollectSnapshots(ws.windows);
    ok := store.WriteCheckpoint(ws.id, WriteWorkspace(c, ws), snaps, commits);
    if ok {
      core.dirty := false;
    }
  }

  method OpenWorkspace(core: C.WorkspaceCore, store: Storage, c: Calendar, id: string) returns (ok: bool)
    modifies core
    ensures ok <==> Opened(store.State(), c, id).Some?
    ensures Session(core.State(), store.State()) == AfterOpen(Session(old(core.State()), store.State()), c, id)
  {
    var loaded := store.LoadWorkspace(c, id);
    if loaded.None? {
      return false;
    }
    var wins: seq<Window> := [];
    var ws := loaded.value.windows;
    for i := 0 to |ws|
      invariant |wins| == i && forall k :: 0 <= k < i ==> wins[k] == OverlayWindows(ws, store.blobs)[k]
      invariant core.State() == old(core.State())
    {
      var tabs: seq<Tab> := [];
      for j := 0 to |ws[i].tabs|
        invariant |tabs| == j && forall k :: 0 <= k < j ==> tabs[k] == OverlayTabs(ws[i].tabs, store.blobs)[k]
        invariant core.State() == old(core.State())
      {
        tabs := tabs + [ws[i].tabs[j].(tree := OverlayTree(ws[i].tabs[j].tree, store.blobs))];
      }
      assert tabs == OverlayTabs(ws[i].tabs, store.blobs);
      wins := wins + [ws[i].(tabs := tabs)];
    }
    assert wins == OverlayWindows(ws, store.blobs);
    core.current := Some(loaded.value.(windows := wins));
    return true;
  }

  // ---- which snapshots are stored -----------------------------------------------------------------

  /** How many panes with this id have a snapshot. */
  function TreeSnaps(t: Tree, q: PaneId): nat {
    match t
    case Empty => 0
    case Leaf(p) => if p.id == q && p.state.snapshot != [] then 1 else 0
    case Split(_, _, a, b) => TreeSnaps(a, q) + TreeSnaps(b, q)
  }

  function TabSnaps(q: PaneId): Tab -> nat { (t: Tab) => TreeSnaps(t.tree, q) }

  function WindowSnaps(q: PaneId): Window -> nat { (w: Window) => Sum(w.tabs, TabSnaps(q)) }

  function SnapUses(ws: seq<Window>, q: PaneId): nat { Sum(ws, WindowSnaps(q)) }

  /** The last snapshot of this pane in the tree, or the given one. */
  function LastSnap(t: Tree, q: PaneId, otherwise: Blob): Blob {
    match t
    case Empty => otherwise
    case Leaf(p) => if p.id == q && p.state.snapshot != [] then p.state.snapshot else otherwise
    case Split(_, _, a, b) => LastSnap(b, q, LastSnap(a, q, otherwise))
  }

  lemma {:induction false} StoreConcat(blobs: map<PaneId, Blob>, a: seq<Snapshot>, b: seq<Snapshot>)
    ensures StoreAll(blobs, a + b) == StoreAll(StoreAll(blobs, a), b)
  {
    if b == [] {
      assert a + b == a;
    } else {
      assert (a + b)[..|a + b| - 1] == a + b[..|b| - 1];
      StoreConcat(blobs, a, b[..|b| - 1]);
    }
  }

  lemma {:induction false} PaneSnapshotsConcat(a: seq<Pane>, b: seq<Pane>)
    ensures PaneSnapshots(a + b) == PaneSnapshots(a) + PaneSnapshots(b)
  {
    if b == [] {
      assert a + b == a;
    } else {
      assert (a + b)[..|a + b| - 1] == a + b[..|b| - 1];
      PaneSnapshotsConcat(a, b[..|b| - 1]);
    }
  }

  lemma {:induction false} StoredTree(blobs: map<PaneId, Blob>, t: Tree, q: PaneId)
    ensures BlobOf(StoreAll(blobs, PaneSnapshots(Leaves(t))), q) == LastSnap(t, q, BlobOf(blobs, q))
    decreases t
  {
    match t
    case Empty =>
    case Leaf(p) =>
      assert [p][..0] == [];
      var snaps := PaneSnapshots([p]);
      if p.state.snapshot != [] {
        assert PaneSnapshots([]) == [] && snaps == [] + [Snapshot(p.id, p.state.snapshot)];
        assert snaps[..0] == [];
      }
    case Split(_, _, a, b) =>
      StoredTree(blobs, a, q);
      StoredTree(StoreAll(blobs, PaneSnapshots(Leaves(a))), b, q);
      PaneSnapshotsConcat(Leaves(a), Leaves(b));
      StoreConcat(blobs, PaneSnapshots(Leaves(a)), PaneSnapshots(Leaves(b)));
  }

  lemma {:induction false} LastSnapIs(t: Tree, q: PaneId, otherwise: Blob)
    ensures TreeSnaps(t, q) == 0 ==> LastSnap(t, q, otherwise) == otherwise
    ensures TreeSnaps(t, q) > 0 ==> LastSnap(t, q, otherwise) == LastSnap(t, q, []) != []
  {
    if t.Split? {
      LastSnapIs(t.first, q, otherwise);
      LastSnapIs(t.first, q, []);
      LastSnapIs(t.second, q, LastSnap(t.first, q, otherwise));
      LastSnapIs(t.second, q, LastSnap(t.first, q, []));
    }
  }

  function LastTabSnap(tabs: seq<Tab>, q: PaneId, otherwise: Blob): Blob {
    if tabs == [] then otherwise
    else LastSnap(tabs[|tabs| - 1].tree, q, LastTabSnap(tabs[..|tabs| - 1], q, otherwise))
  }

  function LastWindowSnap(ws: seq<Window>, q: PaneId, otherwise: Blob): Blob {
    if ws == [] then otherwise
    else LastTabSnap(ws[|ws| - 1].tabs, q, LastWindowSnap(ws[..|ws| - 1], q, otherwise))
  }

  lemma {:induction false} StoredTabs(blobs: map<PaneId, Blob>, tabs: seq<Tab>, q: PaneId)
    ensures BlobOf(StoreAll(blobs, TabSnapshots(tabs)), q) == LastTabSnap(tabs, q, BlobOf(blobs, q))
  {
    if tabs != [] {
      var init, last := tabs[..|tabs| - 1], tabs[|tabs| - 1];
      StoredTabs(blobs, init, q);
      StoreConcat(blobs, TabSnapshots(init), PaneSnapshots(Leaves(last.tree)));
      StoredTree(StoreAll(blobs, TabSnapshots(init)), last.tree, q);
    }
  }

  lemma {:induction false} StoredWindows(blobs: map<PaneId, Blob>, ws: seq<Window>, q: PaneId)
    ensures BlobOf(StoreAll(blobs, Snapshots(ws)), q) == LastWindowSnap(ws, q, BlobOf(blobs, q))
  {
    if ws != [] {
      var init, last := ws[..|ws| - 1], ws[|ws| - 1];
      StoredWindows(blobs, init, q);
      StoreConcat(blobs, Snapshots(init), TabSnapshots(last.tabs));
      StoredTabs(StoreAll(blobs, Snapshots(init)), last.tabs, q);
    }
  }

  lemma {:induction false} LastTabSnapIs(tabs: seq<Tab>, q: PaneId, otherwise: Blob)
    ensures Sum(tabs, TabSnaps(q)) == 0 ==> LastTabSnap(tabs, q, otherwise) == otherwise
    ensures Sum(tabs, TabSnaps(q)) > 0 ==> LastTabSnap(tabs, q, otherwise) == LastTabSnap(tabs, q, []) != []
  {
    if tabs != [] {
      var init, last := tabs[..|tabs| - 1], tabs[|tabs| - 1];
      LastTabSnapIs(init, q, otherwise);
      LastSnapIs(last.tree, q, LastTabSnap(init, q, otherwise));
      LastSnapIs(last.tree, q, LastTabSnap(init, q, []));
    }
  }

  lemma {:induction false} LastWindowSnapIs(ws: seq<Window>, q: PaneId, otherwise: Blob)
    ensures SnapUses(ws, q) == 0 ==> LastWindowSnap(ws, q, otherwise) == otherwise
    ensures SnapUses(ws, q) > 0 ==> LastWindowSnap(ws, q, otherwise) != []
  {
    if ws != [] {
      var init, last := ws[..|ws| - 1], ws[|ws| - 1];
      LastWindowSnapIs(init, q, otherwise);
      LastTabSnapIs(last.tabs, q, LastWindowSnap(init, q, otherwise));
    }
  }

  lemma {:induction false} OnlyTabSnap(tabs: seq<Tab>, i: nat, q: PaneId, otherwise: Blob)
    requires i < |tabs| && TreeSnaps(tabs[i].tree, q) > 0 && Sum(tabs, TabSnaps(q)) == 1
    ensures LastTabSnap(tabs, q, otherwise) == LastSnap(tabs[i].tree, q, [])
  {
    var init, last := tabs[..|tabs| - 1], tabs[|tabs| - 1];
    if i < |init| {
      SumUpdate(init, i, init[i], TabSnaps(q));
      OnlyTabSnap(init, i, q, otherwise);
    }
    LastSnapIs(last.tree, q, LastTabSnap(init, q, otherwise));
  }

  lemma {:induction false} OnlyWindowSnap(ws: seq<Window>, i: nat, j: nat, q: PaneId, otherwise: Blob)
    requires i < |ws| && j < |ws[i].tabs| && TreeSnaps(ws[i].tabs[j].tree, q) > 0 && SnapUses(ws, q) == 1
    ensures LastWindowSnap(ws, q, otherwise) == LastSnap(ws[i].tabs[j].tree, q, [])
  {
    var init, last := ws[..|ws| - 1], ws[|ws| - 1];
    SumUpdate(ws[i].tabs, j, ws[i].tabs[j], TabSnaps(q));
    if i < |init| {
      SumUpdate(init, i, init[i], WindowSnaps(q));
      OnlyWindowSnap(init, i, j, q, otherwise);
    } else {
      OnlyTabSnap(last.tabs, j, q, LastWindowSnap(init, q, otherwise));
    }
    LastTabSnapIs(last.tabs, q, LastWindowSnap(init, q, otherwise));
  }

  /** After a checkpoint the blob of an id is the old one if no pane with that id has a snapshot, and else
      it is not empty. */
  lemma {:induction false} StoredBlob(blobs: map<PaneId, Blob>, ws: seq<Window>, q: PaneId)
    ensures var after := BlobOf(StoreAll(blobs, Snapshots(ws)), q);
            && (SnapUses(ws, q) == 0 ==> after == BlobOf(blobs, q))
            && (SnapUses(ws, q) > 0 ==> after != [])
  {
    StoredWindows(blobs, ws, q);
    LastWindowSnapIs(ws, q, BlobOf(blobs, q));
  }

  lemma {:induction false} SnapOfLeaf(t: Tree, k: nat)
    requires k < |Leaves(t)| && Leaves(t)[k].state.snapshot != []
    ensures TreeSnaps(t, Leaves(t)[k].id) > 0
    ensures TreeSnaps(t, Leaves(t)[k].id) == 1 ==> LastSnap(t, Leaves(t)[k].id, []) == Leaves(t)[k].state.snapshot
  {
    if t.Split? {
      var n, q := |Leaves(t.first)|, Leaves(t)[k].id;
      if k < n { SnapOfLeaf(t.first, k); } else { SnapOfLeaf(t.second, k - n); }
      LastSnapIs(t.second, q, LastSnap(t.first, q, []));
    }
  }

  /** After a checkpoint the blob of a pane is its snapshot, if no other pane with its id has one. */
  lemma {:induction false} StoredSnapshot(blobs: map<PaneId, Blob>, ws: seq<Window>, i: nat, j: nat, k: nat)
    requires i < |ws| && j < |ws[i].tabs| && k < |Leaves(ws[i].tabs[j].tree)|
    requires var p := Leaves(ws[i].tabs[j].tree)[k]; p.state.snapshot != [] && SnapUses(ws, p.id) == 1
    ensures var p := Leaves(ws[i].tabs[j].tree)[k];
            BlobOf(StoreAll(blobs, Snapshots(ws)), p.id) == p.state.snapshot
  {
    var t := ws[i].tabs[j].tree;
    var q := Leaves(t)[k].id;
    SnapOfLeaf(t, k);
    SumUpdate(ws[i].tabs, j, ws[i].tabs[j], TabSnaps(q));
    SumUpdate(ws, i, ws[i], WindowSnaps(q));
    StoredWindows(blobs, ws, q);
    OnlyWindowSnap(ws, i, j, q, BlobOf(blobs, q));
  }

  // ---- opening what was saved ---------------------------------------------------------------------

  /** No blob is or will be stored under the id of a pane that has no snapshot itself. */
  predicate NoStaleBlob(t: Tree, blobs: map<PaneId, Blob>, ws: seq<Window>) {
    match t
    case Empty => BlobOf(blobs, "") == [] && SnapUses(ws, "") == 0
    case Leaf(p) => p.state.snapshot == [] ==> BlobOf(blobs, p.id) == [] && SnapUses(ws, p.id) == 0
    case Split(_, _, a, b) => NoStaleBlob(a, blobs, ws) && NoStaleBlob(b, blobs, ws)
  }

  predicate NoStaleBlobs(ws: seq<Window>, blobs: map<PaneId, Blob>) {
    forall i, j :: 0 <= i < |ws| && 0 <= j < |ws[i].tabs| ==> NoStaleBlob(ws[i].tabs[j].tree, blobs, ws)
  }

  /** No two panes with a snapshot share their id. */
  ghost predicate SnapshotsApart(ws: seq<Window>) { forall q :: SnapUses(ws, q) <= 1 }

  lemma {:induction false} SnapIsUse(t: Tree, q: PaneId)
    ensures TreeSnaps(t, q) <= TreeUses(t, q)
  {
    if t.Split? {
      SnapIsUse(t.first, q);
      SnapIsUse(t.second, q);
    }
  }

  lemma {:induction false} SumBelow<T>(s: seq<T>, f: T -> nat, g: T -> nat)
    requires forall i :: 0 <= i < |s| ==> f(s[i]) <= g(s[i])
    ensures Sum(s, f) <= Sum(s, g)
  {
    if s != [] { SumBelow(s[..|s| - 1], f, g); }
  }

  /** Where ids are unique, snapshots are apart if and only if at most one blank pane has one. */
  lemma {:induction false} SnapshotsApartUpToBlanks(ws: seq<Window>)
    requires UniqueIds(ws)
    ensures SnapshotsApart(ws) <==> SnapUses(ws, "") <= 1
  {
    forall q | q != "" ensures SnapUses(ws, q) <= 1 {
      assert PaneUses(ws, q) <= 1;
      forall i | 0 <= i < |ws| ensures WindowSnaps(q)(ws[i]) <= WindowPanes(q)(ws[i]) {
        forall j | 0 <= j < |ws[i].tabs| ensures TabSnaps(q)(ws[i].tabs[j]) <= TabPanes(q)(ws[i].tabs[j]) {
          SnapIsUse(ws[i].tabs[j].tree, q);
        }
        SumBelow(ws[i].tabs, TabSnaps(q), TabPanes(q));
      }
      SumBelow(ws, WindowSnaps(q), WindowPanes(q));
    }
  }

  /** A tree whose snapshots are the stored ones is left alone by the overlay, unless a blob is stale. */
  lemma {:induction false} OverlaidTree(t: Tree, blobs: map<PaneId, Blob>, after: map<PaneId, Blob>, ws: seq<Window>)
    requires forall q | TreeSnaps(t, q) > 0 :: TreeSnaps(t, q) == 1 && BlobOf(after, q) == LastSnap(t, q, [])
    requires forall q :: BlobOf(after, q) == [] <==> BlobOf(blobs, q) == [] && SnapUses(ws, q) == 0
    ensures OverlayTree(NormalTree(t), after) == NormalTree(t) <==> NoStaleBlob(t, blobs, ws)
  {
    match t
    case Empty =>
    case Leaf(p) =>
      if p.state.snapshot != [] { assert TreeSnaps(t, p.id) > 0; }
    case Split(_, _, a, b) =>
      forall q | TreeSnaps(a, q) > 0 ensures TreeSnaps(a, q) == 1 && BlobOf(after, q) == LastSnap(a, q, []) {
        assert TreeSnaps(t, q) > 0;
        LastSnapIs(b, q, LastSnap(a, q, []));
      }
      forall q | TreeSnaps(b, q) > 0 ensures TreeSnaps(b, q) == 1 && BlobOf(after, q) == LastSnap(b, q, []) {
        assert TreeSnaps(t, q) > 0;
        LastSnapIs(b, q, LastSnap(a, q, []));
      }
      OverlaidTree(a, blobs, after, ws);
      OverlaidTree(b, blobs, after, ws);
  }

  lemma {:induction false} OverlaidWindows(ws: seq<Window>, blobs: map<PaneId, Blob>)
    requires SnapshotsApart(ws)
    ensures OverlayWindows(NormalWindows(ws), StoreAll(blobs, Snapshots(ws))) == NormalWindows(ws)
       <==> NoStaleBlobs(ws, blobs)
  {
    var after := StoreAll(blobs, Snapshots(ws));
    forall q ensures BlobOf(after, q) == [] <==> BlobOf(blobs, q) == [] && SnapUses(ws, q) == 0 {
      StoredBlob(blobs, ws, q);
    }
    forall i, j | 0 <= i < |ws| && 0 <= j < |ws[i].tabs|
      ensures OverlayTree(NormalTree(ws[i].tabs[j].tree), after) == NormalTree(ws[i].tabs[j].tree)
         <==> NoStaleBlob(ws[i].tabs[j].tree, blobs, ws)
    {
      var t := ws[i].tabs[j].tree;
      forall q | TreeSnaps(t, q) > 0 ensures TreeSnaps(t, q) == 1 && BlobOf(after, q) == LastSnap(t, q, []) {
        assert SnapUses(ws, q) <= 1;
        SumUpdate(ws[i].tabs, j, ws[i].tabs[j], TabSnaps(q));
        SumUpdate(ws, i, ws[i], WindowSnaps(q));
        StoredWindows(blobs, ws, q);
        OnlyWindowSnap(ws, i, j, q, BlobOf(blobs, q));
      }
      OverlaidTree(t, blobs, after, ws);
    }
    SameOverlay(ws, after);
  }

  lemma {:induction false} SameOverlay(ws: seq<Window>, after: map<PaneId, Blob>)
    ensures OverlayWindows(NormalWindows(ws), after) == NormalWindows(ws)
       <==> forall i, j :: 0 <= i < |ws| && 0 <= j < |ws[i].tabs| ==>
              OverlayTree(NormalTree(ws[i].tabs[j].tree), after) == NormalTree(ws[i].tabs[j].tree)
  {
    var o, n := OverlayWindows(NormalWindows(ws), after), NormalWindows(ws);
    if forall i, j :: 0 <= i < |ws| && 0 <= j < |ws[i].tabs| ==>
         OverlayTree(NormalTree(ws[i].tabs[j].tree), after) == NormalTree(ws[i].tabs[j].tree)
    {
      forall i | 0 <= i < |ws| ensures o[i] == n[i] {
        assert o[i].tabs == n[i].tabs;
      }
    }
    if o == n {
      forall i, j | 0 <= i < |ws| && 0 <= j < |ws[i].tabs|
        ensures OverlayTree(NormalTree(ws[i].tabs[j].tree), after) == NormalTree(ws[i].tabs[j].tree)
      {
        assert o[i].tabs[j] == n[i].tabs[j];
      }
    }
  }

  /** What is stored under an id after a checkpoint: the last snapshot of a pane with that id, or else the
      blob that was stored before. */
  function LastStored(ws: seq<Window>, blobs: map<PaneId, Blob>, q: PaneId): Blob {
    LastWindowSnap(ws, q, BlobOf(blobs, q))
  }

  /** Nothing is stored under the ids of these panes but their own snapshots. */
  predicate OwnBlob(t: Tree, blobs: map<PaneId, Blob>, ws: seq<Window>) {
    match t
    case Empty => LastStored(ws, blobs, "") == []
    case Leaf(p) => LastStored(ws, blobs, p.id) == [] || LastStored(ws, blobs, p.id) == p.state.snapshot
    case Split(_, _, a, b) => OwnBlob(a, blobs, ws) && OwnBlob(b, blobs, ws)
  }

  predicate OwnBlobs(ws: seq<Window>, blobs: map<PaneId, Blob>) {
    forall i, j :: 0 <= i < |ws| && 0 <= j < |ws[i].tabs| ==> OwnBlob(ws[i].tabs[j].tree, blobs, ws)
  }

  lemma {:induction false} OverlaidByOwn(t: Tree, blobs: map<PaneId, Blob>, ws: seq<Window>)
    ensures OverlayTree(NormalTree(t), StoreAll(blobs, Snapshots(ws))) == NormalTree(t) <==> OwnBlob(t, blobs, ws)
  {
    match t
    case Empty =>
      StoredWindows(blobs, ws, "");
    case Leaf(p) =>
      StoredWindows(blobs, ws, p.id);
    case Split(_, _, a, b) =>
      OverlaidByOwn(a, blobs, ws);
      OverlaidByOwn(b, blobs, ws);
  }

  /** Opening a workspace after a checkpoint recovers it, normalised, exactly when under the id of every
      pane nothing is stored but its own snapshot. */
  lemma {:induction false} ReopenRecovers(c: Calendar, t: Tables, ws: Workspace)
    requires IsCalendar(c)
    ensures Opened(Saved(t, c, ws), c, ws.id) == Some(Normal(ws)) <==> OwnBlobs(ws.windows, t.blobs)
  {
    hide ReadWorkspace, WriteWorkspace, OverlayTree, OwnBlob;
    WorkspaceReadsBack(c, ws);
    forall i, j | 0 <= i < |ws.windows| && 0 <= j < |ws.windows[i].tabs|
      ensures var tree, after := NormalTree(ws.windows[i].tabs[j].tree), StoreAll(t.blobs, Snapshots(ws.windows));
              OverlayTree(tree, after) == tree <==> OwnBlob(ws.windows[i].tabs[j].tree, t.blobs, ws.windows)
    {
      OverlaidByOwn(ws.windows[i].tabs[j].tree, t.blobs, ws.windows);
    }
    SameOverlay(ws.windows, StoreAll(t.blobs, Snapshots(ws.windows)));
  }

  /** In particular, where snapshots are apart, exactly when no pane without a snapshot has an id under
      which a blob is stored. */
  lemma {:induction false} ReopenRecoversUnlessStale(c: Calendar, t: Tables, ws: Workspace)
    requires IsCalendar(c) && SnapshotsApart(ws.windows)
    ensures Opened(Saved(t, c, ws), c, ws.id) == Some(Normal(ws)) <==> NoStaleBlobs(ws.windows, t.blobs)
  {
    hide ReadWorkspace, WriteWorkspace;
    WorkspaceReadsBack(c, ws);
    OverlaidWindows(ws.windows, t.blobs);
  }

  /** A workspace with one pane that has no snapshot any more, and a database that still holds one: opening
      brings it back. */
  lemma {:induction false} StaleSnapshotComesBack(c: Calendar)
    requires IsCalendar(c)
    ensures var pane := Pane("p", BLANK_STATE);
            var tab := Tab("t", "tab", Terminal, None, Leaf(pane));
            var window := Window("w", "window", 0, 0, 0, 0, 0, 0, [tab], None, None);
            var ws := Workspace("id", "name", "", 0, 0, [], 1, 1, [window], None, [], BLANK_DIRECTORY);
            Opened(Saved(Tables(map[], map["p" := [7]]), c, ws), c, "id") != Some(Normal(ws))
  {
    hide Opened, Saved, Normal;
    var pane := Pane("p", BLANK_STATE);
    var tab := Tab("t", "tab", Terminal, None, Leaf(pane));
    var window := Window("w", "window", 0, 0, 0, 0, 0, 0, [tab], None, None);
    var ws := Workspace("id", "name", "", 0, 0, [], 1, 1, [window], None, [], BLANK_DIRECTORY);
    var tables := Tables(map[], map["p" := [7]]);
    assert [tab][..0] == [] && [window][..0] == [];
    assert LastTabSnap([tab], "p", [7]) == LastSnap(Leaf(pane), "p", LastTabSnap([], "p", [7])) == [7];
    assert LastStored(ws.windows, tables.blobs, "p") == LastTabSnap([tab], "p", LastWindowSnap([], "p", [7])) == [7];
    assert !OwnBlob(ws.windows[0].tabs[0].tree, tables.blobs, ws.windows);
    ReopenRecovers(c, tables, ws);
  }
}
