/** The pane tree of a tab as a value: leaves are panes, splits have two children and a ratio. */
module PaneTree {
  import opened Options
  import opened Integers
  import Base64

  type PaneId = string

  datatype Source = CtrlC | ProcessExit | Unknown
  datatype Interrupted = Interrupted(command: string, timestampUs: i64, source: Source)
  datatype CommandRecord = CommandRecord(command: string, timestampUs: i64, pinned: bool)

  datatype PaneState = PaneState(
    cwd: string, shell: string, cols: u32, rows: u32,
    environment: seq<string>,
    history: seq<CommandRecord>,
    snapshot: seq<Base64.byte>,
    interrupted: Option<Interrupted>)

  const BLANK_STATE := PaneState("", "", 0, 0, [], [], [], None)

  datatype Pane = Pane(id: PaneId, state: PaneState)

  datatype SplitKind = Horizontal | Vertical

  datatype Tree =
    | Empty
    | Leaf(pane: Pane)
    | Split(kind: SplitKind, ratio: real, first: Tree, second: Tree)

  // ---- observations -----------------------------------------------------------------------

  /** All panes in order. */
  function Leaves(t: Tree): seq<Pane> {
    match t
    case Empty => []
    case Leaf(p) => [p]
    case Split(_, _, a, b) => Leaves(a) + Leaves(b)
  }

  predicate Has(t: Tree, id: PaneId) {
    match t
    case Empty => false
    case Leaf(p) => p.id == id
    case Split(_, _, a, b) => Has(a, id) || Has(b, id)
  }

  /** The first pane with this id. */
  function Find(t: Tree, id: PaneId): (r: Option<Pane>)
    ensures r.Some? <==> Has(t, id)
    ensures r.Some? ==> r.value.id == id
  {
    match t
    case Empty => None
    case Leaf(p) => if p.id == id then Some(p) else None
    case Split(_, _, a, b) => if Has(a, id) then Find(a, id) else Find(b, id)
  }

  /** No empty node anywhere. */
  predicate Full(t: Tree) {
    match t
    case Empty => false
    case Leaf(_) => true
    case Split(_, _, a, b) => Full(a) && Full(b)
  }

  /** No two panes share an id. */
  ghost predicate DistinctIds(t: Tree) {
    match t
    case Empty => true
    case Leaf(_) => true
    case Split(_, _, a, b) =>
      DistinctIds(a) && DistinctIds(b) && forall id :: !(Has(a, id) && Has(b, id))
  }

  predicate RatiosInRange(t: Tree) {
    match t
    case Empty => true
    case Leaf(_) => true
    case Split(_, r, a, b) => 0.0 <= r <= 1.0 && RatiosInRange(a) && RatiosInRange(b)
  }

  /** One step down the tree: through which split, and to which side. */
  datatype Step = Step(kind: SplitKind, ratio: real, second: bool)

  /** The way from the root to the first pane with this id. Kinds, ratios and sides of all paths
      together determine the tree. */
  function Path(t: Tree, id: PaneId): seq<Step>
    requires Has(t, id)
  {
    match t
    case Leaf(_) => []
    case Split(k, r, a, b) =>
      if Has(a, id) then [Step(k, r, false)] + Path(a, id) else [Step(k, r, true)] + Path(b, id)
  }

  // ---- operations -------------------------------------------------------------------------

  /** Remove the first pane with this id; a split left with one child is replaced by that child. */
  function Remove(t: Tree, id: PaneId): Tree {
    match t
    case Empty => Empty
    case Leaf(p) => if p.id == id then Empty else t
    case Split(k, r, a, b) =>
      if Has(a, id) then Join(k, r, Remove(a, id), b)
      else if Has(b, id) then Join(k, r, a, Remove(b, id))
      else t
  }

  /** A split of two subtrees, or the one of them that is not empty. */
  function Join(k: SplitKind, r: real, a: Tree, b: Tree): Tree {
    if a == Empty then b else if b == Empty then a else Split(k, r, a, b)
  }

  /** Replace the first pane with id `at` by a split of itself and a new pane. */
  function SplitAt(t: Tree, at: PaneId, kind: SplitKind, ratio: real, pane: Pane): Tree {
    match t
    case Empty => t
    case Leaf(p) => if p.id == at then Split(kind, ratio, t, Leaf(pane)) else t
    case Split(k, r, a, b) =>
      if Has(a, at) then Split(k, r, SplitAt(a, at, kind, ratio, pane), b)
      else Split(k, r, a, SplitAt(b, at, kind, ratio, pane))
  }

  predicate IsLeafOf(t: Tree, id: PaneId) { t.Leaf? && t.pane.id == id }

  /** Some split has a pane with this id as a direct child. */
  predicate HasParent(t: Tree, id: PaneId) {
    t.Split? && (IsLeafOf(t.first, id) || IsLeafOf(t.second, id) || HasParent(t.first, id) || HasParent(t.second, id))
  }

  /** Set the ratio of the split that is the pane's direct parent. */
  function SetRatio(t: Tree, id: PaneId, ratio: real): Tree {
    if !t.Split? then t
    else if IsLeafOf(t.first, id) || IsLeafOf(t.second, id) then t.(ratio := ratio)
    else if HasParent(t.first, id) then t.(first := SetRatio(t.first, id, ratio))
    else t.(second := SetRatio(t.second, id, ratio))
  }

  /** Give the first pane with this id another state. */
  function WithState(t: Tree, id: PaneId, state: PaneState): Tree {
    match t
    case Empty => t
    case Leaf(p) => if p.id == id then Leaf(p.(state := state)) else t
    case Split(k, r, a, b) =>
      if Has(a, id) then Split(k, r, WithState(a, id, state), b) else Split(k, r, a, WithState(b, id, state))
  }

  // ---- removing a pane --------------------------------------------------------------------

  /** The sequence without its first pane of that id. */
  function Without(ps: seq<Pane>, id: PaneId): seq<Pane> {
    if ps == [] then [] else if ps[0].id == id then ps[1..] else [ps[0]] + Without(ps[1..], id)
  }

  predicate HasPane(ps: seq<Pane>, id: PaneId) {
    ps != [] && (ps[0].id == id || HasPane(ps[1..], id))
  }

  lemma {:induction false} HasPaneConcat(a: seq<Pane>, b: seq<Pane>, id: PaneId)
    ensures HasPane(a + b, id) <==> HasPane(a, id) || HasPane(b, id)
  {
    if a == [] {
      assert a + b == b;
    } else {
      assert (a + b)[1..] == a[1..] + b;
      HasPaneConcat(a[1..], b, id);
    }
  }

  /** The ids of a tree are those of its leaves. */
  lemma {:induction false} HasIsLeaf(t: Tree, id: PaneId)
    ensures Has(t, id) <==> HasPane(Leaves(t), id)
  {
    if t.Split? {
      HasIsLeaf(t.first, id);
      HasIsLeaf(t.second, id);
      HasPaneConcat(Leaves(t.first), Leaves(t.second), id);
    }
  }

  lemma {:induction false} WithoutConcat(a: seq<Pane>, b: seq<Pane>, id: PaneId)
    ensures Without(a + b, id) == if HasPane(a, id) then Without(a, id) + b else a + Without(b, id)
  {
    if a == [] {
      assert a + b == b;
    } else {
      assert (a + b)[1..] == a[1..] + b && (a + b)[0] == a[0];
      WithoutConcat(a[1..], b, id);
      var less := Without(b, id);
      assert [a[0]] + (a[1..] + less) == ([a[0]] + a[1..]) + less && [a[0]] + a[1..] == a;
    }
  }

  /** In every tree, removal deletes exactly the first leaf with that id from the leaf list, and
      nothing when there is none. */
  lemma {:induction false} RemoveDeletesOneLeaf(t: Tree, id: PaneId)
    ensures Leaves(Remove(t, id)) == Without(Leaves(t), id)
    ensures !Has(t, id) ==> Remove(t, id) == t
  {
    if t.Split? {
      var a, b := t.first, t.second;
      RemoveDeletesOneLeaf(a, id);
      RemoveDeletesOneLeaf(b, id);
      assert Without(Leaves(a) + Leaves(b), id) ==
               if Has(a, id) then Leaves(Remove(a, id)) + Leaves(b) else Leaves(a) + Leaves(Remove(b, id)) by {
        HasIsLeaf(a, id);
        WithoutConcat(Leaves(a), Leaves(b), id);
      }
      LeavesOfJoin(t.kind, t.ratio, Remove(a, id), b);
      LeavesOfJoin(t.kind, t.ratio, a, Remove(b, id));
    }
  }

  lemma {:induction false} LeavesOfJoin(k: SplitKind, r: real, a: Tree, b: Tree)
    ensures Leaves(Join(k, r, a, b)) == Leaves(a) + Leaves(b)
  {
  }

  /** Removal never leaves an empty node behind: the tree stays full, or becomes the empty node when
      its last pane went. */
  lemma {:induction false} RemoveKeepsFull(t: Tree, id: PaneId)
    requires Full(t)
    ensures Full(Remove(t, id)) || (Remove(t, id) == Empty && t.Leaf?)
  {
    match t
    case Leaf(_) =>
    case Split(_, _, a, b) =>
      RemoveKeepsFull(a, id);
      RemoveKeepsFull(b, id);
  }

  /** The number of splits. */
  function SplitCount(t: Tree): nat {
    if t.Split? then 1 + SplitCount(t.first) + SplitCount(t.second) else 0
  }

  /** Removing a pane from a split tree drops exactly one split. */
  lemma {:induction false} RemoveDropsOneSplit(t: Tree, id: PaneId)
    requires Full(t) && Has(t, id) && t.Split?
    ensures SplitCount(Remove(t, id)) == SplitCount(t) - 1
  {
    var a, b := t.first, t.second;
    if Has(a, id) {
      RemoveKeepsFull(a, id);
      if a.Split? { RemoveDropsOneSplit(a, id); }
    } else {
      RemoveKeepsFull(b, id);
      if b.Split? { RemoveDropsOneSplit(b, id); }
    }
  }

  /** The path without its `d`-th step. */
  function DropStep(path: seq<Step>, d: nat): seq<Step>
    requires d < |path|
  {
    path[..d] + path[d + 1..]
  }

  /** `q` lies below the parent split of `id`. */
  predicate SharesParent(t: Tree, id: PaneId, q: PaneId)
    requires Has(t, id) && Has(t, q)
  {
    var n := |Path(t, id)|;
    n > 0 && |Path(t, q)| >= n && Path(t, q)[..n - 1] == Path(t, id)[..n - 1]
  }

  lemma {:induction false} RemoveKeepsOthers(t: Tree, id: PaneId, q: PaneId)
    requires q != id
    ensures Has(Remove(t, id), q) <==> Has(t, q)
    ensures Find(Remove(t, id), q) == Find(t, q)
  {
    match t
    case Empty =>
    case Leaf(_) =>
    case Split(_, _, a, b) =>
      RemoveKeepsOthers(a, id, q);
      RemoveKeepsOthers(b, id, q);
  }

  /** The child of a split that holds the first pane with this id. */
  function ChildWith(t: Tree, id: PaneId): (c: Tree)
    requires t.Split? && Has(t, id)
    ensures Has(c, id)
  {
    if Has(t.first, id) then t.first else t.second
  }

  /** A step in front of both makes no difference to a common prefix. */
  lemma {:induction false} SamePrefix(x: Step, a: seq<Step>, b: seq<Step>, k: nat)
    requires 1 <= k <= |a| + 1
    ensures |b| + 1 >= k ==> ((([x] + b)[..k] == ([x] + a)[..k]) <==> b[..k - 1] == a[..k - 1])
  {
    assert ([x] + a)[..k] == [x] + a[..k - 1] && ([x] + a)[..k][1..] == a[..k - 1];
    if |b| + 1 >= k {
      assert ([x] + b)[..k] == [x] + b[..k - 1] && ([x] + b)[..k][1..] == b[..k - 1];
    }
  }

  /** Above the parent split, being below it is decided in the child that holds the pane. */
  lemma {:induction false} SharesParentBelow(t: Tree, id: PaneId, q: PaneId)
    requires t.Split? && DistinctIds(t) && Has(t, id) && Has(t, q) && ChildWith(t, id).Split?
    ensures var c := ChildWith(t, id);
            && Path(t, id) == [Path(t, id)[0]] + Path(c, id)
            && (Has(c, q) ==> Path(t, q) == [Path(t, id)[0]] + Path(c, q))
            && (SharesParent(t, id, q) <==> Has(c, q) && SharesParent(c, id, q))
  {
    var c, n := ChildWith(t, id), |Path(t, id)|;
    assert Path(t, id) == [Path(t, id)[0]] + Path(c, id) && |Path(c, id)| >= 1;
    if Has(c, q) {
      assert Path(t, q) == [Path(t, id)[0]] + Path(c, q);
      hide Path;
      SamePrefix(Path(t, id)[0], Path(c, id), Path(c, q), n - 1);
    } else {
      assert |Path(t, q)| >= n ==> Path(t, q)[..n - 1][0] != Path(t, id)[..n - 1][0];
    }
  }

  /** Removing from a child that is a split leaves the split above it in place. */
  lemma {:induction false} RemoveInChild(t: Tree, id: PaneId, q: PaneId)
    requires t.Split? && Full(t) && DistinctIds(t) && Has(t, id) && Has(t, q) && q != id && ChildWith(t, id).Split?
    ensures var c := ChildWith(t, id);
            && Has(Remove(t, id), q)
            && (Has(c, q) ==>
              Has(Remove(c, id), q) && Path(Remove(t, id), q) == [Path(t, id)[0]] + Path(Remove(c, id), q))
            && (!Has(c, q) ==> Path(Remove(t, id), q) == Path(t, q))
  {
    var c := ChildWith(t, id);
    RemoveKeepsFull(c, id);
    RemoveKeepsOthers(c, id, q);
  }

  lemma {:induction false} DropStepBelow(x: Step, path: seq<Step>, d: nat)
    requires d < |path|
    ensures DropStep([x] + path, d + 1) == [x] + DropStep(path, d)
  {
    var all := [x] + path;
    assert all[..d + 1] == [x] + path[..d] && all[d + 2..] == path[d + 1..];
    assert ([x] + path[..d]) + path[d + 1..] == [x] + (path[..d] + path[d + 1..]);
  }

  /** If the removed pane is a child of the root, its sibling takes the place of the root. */
  lemma {:induction false} RemoveAtRoot(t: Tree, id: PaneId, q: PaneId)
    requires Full(t) && DistinctIds(t) && t.Split? && Has(t, id) && Has(t, q) && q != id && !ChildWith(t, id).Split?
    ensures Has(Remove(t, id), q) && |Path(t, id)| == 1 && SharesParent(t, id, q)
    ensures Path(Remove(t, id), q) == DropStep(Path(t, q), 0)
  {
    var other := if Has(t.first, id) then t.second else t.first;
    assert Remove(t, id) == other;
    assert |Path(t, id)| == 1 && Path(t, q)[1..] == Path(other, q);
    assert Path(t, q)[..0] == Path(t, id)[..0] == [];
    assert DropStep(Path(t, q), 0) == Path(other, q);
  }

  /** Where every other pane ends up: panes below the removed pane's parent move up by exactly that
      step, all other panes keep their whole path, with kinds, ratios and sides. */
  lemma {:induction false} RemovePromotesSibling(t: Tree, id: PaneId, q: PaneId)
    requires Full(t) && DistinctIds(t) && Has(t, id) && Has(t, q) && q != id
    ensures Has(Remove(t, id), q)
    ensures Path(Remove(t, id), q) ==
              if SharesParent(t, id, q) then DropStep(Path(t, q), |Path(t, id)| - 1) else Path(t, q)
  {
    if t.Split? && ChildWith(t, id).Split? {
      hide Path, Remove, SharesParent;
      var c := ChildWith(t, id);
      SharesParentBelow(t, id, q);
      RemoveInChild(t, id, q);
      if Has(c, q) {
        RemovePromotesSibling(c, id, q);
        PathOfSplit(c, id);
        if SharesParent(c, id, q) {
          LongEnough(c, id, q);
          DropStepBelow(Path(t, id)[0], Path(c, q), |Path(c, id)| - 1);
        }
      }
    } else if t.Split? {
      RemoveAtRoot(t, id, q);
    }
  }

  lemma {:induction false} PathOfSplit(t: Tree, id: PaneId)
    requires t.Split? && Has(t, id)
    ensures |Path(t, id)| >= 1
  {
  }

  lemma {:induction false} LongEnough(t: Tree, id: PaneId, q: PaneId)
    requires Has(t, id) && Has(t, q) && SharesParent(t, id, q)
    ensures |Path(t, q)| >= |Path(t, id)| > 0
  {
  }

  ghost predicate SamePaths(t: Tree, u: Tree) {
    forall q :: (Has(t, q) <==> Has(u, q)) && (Has(t, q) ==> Path(t, q) == Path(u, q) && Find(t, q) == Find(u, q))
  }

  /** The id of the first leaf. */
  function FirstId(t: Tree): (id: PaneId)
    requires Full(t)
    ensures Has(t, id)
  {
    if t.Leaf? then t.pane.id else FirstId(t.first)
  }

  lemma {:induction false} SamePathsBelow(t: Tree, u: Tree)
    requires Full(t) && Full(u) && DistinctIds(t) && DistinctIds(u) && SamePaths(t, u) && t.Split?
    ensures u.Split? && u.kind == t.kind && u.ratio == t.ratio
    ensures SamePaths(t.first, u.first) && SamePaths(t.second, u.second)
  {
    var id := FirstId(t.first);
    assert Path(t, id)[0] == Path(u, id)[0];
    forall q
      ensures Has(t.first, q) <==> Has(u.first, q)
      ensures Has(t.second, q) <==> Has(u.second, q)
      ensures Has(t, q) ==> Path(t, q)[1..] == Path(u, q)[1..]
    {
      if Has(t, q) { assert Path(t, q)[0] == Path(u, q)[0]; }
    }
    forall q
      ensures Has(t.first, q) ==> Path(t.first, q) == Path(u.first, q) && Find(t.first, q) == Find(u.first, q)
      ensures Has(t.second, q) ==> Path(t.second, q) == Path(u.second, q) && Find(t.second, q) == Find(u.second, q)
    {
      if Has(t, q) {
        assert Path(t, q)[1..] == Path(if Has(t.first, q) then t.first else t.second, q);
        assert Path(u, q)[1..] == Path(if Has(u.first, q) then u.first else u.second, q);
        assert Find(t, q) == Find(u, q);
      }
    }
  }

  /** A full tree is determined by where its panes are: so the laws about paths say everything. */
  lemma {:induction false} PathsDetermineTree(t: Tree, u: Tree)
    requires Full(t) && Full(u) && DistinctIds(t) && DistinctIds(u) && SamePaths(t, u)
    ensures t == u
  {
    if t.Split? {
      SamePathsBelow(t, u);
      PathsDetermineTree(t.first, u.first);
      PathsDetermineTree(t.second, u.second);
    } else {
      assert Path(u, t.pane.id) == [];
    }
  }

  // ---- splitting a pane -------------------------------------------------------------------

  /** The sequence with `pane` put right behind the first pane of id `at`. */
  function InsertAfter(ps: seq<Pane>, at: PaneId, pane: Pane): seq<Pane> {
    if ps == [] then []
    else if ps[0].id == at then [ps[0], pane] + ps[1..]
    else [ps[0]] + InsertAfter(ps[1..], at, pane)
  }

  lemma {:induction false} InsertAfterConcat(a: seq<Pane>, b: seq<Pane>, at: PaneId, pane: Pane)
    ensures InsertAfter(a + b, at, pane) ==
              if HasPane(a, at) then InsertAfter(a, at, pane) + b else a + InsertAfter(b, at, pane)
  {
    if a == [] {
      assert a + b == b;
    } else {
      assert (a + b)[1..] == a[1..] + b && (a + b)[0] == a[0];
      InsertAfterConcat(a[1..], b, at, pane);
      var more := InsertAfter(b, at, pane);
      assert [a[0]] + (a[1..] + more) == ([a[0]] + a[1..]) + more && [a[0]] + a[1..] == a;
    }
  }

  /** After a split the new pane stands right behind the split one in the leaf list. */
  lemma {:induction false} SplitAddsOneLeaf(t: Tree, at: PaneId, kind: SplitKind, ratio: real, pane: Pane)
    requires Has(t, at)
    ensures Leaves(SplitAt(t, at, kind, ratio, pane)) == InsertAfter(Leaves(t), at, pane)
  {
    match t
    case Leaf(_) =>
    case Split(_, _, a, b) =>
      SplitAddsOneLeaf(if Has(a, at) then a else b, at, kind, ratio, pane);
      HasIsLeaf(a, at);
      InsertAfterConcat(Leaves(a), Leaves(b), at, pane);
  }

  lemma {:induction false} SplitHas(t: Tree, at: PaneId, kind: SplitKind, ratio: real, pane: Pane, q: PaneId)
    requires Has(t, at)
    ensures Has(SplitAt(t, at, kind, ratio, pane), q) <==> Has(t, q) || q == pane.id
  {
    match t
    case Leaf(_) =>
    case Split(_, _, a, b) =>
      if Has(a, at) { SplitHas(a, at, kind, ratio, pane, q); } else { SplitHas(b, at, kind, ratio, pane, q); }
  }

  /** Splitting keeps a tree full, its ids distinct and its ratios in range. */
  lemma {:induction false} SplitKeepsShape(t: Tree, at: PaneId, kind: SplitKind, ratio: real, pane: Pane)
    requires Full(t) && DistinctIds(t) && Has(t, at) && !Has(t, pane.id)
    ensures var s := SplitAt(t, at, kind, ratio, pane);
            Full(s) && DistinctIds(s) && (RatiosInRange(t) && 0.0 <= ratio <= 1.0 ==> RatiosInRange(s))
  {
    match t
    case Leaf(_) =>
    case Split(_, _, a, b) =>
      var c := if Has(a, at) then a else b;
      SplitKeepsShape(c, at, kind, ratio, pane);
      forall q ensures Has(SplitAt(c, at, kind, ratio, pane), q) <==> Has(c, q) || q == pane.id {
        SplitHas(c, at, kind, ratio, pane, q);
      }
  }

  /** Splitting touches no other pane: state and path of every old pane are kept, except that the
      split pane's path gets one step longer, beside the new pane's. */
  lemma {:induction false} SplitKeepsOthers(t: Tree, at: PaneId, kind: SplitKind, ratio: real, pane: Pane, q: PaneId)
    requires DistinctIds(t) && Has(t, at) && !Has(t, pane.id) && (Has(t, q) || q == pane.id)
    ensures var s := SplitAt(t, at, kind, ratio, pane);
            && Has(s, q)
            && Find(s, q) == (if q == pane.id then Some(pane) else Find(t, q))
            && Path(s, q) == if q == pane.id then Path(t, at) + [Step(kind, ratio, true)]
                             else if q == at then Path(t, at) + [Step(kind, ratio, false)]
                             else Path(t, q)
  {
    SplitHas(t, at, kind, ratio, pane, q);
    match t
    case Leaf(_) =>
    case Split(_, _, a, b) =>
      var c := if Has(a, at) then a else b;
      SplitHas(c, at, kind, ratio, pane, q);
      if Has(c, q) || q == pane.id {
        SplitKeepsOthers(c, at, kind, ratio, pane, q);
      }
  }

  /** Removing the pane that a split has added restores the old tree exactly. */
  lemma {:induction false} RemoveUndoesSplit(t: Tree, at: PaneId, kind: SplitKind, ratio: real, pane: Pane)
    requires Full(t) && Has(t, at) && !Has(t, pane.id)
    ensures Remove(SplitAt(t, at, kind, ratio, pane), pane.id) == t
  {
    match t
    case Leaf(_) =>
    case Split(_, _, a, b) =>
      var c := if Has(a, at) then a else b;
      RemoveUndoesSplit(c, at, kind, ratio, pane);
      SplitHas(c, at, kind, ratio, pane, pane.id);
  }

  // ---- changing a ratio or a state ----------------------------------------------------------

  lemma {:induction false} ParentOfPane(t: Tree, id: PaneId)
    requires Full(t)
    ensures HasParent(t, id) <==> Has(t, id) && t.Split?
  {
    if t.Split? {
      ParentOfPane(t.first, id);
      ParentOfPane(t.second, id);
    }
  }

  lemma {:induction false} SetRatioKeepsLeaves(t: Tree, id: PaneId, ratio: real, q: PaneId)
    ensures Leaves(SetRatio(t, id, ratio)) == Leaves(t)
    ensures Has(SetRatio(t, id, ratio), q) <==> Has(t, q)
    ensures Full(SetRatio(t, id, ratio)) <==> Full(t)
    ensures RatiosInRange(t) && 0.0 <= ratio <= 1.0 ==> RatiosInRange(SetRatio(t, id, ratio))
  {
    if t.Split? && !IsLeafOf(t.first, id) && !IsLeafOf(t.second, id) {
      SetRatioKeepsLeaves(t.first, id, ratio, q);
      SetRatioKeepsLeaves(t.second, id, ratio, q);
    }
  }

  /** Setting the ratio changes the one step through the pane's parent and no other step of any path. */
  lemma {:induction false} SetRatioChangesParent(t: Tree, id: PaneId, ratio: real, q: PaneId)
    requires Full(t) && DistinctIds(t) && Has(t, id) && Has(t, q)
    ensures Has(SetRatio(t, id, ratio), q)
    ensures var d := |Path(t, id)| - 1;
            Path(SetRatio(t, id, ratio), q) ==
              if SharesParent(t, id, q) then Path(t, q)[d := Path(t, q)[d].(ratio := ratio)] else Path(t, q)
  {
    SetRatioKeepsLeaves(t, id, ratio, q);
    if t.Split? && ChildWith(t, id).Split? {
      hide Path, SetRatio, SharesParent;
      var c := ChildWith(t, id);
      SharesParentBelow(t, id, q);
      SetRatioInChild(t, id, ratio, q);
      if Has(c, q) {
        SetRatioChangesParent(c, id, ratio, q);
        PathOfSplit(c, id);
        if SharesParent(c, id, q) { LongEnough(c, id, q); }
      }
    } else if t.Split? {
      SetRatioAtRoot(t, id, ratio, q);
    }
  }

  lemma {:induction false} SetRatioAtRoot(t: Tree, id: PaneId, ratio: real, q: PaneId)
    requires t.Split? && Full(t) && DistinctIds(t) && Has(t, id) && Has(t, q) && !ChildWith(t, id).Split?
    ensures Has(SetRatio(t, id, ratio), q) && |Path(t, id)| == 1 && SharesParent(t, id, q)
    ensures Path(SetRatio(t, id, ratio), q) == Path(t, q)[0 := Path(t, q)[0].(ratio := ratio)]
  {
    assert IsLeafOf(t.first, id) || IsLeafOf(t.second, id);
    var c := ChildWith(t, q);
    assert Path(t, q) == [Step(t.kind, t.ratio, !Has(t.first, q))] + Path(c, q);
    assert Path(t, q)[..0] == Path(t, id)[..0] == [];
  }

  /** Setting the ratio below a child that is a split leaves the split above it alone. */
  lemma {:induction false} SetRatioInChild(t: Tree, id: PaneId, ratio: real, q: PaneId)
    requires t.Split? && Full(t) && DistinctIds(t) && Has(t, id) && Has(t, q) && ChildWith(t, id).Split?
    ensures var c := ChildWith(t, id);
            && Has(SetRatio(t, id, ratio), q)
            && (Has(c, q) ==> Has(SetRatio(c, id, ratio), q))
            && (Has(c, q) ==> Path(SetRatio(t, id, ratio), q) == [Path(t, id)[0]] + Path(SetRatio(c, id, ratio), q))
            && (!Has(c, q) ==> Path(SetRatio(t, id, ratio), q) == Path(t, q))
  {
    var c := ChildWith(t, id);
    ParentOfPane(t.first, id);
    ParentOfPane(t.second, id);
    SetRatioKeepsLeaves(t, id, ratio, q);
    SetRatioKeepsLeaves(c, id, ratio, q);
  }

  /** A new state for one pane leaves ids, structure and all other panes alone. */
  lemma {:induction false} WithStateKeepsOthers(t: Tree, id: PaneId, state: PaneState, q: PaneId)
    requires Has(t, id)
    ensures Has(WithState(t, id, state), q) <==> Has(t, q)
    ensures Find(WithState(t, id, state), q) == if q == id then Some(Pane(id, state)) else Find(t, q)
    ensures Full(WithState(t, id, state)) <==> Full(t)
    ensures RatiosInRange(WithState(t, id, state)) <==> RatiosInRange(t)
  {
    if t.Split? {
      var c := if Has(t.first, id) then t.first else t.second;
      WithStateKeepsOthers(c, id, state, q);
    }
  }
}
