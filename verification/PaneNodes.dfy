/** The pane tree as the program holds it: nodes that own their children and are changed in place.
    Every operation is proved to do to the tree's value what module PaneTree says. */
module PaneNodes {
  import opened Options
  import opened PaneTree

  datatype NodeKind = PaneKind | SplitHorizontal | SplitVertical

  class PaneNode {
    var kind: NodeKind
    var pane: Option<Pane>
    var first: PaneNode?
    var second: PaneNode?
    var ratio: real

    /** The default node: a leaf without a pane. */
    constructor ()
      ensures kind == PaneKind && pane == None && first == null && second == null && ratio == 0.5
    {
      kind, pane, first, second, ratio := PaneKind, None, null, null, 0.5;
    }

    constructor Leaf(p: Pane)
      ensures kind == PaneKind && pane == Some(p) && first == null && second == null
    {
      kind, pane, first, second, ratio := PaneKind, Some(p), null, null, 0.5;
    }

    constructor Split(k: NodeKind, a: PaneNode, b: PaneNode, r: real)
      ensures kind == k && pane == None && first == a && second == b && ratio == r
    {
      kind, pane, first, second, ratio := k, None, a, b, r;
    }

    /** Take over everything another node holds. */
    method MoveFrom(other: PaneNode)
      modifies this
      ensures kind == old(other.kind) && pane == old(other.pane) && ratio == old(other.ratio)
      ensures first == old(other.first) && second == old(other.second)
    {
      kind, pane, first, second, ratio := other.kind, other.pane, other.first, other.second, other.ratio;
    }

  }

  // ---- the value of a node ------------------------------------------------------------------

  /** The nodes of a tree, arranged as the tree. */
  datatype Shape = Tip(node: PaneNode) | Fork(node: PaneNode, left: Shape, right: Shape)

  ghost function Nodes(s: Shape): set<PaneNode> {
    match s
    case Tip(n) => {n}
    case Fork(n, l, r) => {n} + Nodes(l) + Nodes(r)
  }

  /** The heap holds a tree of this shape, and no node is shared. */
  ghost predicate Holds(s: Shape)
    reads Nodes(s)
  {
    match s
    case Tip(n) => n.kind == PaneKind
    case Fork(n, l, r) =>
      && n.kind != PaneKind && n.first == l.node && n.second == r.node
      && n !in Nodes(l) && n !in Nodes(r) && Nodes(l) !! Nodes(r)
      && Holds(l) && Holds(r)
  }

  function ToSplitKind(k: NodeKind): SplitKind { if k == SplitVertical then Vertical else Horizontal }

  function FromSplitKind(k: SplitKind): NodeKind { if k == Vertical then SplitVertical else SplitHorizontal }

  /** The tree value that the nodes hold. */
  ghost function Model(s: Shape): Tree
    requires Holds(s)
    reads Nodes(s)
  {
    match s
    case Tip(n) => if n.pane.Some? then Leaf(n.pane.value) else Empty
    case Fork(n, l, r) => Split(ToSplitKind(n.kind), n.ratio, Model(l), Model(r))
  }

  // ---- reading ------------------------------------------------------------------------------

  method CollectPanes(node: PaneNode, out: seq<Pane>, ghost s: Shape) returns (r: seq<Pane>)
    requires Holds(s) && s.node == node
    ensures r == out + Leaves(old(Model(s)))
    decreases s
  {
    if node.kind == PaneKind {
      return if node.pane.Some? then out + [node.pane.value] else out;
    }
    assert allocated(Nodes(s.left)) && allocated(Nodes(s.right));
    r := CollectPanes(node.first, out, s.left);
    r := CollectPanes(node.second, r, s.right);
  }

  /** A deep copy: a new tree of new nodes with the same value. */
  method Copy(node: PaneNode, ghost s: Shape) returns (copy: PaneNode, ghost c: Shape)
    requires Holds(s) && s.node == node
    ensures c.node == copy && fresh(Nodes(c)) && Holds(c) && Model(c) == old(Model(s))
    decreases s
  {
    assert allocated(Nodes(s));
    if node.kind == PaneKind {
      copy := new PaneNode();
      copy.pane, copy.ratio := node.pane, node.ratio;
      c := Tip(copy);
    } else {
      ghost var t := Model(s);
      assert allocated(Nodes(s.left)) && allocated(Nodes(s.right));
      ghost var sa, sb;
      var a, b;
      a, sa := Copy(node.first, s.left);
      assert allocated(Nodes(sa));
      b, sb := Copy(node.second, s.right);
      assert Holds(sa) && Model(sa) == t.first && Model(sb) == t.second;
      assert allocated(Nodes(sb)) && Nodes(sa) !! Nodes(sb);
      copy := new PaneNode.Split(node.kind, a, b, node.ratio);
      c := Fork(copy, sa, sb);
    }
  }

  /** The node of the first pane with this id. */
  ghost function NodeOf(s: Shape, id: PaneId): PaneNode
    requires Holds(s) && Has(Model(s), id)
    reads Nodes(s)
  {
    match s
    case Tip(n) => n
    case Fork(_, l, r) => if Has(Model(l), id) then NodeOf(l, id) else NodeOf(r, id)
  }

  method FindPane(node: PaneNode, id: PaneId, ghost s: Shape) returns (found: PaneNode?)
    requires Holds(s) && s.node == node
    ensures found == old(if Has(Model(s), id) then NodeOf(s, id) else null)
    ensures found != null ==> found in Nodes(s) && found.kind == PaneKind && found.pane == Find(old(Model(s)), id)
    decreases s
  {
    if node.kind == PaneKind {
      return if node.pane.Some? && node.pane.value.id == id then node else null;
    }
    assert allocated(Nodes(s.left)) && allocated(Nodes(s.right));
    found := FindPane(node.first, id, s.left);
    if found != null {
      return;
    }
    found := FindPane(node.second, id, s.right);
  }

  // ---- removing in place --------------------------------------------------------------------

  predicate ChildAlive(n: PaneNode?)
    reads n
  {
    if n != null && n.kind != PaneKind then true else n != null && n.pane.Some?
  }

  /** The shape with another node at the root. */
  function ReRoot(s: Shape, node: PaneNode): Shape { s.(node := node) }

  /** Replace a split of which a child has become empty by its other child. */
  method Prune(node: PaneNode, ghost l: Shape, ghost r: Shape) returns (ghost s': Shape)
    requires Holds(Fork(node, l, r))
    modifies node
    ensures s'.node == node && Nodes(s') <= Nodes(Fork(node, l, r)) && Holds(s')
    ensures Model(s') == old(Join(ToSplitKind(node.kind), node.ratio, Model(l), Model(r)))
  {
    var firstAlive := ChildAlive(node.first);
    var secondAlive := ChildAlive(node.second);
    if firstAlive && secondAlive {
      return Fork(node, l, r);
    }
    assert allocated(Nodes(l)) && allocated(Nodes(r));
    assert l.Fork? ==> Holds(l.left) && Holds(l.right) && Nodes(l.left) + Nodes(l.right) <= Nodes(l);
    assert r.Fork? ==> Holds(r.left) && Holds(r.right) && Nodes(r.left) + Nodes(r.right) <= Nodes(r);
    if firstAlive && node.first != null {
      node.MoveFrom(node.first);
      s' := ReRoot(l, node);
    } else if secondAlive && node.second != null {
      node.MoveFrom(node.second);
      s' := ReRoot(r, node);
    } else {
      var blank := new PaneNode();
      node.MoveFrom(blank);
      s' := Tip(node);
    }
  }

  method RemovePane(node: PaneNode, id: PaneId, ghost s: Shape) returns (removed: bool, ghost s': Shape)
    requires Holds(s) && s.node == node
    modifies Nodes(s)
    ensures removed == old(Has(Model(s), id))
    ensures s'.node == node && Nodes(s') <= Nodes(s) && Holds(s')
    ensures Model(s') == Remove(old(Model(s)), id)
    decreases s
  {
    if node.kind == PaneKind {
      if node.pane.Some? && node.pane.value.id == id {
        var blank := new PaneNode();
        node.MoveFrom(blank);
        return true, Tip(node);
      }
      return false, s;
    }
    ghost var l, r, t := s.left, s.right, Model(s);
    assert allocated(Nodes(l)) && allocated(Nodes(r));
    removed := false;
    if node.first != null {
      removed, l := RemovePane(node.first, id, l);
    }
    assert allocated(Nodes(l));
    if !removed && node.second != null {
      removed, r := RemovePane(node.second, id, r);
    }
    assert Holds(Fork(node, l, r));
    assert removed <==> Has(t, id);
    assert removed ==> Remove(t, id) == Join(t.kind, t.ratio, Model(l), Model(r));
    if !removed {
      return removed, Fork(node, l, r);
    }
    s' := Prune(node, l, r);
  }

  // ---- changing a ratio in place --------------------------------------------------------------

  lemma {:induction false} SetRatioWithoutParent(t: Tree, id: PaneId, ratio: real)
    requires !HasParent(t, id)
    ensures SetRatio(t, id, ratio) == t
  {
    if t.Split? {
      SetRatioWithoutParent(t.second, id, ratio);
    }
  }

  predicate IsPane(n: PaneNode?, id: PaneId)
    reads n
  {
    n != null && n.kind == PaneKind && n.pane.Some? && n.pane.value.id == id
  }

  method SetSplitRatio(node: PaneNode, id: PaneId, ratio: real, ghost s: Shape) returns (done: bool)
    requires Holds(s) && s.node == node
    modifies Nodes(s)
    ensures done == old(HasParent(Model(s), id))
    ensures Holds(s) && Model(s) == SetRatio(old(Model(s)), id, ratio)
    decreases s
  {
    if node.kind == PaneKind {
      return false;
    }
    if IsPane(node.first, id) {
      node.ratio := ratio;
      return true;
    }
    if IsPane(node.second, id) {
      node.ratio := ratio;
      return true;
    }
    assert allocated(Nodes(s.left)) && allocated(Nodes(s.right));
    ghost var t := Model(s);
    done := SetSplitRatio(node.first, id, ratio, s.left);
    if done {
      return;
    }
    SetRatioWithoutParent(t.first, id, ratio);
    done := SetSplitRatio(node.second, id, ratio, s.right);
    if !done {
      SetRatioWithoutParent(t.second, id, ratio);
    }
  }

  // ---- overwriting a found pane in place ------------------------------------------------------

  /** Replace the first pane with this id by a subtree. */
  function ReplacePane(t: Tree, id: PaneId, sub: Tree): Tree {
    match t
    case Empty => t
    case Leaf(p) => if p.id == id then sub else t
    case Split(k, r, a, b) =>
      if Has(a, id) then Split(k, r, ReplacePane(a, id, sub), b) else Split(k, r, a, ReplacePane(b, id, sub))
  }

  /** The shape in which the tip `n` has grown into `sub`. */
  function Graft(s: Shape, n: PaneNode, sub: Shape): Shape {
    match s
    case Tip(m) => if m == n then sub else s
    case Fork(m, l, r) => Fork(m, Graft(l, n, sub), Graft(r, n, sub))
  }

  lemma {:induction false} GraftElsewhere(s: Shape, n: PaneNode, sub: Shape)
    requires n !in Nodes(s)
    ensures Graft(s, n, sub) == s
  {
    if s.Fork? {
      GraftElsewhere(s.left, n, sub);
      GraftElsewhere(s.right, n, sub);
    }
  }

  /** Leaving the leaf node `n` aside, the heap holds the tree `t` in this shape. */
  ghost predicate HoldsBut(s: Shape, n: PaneNode, t: Tree)
    reads Nodes(s) - {n}
  {
    match s
    case Tip(m) => m != n ==> m.kind == PaneKind && t == if m.pane.Some? then Leaf(m.pane.value) else Empty
    case Fork(m, l, r) =>
      && m != n && m.kind != PaneKind && m.first == l.node && m.second == r.node
      && m !in Nodes(l) && m !in Nodes(r) && Nodes(l) !! Nodes(r)
      && t.Split? && t.kind == ToSplitKind(m.kind) && t.ratio == m.ratio
      && HoldsBut(l, n, t.first) && HoldsBut(r, n, t.second)
  }

  /** Before `n` is overwritten, the heap holds the tree, also leaving `n` aside. */
  lemma {:induction false} BeforeOverwriting(s: Shape, n: PaneNode)
    requires Holds(s) && n.kind == PaneKind
    ensures HoldsBut(s, n, Model(s))
  {
    if s.Fork? {
      BeforeOverwriting(s.left, n);
      BeforeOverwriting(s.right, n);
    }
  }

  lemma {:induction false} NotOverwritten(s: Shape, n: PaneNode, t: Tree)
    requires HoldsBut(s, n, t) && n !in Nodes(s)
    ensures Holds(s) && Model(s) == t
  {
    if s.Fork? {
      NotOverwritten(s.left, n, t.first);
      NotOverwritten(s.right, n, t.second);
    }
  }

  /** `n` is the tip at the place of the first pane with this id. */
  ghost predicate IsAt(s: Shape, t: Tree, id: PaneId, n: PaneNode) {
    match s
    case Tip(m) => m == n && IsLeafOf(t, id)
    case Fork(_, l, r) =>
      t.Split? && (if Has(t.first, id) then IsAt(l, t.first, id, n) && n !in Nodes(r)
                   else IsAt(r, t.second, id, n) && n !in Nodes(l))
  }

  lemma {:induction false} FoundIsAt(s: Shape, id: PaneId)
    requires Holds(s) && Has(Model(s), id)
    ensures NodeOf(s, id) in Nodes(s) && IsAt(s, Model(s), id, NodeOf(s, id))
  {
    if s.Fork? {
      if Has(Model(s.left), id) { FoundIsAt(s.left, id); } else { FoundIsAt(s.right, id); }
    }
  }

  /** When the found node has become the root of a subtree of otherwise new nodes, the whole tree's
      value is the old one with that subtree in place of the pane. */
  lemma {:induction false} Overwritten(s: Shape, t: Tree, id: PaneId, n: PaneNode, sub: Shape)
    requires HoldsBut(s, n, t) && IsAt(s, t, id, n)
    requires sub.node == n && Holds(sub) && (Nodes(sub) - {n}) !! Nodes(s)
    ensures var g := Graft(s, n, sub);
            && g.node == s.node && Nodes(g) <= Nodes(s) + Nodes(sub)
            && Holds(g) && Model(g) == ReplacePane(t, id, Model(sub))
  {
    if s.Fork? {
      var l, r := s.left, s.right;
      if Has(t.first, id) {
        Overwritten(l, t.first, id, n, sub);
        GraftElsewhere(r, n, sub);
        NotOverwritten(r, n, t.second);
      } else {
        Overwritten(r, t.second, id, n, sub);
        GraftElsewhere(l, n, sub);
        NotOverwritten(l, n, t.first);
      }
    }
  }

  lemma {:induction false} SplitAtReplaces(t: Tree, at: PaneId, kind: SplitKind, ratio: real, pane: Pane)
    requires Has(t, at)
    ensures SplitAt(t, at, kind, ratio, pane) ==
              ReplacePane(t, at, Split(kind, ratio, Leaf(Find(t, at).value), Leaf(pane)))
  {
    if t.Split? {
      if Has(t.first, at) {
        SplitAtReplaces(t.first, at, kind, ratio, pane);
      } else {
        SplitAtReplaces(t.second, at, kind, ratio, pane);
      }
    }
  }

  lemma {:induction false} WithStateReplaces(t: Tree, id: PaneId, state: PaneState)
    requires Has(t, id)
    ensures WithState(t, id, state) == ReplacePane(t, id, Leaf(Pane(id, state)))
  {
    if t.Split? {
      if Has(t.first, id) {
        WithStateReplaces(t.first, id, state);
      } else {
        WithStateReplaces(t.second, id, state);
      }
    }
  }

  /** A node over two leaves holds the split of their panes. */
  lemma {:induction false} OverTwoLeaves(n: PaneNode, a: PaneNode, b: PaneNode, kind: SplitKind, p: Pane, q: Pane)
    requires n != a && n != b && a != b && n.kind == FromSplitKind(kind) && n.first == a && n.second == b
    requires a.kind == b.kind == PaneKind && a.pane == Some(p) && b.pane == Some(q)
    ensures var sub := Fork(n, Tip(a), Tip(b));
            Nodes(sub) == {n, a, b} && Holds(sub) && Model(sub) == Split(kind, n.ratio, Leaf(p), Leaf(q))
  {
  }

  /** What overwriting the found node has done, given what the heap still holds. */
  lemma {:induction false} SplitInPlace(s: Shape, t: Tree, at: PaneId, n: PaneNode, a: PaneNode, b: PaneNode,
                                        kind: SplitKind, pane: Pane)
    requires HoldsBut(s, n, t) && Has(t, at) && IsAt(s, t, at, n) && n in Nodes(s)
    requires a !in Nodes(s) && b !in Nodes(s) && a != b && n.kind == FromSplitKind(kind) && n.first == a
             && n.second == b
    requires a.kind == b.kind == PaneKind && a.pane == Find(t, at) && b.pane == Some(pane)
    ensures var g := Graft(s, n, Fork(n, Tip(a), Tip(b)));
            && g.node == s.node && Nodes(g) <= Nodes(s) + {a, b}
            && Holds(g) && Model(g) == SplitAt(t, at, kind, n.ratio, pane)
  {
    OverTwoLeaves(n, a, b, kind, Find(t, at).value, pane);
    Overwritten(s, t, at, n, Fork(n, Tip(a), Tip(b)));
    SplitAtReplaces(t, at, kind, n.ratio, pane);
  }

  /** Find a pane and overwrite its node by a split of itself and a new pane. */
  method SplitFound(root: PaneNode, at: PaneId, kind: SplitKind, ratio: real, pane: Pane, ghost s: Shape)
    returns (done: bool, ghost s': Shape)
    requires Holds(s) && s.node == root
    modifies Nodes(s)
    ensures done == old(Has(Model(s), at))
    ensures s'.node == root && fresh(Nodes(s') - Nodes(s)) && Holds(s')
    ensures Model(s') == if done then SplitAt(old(Model(s)), at, kind, ratio, pane) else old(Model(s))
  {
    hide Holds, HoldsBut, Model, IsAt, SplitAt, Graft;
    assert allocated(Nodes(s));
    var focus := FindPane(root, at, s);
    if focus == null {
      return false, s;
    }
    ghost var t := Model(s);
    FoundIsAt(s, at);
    BeforeOverwriting(s, focus);
    assert allocated(Nodes(s));
    var existing := new PaneNode();
    existing.MoveFrom(focus);
    var leaf := new PaneNode.Leaf(pane);
    var split := new PaneNode.Split(FromSplitKind(kind), existing, leaf, ratio);
    focus.MoveFrom(split);
    SplitInPlace(s, t, at, focus, existing, leaf, kind, pane);
    done, s' := true, Graft(s, focus, Fork(focus, Tip(existing), Tip(leaf)));
  }

  /** Find a pane and give it another state. */
  method SetState(root: PaneNode, id: PaneId, state: PaneState, ghost s: Shape) returns (done: bool)
    requires Holds(s) && s.node == root
    modifies Nodes(s)
    ensures done == old(Has(Model(s), id))
    ensures Holds(s) && Model(s) == if done then WithState(old(Model(s)), id, state) else old(Model(s))
  {
    assert allocated(Nodes(s));
    var node := FindPane(root, id, s);
    if node == null || node.pane.None? {
      return false;
    }
    ghost var t := Model(s);
    FoundIsAt(s, id);
    BeforeOverwriting(s, node);
    node.pane := Some(node.pane.value.(state := state));
    Overwritten(s, t, id, node, Tip(node));
    GraftSelf(s, node);
    WithStateReplaces(t, id, state);
    done := true;
  }

  lemma {:induction false} GraftSelf(s: Shape, n: PaneNode)
    ensures Graft(s, n, Tip(n)) == s
  {
    if s.Fork? {
      GraftSelf(s.left, n);
      GraftSelf(s.right, n);
    }
  }
}
