/** When headings nested in quotes, lists or tables make the layout give later headings the wrong anchor. */
module HeadingAnchorShift {
  import opened MarkdownAst
  import opened Anchors
  import opened Numbering
  import opened Layout
  import opened Flow

  // ---- which of the collected headings the layout meets -------------------------------------------

  /** For each collected heading below `n`, in order, whether the layout meets it as a block. */
  function Free(n: Node): seq<bool>
    decreases n, 0
  {
    match n.kind
    case Heading => [true]
    case Paragraph | BlockQuote | CodeBlock | List | Table | ThematicBreak | HtmlBlock | Toc =>
      seq(|HeadingsOfAll(n.children)|, _ => false)
    case _ => FreeIn(n.children)
  }

  function FreeIn(ns: seq<Node>): seq<bool>
    decreases ns
  {
    if ns == [] then [] else FreeIn(ns[..|ns| - 1]) + Free(ns[|ns| - 1])
  }

  /** The positions of the free headings. */
  function Positions(free: seq<bool>): seq<nat> {
    if free == [] then []
    else Positions(free[..|free| - 1]) + if free[|free| - 1] then [|free| - 1] else []
  }

  function Picked(hs: seq<Node>, free: seq<bool>): seq<Node>
    requires |hs| == |free|
  {
    if free == [] then []
    else Picked(hs[..|hs| - 1], free[..|free| - 1]) + if free[|free| - 1] then [hs[|hs| - 1]] else []
  }

  lemma {:induction false} PickedConcat(hs: seq<Node>, gs: seq<Node>, a: seq<bool>, b: seq<bool>)
    requires |hs| == |a| && |gs| == |b|
    ensures Picked(hs + gs, a + b) == Picked(hs, a) + Picked(gs, b)
  {
    if b == [] {
      assert a + b == a && hs + gs == hs;
    } else {
      var n := |b| - 1;
      assert (a + b)[..|a + b| - 1] == a + b[..n] && (hs + gs)[..|hs + gs| - 1] == hs + gs[..n];
      PickedConcat(hs, gs[..n], a, b[..n]);
    }
  }

  lemma {:induction false} PickedNone(hs: seq<Node>, free: seq<bool>)
    requires |hs| == |free| && forall i :: 0 <= i < |free| ==> !free[i]
    ensures Picked(hs, free) == []
  {
    if free != [] { PickedNone(hs[..|hs| - 1], free[..|free| - 1]); }
  }

  /** The layout meets the free headings, in order. */
  lemma {:induction false} VisitedArePicked(n: Node)
    ensures |Free(n)| == |Headings(n)| && Visited(n) == Picked(Headings(n), Free(n))
    decreases n, 0
  {
    match n.kind
    case Heading =>
      assert [n][..0] == [] && [true][..0] == [];
    case Paragraph | BlockQuote | CodeBlock | List | Table | ThematicBreak | HtmlBlock | Toc =>
      PickedNone(Headings(n), Free(n));
    case _ =>
      VisitedInArePicked(n.children);
  }

  lemma {:induction false} VisitedInArePicked(ns: seq<Node>)
    ensures |FreeIn(ns)| == |HeadingsOfAll(ns)| && VisitedIn(ns) == Picked(HeadingsOfAll(ns), FreeIn(ns))
    decreases ns
  {
    hide Free, Visited, Headings;
    if ns != [] {
      var n := |ns| - 1;
      VisitedInArePicked(ns[..n]);
      VisitedArePicked(ns[n]);
      HeadingsSnoc(ns, n);
      assert ns[..n + 1] == ns;
      PickedConcat(HeadingsOfAll(ns[..n]), Headings(ns[n]), FreeIn(ns[..n]), Free(ns[n]));
    }
  }

  /** No heading is nested in a quote, a list, a table or another block of its own. */
  predicate HeadingsInFlow(n: Node)
    decreases n
  {
    match n.kind
    case Heading => true
    case Paragraph | BlockQuote | CodeBlock | List | Table | ThematicBreak | HtmlBlock | Toc =>
      HeadingsOfAll(n.children) == []
    case _ => forall i :: 0 <= i < |n.children| ==> HeadingsInFlow(n.children[i])
  }

  /** The walk comes by all collected headings exactly when none is nested in such a block. */
  lemma {:induction false} VisitedIsAll(n: Node)
    ensures |Visited(n)| <= |Headings(n)|
    ensures Visited(n) == Headings(n) <==> HeadingsInFlow(n)
    ensures Visited(n) == Headings(n) <==> |Visited(n)| == |Headings(n)|
    decreases n, 0
  {
    hide VisitedIn, HeadingsOfAll;
    match n.kind
    case Heading =>
    case Paragraph | BlockQuote | CodeBlock | List | Table | ThematicBreak | HtmlBlock | Toc =>
    case _ =>
      VisitedInIsAll(n.children);
  }

  lemma {:induction false} VisitedInIsAll(ns: seq<Node>)
    ensures |VisitedIn(ns)| <= |HeadingsOfAll(ns)|
    ensures VisitedIn(ns) == HeadingsOfAll(ns) <==> forall i :: 0 <= i < |ns| ==> HeadingsInFlow(ns[i])
    ensures VisitedIn(ns) == HeadingsOfAll(ns) <==> |VisitedIn(ns)| == |HeadingsOfAll(ns)|
    decreases ns
  {
    hide Visited, Headings, HeadingsInFlow;
    if ns != [] {
      var n := |ns| - 1;
      VisitedInIsAll(ns[..n]);
      VisitedIsAll(ns[n]);
      HeadingsSnoc(ns, n);
      assert ns[..n + 1] == ns;
      AllButLast(ns, ns[..n]);
    }
  }

  lemma {:induction false} AllButLast(ns: seq<Node>, init: seq<Node>)
    requires ns != [] && init == ns[..|ns| - 1]
    ensures (forall i :: 0 <= i < |ns| ==> HeadingsInFlow(ns[i]))
       <==> HeadingsInFlow(ns[|ns| - 1]) && forall i :: 0 <= i < |init| ==> HeadingsInFlow(init[i])
  {
    hide HeadingsInFlow;
    assert forall i :: 0 <= i < |init| ==> init[i] == ns[i];
  }

  /** The `k`-th free heading stands at the `k`-th position. */
  lemma {:induction false} PickedAt(hs: seq<Node>, free: seq<bool>)
    requires |hs| == |free|
    ensures |Picked(hs, free)| == |Positions(free)| <= |free|
    ensures forall k :: 0 <= k < |Positions(free)| ==>
              k <= Positions(free)[k] < |free| && free[Positions(free)[k]]
                && Picked(hs, free)[k] == hs[Positions(free)[k]]
    ensures forall i :: 0 <= i < |free| && free[i] ==> i in Positions(free)
  {
    if free != [] { PickedAt(hs[..|hs| - 1], free[..|free| - 1]); }
  }

  /** No nested heading comes before a free one. */
  predicate NestedComeLast(free: seq<bool>) { forall i, j :: 0 <= i < j < |free| && free[j] ==> free[i] }

  /** The free headings stand at the first positions exactly when no nested heading comes before them. */
  lemma {:induction false} PositionsAreFirst(free: seq<bool>)
    ensures (forall k :: 0 <= k < |Positions(free)| ==> Positions(free)[k] == k) <==> NestedComeLast(free)
    ensures |Positions(free)| <= |free|
    ensures NestedComeLast(free) && free != [] && free[|free| - 1] ==> |Positions(free)| == |free|
    ensures forall k :: 0 <= k < |Positions(free)| ==> Positions(free)[k] < |free|
  {
    if free != [] {
      var n := |free| - 1;
      var init := free[..n];
      PositionsAreFirst(init);
      if free[n] {
        if NestedComeLast(free) {
          assert n > 0 ==> init[n - 1];
          assert NestedComeLast(init);
        }
        if forall k :: 0 <= k < |Positions(free)| ==> Positions(free)[k] == k {
          assert forall k :: 0 <= k < |Positions(init)| ==> Positions(init)[k] == Positions(free)[k];
          assert Positions(free)[|Positions(init)|] == n;
          AllFree(init);
        }
      } else {
        assert forall i :: 0 <= i < n ==> init[i] == free[i];
        assert Positions(free) == Positions(init);
        if NestedComeLast(init) {
          forall i, j | 0 <= i < j < |free| && free[j] ensures free[i] { assert init[j]; }
        }
        if NestedComeLast(free) {
          forall i, j | 0 <= i < j < |init| && init[j] ensures init[i] { assert free[j]; }
        }
      }
    }
  }

  /** A free heading never stands before its number. */
  lemma {:induction false} PositionsBeyond(free: seq<bool>, k: nat)
    requires k < |Positions(free)|
    ensures k <= Positions(free)[k] < |free|
  {
    if free != [] {
      PositionsBound(free[..|free| - 1]);
      if k < |Positions(free[..|free| - 1])| { PositionsBeyond(free[..|free| - 1], k); }
    }
  }

  /** How far a free heading stands behind its number never decreases. */
  lemma {:induction false} PositionsShift(free: seq<bool>, k: nat, j: nat)
    requires k <= j < |Positions(free)|
    ensures Positions(free)[k] - k <= Positions(free)[j] - j
  {
    if k < j {
      var init := free[..|free| - 1];
      PositionsBound(init);
      if j < |Positions(init)| {
        PositionsShift(init, k, j);
      } else {
        PositionsShift(init, k, j - 1);
        PositionsBeyond(init, j - 1);
      }
    }
  }

  lemma {:induction false} AllFree(free: seq<bool>)
    requires |Positions(free)| == |free|
    ensures forall i :: 0 <= i < |free| ==> free[i]
  {
    if free != [] {
      PositionsBound(free[..|free| - 1]);
      AllFree(free[..|free| - 1]);
    }
  }

  lemma {:induction false} PositionsBound(free: seq<bool>)
    ensures |Positions(free)| <= |free|
  {
    if free != [] { PositionsBound(free[..|free| - 1]); }
  }

  // ---- anchors ------------------------------------------------------------------------------------

  /** Every heading that the layout meets gets the anchor of its own place among the collected headings. */
  ghost predicate AnchorsAreOwn(e: Env, root: Node) {
    var visited, places := VisitedIn(root.children), Positions(Free(root));
    |visited| == |places|
    && forall k :: 0 <= k < |visited| ==>
         places[k] < |e.headings| && AnchorAt(e, k, visited[k]) == e.headings[places[k]].anchor
  }

  /** With distinct anchors, every heading met by the layout gets its own anchor exactly when no heading
      nested in a quote, list or table comes before one that is not. */
  lemma {:induction false} AnchorsAreOwnUnlessShifted(e: Env, root: Node)
    requires root.kind == Root && e.headings == DocumentHeadings(root) && Distinct(HeadingAnchors(root))
    ensures AnchorsAreOwn(e, root) <==> NestedComeLast(Free(root))
  {
    hide Positions, Picked, Free, Headings, HeadingAnchors, VisitedIn;
    VisitedArePicked(root);
    var hs, free := Headings(root), Free(root);
    PickedAt(hs, free);
    PositionsAreFirst(free);
    var visited, places := VisitedIn(root.children), Positions(free);
    assert visited == Picked(hs, free) by { VisitedOfRoot(root); }
    forall k | 0 <= k < |visited|
      ensures AnchorAt(e, k, visited[k]) == e.headings[places[k]].anchor <==> places[k] == k
    {
      assert e.headings[k].anchor == HeadingAnchors(root)[k];
      assert e.headings[places[k]].anchor == HeadingAnchors(root)[places[k]];
    }
  }

  lemma {:induction false} VisitedOfRoot(root: Node)
    requires root.kind == Root
    ensures Visited(root) == VisitedIn(root.children)
  {
  }

  /** The heading blocks of a document carry the anchors of this predicate. */
  lemma {:induction false} BlocksCarryAnchors(e: Env, root: Node, i: nat)
    requires Positive(Levels(e.headings)) && i < |Document(e, root).items|
             && Document(e, root).items[i].kind == Kind.Heading
    ensures var item, visited := Document(e, root).items[i], VisitedIn(root.children);
            && item.heading.Some? && item.heading.value < |visited|
            && item.anchor == AnchorAt(e, item.heading.value, visited[item.heading.value])
  {
    hide Document, StyleOk, VisitedIn;
    DocumentOk(e, root);
    assert ItemOk(e, Document(e, root).visited, Document(e, root).items[i]);
  }

  /** A heading in a quote shifts the anchors of the headings after it: the block of the next heading
      carries the anchor of the quoted one, which is another. */
  lemma {:induction false} QuotedHeadingShiftsAnchors(e: Env, quote: Node, a: Node, b: Node)
    requires quote.kind == BlockQuote && quote.children == [a] && a.kind == b.kind == NodeType.Heading
    requires e.headings == DocumentHeadings(Node(Root, 0, "", "", [quote, b])) && Positive(Levels(e.headings))
    requires e.style.heading([], b).Some?
    ensures |e.headings| == 2 && e.headings[0].anchor != e.headings[1].anchor
    ensures var items := Document(e, Node(Root, 0, "", "", [quote, b])).items;
            |items| > 0 && items[|items| - 1].kind == Kind.Heading && items[|items| - 1].anchor == e.headings[0].anchor
  {
    var ns := [quote, b];
    assert ns[1..] == [b] && [b][1..] == [] && [a][1..] == [];
    assert HeadingsOfAll([a]) == [a];
    assert Headings(quote) == [a];
    assert HeadingsOfAll([b]) == [b];
    assert HeadingsOfAll(ns) == [a] + [b];
    TwoAnchorsDiffer(SlugsOf(RecordTexts(Node(Root, 0, "", "", ns))));
    assert ns[..1] == [quote] && [quote][..0] == [];
    var w := AddShapes(START, e.style.body([], quote));
    ShapesVisitNothing(START, e.style.body([], quote));
    assert VisitAll(e, START, []) == START;
    assert VisitAll(e, START, [quote]) == Visit(e, START, quote) == w;
    assert VisitAll(e, START, ns) == Visit(e, w, b) == VisitHeading(e, w, b);
  }

  lemma {:induction false} ShapesVisitNothing(w: Walk, shapes: seq<Shape>)
    ensures AddShapes(w, shapes).visited == w.visited && AddShapes(w, shapes).wrappers == w.wrappers
    ensures w.items <= AddShapes(w, shapes).items
    ensures forall i :: |w.items| <= i < |AddShapes(w, shapes).items| ==>
              AddShapes(w, shapes).items[i].kind != Kind.Heading
  {
    if shapes != [] { ShapesVisitNothing(w, shapes[..|shapes| - 1]); }
  }

  /** Two headings always have different anchors. */
  lemma {:induction false} TwoAnchorsDiffer(slugs: seq<string>)
    requires |slugs| == 2
    ensures AnchorsOf(slugs)[0] != AnchorsOf(slugs)[1]
  {
    if slugs[0] == slugs[1] {
      SameSlugDifferentAnchor(slugs, 0, 1);
    } else {
      assert slugs[..1] == [slugs[0]] && [slugs[0]][..0] == [] && slugs[..0] == [];
      assert Count([slugs[0]], slugs[1]) == Count([], slugs[1]) == 0;
    }
  }
}
