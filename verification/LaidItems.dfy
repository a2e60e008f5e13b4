/** The flow of a document told without the walk: which items its nodes become, and where blocks stand. */
module LaidItems {
  import opened Flow
  import opened Options
  import opened MarkdownAst
  import opened Anchors
  import opened Numbering
  import opened Layout
  import Decimal

  // ---- the nodes that are laid out ----------------------------------------------------------------

  predicate IsBody(kind: NodeType) {
    kind == Paragraph || kind == BlockQuote || kind == CodeBlock || kind == NodeType.List || kind == NodeType.Table
  }

  predicate IsLaid(kind: NodeType) {
    kind == NodeType.Heading || IsBody(kind) || kind == ThematicBreak || kind == HtmlBlock || kind == NodeType.Toc
  }

  /** The topmost nodes that are laid out as they are, in document order. */
  function Laid(n: Node): seq<Node>
    decreases n, 0
  {
    if IsLaid(n.kind) then [n] else LaidIn(n.children)
  }

  function LaidIn(ns: seq<Node>): seq<Node>
    decreases ns
  {
    if ns == [] then [] else Laid(ns[0]) + LaidIn(ns[1..])
  }

  /** The headings among them. */
  function HeadingsAmong(ns: seq<Node>): seq<Node> {
    if ns == [] then []
    else HeadingsAmong(ns[..|ns| - 1]) + if ns[|ns| - 1].kind == NodeType.Heading then [ns[|ns| - 1]] else []
  }

  /** The HTML wrappers open behind a node; a closing tag ends the one opened last, if any. */
  function OpenBehind(s: Style, open: seq<string>, n: Node): seq<string> {
    if n.kind != HtmlBlock then open
    else if s.html(n.text).Opens? then open + [n.text]
    else if s.html(n.text).Closes? && open != [] then open[..|open| - 1]
    else open
  }

  /** The HTML wrappers left open by these nodes. */
  function OpenAfter(s: Style, ns: seq<Node>): seq<string> {
    if ns == [] then [] else OpenBehind(s, OpenAfter(s, ns[..|ns| - 1]), ns[|ns| - 1])
  }

  // ---- what one node becomes ----------------------------------------------------------------------

  /** The items of a node that comes after `headings` other headings, within the given wrappers. */
  function ItemsOf(e: Env, headings: nat, open: seq<string>, n: Node): seq<Item>
    requires Positive(Levels(e.headings))
  {
    if n.kind == NodeType.Heading then
      var box := e.style.heading(open, n);
      var anchor := if headings < |e.headings| then e.headings[headings].anchor else Slugify(PlainText(n));
      if box.None? then [] else [Item(Kind.Heading, box.value, anchor, None, Some(headings))]
    else if IsBody(n.kind) then
      var shapes := e.style.body(open, n);
      seq(|shapes|, i requires 0 <= i < |shapes| => Item(shapes[i].kind, shapes[i].box, "", None, None))
    else if n.kind == ThematicBreak then
      [Item(Hr, e.style.rule, "", None, None)]
    else if n.kind == HtmlBlock then
      var effect := e.style.html(n.text);
      if effect.Break? then [Item(PageBreak, Box(6.0, 6.0, 2.0), "", None, None)]
      else if effect.Rule? then [Item(Hr, e.style.rule, "", None, None)]
      else if effect.Chunk? then [Item(P, effect.box, "", None, None)]
      else []
    else if n.kind == NodeType.Toc then
      if e.renderToc then seq(|e.headings|, k requires 0 <= k < |e.headings| => RowOf(e, k))
      else [Item(P, e.style.placeholder, "", None, None)]
    else []
  }

  /** The row of collected heading `k`: indented by 14 points a level; the page number is not measured. */
  function RowOf(e: Env, k: nat): Item
    requires k < |e.headings| && Positive(Levels(e.headings))
  {
    var h := e.headings[k];
    var height := e.style.measure([NumberText(Number(Levels(e.headings), k)) + ". ", h.text],
                                  e.style.width - (h.level - 1) as real * 14.0);
    var page := if e.pages.Some? && h.anchor in e.pages.value then Some(e.pages.value[h.anchor]) else None;
    Item(TocRow, Box(e.style.rowBefore, e.style.rowAfter, height), h.anchor, page, Some(k))
  }

  /** The items of these nodes one after the other. */
  function ItemsOfAll(e: Env, ns: seq<Node>): seq<Item>
    requires Positive(Levels(e.headings))
  {
    if ns == [] then []
    else
      var init, n := ns[..|ns| - 1], ns[|ns| - 1];
      ItemsOfAll(e, init) + ItemsOf(e, |HeadingsAmong(init)|, OpenAfter(e.style, init), n)
  }

  // ---- one node -----------------------------------------------------------------------------------

  lemma {:induction false} ShapesAsItems(w: Walk, shapes: seq<Shape>)
    ensures AddShapes(w, shapes).visited == w.visited && AddShapes(w, shapes).wrappers == w.wrappers
    ensures AddShapes(w, shapes).items
         == w.items + seq(|shapes|, i requires 0 <= i < |shapes| => Item(shapes[i].kind, shapes[i].box, "", None, None))
  {
    if shapes != [] {
      var n := |shapes| - 1;
      ShapesAsItems(w, shapes[..n]);
      var all := seq(|shapes|, i requires 0 <= i < |shapes| => Item(shapes[i].kind, shapes[i].box, "", None, None));
      assert all[..n] == seq(n, i requires 0 <= i < n => Item(shapes[..n][i].kind, shapes[..n][i].box, "", None, None));
      assert all == all[..n] + [all[n]];
    }
  }

  lemma {:induction false} RowsAsItems(e: Env, w: Walk, n: nat)
    requires n <= |e.headings| && Positive(Levels(e.headings))
    ensures AddRows(e, w, n).visited == w.visited && AddRows(e, w, n).wrappers == w.wrappers
    ensures AddRows(e, w, n).items == w.items + seq(n, k requires 0 <= k < n => RowOf(e, k))
  {
    hide Positive, Number, NumberText;
    if n > 0 {
      RowsAsItems(e, w, n - 1);
      assert seq(n, k requires 0 <= k < n => RowOf(e, k))
          == seq(n - 1, k requires 0 <= k < n - 1 => RowOf(e, k)) + [RowOf(e, n - 1)];
    }
  }

  lemma {:induction false} HeadingGivesItem(e: Env, w: Walk, n: Node)
    requires Positive(Levels(e.headings)) && n.kind == NodeType.Heading
    ensures Visit(e, w, n).items == w.items + ItemsOf(e, |w.visited|, w.wrappers, n)
    ensures Visit(e, w, n).visited == w.visited + [n] && Visit(e, w, n).wrappers == w.wrappers
  {
    assert w.items + [] == w.items;
  }

  lemma {:induction false} HtmlGivesItems(e: Env, w: Walk, n: Node)
    requires Positive(Levels(e.headings)) && n.kind == HtmlBlock
    ensures Visit(e, w, n).items == w.items + ItemsOf(e, |w.visited|, w.wrappers, n)
    ensures Visit(e, w, n).visited == w.visited && Visit(e, w, n).wrappers == OpenBehind(e.style, w.wrappers, n)
  {
    assert w.items + [] == w.items;
  }

  /** A paragraph, quote, code block, list or table gives one block for every shape that the style sheet makes
      of it, and each other kind of node just its own items. */
  lemma {:induction false} NodeGivesItems(e: Env, w: Walk, n: Node)
    requires Positive(Levels(e.headings)) && IsLaid(n.kind)
    ensures Visit(e, w, n).items == w.items + ItemsOf(e, |w.visited|, w.wrappers, n)
    ensures Visit(e, w, n).visited == w.visited + if n.kind == NodeType.Heading then [n] else []
    ensures Visit(e, w, n).wrappers == OpenBehind(e.style, w.wrappers, n)
  {
    hide AddShapes, AddRows, RowOf, Positive;
    assert w.items + [] == w.items && w.visited + [] == w.visited;
    if n.kind == NodeType.Heading {
      HeadingGivesItem(e, w, n);
    } else if IsBody(n.kind) {
      ShapesAsItems(w, e.style.body(w.wrappers, n));
    } else if n.kind == NodeType.Toc {
      RowsAsItems(e, w, |e.headings|);
    } else if n.kind == HtmlBlock {
      hide Visit;
      HtmlGivesItems(e, w, n);
    }
  }

  // ---- the whole document -------------------------------------------------------------------------

  /** The walk has come by these nodes. */
  ghost predicate HasCome(e: Env, w: Walk, ns: seq<Node>) {
    && Positive(Levels(e.headings)) && w.items == ItemsOfAll(e, ns)
    && w.visited == HeadingsAmong(ns) && w.wrappers == OpenAfter(e.style, ns)
  }

  lemma {:induction false} LaidSnoc(ns: seq<Node>, i: nat)
    requires i < |ns|
    ensures LaidIn(ns[..i + 1]) == LaidIn(ns[..i]) + Laid(ns[i])
    decreases i
  {
    if i > 0 {
      LaidSnoc(ns[1..], i - 1);
      assert ns[..i + 1][1..] == ns[1..][..i] && ns[..i][1..] == ns[1..][..i - 1];
    } else {
      assert ns[..1] == [ns[0]] && ns[..0] == [];
    }
  }

  lemma {:induction false} VisitComes(e: Env, w: Walk, ns: seq<Node>, n: Node)
    requires HasCome(e, w, ns)
    ensures HasCome(e, Visit(e, w, n), ns + Laid(n))
    decreases n, 0
  {
    hide ItemsOf;
    if IsLaid(n.kind) {
      NodeGivesItems(e, w, n);
      assert (ns + [n])[..|ns|] == ns;
    } else {
      VisitAllComes(e, w, ns, n.children);
    }
  }

  lemma {:induction false} VisitAllComes(e: Env, w: Walk, ns: seq<Node>, children: seq<Node>)
    requires HasCome(e, w, ns)
    ensures HasCome(e, VisitAll(e, w, children), ns + LaidIn(children))
    decreases children
  {
    hide HasCome, Visit, Laid;
    if children == [] {
      assert ns + [] == ns;
    } else {
      var k := |children| - 1;
      VisitAllComes(e, w, ns, children[..k]);
      assert Positive(Levels(e.headings)) by { ComeIsPositive(e, w, ns); }
      VisitComes(e, VisitAll(e, w, children[..k]), ns + LaidIn(children[..k]), children[k]);
      LaidSnoc(children, k);
      assert children[..k + 1] == children;
      assert ns + (LaidIn(children[..k]) + Laid(children[k])) == (ns + LaidIn(children[..k])) + Laid(children[k]);
    }
  }

  lemma {:induction false} ComeIsPositive(e: Env, w: Walk, ns: seq<Node>)
    requires HasCome(e, w, ns)
    ensures Positive(Levels(e.headings))
  {
  }

  /** The flow of a document is, in order, what each of its laid-out nodes becomes. */
  lemma {:induction false} DocumentIsItsNodes(e: Env, root: Node)
    requires Positive(Levels(e.headings))
    ensures Document(e, root).items == ItemsOfAll(e, LaidIn(root.children))
    ensures Document(e, root).visited == HeadingsAmong(LaidIn(root.children))
  {
    VisitAllComes(e, START, [], root.children);
    assert [] + LaidIn(root.children) == LaidIn(root.children);
  }

  /** Items of all nodes up to one. */
  lemma {:induction false} ItemsOfPrefix(e: Env, ns: seq<Node>, k: nat)
    requires Positive(Levels(e.headings)) && k <= |ns|
    ensures ItemsOfAll(e, ns[..k]) <= ItemsOfAll(e, ns)
  {
    if k == |ns| {
      assert ns[..k] == ns;
    } else {
      ItemsOfPrefix(e, ns[..|ns| - 1], k);
      assert ns[..|ns| - 1][..k] == ns[..k];
    }
  }

  /** No laid-out node is lost: its items stand in the flow right behind those of the nodes before it. */
  lemma {:induction false} EveryNodeIsLaidOut(e: Env, root: Node, k: nat)
    requires Positive(Levels(e.headings)) && k < |LaidIn(root.children)|
    ensures var ns, items := LaidIn(root.children), Document(e, root).items;
            var own := ItemsOf(e, |HeadingsAmong(ns[..k])|, OpenAfter(e.style, ns[..k]), ns[k]);
            var at := |ItemsOfAll(e, ns[..k])|;
            at + |own| <= |items| && items[at..at + |own|] == own
  {
    hide ItemsOf, Document;
    var ns := LaidIn(root.children);
    DocumentIsItsNodes(e, root);
    ItemsOfPrefix(e, ns, k + 1);
    assert ns[..k + 1][..k] == ns[..k];
  }

  // ---- where blocks stand -------------------------------------------------------------------------

  /** Blocks keep kind, height, anchor and page of their items; the first stands below its margin, each other
      one below the block before it and both their margins. */
  lemma {:induction false} PlacedGaps(items: seq<Item>, i: nat)
    requires i < |items|
    ensures var b := Placed(items)[i];
            && b.kind == items[i].kind && b.height == items[i].box.height
            && b.anchor == items[i].anchor && b.page == items[i].page
            && b.y == items[i].box.before
                 + if i == 0 then 0.0 else Placed(items)[i - 1].Bottom() + items[i - 1].box.after
  {
    if i > 0 { assert items[..i][..i - 1] == items[..i - 1]; }
  }

  // ---- printed section numbers --------------------------------------------------------------------

  lemma {:induction false} NumberTextIsEmpty(counters: seq<nat>)
    ensures NumberText(counters) == "" <==> counters == []
  {
  }

  /** One more counter is one more numeral behind a dot. */
  lemma {:induction false} NumberTextSnoc(counters: seq<nat>, c: nat)
    ensures NumberText([c]) == Decimal.Print(c)
    ensures counters != [] ==> NumberText(counters + [c]) == NumberText(counters) + "." + Decimal.Print(c)
  {
    assert (counters + [c])[..|counters|] == counters && [c][..0] == [];
    NumberTextIsEmpty(counters);
  }

  lemma {:induction false} NoDotInNumeral(a: string, x: string, y: string)
    requires Decimal.AllDigits(y)
    ensures a + "." + x != y
  {
    assert (a + "." + x)[|a|] == '.';
  }

  /** Different section numbers are printed differently. */
  lemma {:induction false} NumberTextInjective(a: seq<nat>, b: seq<nat>)
    requires NumberText(a) == NumberText(b)
    ensures a == b
  {
    NumberTextIsEmpty(a);
    NumberTextIsEmpty(b);
    if a != [] && b != [] {
      var i, j := a[..|a| - 1], b[..|b| - 1];
      var x, y := a[|a| - 1], b[|b| - 1];
      assert a == i + [x] && b == j + [y];
      NumberTextSnoc(i, x);
      NumberTextSnoc(j, y);
      if i == [] && j == [] {
        assert i + [x] == [x] && j + [y] == [y];
        Decimal.PrintInjective(x, y);
      } else if i == [] {
        assert i + [x] == [x];
        NoDotInNumeral(NumberText(j), Decimal.Print(y), Decimal.Print(x));
      } else if j == [] {
        assert j + [y] == [y];
        NoDotInNumeral(NumberText(i), Decimal.Print(x), Decimal.Print(y));
      } else {
        Decimal.LastMark(NumberText(i), NumberText(j), '.', Decimal.Print(x), Decimal.Print(y));
        NumberTextInjective(i, j);
        Decimal.PrintInjective(x, y);
      }
    }
  }

  /** No two rows of a table of contents print the same number. */
  lemma {:induction false} PrintedNumbersDiffer(levels: seq<int>, i: nat, j: nat)
    requires i < j < |levels| && Positive(levels)
    ensures NumberText(Number(levels, i)) != NumberText(Number(levels, j))
  {
    NumbersIncrease(levels, i, j);
    if NumberText(Number(levels, i)) == NumberText(Number(levels, j)) {
      NumberTextInjective(Number(levels, i), Number(levels, j));
    }
  }
}
