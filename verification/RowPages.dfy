/** Which page each row of the table of contents shows, and when it is the page of the row's own heading. */
module RowPages {
  import opened Flow
  import opened Options
  import opened MarkdownAst
  import opened Anchors
  import opened Numbering
  import opened Pagination
  import opened Layout
  import opened HeadingAnchorShift

  // ---- pages of anchors ---------------------------------------------------------------------------

  /** A flow without content still gets one page. */
  function FinalPages(blocks: seq<Block>, h: real): seq<Slice> {
    if Pages(blocks, h, 0) == [] then [Slice(0, 0, 0.0)] else Pages(blocks, h, 0)
  }

  predicate IsHeading(blocks: seq<Block>, a: string, i: nat) {
    i < |blocks| && blocks[i].kind == Kind.Heading && blocks[i].anchor == a
  }

  ghost predicate HeadingBetween(blocks: seq<Block>, a: string, lo: nat, hi: nat) {
    exists i: nat :: lo <= i < hi && IsHeading(blocks, a, i)
  }

  /** Page `k` (from 0) holds a heading with this anchor. */
  ghost predicate Holds(blocks: seq<Block>, pages: seq<Slice>, a: string, k: nat) {
    k < |pages| && HeadingBetween(blocks, a, pages[k].first, pages[k].last + 1)
  }

  /** `page` is the number (from 1) of the last page that holds a heading with this anchor. */
  ghost predicate IsPageOf(blocks: seq<Block>, pages: seq<Slice>, a: string, page: Option<nat>) {
    match page
    case None => forall k: nat :: !Holds(blocks, pages, a, k)
    case Some(p) => p >= 1 && Holds(blocks, pages, a, p - 1) && forall k: nat :: k >= p ==> !Holds(blocks, pages, a, k)
  }

  /** Every row shows the last page with a heading of its anchor. */
  ghost predicate RowsShowAnchors(blocks: seq<Block>, pages: seq<Slice>) {
    forall i :: 0 <= i < |blocks| && blocks[i].kind == TocRow ==>
      IsPageOf(blocks, pages, blocks[i].anchor, blocks[i].page)
  }

  lemma {:induction false} HeadingOnPrintedPage(blocks: seq<Block>, pages: seq<Slice>, a: string, p: nat)
    returns (m: nat)
    requires IsPageOf(blocks, pages, a, Some(p))
    ensures 1 <= p <= |pages| && pages[p - 1].first <= m <= pages[p - 1].last && IsHeading(blocks, a, m)
  {
    m :| pages[p - 1].first <= m < pages[p - 1].last + 1 && IsHeading(blocks, a, m);
  }

  /** Pagination loses no heading. */
  lemma {:induction false} HeadingIsOnAPage(blocks: seq<Block>, h: real, a: string, m: nat, page: Option<nat>)
    requires IsHeading(blocks, a, m) && IsPageOf(blocks, FinalPages(blocks, h), a, page)
    ensures page.Some?
  {
    hide Pages;
    var cuts := Pages(blocks, h, 0);
    PagesAreACut(blocks, h, 0);
    CutIsPartition(blocks, h, 0, cuts, m);
    var k :| 0 <= k < |cuts| && cuts[k].first <= m <= cuts[k].last;
    assert HeadingBetween(blocks, a, cuts[k].first, cuts[k].last + 1);
    assert Holds(blocks, FinalPages(blocks, h), a, k);
  }

  // ---- rows and blocks ----------------------------------------------------------------------------

  predicate IsRow(items: seq<Item>, i: int) { 0 <= i < |items| && items[i].kind == TocRow }

  predicate IsBlock(items: seq<Item>, m: int) { 0 <= m < |items| && items[m].kind == Kind.Heading }

  /** The collected headings, the anchors of which all differ, are what the layout is given. */
  ghost predicate AnchorsApart(e: Env, root: Node) {
    && root.kind == Root && Distinct(HeadingAnchors(root)) && e.headings == DocumentHeadings(root)
    && Positive(Levels(e.headings))
  }

  /** The page is the one with block `m`. */
  predicate OnPage(pages: seq<Slice>, page: Option<nat>, m: int) {
    page.Some? && 1 <= page.value <= |pages| && pages[page.value - 1].first <= m <= pages[page.value - 1].last
  }

  /** Rows and heading blocks have the same anchor exactly when they have the same number. */
  lemma {:induction false} AnchorTellsHeading(e: Env, root: Node, i: nat, m: nat)
    requires AnchorsApart(e, root) && IsRow(Document(e, root).items, i) && IsBlock(Document(e, root).items, m)
    ensures var items := Document(e, root).items;
            items[m].anchor == items[i].anchor <==> items[m].heading == items[i].heading
  {
    hide Document, HeadingAnchors;
    DocumentOk(e, root);
    VisitedIsAll(root);
    VisitedOfRoot(root);
    var items := Document(e, root).items;
    assert ItemOk(e, Document(e, root).visited, items[i]) && ItemOk(e, Document(e, root).visited, items[m]);
    var j, k := items[m].heading.value, items[i].heading.value;
    assert items[m].anchor == HeadingAnchors(root)[j] && items[i].anchor == HeadingAnchors(root)[k];
  }

  /** A heading has at most one block. */
  lemma {:induction false} OneBlockPerHeading(e: Env, root: Node, m: nat, n: nat)
    requires Positive(Levels(e.headings)) && IsBlock(Document(e, root).items, m) && IsBlock(Document(e, root).items, n)
    requires Document(e, root).items[m].heading == Document(e, root).items[n].heading
    ensures m == n
  {
    hide Document, StyleOk;
    DocumentOk(e, root);
    var w := Document(e, root);
    assert ItemOk(e, w.visited, w.items[m]) && ItemOk(e, w.visited, w.items[n]);
    assert m < n ==> Follows(w.items[m], w.items[n]);
    assert n < m ==> Follows(w.items[n], w.items[m]);
  }

  /** Row `i` shows the page with the heading block of the same number, and none exactly when there is
      no such block. */
  ghost predicate ShowsItsNumber(items: seq<Item>, pages: seq<Slice>, i: nat)
    requires i < |items|
  {
    && (forall m :: IsBlock(items, m) && items[m].heading == items[i].heading ==> OnPage(pages, items[i].page, m))
    && (items[i].page.None? <==> forall m :: IsBlock(items, m) ==> items[m].heading != items[i].heading)
  }

  /** With distinct anchors, every row shows the page of the one block with its number. */
  lemma {:induction false} RowShowsItsNumber(e: Env, root: Node, h: real, i: nat)
    requires AnchorsApart(e, root) && IsRow(Document(e, root).items, i)
    requires var blocks := Placed(Document(e, root).items); RowsShowAnchors(blocks, FinalPages(blocks, h))
    ensures ShowsItsNumber(Document(e, root).items, FinalPages(Placed(Document(e, root).items), h), i)
  {
    hide Document, Cursor, FinalPages, IsPageOf, Distinct, HeadingAnchors, Positive;
    var items := Document(e, root).items;
    var blocks := Placed(items);
    var pages := FinalPages(blocks, h);
    var a := items[i].anchor;
    assert IsPageOf(blocks, pages, a, items[i].page) by { assert blocks[i].kind == TocRow; }
    forall m | IsBlock(items, m) && items[m].heading == items[i].heading ensures OnPage(pages, items[i].page, m) {
      AnchorTellsHeading(e, root, i, m);
      HeadingIsOnAPage(blocks, h, a, m, items[i].page);
      var m' := HeadingOnPrintedPage(blocks, pages, a, items[i].page.value);
      AnchorTellsHeading(e, root, i, m');
      OneBlockPerHeading(e, root, m, m');
    }
    if items[i].page.Some? {
      var m := HeadingOnPrintedPage(blocks, pages, a, items[i].page.value);
      AnchorTellsHeading(e, root, i, m);
      assert IsBlock(items, m);
    }
  }

  // ---- rows and their own headings ----------------------------------------------------------------

  /** The collected heading that a heading block shows. Blocks are numbered by the headings that the layout
      meets, rows by all that are collected. */
  function OwnHeading(root: Node, item: Item): Option<nat> {
    var places := Positions(Free(root));
    if item.heading.Some? && item.heading.value < |places| then Some(places[item.heading.value]) else None
  }

  /** Row `i` shows the page on which the block of its own heading stands, and no page exactly when its
      heading has no block. */
  ghost predicate ShowsItsHeading(root: Node, items: seq<Item>, pages: seq<Slice>, i: nat)
    requires i < |items|
  {
    && (forall m :: IsBlock(items, m) && OwnHeading(root, items[m]) == items[i].heading ==>
      OnPage(pages, items[i].page, m))
    && (items[i].page.None? <==> forall m :: IsBlock(items, m) ==> OwnHeading(root, items[m]) != items[i].heading)
  }

  ghost predicate RowsShowTheirHeadings(root: Node, items: seq<Item>, pages: seq<Slice>) {
    forall i :: IsRow(items, i) ==> ShowsItsHeading(root, items, pages, i)
  }

  /** Every heading block has the number of the heading it shows: no block comes after a nested heading. */
  ghost predicate BlocksInPlace(root: Node, items: seq<Item>) {
    forall m :: IsBlock(items, m) ==> OwnHeading(root, items[m]) == items[m].heading
  }

  ghost predicate NoRows(items: seq<Item>) { forall i :: !IsRow(items, i) }

  ghost predicate HasRow(items: seq<Item>, k: nat) { exists i :: IsRow(items, i) && items[i].heading == Some(k) }

  ghost predicate HasBlock(items: seq<Item>, k: nat) { exists m :: IsBlock(items, m) && items[m].heading == Some(k) }

  ghost predicate AllRows(e: Env, items: seq<Item>) { forall k: nat :: k < |e.headings| ==> HasRow(items, k) }

  // ---- a table of contents has all rows -----------------------------------------------------------

  ghost predicate RowsComplete(e: Env, w: Walk) { NoRows(w.items) || AllRows(e, w.items) }

  lemma {:induction false} AddKeepsRows(e: Env, w: Walk, item: Item)
    ensures item.kind != TocRow && RowsComplete(e, w) ==> RowsComplete(e, w.Add(item))
    ensures AllRows(e, w.items) ==> AllRows(e, w.Add(item).items)
  {
    var items, items' := w.items, w.Add(item).items;
    assert forall i :: IsRow(items, i) ==> IsRow(items', i) && items'[i] == items[i];
    if AllRows(e, items) {
      forall k: nat | k < |e.headings| ensures HasRow(items', k) {
        assert HasRow(items, k);
        var i :| IsRow(items, i) && items[i].heading == Some(k);
        assert IsRow(items', i);
      }
    }
  }

  lemma {:induction false} AddShapesKeepsRows(e: Env, w: Walk, shapes: seq<Shape>)
    requires RowsComplete(e, w)
    ensures RowsComplete(e, AddShapes(w, shapes))
  {
    hide RowsComplete;
    if shapes != [] {
      var last := shapes[|shapes| - 1];
      AddShapesKeepsRows(e, w, shapes[..|shapes| - 1]);
      AddKeepsRows(e, AddShapes(w, shapes[..|shapes| - 1]), Plain(last.kind, last.box));
    }
  }

  lemma {:induction false} RowIs(e: Env, k: nat)
    requires k < |e.headings| && Positive(Levels(e.headings))
    ensures Row(e, k).kind == TocRow && Row(e, k).heading == Some(k)
  {
    hide Number, NumberText, Positive;
  }

  lemma {:induction false} AddRowsGivesRow(e: Env, w: Walk, n: nat, k: nat) returns (i: nat)
    requires k < n <= |e.headings| && Positive(Levels(e.headings))
    ensures IsRow(AddRows(e, w, n).items, i) && AddRows(e, w, n).items[i].heading == Some(k)
  {
    hide Row, Positive;
    if k == n - 1 {
      RowIs(e, k);
      i := |AddRows(e, w, k).items|;
    } else {
      i := AddRowsGivesRow(e, w, n - 1, k);
    }
  }

  lemma {:induction false} VisitKeepsRows(e: Env, w: Walk, n: Node)
    requires RowsComplete(e, w) && Positive(Levels(e.headings))
    ensures RowsComplete(e, Visit(e, w, n))
    decreases n, 0
  {
    hide RowsComplete, AddShapes, AddRows;
    match n.kind
    case Heading =>
      var w' := w.(visited := w.visited + [n]);
      assert RowsComplete(e, w') by { SameItemsSameRows(e, w, w'); }
      if e.style.heading(w.wrappers, n).Some? {
        var box := e.style.heading(w.wrappers, n).value;
        AddKeepsRows(e, w', Item(Kind.Heading, box, AnchorAt(e, |w.visited|, n), None, Some(|w.visited|)));
      }
    case Paragraph | BlockQuote | CodeBlock | List | Table =>
      AddShapesKeepsRows(e, w, e.style.body(w.wrappers, n));
    case ThematicBreak =>
      AddKeepsRows(e, w, Plain(Hr, e.style.rule));
    case HtmlBlock =>
      match e.style.html(n.text) {
        case Break => AddKeepsRows(e, w, Plain(PageBreak, Box(6.0, 6.0, 2.0)));
        case Rule => AddKeepsRows(e, w, Plain(Hr, e.style.rule));
        case Chunk(box) => AddKeepsRows(e, w, Plain(P, box));
        case _ => SameItemsSameRows(e, w, Html(e, w, n.text));
      }
    case Toc =>
      if e.renderToc {
        AddRowsCompletes(e, w);
      } else {
        AddKeepsRows(e, w, Plain(P, e.style.placeholder));
      }
    case _ =>
      VisitAllKeepsRows(e, w, n.children);
  }

  lemma {:induction false} SameItemsSameRows(e: Env, a: Walk, b: Walk)
    requires RowsComplete(e, a) && a.items == b.items
    ensures RowsComplete(e, b)
  {
  }

  lemma {:induction false} AddRowsCompletes(e: Env, w: Walk)
    requires Positive(Levels(e.headings)) && RowsComplete(e, w)
    ensures RowsComplete(e, AddRows(e, w, |e.headings|))
  {
    var w' := AddRows(e, w, |e.headings|);
    forall k: nat | k < |e.headings| ensures HasRow(w'.items, k) {
      var i := AddRowsGivesRow(e, w, |e.headings|, k);
    }
  }

  lemma {:induction false} VisitAllKeepsRows(e: Env, w: Walk, ns: seq<Node>)
    requires RowsComplete(e, w) && Positive(Levels(e.headings))
    ensures RowsComplete(e, VisitAll(e, w, ns))
    decreases ns
  {
    hide RowsComplete;
    if ns != [] {
      var init, last := ns[..|ns| - 1], ns[|ns| - 1];
      VisitAllKeepsRows(e, w, init);
      VisitKeepsRows(e, VisitAll(e, w, init), last);
    }
  }

  /** A document has a row for every collected heading, or no rows. */
  lemma {:induction false} AllRowsOrNone(e: Env, root: Node)
    requires Positive(Levels(e.headings))
    ensures NoRows(Document(e, root).items) || AllRows(e, Document(e, root).items)
  {
    VisitAllKeepsRows(e, START, root.children);
  }

  // ---- exactly when every row shows its own heading -----------------------------------------------

  /** What every row shows, and the shape of the heading blocks. */
  ghost predicate Shown(e: Env, root: Node, items: seq<Item>, pages: seq<Slice>) {
    && (forall i :: IsRow(items, i) ==> ShowsItsNumber(items, pages, i) && items[i].heading.Some?)
    && (forall m :: IsBlock(items, m) ==> items[m].heading.Some? && items[m].heading.value < |Positions(Free(root))|)
    && |Free(root)| == |e.headings|
  }

  lemma {:induction false} DocumentShows(e: Env, root: Node, h: real)
    requires AnchorsApart(e, root)
    requires var blocks := Placed(Document(e, root).items); RowsShowAnchors(blocks, FinalPages(blocks, h))
    ensures var items := Document(e, root).items; Shown(e, root, items, FinalPages(Placed(items), h))
  {
    hide Document, Placed, FinalPages, RowsShowAnchors, ShowsItsNumber, Positions, Free, Picked, HeadingAnchors;
    DocumentOk(e, root);
    VisitedArePicked(root);
    VisitedOfRoot(root);
    PickedAt(Headings(root), Free(root));
    var w := Document(e, root);
    forall i | IsRow(w.items, i)
      ensures ShowsItsNumber(w.items, FinalPages(Placed(w.items), h), i) && w.items[i].heading.Some?
    {
      RowShowsItsNumber(e, root, h, i);
      assert ItemOk(e, w.visited, w.items[i]);
    }
    forall m | IsBlock(w.items, m)
      ensures w.items[m].heading.Some? && w.items[m].heading.value < |Positions(Free(root))|
    {
      assert ItemOk(e, w.visited, w.items[m]);
    }
  }

  /** If block `m` had another number than its heading, so would have the block whose number that heading
      has, which is a later one; and so on without end. */
  lemma {:induction false} NotShifted(e: Env, root: Node, items: seq<Item>, pages: seq<Slice>, m: nat)
    requires Shown(e, root, items, pages) && AllRows(e, items) && RowsShowTheirHeadings(root, items, pages)
    requires IsBlock(items, m)
    ensures OwnHeading(root, items[m]) == items[m].heading
    decreases |Positions(Free(root))| - items[m].heading.value
  {
    hide Positions, Free, OnPage;
    var places := Positions(Free(root));
    var k := items[m].heading.value;
    var p := places[k];
    PositionsBeyond(Free(root), k);
    if p != k {
      assert HasRow(items, p);
      var i :| IsRow(items, i) && items[i].heading == Some(p);
      assert ShowsItsHeading(root, items, pages, i) && ShowsItsNumber(items, pages, i);
      assert OwnHeading(root, items[m]) == items[i].heading;
      var m' :| IsBlock(items, m') && items[m'].heading == Some(p);
      PositionsShift(Free(root), k, p);
      NotShifted(e, root, items, pages, m');
      assert false;
    }
  }

  /** Every row of the table of contents shows the page of its own heading if and only if every heading
      block has the number of its heading. A document without such rows is not concerned. */
  lemma {:induction false} RowsShowTheirHeadingsWhen(e: Env, root: Node, h: real)
    requires AnchorsApart(e, root)
    requires var blocks := Placed(Document(e, root).items); RowsShowAnchors(blocks, FinalPages(blocks, h))
    ensures var items := Document(e, root).items;
            RowsShowTheirHeadings(root, items, FinalPages(Placed(items), h)) <==>
              NoRows(items) || BlocksInPlace(root, items)
  {
    hide Document, Placed, FinalPages, RowsShowAnchors, Distinct, HeadingAnchors;
    var items := Document(e, root).items;
    var pages := FinalPages(Placed(items), h);
    DocumentShows(e, root, h);
    AllRowsOrNone(e, root);
    InPlaceShows(e, root, items, pages);
    if RowsShowTheirHeadings(root, items, pages) && AllRows(e, items) {
      forall m | IsBlock(items, m) ensures OwnHeading(root, items[m]) == items[m].heading {
        NotShifted(e, root, items, pages, m);
      }
    }
  }

  lemma {:induction false} InPlaceShows(e: Env, root: Node, items: seq<Item>, pages: seq<Slice>)
    requires Shown(e, root, items, pages)
    ensures BlocksInPlace(root, items) ==> RowsShowTheirHeadings(root, items, pages)
  {
    hide OwnHeading, OnPage;
    if BlocksInPlace(root, items) {
      forall i | IsRow(items, i) ensures ShowsItsHeading(root, items, pages, i) {
        assert ShowsItsNumber(items, pages, i);
      }
    }
  }

  // ---- the condition on the document --------------------------------------------------------------

  /** Whatever wrappers are open, no heading that the layout meets is without text. */
  ghost predicate HeadingsHaveText(e: Env, root: Node) {
    forall n, wrappers :: n in VisitedIn(root.children) ==> e.style.heading(wrappers, n).Some?
  }

  /** There is a block for every heading met so far. */
  ghost predicate HasBlocks(w: Walk) {
    forall k: nat :: k < |w.visited| ==> HasBlock(w.items, k)
  }

  lemma {:induction false} AddKeepsBlocks(w: Walk, w': Walk)
    requires HasBlocks(w) && w'.visited == w.visited && w.items <= w'.items
    ensures HasBlocks(w')
  {
    forall k: nat | k < |w'.visited| ensures HasBlock(w'.items, k) {
      assert HasBlock(w.items, k);
      var m :| IsBlock(w.items, m) && w.items[m].heading == Some(k);
      assert IsBlock(w'.items, m);
    }
  }

  lemma {:induction false} HeadingGetsBlock(e: Env, w: Walk, n: Node)
    requires HasBlocks(w) && e.style.heading(w.wrappers, n).Some?
    ensures HasBlocks(VisitHeading(e, w, n))
  {
    var w' := VisitHeading(e, w, n);
    forall k: nat | k < |w'.visited| ensures HasBlock(w'.items, k) {
      if k < |w.visited| {
        assert HasBlock(w.items, k);
        var m :| IsBlock(w.items, m) && w.items[m].heading == Some(k);
        assert IsBlock(w'.items, m);
      } else {
        assert IsBlock(w'.items, |w.items|);
      }
    }
  }

  lemma {:induction false} AddRowsExtends(e: Env, w: Walk, k: nat)
    requires k <= |e.headings| && Positive(Levels(e.headings))
    ensures w.items <= AddRows(e, w, k).items && AddRows(e, w, k).visited == w.visited
  {
    hide Row;
    if k > 0 { AddRowsExtends(e, w, k - 1); }
  }

  lemma {:induction false} VisitGivesBlocks(e: Env, w: Walk, n: Node)
    requires HasBlocks(w) && Positive(Levels(e.headings))
    requires forall h, wrappers :: h in Visited(n) ==> e.style.heading(wrappers, h).Some?
    ensures HasBlocks(Visit(e, w, n))
    decreases n, 0
  {
    hide HasBlocks, AddShapes, AddRows, VisitHeading;
    match n.kind
    case Heading =>
      assert n in Visited(n);
      HeadingGetsBlock(e, w, n);
    case Paragraph | BlockQuote | CodeBlock | List | Table =>
      ShapesVisitNothing(w, e.style.body(w.wrappers, n));
      AddKeepsBlocks(w, Visit(e, w, n));
    case ThematicBreak | HtmlBlock =>
      AddKeepsBlocks(w, Visit(e, w, n));
    case Toc =>
      AddRowsExtends(e, w, |e.headings|);
      AddKeepsBlocks(w, Visit(e, w, n));
    case _ =>
      VisitAllGivesBlocks(e, w, n.children);
  }

  lemma {:induction false} VisitAllGivesBlocks(e: Env, w: Walk, ns: seq<Node>)
    requires HasBlocks(w) && Positive(Levels(e.headings))
    requires forall h, wrappers :: h in VisitedIn(ns) ==> e.style.heading(wrappers, h).Some?
    ensures HasBlocks(VisitAll(e, w, ns))
    decreases ns
  {
    hide HasBlocks, Visited, Visit;
    if ns != [] {
      var init, last := ns[..|ns| - 1], ns[|ns| - 1];
      VisitAllGivesBlocks(e, w, init);
      VisitGivesBlocks(e, VisitAll(e, w, init), last);
    }
  }

  /** Blocks have the numbers of their headings if no nested heading comes before a free one, and only then
      if all headings have text. */
  lemma {:induction false} InPlaceWhen(e: Env, root: Node)
    requires root.kind == Root && Positive(Levels(e.headings))
    ensures NestedComeLast(Free(root)) ==> BlocksInPlace(root, Document(e, root).items)
    ensures HeadingsHaveText(e, root) && BlocksInPlace(root, Document(e, root).items) ==> NestedComeLast(Free(root))
  {
    hide Positions, Free, Picked, Headings, VisitedIn, NestedComeLast;
    var w, places := Document(e, root), Positions(Free(root));
    DocumentOk(e, root);
    VisitedArePicked(root);
    VisitedOfRoot(root);
    PickedAt(Headings(root), Free(root));
    PositionsAreFirst(Free(root));
    assert |w.visited| == |places|;
    if NestedComeLast(Free(root)) {
      forall m | IsBlock(w.items, m) ensures OwnHeading(root, w.items[m]) == w.items[m].heading {
        assert ItemOk(e, w.visited, w.items[m]);
      }
    }
    if HeadingsHaveText(e, root) && BlocksInPlace(root, w.items) {
      VisitAllGivesBlocks(e, START, root.children);
      forall k | 0 <= k < |places| ensures places[k] == k {
        assert HasBlock(w.items, k);
        var m :| IsBlock(w.items, m) && w.items[m].heading == Some(k);
        assert OwnHeading(root, w.items[m]) == Some(places[k]);
      }
    }
  }

  /** If all headings have text, every row shows the page of its own heading if and only if there are no
      rows or no heading nested in a quote, list or table comes before one that is not. */
  lemma {:induction false} RowsShowTheirHeadingsUnlessShifted(e: Env, root: Node, h: real)
    requires AnchorsApart(e, root) && HeadingsHaveText(e, root)
    requires var blocks := Placed(Document(e, root).items); RowsShowAnchors(blocks, FinalPages(blocks, h))
    ensures var items := Document(e, root).items;
            RowsShowTheirHeadings(root, items, FinalPages(Placed(items), h)) <==>
              NoRows(items) || NestedComeLast(Free(root))
  {
    hide Document, Placed, FinalPages, RowsShowAnchors, RowsShowTheirHeadings, BlocksInPlace, NestedComeLast;
    RowsShowTheirHeadingsWhen(e, root, h);
    InPlaceWhen(e, root);
  }

  lemma {:induction false} ShiftedHeadings(quote: Node, a: Node, b: Node, toc: Node)
    requires quote.kind == BlockQuote && quote.children == [a] && a.kind == b.kind == NodeType.Heading
    requires toc.kind == Toc && toc.children == []
    ensures var root := Node(Root, 0, "", "", [quote, b, toc]);
            Headings(root) == [a, b] && Distinct(HeadingAnchors(root))
  {
    hide SlugsOf, RecordTexts, AnchorsOf;
    var ns, root := [quote, b, toc], Node(Root, 0, "", "", [quote, b, toc]);
    assert ns[1..] == [b, toc] && [b, toc][1..] == [toc] && [toc][1..] == [] && [a][1..] == [];
    assert HeadingsOfAll([a]) == [a] && Headings(toc) == [];
    assert HeadingsOfAll([toc]) == [] && HeadingsOfAll([b, toc]) == [b];
    assert Headings(root) == HeadingsOfAll(ns) == [a] + [b];
    TwoAnchors(root);
  }

  lemma {:induction false} TwoAnchors(root: Node)
    requires |Headings(root)| == 2
    ensures Distinct(HeadingAnchors(root))
  {
    hide Headings, AnchorsOf, Slugify;
    TwoAnchorsDiffer(SlugsOf(RecordTexts(root)));
  }

  lemma {:induction false} ShiftedFree(quote: Node, a: Node, b: Node, toc: Node)
    requires quote.kind == BlockQuote && quote.children == [a] && a.kind == b.kind == NodeType.Heading
    requires toc.kind == Toc && toc.children == []
    ensures Free(quote) == [false] && Free(b) == [true] && Free(toc) == []
  {
    assert [a][1..] == [] && HeadingsOfAll([a]) == [a];
  }

  lemma {:induction false} SecondPosition()
    ensures Positions([false, true]) == [1]
  {
    assert [false, true][..1] == [false] && [false][..0] == [];
    assert Positions([false]) == [];
  }

  lemma {:induction false} ShiftedPositions(quote: Node, a: Node, b: Node, toc: Node)
    requires quote.kind == BlockQuote && quote.children == [a] && a.kind == b.kind == NodeType.Heading
    requires toc.kind == Toc && toc.children == []
    ensures Positions(Free(Node(Root, 0, "", "", [quote, b, toc]))) == [1]
  {
    hide Positions;
    SecondPosition();
    assert FreeIn([quote, b, toc]) == [false, true] by {
      hide Free;
      ShiftedFree(quote, a, b, toc);
      assert [quote, b, toc][..2] == [quote, b] && [quote, b][..1] == [quote] && [quote][..0] == [];
      assert FreeIn([quote]) == [] + [false];
      assert FreeIn([quote, b]) == [false] + [true];
    }
  }

  /** The document is the blocks of the quote, the block of the other heading and two rows. */
  lemma {:induction false} ShiftedItems(e: Env, quote: Node, b: Node, toc: Node)
    requires quote.kind == BlockQuote && b.kind == NodeType.Heading && toc.kind == Toc
    requires |e.headings| == 2 && Positive(Levels(e.headings)) && e.renderToc && e.style.heading([], b).Some?
    ensures var w := AddShapes(START, e.style.body([], quote));
            var items := Document(e, Node(Root, 0, "", "", [quote, b, toc])).items;
            && |items| == |w.items| + 3 && items[|w.items|].kind == Kind.Heading && items[|w.items|].heading == Some(0)
            && items[|w.items| + 1] == Row(e, 0) && items[|w.items| + 2] == Row(e, 1)
            && forall m :: IsBlock(items, m) ==> m == |w.items|
  {
    hide Row, Number, Positive, AddShapes;
    var ns := [quote, b, toc];
    var w := AddShapes(START, e.style.body([], quote));
    ShapesVisitNothing(START, e.style.body([], quote));
    assert ns[..2] == [quote, b] && [quote, b][..1] == [quote] && [quote][..0] == [];
    assert VisitAll(e, START, []) == START;
    assert VisitAll(e, START, [quote]) == Visit(e, START, quote) == w;
    var v := VisitHeading(e, w, b);
    assert VisitAll(e, START, [quote, b]) == Visit(e, w, b) == v;
    assert AddRows(e, v, 0) == v && AddRows(e, v, 1) == v.Add(Row(e, 0));
    assert AddRows(e, v, 2) == v.Add(Row(e, 0)).Add(Row(e, 1));
    assert VisitAll(e, START, ns) == Visit(e, v, toc) == AddRows(e, v, 2);
    RowIs(e, 0);
    RowIs(e, 1);
  }

  /** A quoted heading, a heading and a table of contents: the row of the quoted heading shows the page of the
      other one, and the row of that one shows no page although its block is there. */
  lemma {:induction false} QuotedHeadingShiftsPages(e: Env, quote: Node, a: Node, b: Node, toc: Node, h: real)
    requires quote.kind == BlockQuote && quote.children == [a] && a.kind == b.kind == NodeType.Heading
             && toc.kind == Toc
    requires toc.children == [] && e.headings == DocumentHeadings(Node(Root, 0, "", "", [quote, b, toc]))
    requires Positive(Levels(e.headings)) && e.renderToc && e.style.heading([], b).Some?
    requires var blocks := Placed(Document(e, Node(Root, 0, "", "", [quote, b, toc])).items);
             RowsShowAnchors(blocks, FinalPages(blocks, h))
    ensures var root := Node(Root, 0, "", "", [quote, b, toc]);
            var items := Document(e, root).items;
            var n := |items| - 3;
            && n >= 0 && IsBlock(items, n) && OwnHeading(root, items[n]) == Some(1)
            && IsRow(items, n + 1) && items[n + 1].heading == Some(0)
            && OnPage(FinalPages(Placed(items), h), items[n + 1].page, n)
            && IsRow(items, n + 2) && items[n + 2].heading == Some(1) && items[n + 2].page == None
  {
    hide Document, Placed, FinalPages, RowsShowAnchors, Positions, Free, HeadingAnchors, Row, OnPage;
    var root := Node(Root, 0, "", "", [quote, b, toc]);
    var items, n := Document(e, root).items, |AddShapes(START, e.style.body([], quote)).items|;
    ShiftedHeadings(quote, a, b, toc);
    ShiftedPositions(quote, a, b, toc);
    ShiftedItems(e, quote, b, toc);
    RowIs(e, 0);
    RowIs(e, 1);
    RowShowsItsNumber(e, root, h, n + 1);
    RowShowsItsNumber(e, root, h, n + 2);
  }
}
