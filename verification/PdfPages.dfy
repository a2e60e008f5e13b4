/** The PDF export in two passes: the first finds the page of every heading, the second prints these pages
    in the table of contents. */
module PdfPages {
  import opened Flow
  import opened Options
  import opened MarkdownAst
  import opened Anchors
  import opened Numbering
  import opened Pagination
  import opened Layout
  import opened HeadingAnchorShift
  import opened RowPages

  // ---- the export ---------------------------------------------------------------------------------

  function Entry(m: map<string, nat>, a: string): Option<nat> { if a in m then Some(m[a]) else None }

  /** Enters the headings of one page into the map. */
  method EnterPage(blocks: seq<Block>, slice: Slice, number: nat, m: map<string, nat>) returns (m': map<string, nat>)
    ensures forall a ::
      Entry(m', a) == if HeadingBetween(blocks, a, slice.first, slice.last + 1) then Some(number) else Entry(m, a)
  {
    hide HeadingBetween;
    m' := m;
    var i := slice.first;
    forall a ensures !HeadingBetween(blocks, a, i, i) { OneMoreBlock(blocks, a, i, i); }
    while i <= slice.last && i < |blocks|
      invariant slice.first <= i && (i <= slice.last + 1 || i == slice.first)
      invariant forall a ::
        Entry(m', a) == if HeadingBetween(blocks, a, slice.first, i) then Some(number) else Entry(m, a)
      decreases |blocks| - i
    {
      var b := blocks[i];
      ghost var before := m';
      if b.kind == Kind.Heading {
        m' := m'[b.anchor := number];
      }
      forall a
        ensures Entry(m', a) == if HeadingBetween(blocks, a, slice.first, i + 1) then Some(number) else Entry(m, a)
      {
        OneMoreBlock(blocks, a, slice.first, i);
        assert Entry(m', a) == if IsHeading(blocks, a, i) then Some(number) else Entry(before, a);
      }
      i := i + 1;
    }
    forall a
      ensures HeadingBetween(blocks, a, slice.first, slice.last + 1) <==> HeadingBetween(blocks, a, slice.first, i)
    {
      NoFurtherBlock(blocks, a, slice.first, i, slice.last + 1);
    }
  }

  lemma {:induction false} OneMoreBlock(blocks: seq<Block>, a: string, lo: nat, i: nat)
    requires lo <= i
    ensures HeadingBetween(blocks, a, lo, i + 1) <==> HeadingBetween(blocks, a, lo, i) || IsHeading(blocks, a, i)
    ensures !HeadingBetween(blocks, a, i, i)
  {
    if IsHeading(blocks, a, i) { assert lo <= i < i + 1; }
  }

  lemma {:induction false} NoFurtherBlock(blocks: seq<Block>, a: string, lo: nat, i: nat, hi: nat)
    requires i == hi || |blocks| <= i <= hi || lo == i >= hi
    ensures HeadingBetween(blocks, a, lo, hi) <==> HeadingBetween(blocks, a, lo, i)
  {
  }

  /** The page of every anchor; of an anchor that occurs twice, the last one. */
  method AnchorPages(blocks: seq<Block>, pages: seq<Slice>) returns (m: map<string, nat>)
    ensures forall a :: IsPageOf(blocks, pages, a, Entry(m, a))
  {
    m := map[];
    for k := 0 to |pages|
      invariant forall a :: IsPageOf(blocks, pages[..k], a, Entry(m, a))
    {
      ghost var before := m;
      m := EnterPage(blocks, pages[k], k + 1, m);
      forall a ensures IsPageOf(blocks, pages[..k + 1], a, Entry(m, a)) {
        OneMorePage(blocks, pages, k, a, Entry(before, a), Entry(m, a));
      }
    }
    assert pages[..|pages|] == pages;
  }

  lemma {:induction false} OneMorePage(blocks: seq<Block>, pages: seq<Slice>, k: nat, a: string, p: Option<nat>,
                                       q: Option<nat>)
    requires k < |pages| && IsPageOf(blocks, pages[..k], a, p)
    requires q == if HeadingBetween(blocks, a, pages[k].first, pages[k].last + 1) then Some(k + 1) else p
    ensures IsPageOf(blocks, pages[..k + 1], a, q)
  {
    hide HeadingBetween;
    var before, now := pages[..k], pages[..k + 1];
    forall j: nat ensures Holds(blocks, now, a, j) <==>
      if j == k then HeadingBetween(blocks, a, pages[k].first, pages[k].last + 1) else Holds(blocks, before, a, j) {
    }
  }

  /** Layout and pagination, and both again with page numbers if there is a table of contents. The final
      pages are those of the first pass, and every number that is printed is the last page with a heading of the
      row's anchor. With distinct anchors every row shows the page of its own heading if and only if no heading
      block is numbered otherwise than its heading. */
  method ExportPages(e: Env, root: Node, h: real)
    returns (blocks: seq<Block>, pages: seq<Slice>, ok: bool, ghost final: Env)
    requires e.pages == None && Positive(Levels(e.headings))
    ensures ok <==> Document(e, root).items != []
    ensures final == e.(pages := final.pages)
    ensures ok ==> blocks == Placed(Document(final, root).items) && pages == FinalPages(blocks, h)
    ensures ok ==> pages == FinalPages(Placed(Document(e, root).items), h)
    ensures ok ==> RowsShowAnchors(blocks, pages)
    ensures ok && AnchorsApart(e, root) ==>
              (RowsShowTheirHeadings(root, Document(final, root).items, pages)
               <==> NoRows(Document(e, root).items) || BlocksInPlace(root, Document(e, root).items))
  {
    hide Document, Positive, Pages, IsPageOf, Distinct, HeadingAnchors, RowsShowTheirHeadings, BlocksInPlace, NoRows;
    final := e;
    blocks := LayoutDocument(e, root);
    if blocks == [] {
      return [], [], false, e;
    }
    pages := PaginateBlocks(blocks, h);
    var hasToc := false;
    for i := 0 to |blocks|
      invariant hasToc <==> exists j :: 0 <= j < i && blocks[j].kind == TocRow
    {
      if blocks[i].kind == TocRow {
        hasToc := true;
        break;
      }
    }
    ok := true;
    if hasToc {
      var anchorPage := AnchorPages(blocks, pages);
      if anchorPage == map[] {
        forall a ensures IsPageOf(blocks, pages, a, None) {
          assert IsPageOf(blocks, pages, a, Entry(anchorPage, a));
        }
        FirstPassPrintsNothing(e, root, pages);
      } else {
        ghost var first := blocks;
        final := e.(pages := Some(anchorPage));
        blocks := LayoutDocument(e.(pages := Some(anchorPage)), root);
        PagesMoveNothing(e, final, root);
        SamePages(first, blocks, h);
        pages := PaginateBlocks(blocks, h);
        PrintedPagesAreRight(e, final, root, pages);
      }
    }
    if AnchorsApart(e, root) {
      RowsShowTheirHeadingsWhen(final, root, h);
      SamePlaces(e, final, root);
    }
  }

  /** Both passes have rows and blocks of the same headings. */
  lemma {:induction false} SamePlaces(e: Env, final: Env, root: Node)
    requires final == e.(pages := final.pages) && Positive(Levels(e.headings))
    ensures var a, b := Document(e, root).items, Document(final, root).items;
            (NoRows(a) <==> NoRows(b)) && (BlocksInPlace(root, a) <==> BlocksInPlace(root, b))
  {
    hide Document, Positions, Free;
    PagesMoveNothing(e, final, root);
    var a, b := Document(e, root).items, Document(final, root).items;
    forall i | 0 <= i < |a| ensures a[i].kind == b[i].kind && a[i].heading == b[i].heading {
      assert a[i].(page := None) == b[i].(page := None);
      assert a[i].(page := None).kind == a[i].kind && a[i].(page := None).heading == a[i].heading;
    }
    assert forall i :: IsRow(a, i) <==> IsRow(b, i);
    assert forall i :: IsBlock(a, i) <==> IsBlock(b, i);
  }

  lemma {:induction false} SamePages(a: seq<Block>, b: seq<Block>, h: real)
    requires SameGeometry(a, b)
    ensures FinalPages(a, h) == FinalPages(b, h)
  {
    PagesDependOnGeometry(a, b, h, 0);
  }

  lemma {:induction false} FirstPassPrintsNothing(e: Env, root: Node, pages: seq<Slice>)
    requires e.pages == None && Positive(Levels(e.headings))
    requires forall a :: IsPageOf(Placed(Document(e, root).items), pages, a, None)
    ensures RowsShowAnchors(Placed(Document(e, root).items), pages)
  {
    hide Document, IsPageOf, Cursor;
    DocumentOk(e, root);
  }

  /** The second pass has its headings where the first pass had them. */
  lemma {:induction false} SameHolders(a: seq<Item>, b: seq<Item>, pages: seq<Slice>, anchor: string, page: Option<nat>)
    requires |a| == |b| && forall i :: 0 <= i < |a| ==> a[i].(page := None) == b[i].(page := None)
    requires IsPageOf(Placed(a), pages, anchor, page)
    ensures IsPageOf(Placed(b), pages, anchor, page)
  {
    hide Cursor;
    forall i: nat ensures IsHeading(Placed(a), anchor, i) <==> IsHeading(Placed(b), anchor, i) {
      if i < |a| {
        assert a[i].(page := None) == b[i].(page := None);
        assert a[i].kind == a[i].(page := None).kind == b[i].kind
          && a[i].anchor == a[i].(page := None).anchor == b[i].anchor;
      }
    }
    forall k: nat ensures Holds(Placed(a), pages, anchor, k) <==> Holds(Placed(b), pages, anchor, k) {
    }
  }

  lemma {:induction false} PrintedPagesAreRight(e: Env, final: Env, root: Node, pages: seq<Slice>)
    requires final == e.(pages := final.pages) && final.pages.Some? && Positive(Levels(e.headings))
    requires forall a :: IsPageOf(Placed(Document(e, root).items), pages, a, Entry(final.pages.value, a))
    ensures RowsShowAnchors(Placed(Document(final, root).items), pages)
  {
    hide Document, IsPageOf, Cursor;
    PagesMoveNothing(e, final, root);
    DocumentOk(final, root);
    var a, b := Document(e, root).items, Document(final, root).items;
    forall i | 0 <= i < |b| && b[i].kind == TocRow ensures IsPageOf(Placed(b), pages, b[i].anchor, b[i].page) {
      assert b[i].page == Entry(final.pages.value, b[i].anchor);
      SameHolders(a, b, pages, b[i].anchor, b[i].page);
    }
  }

  // ---- the fewest pages ---------------------------------------------------------------------------

  /** Without negative margins or heights the cursor keeps the blocks in order. */
  lemma {:induction false} LayoutIsInOrder(e: Env, root: Node, i: nat, j: nat)
    requires StyleOk(e.style) && Positive(Levels(e.headings)) && i < j < |Document(e, root).items|
    ensures var blocks := Placed(Document(e, root).items);
            0.0 <= blocks[i].y <= blocks[i].Bottom() <= blocks[j].y
  {
    hide Document, Placed;
    DocumentOk(e, root);
    PlacedInOrder(Document(e, root).items, i, j);
  }

  /** The pages of a document are as few as those of any cut that strands no heading, and, for a document
      without headings, as those of any cut. */
  lemma {:induction false} DocumentUsesFewestPages(e: Env, root: Node, h: real, cuts: seq<Slice>)
    requires StyleOk(e.style) && Positive(Levels(e.headings))
    requires var blocks := Placed(Document(e, root).items);
             && IsCut(blocks, h, 0, cuts)
             && (KeepsHeadings(blocks, cuts) || forall i :: 0 <= i < |blocks| ==> blocks[i].kind != Kind.Heading)
    ensures |Pages(Placed(Document(e, root).items), h, 0)| <= |cuts|
  {
    hide Document, Placed;
    var blocks := Placed(Document(e, root).items);
    forall i, j | 0 <= i <= j < |blocks| ensures blocks[i].y <= blocks[j].y {
      if i < j { LayoutIsInOrder(e, root, i, j); }
    }
    FewestPages(blocks, h, cuts);
  }
}
