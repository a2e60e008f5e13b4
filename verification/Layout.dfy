/** From the document to the flow: the layout engine walks the blocks and moves a cursor down the page. */
module Layout {
  import opened Flow
  import opened Options
  import opened MarkdownAst
  import opened Anchors
  import opened Numbering
  import Decimal

  // ---- what the style sheet and the text engine decide --------------------------------------------

  datatype Box = Box(before: real, after: real, height: real)

  /** The kinds of block that paragraphs, quotes, code blocks, lists and tables become. */
  type BodyKind = k: Kind | k != Kind.Heading && k != TocRow && k != PageBreak witness P

  datatype Shape = Shape(kind: BodyKind, box: Box)

  /** What a raw HTML block does: mark a page break, draw a rule, open or close a wrapper around the
      blocks that follow, nothing, or give text. */
  datatype HtmlEffect = Break | Rule | Opens | Closes | Nothing | Chunk(box: Box)

  /** Style sheet, width and text measurement. Blocks depend on the HTML wrappers that are open. */
  datatype Style = Style(
    width: real,
    heading: (seq<string>, Node) -> Option<Box>,     // None if the heading has no text
    body: (seq<string>, Node) -> seq<Shape>,
    html: string -> HtmlEffect,
    rule: Box,
    placeholder: Box,                                // of a literal [[TOC]]
    rowBefore: real,
    rowAfter: real,
    measure: (seq<string>, real) -> real)            // height of pieces of text at a width

  /** A collected heading with its anchor. */
  datatype TocHeading = TocHeading(level: int, text: string, anchor: string)

  /** The input of one layout pass. `pages` gives the pages of anchors, in the second pass only. */
  datatype Env = Env(style: Style, headings: seq<TocHeading>, pages: Option<map<string, nat>>, renderToc: bool)

  function DocumentHeadings(root: Node): (hs: seq<TocHeading>)
    ensures |hs| == |Headings(root)|
  {
    var rs, anchors := Records(Headings(root)), HeadingAnchors(root);
    seq(|rs|, i requires 0 <= i < |rs| => TocHeading(rs[i].level, rs[i].text, anchors[i]))
  }

  function Levels(hs: seq<TocHeading>): seq<int> { seq(|hs|, i requires 0 <= i < |hs| => hs[i].level) }

  // ---- items and the cursor -----------------------------------------------------------------------

  /** A block before it is placed. `heading` is the number of the heading that the block shows, or of the
      one that a row of the table of contents stands for. */
  datatype Item = Item(kind: Kind, box: Box, anchor: string, page: Option<nat>, heading: Option<nat>)

  /** The cursor below the items. */
  function Cursor(items: seq<Item>): real {
    if items == [] then 0.0
    else
      var b := items[|items| - 1].box;
      Cursor(items[..|items| - 1]) + b.before + b.height + b.after
  }

  function PlaceAt(item: Item, y: real): Block {
    Block(item.kind, y + item.box.before, item.box.height, item.anchor, item.page)
  }

  function Placed(items: seq<Item>): (blocks: seq<Block>)
    ensures |blocks| == |items|
  {
    seq(|items|, i requires 0 <= i < |items| => PlaceAt(items[i], Cursor(items[..i])))
  }

  // ---- specification of the walk ------------------------------------------------------------------

  /** The walk so far: the headings it has come by, the open HTML wrappers, and the items. */
  datatype Walk = Walk(visited: seq<Node>, wrappers: seq<string>, items: seq<Item>)
  {
    function Add(item: Item): Walk { this.(items := items + [item]) }
  }

  function Plain(kind: Kind, box: Box): Item { Item(kind, box, "", None, None) }

  /** The anchor of the heading visited as number `k`. */
  function AnchorAt(e: Env, k: nat, n: Node): string {
    if k < |e.headings| then e.headings[k].anchor else Slugify(PlainText(n))
  }

  function VisitHeading(e: Env, w: Walk, n: Node): Walk {
    var k := |w.visited|;
    var w' := w.(visited := w.visited + [n]);
    match e.style.heading(w.wrappers, n)
    case None => w'
    case Some(box) => w'.Add(Item(Kind.Heading, box, AnchorAt(e, k, n), None, Some(k)))
  }

  function AddShapes(w: Walk, shapes: seq<Shape>): Walk {
    if shapes == [] then w
    else
      var last := shapes[|shapes| - 1];
      AddShapes(w, shapes[..|shapes| - 1]).Add(Plain(last.kind, last.box))
  }

  function Html(e: Env, w: Walk, text: string): Walk {
    match e.style.html(text)
    case Break => w.Add(Plain(PageBreak, Box(6.0, 6.0, 2.0)))
    case Rule => w.Add(Plain(Hr, e.style.rule))
    case Opens => w.(wrappers := w.wrappers + [text])
    case Closes => if w.wrappers == [] then w else w.(wrappers := w.wrappers[..|w.wrappers| - 1])
    case Nothing => w
    case Chunk(box) => w.Add(Plain(P, box))
  }

  /** A section number as text. */
  function NumberText(counters: seq<nat>): string {
    if counters == [] then ""
    else
      var init := NumberText(counters[..|counters| - 1]);
      (if init == "" then init else init + ".") + Decimal.Print(counters[|counters| - 1])
  }

  function PageFor(e: Env, anchor: string): Option<nat> {
    if e.pages.Some? && anchor in e.pages.value then Some(e.pages.value[anchor]) else None
  }

  /** The row of heading `k`: only the number and the title are measured, never the page number. */
  function Row(e: Env, k: nat): Item
    requires k < |e.headings| && Positive(Levels(e.headings))
  {
    var h := e.headings[k];
    var indent := (h.level - 1) as real * 14.0;
    var title := [NumberText(Number(Levels(e.headings), k)) + ". ", h.text];
    var box := Box(e.style.rowBefore, e.style.rowAfter, e.style.measure(title, e.style.width - indent));
    Item(TocRow, box, h.anchor, PageFor(e, h.anchor), Some(k))
  }

  function AddRows(e: Env, w: Walk, k: nat): Walk
    requires k <= |e.headings| && Positive(Levels(e.headings))
  {
    if k == 0 then w else AddRows(e, w, k - 1).Add(Row(e, k - 1))
  }

  function Visit(e: Env, w: Walk, n: Node): Walk
    requires Positive(Levels(e.headings))
    decreases n, 0
  {
    match n.kind
    case Heading => VisitHeading(e, w, n)
    case Paragraph | BlockQuote | CodeBlock | List | Table => AddShapes(w, e.style.body(w.wrappers, n))
    case ThematicBreak => w.Add(Plain(Hr, e.style.rule))
    case HtmlBlock => Html(e, w, n.text)
    case Toc => if e.renderToc then AddRows(e, w, |e.headings|) else w.Add(Plain(P, e.style.placeholder))
    case _ => VisitAll(e, w, n.children)
  }

  function VisitAll(e: Env, w: Walk, ns: seq<Node>): Walk
    requires Positive(Levels(e.headings))
    decreases ns
  {
    if ns == [] then w else Visit(e, VisitAll(e, w, ns[..|ns| - 1]), ns[|ns| - 1])
  }

  const START: Walk := Walk([], [], [])

  function Document(e: Env, root: Node): Walk
    requires Positive(Levels(e.headings))
  {
    VisitAll(e, START, root.children)
  }

  // ---- the engine ---------------------------------------------------------------------------------

  class LayoutEngine {
    const env: Env
    var y: real
    var headingSeq: nat
    var wrappers: seq<string>
    var blocks: seq<Block>
    ghost var walk: Walk

    ghost predicate Valid()
      reads this
    {
      && y == Cursor(walk.items) && blocks == Placed(walk.items)
      && headingSeq == |walk.visited| && wrappers == walk.wrappers
      && Positive(Levels(env.headings))
    }

    constructor (e: Env)
      requires Positive(Levels(e.headings))
      ensures Valid() && env == e && walk == START
    {
      env := e;
      y, headingSeq, wrappers, blocks := 0.0, 0, [], [];
      walk := START;
    }

    method PushBlock(item: Item)
      requires Valid()
      modifies this
      ensures Valid() && walk == old(walk).Add(item)
    {
      var b := PlaceAt(item, y);
      y := b.y + b.height + item.box.after;
      blocks := blocks + [b];
      walk := walk.Add(item);
      PlacedSnoc(old(walk).items, item);
    }

    method AppendHeading(n: Node)
      requires Valid()
      modifies this
      ensures Valid() && walk == VisitHeading(env, old(walk), n)
    {
      var k := headingSeq;
      headingSeq := headingSeq + 1;
      walk := walk.(visited := walk.visited + [n]);
      var box := env.style.heading(wrappers, n);
      if box.None? {
        return;
      }
      PushBlock(Item(Kind.Heading, box.value, AnchorAt(env, k, n), None, Some(k)));
    }

    method AppendShapes(shapes: seq<Shape>)
      requires Valid()
      modifies this
      ensures Valid() && walk == AddShapes(old(walk), shapes)
    {
      for i := 0 to |shapes|
        invariant Valid() && walk == AddShapes(old(walk), shapes[..i])
      {
        assert shapes[..i + 1][..i] == shapes[..i];
        PushBlock(Plain(shapes[i].kind, shapes[i].box));
      }
      assert shapes[..|shapes|] == shapes;
    }

    /** The row of a heading: the page number is the last run and is left out of the measurement. */
    method MakeRow(k: nat, counters: seq<nat>) returns (row: Item)
      requires k < |env.headings| && Positive(Levels(env.headings)) && counters == Number(Levels(env.headings), k)
      ensures row == Row(env, k)
    {
      hide Number, NumberText;
      var h := env.headings[k];
      var num := JoinCounters(counters);
      var indent := (if h.level - 1 > 0 then h.level - 1 else 0) as real * 14.0;
      var runs := [num + ". ", h.text];
      assert Levels(env.headings)[k] == h.level;
      ghost var title := runs;
      var page: Option<nat> := None;
      if env.pages.Some? && h.anchor in env.pages.value {
        page := Some(env.pages.value[h.anchor]);
        runs := runs + [Decimal.Print(page.value)];
      }
      var titleN := if env.pages.Some? && page.Some? then |runs| - 1 else |runs|;
      assert runs[..titleN] == title;
      var height := env.style.measure(runs[..titleN], env.style.width - indent);
      row := Item(TocRow, Box(env.style.rowBefore, env.style.rowAfter, height), h.anchor, page, Some(k));
    }

    method EmitToc()
      requires Valid()
      modifies this
      ensures Valid() && walk == AddRows(env, old(walk), |env.headings|)
    {
      hide Cursor, Placed, Row, Number;
      var numbers := TocNumbers(Levels(env.headings));
      for k := 0 to |env.headings|
        invariant Valid() && walk == AddRows(env, old(walk), k)
      {
        var row := MakeRow(k, numbers[k]);
        PushBlock(row);
      }
    }

    method EmitHtml(text: string)
      requires Valid()
      modifies this
      ensures Valid() && walk == Html(env, old(walk), text)
    {
      var effect := env.style.html(text);
      match effect
      case Break => PushBlock(Plain(PageBreak, Box(6.0, 6.0, 2.0)));
      case Rule => PushBlock(Plain(Hr, env.style.rule));
      case Opens =>
        wrappers := wrappers + [text];
        walk := walk.(wrappers := wrappers);
      case Closes =>
        if wrappers != [] {
          wrappers := wrappers[..|wrappers| - 1];
          walk := walk.(wrappers := wrappers);
        }
      case Nothing =>
      case Chunk(box) => PushBlock(Plain(P, box));
    }

    method EmitNode(n: Node)
      requires Valid()
      modifies this
      ensures Valid() && walk == Visit(env, old(walk), n)
      decreases n, 0
    {
      hide Cursor, Placed, AddShapes, Html, VisitHeading, AddRows;
      match n.kind
      case Heading => AppendHeading(n);
      case Paragraph | BlockQuote | CodeBlock | List | Table =>
        var shapes := env.style.body(wrappers, n);
        AppendShapes(shapes);
      case ThematicBreak => PushBlock(Plain(Hr, env.style.rule));
      case HtmlBlock => EmitHtml(n.text);
      case Toc =>
        if env.renderToc {
          EmitToc();
        } else {
          PushBlock(Plain(P, env.style.placeholder));
        }
      case _ => EmitAll(n.children);
    }

    method EmitAll(ns: seq<Node>)
      requires Valid()
      modifies this
      ensures Valid() && walk == VisitAll(env, old(walk), ns)
      decreases ns
    {
      for i := 0 to |ns|
        invariant Valid() && walk == VisitAll(env, old(walk), ns[..i])
      {
        assert ns[..i + 1][..i] == ns[..i];
        EmitNode(ns[i]);
      }
      assert ns[..|ns|] == ns;
    }
  }

  method JoinCounters(counters: seq<nat>) returns (num: string)
    ensures num == NumberText(counters)
  {
    num := "";
    for i := 0 to |counters|
      invariant num == NumberText(counters[..i])
    {
      assert counters[..i + 1][..i] == counters[..i];
      if num != "" {
        num := num + ".";
      }
      num := num + Decimal.Print(counters[i]);
    }
    assert counters[..|counters|] == counters;
  }

  /** One layout pass. */
  method LayoutDocument(e: Env, root: Node) returns (blocks: seq<Block>)
    requires Positive(Levels(e.headings))
    ensures blocks == Placed(Document(e, root).items)
  {
    var engine := new LayoutEngine(e);
    engine.EmitAll(root.children);
    blocks := engine.blocks;
  }

  lemma {:induction false} PlacedSnoc(items: seq<Item>, item: Item)
    ensures Placed(items + [item]) == Placed(items) + [PlaceAt(item, Cursor(items))]
    ensures Cursor(items + [item]) == Cursor(items) + item.box.before + item.box.height + item.box.after
  {
    var all := items + [item];
    assert all[..|items|] == items;
    forall i | 0 <= i < |items| ensures all[..i] == items[..i] {}
  }

  // ---- the cursor only moves down -----------------------------------------------------------------

  predicate BoxOk(b: Box) { b.before >= 0.0 && b.after >= 0.0 && b.height >= 0.0 }

  /** Block `i` starts where the cursor stands after the items before it. */
  lemma {:induction false} CursorMovesDown(items: seq<Item>, i: nat)
    requires i <= |items| && forall k :: 0 <= k < |items| ==> BoxOk(items[k].box)
    ensures 0.0 <= Cursor(items[..i]) <= Cursor(items)
  {
    if i == |items| {
      assert items[..i] == items;
      if i > 0 { CursorMovesDown(items[..i - 1], i - 1); }
    } else {
      var init := items[..|items| - 1];
      CursorMovesDown(init, i);
      assert init[..i] == items[..i];
    }
  }

  /** No block starts above an earlier block's bottom, if margins and heights are not negative. */
  lemma {:induction false} PlacedInOrder(items: seq<Item>, i: nat, j: nat)
    requires i < j < |items| && forall k :: 0 <= k < |items| ==> BoxOk(items[k].box)
    ensures 0.0 <= Placed(items)[i].y <= Placed(items)[i].Bottom() <= Placed(items)[j].y
  {
    CursorMovesDown(items[..i], i);
    CursorMovesDown(items[..j], i + 1);
    assert items[..j][..i + 1] == items[..i + 1] && items[..i + 1][..i] == items[..i];
  }

  /** A style sheet without negative margins or heights. */
  ghost predicate StyleOk(s: Style) {
    && (forall ws, n :: s.heading(ws, n).Some? ==> BoxOk(s.heading(ws, n).value))
    && (forall ws, n, i :: 0 <= i < |s.body(ws, n)| ==> BoxOk(s.body(ws, n)[i].box))
    && (forall text :: s.html(text).Chunk? ==> BoxOk(s.html(text).box))
    && BoxOk(s.rule) && BoxOk(s.placeholder)
    && s.rowBefore >= 0.0 && s.rowAfter >= 0.0
    && (forall runs, width :: s.measure(runs, width) >= 0.0)
  }

  // ---- what the walk keeps ------------------------------------------------------------------------

  /** Headings and rows carry their heading's anchor and rows its page; other blocks carry none. */
  predicate ItemOk(e: Env, visited: seq<Node>, item: Item) {
    && (item.kind == Kind.Heading ==>
          item.heading.Some? && item.heading.value < |visited|
          && item.anchor == AnchorAt(e, item.heading.value, visited[item.heading.value]))
    && (item.kind == TocRow ==>
          item.heading.Some? && item.heading.value < |e.headings|
          && item.anchor == e.headings[item.heading.value].anchor && item.page == PageFor(e, item.anchor))
  }

  /** All items are right, heading blocks come in order, and boxes are as the style promises. */
  ghost predicate ItemsOk(e: Env, w: Walk) {
    && (forall i :: 0 <= i < |w.items| ==> ItemOk(e, w.visited, w.items[i]))
    && (forall i, j :: 0 <= i < j < |w.items| ==> Follows(w.items[i], w.items[j]))
    && (StyleOk(e.style) ==> forall i :: 0 <= i < |w.items| ==> BoxOk(w.items[i].box))
  }

  /** Of two heading blocks, the later one shows a later heading. */
  predicate Follows(a: Item, b: Item) {
    a.kind == b.kind == Kind.Heading && a.heading.Some? && b.heading.Some? ==> a.heading.value < b.heading.value
  }

  lemma {:induction false} AddOk(e: Env, w: Walk, item: Item)
    requires ItemsOk(e, w) && ItemOk(e, w.visited, item) && (StyleOk(e.style) ==> BoxOk(item.box))
    requires forall i :: 0 <= i < |w.items| ==> Follows(w.items[i], item)
    ensures ItemsOk(e, w.Add(item))
  {
    hide ItemOk, StyleOk, BoxOk, Follows;
  }

  lemma {:induction false} AddShapesOk(e: Env, w: Walk, shapes: seq<Shape>)
    requires ItemsOk(e, w)
    requires StyleOk(e.style) ==> forall i :: 0 <= i < |shapes| ==> BoxOk(shapes[i].box)
    ensures ItemsOk(e, AddShapes(w, shapes)) && AddShapes(w, shapes).visited == w.visited
  {
    hide ItemsOk, StyleOk, BoxOk;
    if shapes != [] {
      var last := shapes[|shapes| - 1];
      AddShapesOk(e, w, shapes[..|shapes| - 1]);
      AddOk(e, AddShapes(w, shapes[..|shapes| - 1]), Plain(last.kind, last.box));
    }
  }

  lemma {:induction false} RowOk(e: Env, visited: seq<Node>, k: nat)
    requires k < |e.headings| && Positive(Levels(e.headings))
    ensures ItemOk(e, visited, Row(e, k)) && (StyleOk(e.style) ==> BoxOk(Row(e, k).box)) && Row(e, k).kind == TocRow
  {
    hide Number, NumberText, Positive;
  }

  lemma {:induction false} AddRowsOk(e: Env, w: Walk, k: nat)
    requires ItemsOk(e, w) && k <= |e.headings| && Positive(Levels(e.headings))
    ensures ItemsOk(e, AddRows(e, w, k)) && AddRows(e, w, k).visited == w.visited
  {
    hide ItemsOk, StyleOk, BoxOk, Row, ItemOk;
    if k > 0 {
      AddRowsOk(e, w, k - 1);
      RowOk(e, w.visited, k - 1);
      AddOk(e, AddRows(e, w, k - 1), Row(e, k - 1));
    }
  }

  lemma {:induction false} HeadingKeeps(e: Env, w: Walk, n: Node)
    requires ItemsOk(e, w)
    ensures ItemsOk(e, VisitHeading(e, w, n)) && VisitHeading(e, w, n).visited == w.visited + [n]
  {
    var w' := w.(visited := w.visited + [n]);
    assert ItemsOk(e, w') by {
      assert forall i :: 0 <= i < |w.items| ==> ItemOk(e, w.visited, w.items[i]) ==> ItemOk(e, w'.visited, w.items[i]);
    }
    assert forall i :: 0 <= i < |w.items| ==> ItemOk(e, w.visited, w.items[i]);
    if e.style.heading(w.wrappers, n).Some? {
      var k := |w.visited|;
      AddOk(e, w', Item(Kind.Heading, e.style.heading(w.wrappers, n).value, AnchorAt(e, k, n), None, Some(k)));
    }
  }

  lemma {:induction false} PlainOk(e: Env, visited: seq<Node>, kind: Kind, box: Box)
    requires kind != Kind.Heading && kind != TocRow
    ensures ItemOk(e, visited, Plain(kind, box))
  {
  }

  lemma {:induction false} HtmlKeeps(e: Env, w: Walk, text: string)
    requires ItemsOk(e, w)
    ensures ItemsOk(e, Html(e, w, text)) && Html(e, w, text).visited == w.visited
  {
  }

  /** The headings that the walk comes by: those in quotes, lists and tables are part of other blocks. */
  function Visited(n: Node): seq<Node>
    decreases n, 0
  {
    match n.kind
    case Heading => [n]
    case Paragraph | BlockQuote | CodeBlock | List | Table | ThematicBreak | HtmlBlock | Toc => []
    case _ => VisitedIn(n.children)
  }

  function VisitedIn(ns: seq<Node>): seq<Node>
    decreases ns
  {
    if ns == [] then [] else VisitedIn(ns[..|ns| - 1]) + Visited(ns[|ns| - 1])
  }

  lemma {:induction false} VisitKeeps(e: Env, w: Walk, n: Node)
    requires ItemsOk(e, w) && Positive(Levels(e.headings))
    ensures ItemsOk(e, Visit(e, w, n)) && Visit(e, w, n).visited == w.visited + Visited(n)
    decreases n, 0
  {
    hide ItemsOk, VisitHeading, Html, AddShapes, AddRows, ItemOk;
    assert w.visited + [] == w.visited;
    match n.kind
    case Heading =>
      HeadingKeeps(e, w, n);
    case Paragraph | BlockQuote | CodeBlock | List | Table =>
      AddShapesOk(e, w, e.style.body(w.wrappers, n));
    case ThematicBreak =>
      PlainOk(e, w.visited, Hr, e.style.rule);
      AddOk(e, w, Plain(Hr, e.style.rule));
    case HtmlBlock =>
      HtmlKeeps(e, w, n.text);
    case Toc =>
      AddRowsOk(e, w, |e.headings|);
      PlainOk(e, w.visited, P, e.style.placeholder);
      AddOk(e, w, Plain(P, e.style.placeholder));
    case _ =>
      VisitAllKeeps(e, w, n.children);
  }

  lemma {:induction false} VisitAllKeeps(e: Env, w: Walk, ns: seq<Node>)
    requires ItemsOk(e, w) && Positive(Levels(e.headings))
    ensures ItemsOk(e, VisitAll(e, w, ns)) && VisitAll(e, w, ns).visited == w.visited + VisitedIn(ns)
    decreases ns
  {
    if ns == [] {
      assert w.visited + [] == w.visited;
    } else {
      var init, last := ns[..|ns| - 1], ns[|ns| - 1];
      VisitAllKeeps(e, w, init);
      VisitKeeps(e, VisitAll(e, w, init), last);
    }
  }

  lemma {:induction false} DocumentOk(e: Env, root: Node)
    requires Positive(Levels(e.headings))
    ensures ItemsOk(e, Document(e, root)) && Document(e, root).visited == VisitedIn(root.children)
  {
    VisitAllKeeps(e, START, root.children);
    assert [] + VisitedIn(root.children) == VisitedIn(root.children);
  }

  // ---- two passes ---------------------------------------------------------------------------------

  /** The same items but for the page numbers. */
  ghost predicate SameButPages(a: Walk, b: Walk) {
    && a.visited == b.visited && a.wrappers == b.wrappers && |a.items| == |b.items|
    && forall i :: 0 <= i < |a.items| ==> a.items[i].(page := None) == b.items[i].(page := None)
  }

  lemma {:induction false} ShapesAgree(a: Walk, b: Walk, shapes: seq<Shape>)
    requires SameButPages(a, b)
    ensures SameButPages(AddShapes(a, shapes), AddShapes(b, shapes))
  {
    if shapes != [] { ShapesAgree(a, b, shapes[..|shapes| - 1]); }
  }

  lemma {:induction false} RowsAgree(e: Env, f: Env, a: Walk, b: Walk, k: nat)
    requires SameButPages(a, b) && f == e.(pages := f.pages) && k <= |e.headings| && Positive(Levels(e.headings))
    ensures SameButPages(AddRows(e, a, k), AddRows(f, b, k))
  {
    hide Number, NumberText, Positive;
    if k > 0 { RowsAgree(e, f, a, b, k - 1); }
  }

  lemma {:induction false} VisitsAgree(e: Env, f: Env, a: Walk, b: Walk, n: Node)
    requires SameButPages(a, b) && f == e.(pages := f.pages) && Positive(Levels(e.headings))
    ensures SameButPages(Visit(e, a, n), Visit(f, b, n))
    decreases n, 0
  {
    hide AddShapes, AddRows, Positive;
    match n.kind
    case Heading =>
    case Paragraph | BlockQuote | CodeBlock | List | Table =>
      ShapesAgree(a, b, e.style.body(a.wrappers, n));
    case ThematicBreak =>
    case HtmlBlock =>
    case Toc =>
      RowsAgree(e, f, a, b, |e.headings|);
    case _ =>
      AllVisitsAgree(e, f, a, b, n.children);
  }

  lemma {:induction false} AllVisitsAgree(e: Env, f: Env, a: Walk, b: Walk, ns: seq<Node>)
    requires SameButPages(a, b) && f == e.(pages := f.pages) && Positive(Levels(e.headings))
    ensures SameButPages(VisitAll(e, a, ns), VisitAll(f, b, ns))
    decreases ns
  {
    if ns != [] {
      var init, last := ns[..|ns| - 1], ns[|ns| - 1];
      AllVisitsAgree(e, f, a, b, init);
      VisitsAgree(e, f, VisitAll(e, a, init), VisitAll(f, b, init), last);
    }
  }

  lemma {:induction false} SameCursor(a: seq<Item>, b: seq<Item>)
    requires |a| == |b| && forall i :: 0 <= i < |a| ==> a[i].box == b[i].box
    ensures Cursor(a) == Cursor(b)
  {
    if a != [] { SameCursor(a[..|a| - 1], b[..|b| - 1]); }
  }

  /** Filling in page numbers moves no block. */
  lemma {:induction false} PagesMoveNothing(e: Env, f: Env, root: Node)
    requires f == e.(pages := f.pages) && Positive(Levels(e.headings))
    ensures var a, b := Document(e, root), Document(f, root);
            SameButPages(a, b) && SameGeometry(Placed(a.items), Placed(b.items))
  {
    AllVisitsAgree(e, f, START, START, root.children);
    var a, b := Document(e, root).items, Document(f, root).items;
    forall i | 0 <= i < |a| ensures Cursor(a[..i]) == Cursor(b[..i]) && a[i].kind == b[i].kind && a[i].box == b[i].box {
      assert forall k :: 0 <= k < |a| ==> a[k].(page := None).box == b[k].(page := None).box;
      SameCursor(a[..i], b[..i]);
      assert a[i].(page := None).kind == b[i].(page := None).kind;
    }
  }
}
