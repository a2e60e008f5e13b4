/** The heading ids written by the HTML renderer, and why every table-of-contents link finds one. */
module HtmlIds {
  import opened MarkdownAst
  import opened Anchors
  import opened SlugNewlines
  import Decimal

  predicate IsInline(k: NodeType) {
    match k
    case Text | CodeSpan | Emphasis | Strong | Del | Link | Image | SoftBreak | HardBreak | HtmlSpan => true
    case _ => false
  }

  // ---- which headings the renderer visits -------------------------------------------------

  /** The headings the renderer reaches below block `n`, in rendering order. */
  function Rendered(n: Node): seq<Node>
    decreases n, 1
  {
    match n.kind
    case Heading => [n]
    case Paragraph | CodeBlock | HtmlBlock | ThematicBreak | Table | Toc => []
    case List => RenderedItems(n.children)
    case _ => RenderedBlocks(n.children)
  }

  function RenderedBlocks(ns: seq<Node>): seq<Node>
    decreases ns
  {
    if ns == [] then [] else Rendered(ns[0]) + RenderedBlocks(ns[1..])
  }

  function RenderedItems(items: seq<Node>): seq<Node>
    decreases items
  {
    if items == [] then [] else RenderedItem(items[0].children) + RenderedItems(items[1..])
  }

  function RenderedItem(ns: seq<Node>): seq<Node>
    decreases ns
  {
    if ns == [] then []
    else (if IsItemText(ns[0]) then [] else Rendered(ns[0])) + RenderedItem(ns[1..])
  }

  /** A paragraph or inline child of a list item is rendered inline. */
  predicate IsItemText(n: Node) { n.kind == Paragraph || IsInline(n.kind) }

  function Texts(hs: seq<Node>): (r: seq<string>)
    ensures |r| == |hs|
  {
    seq(|hs|, i requires 0 <= i < |hs| => PlainText(hs[i]))
  }

  // ---- the renderer -----------------------------------------------------------------------

  /** The renderer's state as far as heading ids go: the ids written so far, in order. */
  class Renderer {
    const anchors: AnchorIndex
    var ids: seq<string>
    ghost var visited: seq<Node>   // the headings rendered so far

    ghost predicate Valid() reads this, anchors {
      && anchors.Valid()
      && anchors.made == SlugsOf(Texts(visited))
      && ids == AnchorsOf(anchors.made)
    }

    constructor ()
      ensures Valid() && fresh(anchors) && visited == []
    {
      anchors := new AnchorIndex();
      ids := [];
      visited := [];
    }

    method RenderHeading(n: Node)
      requires Valid() && n.kind == Heading
      modifies this, anchors
      ensures Valid() && visited == old(visited) + [n]
    {
      var anchor := anchors.Make(PlainText(n));
      ids := ids + [anchor];
      visited := visited + [n];
      AnchorsSnoc(anchors.made, |anchors.made| - 1);
      assert anchors.made[..|anchors.made|] == anchors.made;
      assert anchors.made[..|anchors.made| - 1] == old(anchors.made);
    }

    method RenderBlock(n: Node)
      requires Valid()
      modifies this, anchors
      ensures Valid() && visited == old(visited) + Rendered(n)
      decreases n, 1
    {
      match n.kind {
        case Heading => RenderHeading(n);
        case Paragraph | CodeBlock | HtmlBlock | ThematicBreak | Table | Toc =>
        case List => RenderItems(n.children);
        case _ => RenderBlocks(n.children);
      }
    }

    method RenderBlocks(ns: seq<Node>)
      requires Valid()
      modifies this, anchors
      ensures Valid() && visited == old(visited) + RenderedBlocks(ns)
      decreases ns
    {
      if ns != [] {
        RenderBlock(ns[0]);
        RenderBlocks(ns[1..]);
      }
    }

    method RenderItems(items: seq<Node>)
      requires Valid()
      modifies this, anchors
      ensures Valid() && visited == old(visited) + RenderedItems(items)
      decreases items
    {
      if items != [] {
        RenderItem(items[0].children);
        RenderItems(items[1..]);
      }
    }

    method RenderItem(ns: seq<Node>)
      requires Valid()
      modifies this, anchors
      ensures Valid() && visited == old(visited) + RenderedItem(ns)
      decreases ns
    {
      if ns != [] {
        if !IsItemText(ns[0]) {
          RenderBlock(ns[0]);
        }
        RenderItem(ns[1..]);
      }
    }
  }

  /** Rendering a document writes, in order, the anchors of the headings it reaches. */
  method RenderHtmlBody(root: Node) returns (ids: seq<string>)
    ensures ids == AnchorsOf(SlugsOf(Texts(RenderedBlocks(root.children))))
  {
    var r := new Renderer();
    r.RenderBlocks(root.children);
    assert [] + RenderedBlocks(root.children) == RenderedBlocks(root.children);
    ids := r.ids;
  }

  // ---- agreement with the collected headings ----------------------------------------------

  /** Headings stand only where block content is rendered: under the root, quotes and list items. */
  predicate HeadingsInBlocks(n: Node)
    decreases n, 1
  {
    match n.kind
    case Heading => true
    case Paragraph | CodeBlock | HtmlBlock | ThematicBreak | Table | Toc => HeadingsOfAll(n.children) == []
    case List => HeadingsInItems(n.children)
    case _ => HeadingsInAll(n.children)
  }

  predicate HeadingsInAll(ns: seq<Node>)
    decreases ns
  {
    ns != [] ==> HeadingsInBlocks(ns[0]) && HeadingsInAll(ns[1..])
  }

  predicate HeadingsInItems(items: seq<Node>)
    decreases items
  {
    items != [] ==> items[0].kind != Heading && HeadingsInItem(items[0].children) && HeadingsInItems(items[1..])
  }

  predicate HeadingsInItem(ns: seq<Node>)
    decreases ns
  {
    ns != [] ==>
      (if IsItemText(ns[0]) then Headings(ns[0]) == [] else HeadingsInBlocks(ns[0])) && HeadingsInItem(ns[1..])
  }

  /** The number of nodes of a tree. */
  function Size(n: Node): nat
    decreases n, 0
  {
    1 + Sizes(n.children)
  }

  function Sizes(ns: seq<Node>): nat
    decreases ns
  {
    if ns == [] then 0 else Size(ns[0]) + Sizes(ns[1..])
  }

  lemma {:induction false} SizesConcat(a: seq<Node>, b: seq<Node>)
    ensures Sizes(a + b) == Sizes(a) + Sizes(b)
  {
    if a == [] {
      assert a + b == b;
    } else {
      assert (a + b)[1..] == a[1..] + b;
      SizesConcat(a[1..], b);
    }
  }

  lemma {:induction false} HeadingsFit(n: Node)
    ensures Sizes(Headings(n)) <= Size(n)
    decreases n, 1
  {
    if n.kind == Heading {
      assert [n][1..] == [];
    } else {
      AllHeadingsFit(n.children);
    }
  }

  lemma {:induction false} AllHeadingsFit(ns: seq<Node>)
    ensures Sizes(HeadingsOfAll(ns)) <= Sizes(ns)
    decreases ns
  {
    if ns != [] {
      HeadingsFit(ns[0]);
      AllHeadingsFit(ns[1..]);
      SizesConcat(Headings(ns[0]), HeadingsOfAll(ns[1..]));
    }
  }

  /** The renderer reaches all collected headings, and only these, exactly when they stand where block
      content is rendered; otherwise what it reaches is less than what is collected. */
  lemma {:induction false} RenderedIsAll(n: Node)
    ensures Rendered(n) == Headings(n) <==> HeadingsInBlocks(n)
    ensures Sizes(Rendered(n)) <= Sizes(Headings(n))
    ensures Sizes(Rendered(n)) == Sizes(Headings(n)) ==> Rendered(n) == Headings(n)
    decreases n, 1
  {
    hide Sizes;
    match n.kind
    case Heading =>
    case Paragraph | CodeBlock | HtmlBlock | ThematicBreak | Table | Toc =>
      NoSize(Headings(n));
    case List =>
      RenderedItemsAreAll(n.children);
    case _ =>
      RenderedBlocksAreAll(n.children);
  }

  lemma {:induction false} NoSize(ns: seq<Node>)
    ensures Sizes([]) == 0 && (Sizes(ns) == 0 <==> ns == [])
  {
  }

  lemma {:induction false} RenderedBlocksAreAll(ns: seq<Node>)
    ensures RenderedBlocks(ns) == HeadingsOfAll(ns) <==> HeadingsInAll(ns)
    ensures Sizes(RenderedBlocks(ns)) <= Sizes(HeadingsOfAll(ns))
    ensures Sizes(RenderedBlocks(ns)) == Sizes(HeadingsOfAll(ns)) ==> RenderedBlocks(ns) == HeadingsOfAll(ns)
    decreases ns
  {
    hide Sizes, Rendered, Headings, HeadingsInBlocks;
    if ns != [] {
      RenderedIsAll(ns[0]);
      RenderedBlocksAreAll(ns[1..]);
      SizesConcat(Rendered(ns[0]), RenderedBlocks(ns[1..]));
      SizesConcat(Headings(ns[0]), HeadingsOfAll(ns[1..]));
    }
  }

  lemma {:induction false} RenderedItemsAreAll(items: seq<Node>)
    ensures RenderedItems(items) == HeadingsOfAll(items) <==> HeadingsInItems(items)
    ensures Sizes(RenderedItems(items)) <= Sizes(HeadingsOfAll(items))
    ensures Sizes(RenderedItems(items)) == Sizes(HeadingsOfAll(items)) ==> RenderedItems(items) == HeadingsOfAll(items)
    decreases items
  {
    hide Sizes, RenderedItem, HeadingsInItem;
    if items != [] {
      var item := items[0];
      RenderedItemIsAll(item.children);
      RenderedItemsAreAll(items[1..]);
      SizesConcat(RenderedItem(item.children), RenderedItems(items[1..]));
      SizesConcat(Headings(item), HeadingsOfAll(items[1..]));
      if item.kind == Heading { HeadingIsMore(item); }
    }
  }

  /** A heading weighs more than the headings below it. */
  lemma {:induction false} HeadingIsMore(h: Node)
    requires h.kind == Heading
    ensures Sizes(Headings(h)) > Sizes(HeadingsOfAll(h.children))
  {
    assert [h][1..] == [];
    AllHeadingsFit(h.children);
  }

  lemma {:induction false} RenderedItemIsAll(ns: seq<Node>)
    ensures RenderedItem(ns) == HeadingsOfAll(ns) <==> HeadingsInItem(ns)
    ensures Sizes(RenderedItem(ns)) <= Sizes(HeadingsOfAll(ns))
    ensures Sizes(RenderedItem(ns)) == Sizes(HeadingsOfAll(ns)) ==> RenderedItem(ns) == HeadingsOfAll(ns)
    decreases ns
  {
    hide Sizes, Rendered, Headings, HeadingsInBlocks;
    if ns != [] {
      var head := if IsItemText(ns[0]) then [] else Rendered(ns[0]);
      RenderedIsAll(ns[0]);
      NoSize(Headings(ns[0]));
      RenderedItemIsAll(ns[1..]);
      SizesConcat(head, RenderedItem(ns[1..]));
      SizesConcat(Headings(ns[0]), HeadingsOfAll(ns[1..]));
    }
  }

  /** What stands in a list item: text gives no ids, a heading its own, and other content those inside it. */
  lemma {:induction false} ItemsGiveIds(n: Node)
    ensures n.kind == Heading ==> RenderedItem([n]) == [n]
    ensures n.kind in {Paragraph, CodeBlock, HtmlBlock, ThematicBreak, Table, Toc} ==> RenderedItem([n]) == []
    ensures n.kind in {Link, Image, Emphasis, Strong, Del, CodeSpan, Text, SoftBreak, HardBreak, HtmlSpan} ==>
              RenderedItem([n]) == []
    ensures n.kind == List ==> RenderedItem([n]) == RenderedItems(n.children)
    ensures n.kind in {Root, BlockQuote, ListItem, TableRow, TableCell} ==>
              RenderedItem([n]) == RenderedBlocks(n.children)
  {
    assert RenderedItem([]) == [];
    assert Rendered(n) + [] == Rendered(n);
  }

  // ---- equal ids, equal slugs ---------------------------------------------------------------------

  /** A slug without its dashes. */
  function Undashed(s: string): string {
    if s == "" then "" else Undashed(s[..|s| - 1]) + if s[|s| - 1] == '-' then "" else [s[|s| - 1]]
  }

  lemma {:induction false} UndashedConcat(a: string, b: string)
    ensures Undashed(a + b) == Undashed(a) + Undashed(b)
  {
    if b == "" {
      assert a + b == a;
    } else {
      assert (a + b)[..|a + b| - 1] == a + b[..|b| - 1];
      UndashedConcat(a, b[..|b| - 1]);
    }
  }

  lemma {:induction false} UndashedTrim(s: string)
    ensures Undashed(TrimDashes(s)) == Undashed(s)
    ensures TrimDashes(s) == "" <==> Undashed(s) == ""
  {
    if s != "" && s[|s| - 1] == '-' { UndashedTrim(s[..|s| - 1]); }
  }

  lemma {:induction false} UndashedFold(t: string)
    ensures Undashed(SlugFold(t)) == Undashed(SlugFold(Spaced(t)))
  {
    hide SlugStep, Undashed;
    if t == "" {
      assert Spaced(t) == "";
    } else {
      var init, c := t[..|t| - 1], t[|t| - 1];
      var d := if c == '\n' then ' ' else c;
      UndashedFold(init);
      assert Spaced(t) == Spaced(init) + [d] && t == init + [c];
      UndashedSnoc(init, c);
      UndashedSnoc(Spaced(init), d);
    }
  }

  lemma {:induction false} UndashedSnoc(t: string, c: char)
    ensures Undashed(SlugFold(t + [c])) == Undashed(SlugFold(t)) + if IsLetter(c) then [ToLower(c)] else ""
  {
    SlugFoldSnoc(t, c);
    UndashedStep(SlugFold(t), c);
  }

  lemma {:induction false} UndashedStep(slug: string, c: char)
    ensures Undashed(SlugStep(slug, c)) == Undashed(slug) + if IsLetter(c) then [ToLower(c)] else ""
  {
    UndashedConcat(slug, "-");
    UndashedConcat(slug, [ToLower(c)]);
    assert Undashed("-") == "" by { assert "-"[..0] == ""; }
    assert c != '-' && IsSlugChar(c) ==> Undashed([ToLower(c)]) == [ToLower(c)] by { assert [ToLower(c)][..0] == ""; }
  }

  /** Normalising changes nothing in a slug but dashes. */
  lemma {:induction false} SameUndashed(t: string)
    ensures Undashed(Slugify(Normalize(t))) == Undashed(Slugify(t))
  {
    SlugOfNormalized(t);
    UndashedFold(t);
    UndashedTrim(SlugFold(t));
    UndashedTrim(SlugFold(Spaced(t)));
  }

  lemma {:induction false} UndashedDigits(d: string)
    requires Decimal.AllDigits(d)
    ensures Undashed(d) == d
  {
    if d != "" { UndashedDigits(d[..|d| - 1]); }
  }

  /** Slugs that differ in dashes only get the same anchor only if they are equal. */
  lemma {:induction false} SameAnchorSameSlug(r: string, n: string, j: nat, k: nat)
    requires Undashed(r) == Undashed(n) && Anchor(r, j) == Anchor(n, k)
    ensures r == n
  {
    if j > 0 && k > 0 {
      NumberedInjective(r, n, j + 1, k + 1);
    } else if j > 0 {
      NumberedIsLonger(r, j + 1);
    } else if k > 0 {
      NumberedIsLonger(n, k + 1);
    }
  }

  lemma {:induction false} NumberedIsLonger(s: string, k: nat)
    ensures |Undashed(s + "-" + Decimal.Print(k))| > |Undashed(s)|
  {
    var d := Decimal.Print(k);
    UndashedConcat(s + "-", d);
    UndashedConcat(s, "-");
    UndashedDigits(d);
  }

  /** The ids in the HTML, which come from the raw texts, are position by position the document's heading
      anchors, which come from the normalised texts, exactly when no newline breaks a heading's slug. */
  lemma {:induction false} IdsAreHeadingAnchors(root: Node)
    requires root.kind == Root && HeadingsInBlocks(root)
    ensures AnchorsOf(SlugsOf(Texts(RenderedBlocks(root.children)))) == HeadingAnchors(root) <==>
              forall i :: 0 <= i < |Headings(root)| ==> !HasBreakingNewline(PlainText(Headings(root)[i]))
  {
    hide HasBreakingNewline, Slugify, Normalize, Anchor, Undashed;
    RenderedIsAll(root);
    HeadingsAreHeadings(root);
    var hs := Headings(root);
    var raw, normal := SlugsOf(Texts(hs)), SlugsOf(RecordTexts(root));
    forall i | 0 <= i < |hs| ensures raw[i] == normal[i] <==> !HasBreakingNewline(PlainText(hs[i])) {
      RecordSlug(hs[i]);
      NormalizingKeepsSlug(PlainText(hs[i]));
    }
    if AnchorsOf(raw) == AnchorsOf(normal) {
      forall i | 0 <= i < |hs| ensures raw[i] == normal[i] {
        RecordSlug(hs[i]);
        SameUndashed(PlainText(hs[i]));
        assert AnchorsOf(raw)[i] == AnchorsOf(normal)[i];
        SameAnchorSameSlug(raw[i], normal[i], Count(raw[..i], raw[i]), Count(normal[..i], normal[i]));
      }
    }
    if forall i :: 0 <= i < |hs| ==> !HasBreakingNewline(PlainText(hs[i])) { assert raw == normal; }
  }

  lemma {:induction false} RecordSlug(h: Node)
    requires h.kind == Heading
    ensures Record(h).text == Normalize(PlainText(h))
  {
  }

  lemma {:induction false} HeadingsAreHeadings(n: Node)
    ensures forall h :: h in Headings(n) ==> h.kind == Heading
    decreases n, 1
  {
    if n.kind != Heading {
      AllHeadingsAreHeadings(n.children);
    }
  }

  lemma {:induction false} AllHeadingsAreHeadings(ns: seq<Node>)
    ensures forall h :: h in HeadingsOfAll(ns) ==> h.kind == Heading
    decreases ns
  {
    if ns != [] {
      HeadingsAreHeadings(ns[0]);
      AllHeadingsAreHeadings(ns[1..]);
    }
  }
}
