/** The parsed document and the headings, plain text and slugs read off it. */
module MarkdownAst {

  datatype NodeType =
    | Root | Heading | Paragraph | BlockQuote | CodeBlock | HtmlBlock | ThematicBreak
    | List | ListItem | Table | TableRow | TableCell
    | Link | Image | Emphasis | Strong | Del | CodeSpan | Text | SoftBreak | HardBreak | HtmlSpan
    | Toc

  datatype Node = Node(kind: NodeType, level: int, text: string, title: string, children: seq<Node>)

  /** A collected heading; its anchor is given separately, see module Anchors. */
  datatype HeadingText = HeadingText(level: int, text: string)

  // ---- plain text -------------------------------------------------------------------------

  /** Inline content flattened to text. */
  function PlainText(n: Node): string
    decreases n, 0
  {
    match n.kind
    case Text | CodeSpan => n.text
    case SoftBreak | HardBreak => " "
    case Image => if n.title == "" then n.text else n.title
    case _ => PlainTexts(n.children)
  }

  function PlainTexts(ns: seq<Node>): string
    decreases ns
  {
    if ns == [] then "" else PlainText(ns[0]) + PlainTexts(ns[1..])
  }

  lemma {:induction false} PlainTextsSnoc(ns: seq<Node>, i: nat)
    requires i < |ns|
    ensures PlainTexts(ns[..i + 1]) == PlainTexts(ns[..i]) + PlainText(ns[i])
    decreases i
  {
    if i > 0 {
      PlainTextsSnoc(ns[1..], i - 1);
      assert ns[..i + 1][1..] == ns[1..][..i] && ns[..i][1..] == ns[1..][..i - 1];
    } else {
      assert ns[..1] == [ns[0]] && ns[..0] == [];
    }
  }

  /** The accumulating walk of the heading collector yields the same text as `PlainText`. */
  method HeadingPlain(n: Node, out: string) returns (r: string)
    ensures r == out + PlainText(n)
    decreases n
  {
    match n.kind {
      case Text | CodeSpan => return out + n.text;
      case SoftBreak | HardBreak => return out + " ";
      case Image => return out + if n.title == "" then n.text else n.title;
      case _ =>
    }
    assert PlainText(n) == PlainTexts(n.children);
    r := out;
    for i := 0 to |n.children|
      invariant r == out + PlainTexts(n.children[..i])
    {
      ghost var done := PlainTexts(n.children[..i]);
      var c := n.children[i];
      r := HeadingPlain(c, r);
      PlainTextsSnoc(n.children, i);
      assert r == (out + done) + PlainText(c) == out + (done + PlainText(c));
    }
    assert n.children[..|n.children|] == n.children;
  }

  // ---- whitespace normalisation -----------------------------------------------------------

  predicate IsBlank(c: char) { c == ' ' || c == '\t' || c == '\n' }

  datatype Normalizer = Normalizer(clean: string, pendingSpace: bool)
  {
    function Step(c: char): Normalizer {
      if IsBlank(c) then Normalizer(clean, clean != "")
      else if pendingSpace then Normalizer(clean + " " + [c], false)
      else Normalizer(clean + [c], false)
    }
  }

  function NormalizeFold(t: string): Normalizer {
    if t == "" then Normalizer("", false) else NormalizeFold(t[..|t| - 1]).Step(t[|t| - 1])
  }

  /** Runs of blanks become one space; leading and trailing blanks go. */
  function Normalize(t: string): string { NormalizeFold(t).clean }

  method NormalizeText(text: string) returns (clean: string)
    ensures clean == Normalize(text)
  {
    clean := "";
    var pendingSpace := false;
    for i := 0 to |text|
      invariant NormalizeFold(text[..i]) == Normalizer(clean, pendingSpace)
    {
      var ch := text[i];
      assert text[..i + 1][..i] == text[..i];
      if ch == ' ' || ch == '\t' || ch == '\n' {
        pendingSpace := clean != "";
      } else {
        if pendingSpace {
          clean := clean + " ";
        }
        pendingSpace := false;
        clean := clean + [ch];
      }
    }
    assert text[..|text|] == text;
  }

  // ---- slugs ------------------------------------------------------------------------------

  predicate IsAlnum(c: char) { 'a' <= c <= 'z' || 'A' <= c <= 'Z' || '0' <= c <= '9' }

  predicate IsSlugChar(c: char) { IsAlnum(c) || c == '-' || c == '_' || c == '.' || c == '~' }

  function ToLower(c: char): char {
    if 'A' <= c <= 'Z' then (c as int + 32) as char else c
  }

  function SlugStep(slug: string, c: char): string {
    if IsSlugChar(c) then slug + [ToLower(c)]
    else if slug != "" && slug[|slug| - 1] != '-' && (c == ' ' || c == '\t' || c == '/') then slug + "-"
    else slug
  }

  function SlugFold(t: string): string {
    if t == "" then "" else SlugStep(SlugFold(t[..|t| - 1]), t[|t| - 1])
  }

  function TrimDashes(s: string): string {
    if s != "" && s[|s| - 1] == '-' then TrimDashes(s[..|s| - 1]) else s
  }

  function Slugify(t: string): string {
    var slug := TrimDashes(SlugFold(t));
    if slug == "" then "section" else slug
  }

  method SlugifyHeading(text: string) returns (slug: string)
    ensures slug == Slugify(text)
  {
    slug := "";
    for i := 0 to |text|
      invariant slug == SlugFold(text[..i])
    {
      var c := text[i];
      assert text[..i + 1][..i] == text[..i];
      if IsAlnum(c) || c == '-' || c == '_' || c == '.' || c == '~' {
        slug := slug + [ToLower(c)];
      } else if slug != "" && slug[|slug| - 1] != '-' {
        if c == ' ' || c == '\t' || c == '/' {
          slug := slug + "-";
        }
      }
    }
    assert text[..|text|] == text;
    while slug != "" && slug[|slug| - 1] == '-'
      invariant TrimDashes(slug) == TrimDashes(SlugFold(text))
      decreases |slug|
    {
      slug := slug[..|slug| - 1];
    }
    if slug == "" {
      slug := "section";
    }
  }

  lemma {:induction false} SlugFoldSnoc(t: string, c: char)
    ensures SlugFold(t + [c]) == SlugStep(SlugFold(t), c)
  {
    assert (t + [c])[..|t|] == t;
  }

  /** The text with its newlines replaced by spaces. */
  function Spaced(t: string): string {
    seq(|t|, i requires 0 <= i < |t| => if t[i] == '\n' then ' ' else t[i])
  }

  /** The slug so far, with newlines taken for spaces, is the slug of the normalised form, plus at most one
      dash. */
  lemma {:induction false} SlugFoldOfNormalized(t: string)
    ensures var n := NormalizeFold(t);
            && (n.pendingSpace ==> n.clean != "")
            && SlugFold(Spaced(t)) == if n.pendingSpace then SlugStep(SlugFold(n.clean), ' ') else SlugFold(n.clean)
  {
    if t != "" {
      var init, c := t[..|t| - 1], t[|t| - 1];
      SlugFoldOfNormalized(init);
      var n := NormalizeFold(init);
      assert Spaced(t)[..|t| - 1] == Spaced(init);
      if !IsBlank(c) {
        SlugFoldSnoc(n.clean, ' ');
        SlugFoldSnoc(n.clean, c);
        SlugFoldSnoc(n.clean + " ", c);
      }
    }
  }

  /** The slug of a normalised heading is the slug of the heading with its newlines taken for spaces. */
  lemma {:induction false} SlugOfNormalized(t: string)
    ensures Slugify(Normalize(t)) == Slugify(Spaced(t))
  {
    SlugFoldOfNormalized(t);
    var s := SlugFold(Normalize(t));
    assert SlugStep(s, ' ') == s || SlugStep(s, ' ')[..|s|] == s;
  }

  /** Normalising the blanks of a heading without newlines does not change its slug. */
  lemma {:induction false} SlugIgnoresNormalization(t: string)
    requires '\n' !in t
    ensures Slugify(Normalize(t)) == Slugify(t)
  {
    SlugOfNormalized(t);
    assert forall i :: 0 <= i < |t| ==> t[i] in t;
    assert Spaced(t) == t;
  }

  /** With a raw newline in the text the two differ: the slug drops it, normalisation keeps a space. */
  lemma {:induction false} NewlineBreaksSlug()
    ensures Slugify("a\nb") == "ab" && Slugify(Normalize("a\nb")) == "a-b"
  {
    var t := "a\nb";
    assert t[..2] == "a\n" && t[..2][..1] == "a" && t[..2][..1][..0] == "";
    assert SlugFold("a") == "a" && SlugFold("a\n") == "a" && SlugFold(t) == "ab";
    assert NormalizeFold("a") == Normalizer("a", false);
    assert NormalizeFold("a\n") == Normalizer("a", true);
    assert NormalizeFold(t) == Normalizer("a b", false);
    SlugFoldSnoc("a", ' ');
    SlugFoldSnoc("a ", 'b');
    assert "a" + " " == "a " && "a " + "b" == "a b";
    assert SlugFold("a b") == "a-b";
  }

  predicate IsSlug(s: string) {
    s != "" && s[|s| - 1] != '-' && forall i :: 0 <= i < |s| ==> IsSlugChar(s[i]) && ToLower(s[i]) == s[i]
  }

  lemma {:induction false} SlugFoldChars(t: string)
    ensures forall i :: 0 <= i < |SlugFold(t)| ==>
              IsSlugChar(SlugFold(t)[i]) && ToLower(SlugFold(t)[i]) == SlugFold(t)[i]
  {
    if t != "" {
      SlugFoldChars(t[..|t| - 1]);
    }
  }

  lemma {:induction false} TrimDashesIsPrefix(s: string)
    ensures TrimDashes(s) <= s
    ensures TrimDashes(s) != "" ==> TrimDashes(s)[|TrimDashes(s)| - 1] != '-'
  {
    if s != "" && s[|s| - 1] == '-' {
      TrimDashesIsPrefix(s[..|s| - 1]);
    }
  }

  lemma {:induction false} SlugFoldFixesSlugChars(s: string)
    requires forall i :: 0 <= i < |s| ==> IsSlugChar(s[i]) && ToLower(s[i]) == s[i]
    ensures SlugFold(s) == s
  {
    if s != "" {
      SlugFoldFixesSlugChars(s[..|s| - 1]);
    }
  }

  /** Every slug is non-empty, in lower-case URL characters, does not end in a dash, and is its own slug. */
  lemma {:induction false} SlugShape(t: string)
    ensures IsSlug(Slugify(t)) && Slugify(Slugify(t)) == Slugify(t)
  {
    SlugFoldChars(t);
    TrimDashesIsPrefix(SlugFold(t));
    SlugFoldFixesSlugChars(Slugify(t));
  }

  // ---- headings ---------------------------------------------------------------------------

  /** All headings below `n` in document order, whatever they are nested in. */
  function Headings(n: Node): seq<Node>
    decreases n, 0
  {
    if n.kind == Heading then [n] else HeadingsOfAll(n.children)
  }

  function HeadingsOfAll(ns: seq<Node>): seq<Node>
    decreases ns
  {
    if ns == [] then [] else Headings(ns[0]) + HeadingsOfAll(ns[1..])
  }

  lemma {:induction false} HeadingsSnoc(ns: seq<Node>, i: nat)
    requires i < |ns|
    ensures HeadingsOfAll(ns[..i + 1]) == HeadingsOfAll(ns[..i]) + Headings(ns[i])
    decreases i
  {
    if i > 0 {
      HeadingsSnoc(ns[1..], i - 1);
      assert ns[..i + 1][1..] == ns[1..][..i] && ns[..i][1..] == ns[1..][..i - 1];
    } else {
      assert ns[..1] == [ns[0]] && ns[..0] == [];
    }
  }

  /** The record kept of a heading: its level and its normalised plain text. */
  function Record(h: Node): HeadingText {
    HeadingText(h.level, Normalize(PlainTexts(h.children)))
  }

  function Records(hs: seq<Node>): (r: seq<HeadingText>) {
    seq(|hs|, i requires 0 <= i < |hs| => Record(hs[i]))
  }

  method CollectHeadings(n: Node, out: seq<HeadingText>) returns (r: seq<HeadingText>)
    ensures r == out + Records(Headings(n))
    decreases n
  {
    if n.kind == Heading {
      var text := "";
      for i := 0 to |n.children|
        invariant text == PlainTexts(n.children[..i])
      {
        text := HeadingPlain(n.children[i], text);
        PlainTextsSnoc(n.children, i);
      }
      assert n.children[..|n.children|] == n.children;
      var clean := NormalizeText(text);
      return out + [HeadingText(n.level, clean)];
    }
    r := out;
    for i := 0 to |n.children|
      invariant r == out + Records(HeadingsOfAll(n.children[..i]))
    {
      r := CollectHeadings(n.children[i], r);
      HeadingsSnoc(n.children, i);
      assert Records(HeadingsOfAll(n.children[..i + 1]))
          == Records(HeadingsOfAll(n.children[..i])) + Records(Headings(n.children[i]));
    }
    assert n.children[..|n.children|] == n.children;
  }
}
