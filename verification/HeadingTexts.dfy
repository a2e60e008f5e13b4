/** What the text of a heading looks like after it is collected and what its slug spells, character by
    character. */
module HeadingTexts {
  import opened MarkdownAst
  import opened SlugNewlines
  import opened Anchors
  import opened Layout

  // ---- normalised texts ---------------------------------------------------------------------------

  /** The positions of the characters that are not blank. */
  function InkAt(t: string): (at: seq<nat>)
    ensures forall k :: 0 <= k < |at| ==> at[k] < |t|
  {
    if t == "" then []
    else
      var n := |t| - 1;
      InkAt(t[..n]) + if IsBlank(t[n]) then [] else [n]
  }

  lemma {:induction false} InkIsListed(t: string, i: nat)
    requires i < |t| && !IsBlank(t[i])
    ensures i in InkAt(t)
  {
    var n := |t| - 1;
    if i < n {
      InkIsListed(t[..n], i);
    } else {
      assert InkAt(t)[|InkAt(t[..n])|] == n;
    }
  }

  lemma {:induction false} InkIsInk(t: string, k: nat)
    requires k < |InkAt(t)|
    ensures !IsBlank(t[InkAt(t)[k]]) && (k > 0 ==> InkAt(t)[k - 1] < InkAt(t)[k])
  {
    var init := t[..|t| - 1];
    if k < |InkAt(init)| { InkIsInk(init, k); }
  }

  /** A position after the first ink is not before it. */
  lemma {:induction false} InkStartsAt(t: string, k: nat)
    requires k < |InkAt(t)|
    ensures InkAt(t)[0] <= InkAt(t)[k]
  {
    if k > 0 {
      InkIsInk(t, k);
      InkStartsAt(t, k - 1);
    }
  }

  lemma {:induction false} InkSnoc(t: string, c: char)
    ensures InkAt(t + [c]) == InkAt(t) + if IsBlank(c) then [] else [|t|]
  {
    assert (t + [c])[..|t|] == t;
  }

  /** How far apart two neighbouring characters that are not blank stand. */
  function Gap(at: seq<nat>, k: nat): int
    requires 0 < k < |at|
  {
    (at[k] as int) - (at[k - 1] as int)
  }

  /** The characters of both texts that are not blank are the same, in order. */
  ghost predicate SameInk(t: string, n: string) {
    var p, q := InkAt(t), InkAt(n);
    |p| == |q| && forall k :: 0 <= k < |p| ==> n[q[k]] == t[p[k]]
  }

  /** Where the first list has a gap, the second has a gap of one position, and elsewhere it has none. */
  ghost predicate GapsNarrowed(p: seq<nat>, q: seq<nat>) {
    |p| == |q| && forall k :: 0 < k < |p| ==> Gap(q, k) == if Gap(p, k) > 1 then 2 else 1
  }

  ghost predicate OnlySpaces(n: string) { forall i :: 0 <= i < |n| ==> IsBlank(n[i]) ==> n[i] == ' ' }

  /** No blanks at the ends. */
  ghost predicate Tight(n: string) { n != "" ==> !IsBlank(n[0]) && !IsBlank(n[|n| - 1]) }

  /** `n` has the characters of `t` that are not blank; between two of them it has one space if `t` has any
      blanks there, and nothing else; it has no blanks at the ends. */
  ghost predicate IsNormalized(t: string, n: string) {
    SameInk(t, n) && GapsNarrowed(InkAt(t), InkAt(n)) && OnlySpaces(n) && Tight(n)
  }

  /** The state of the normalising loop: a space is pending when blanks follow the last other character. */
  ghost predicate Pending(t: string, s: Normalizer) {
    s.pendingSpace <==> InkAt(t) != [] && InkAt(t)[|InkAt(t)| - 1] < |t| - 1
  }

  lemma {:induction false} InkAtEnds(n: string)
    requires Tight(n) && n != ""
    ensures InkAt(n) != [] && InkAt(n)[0] == 0 && InkAt(n)[|InkAt(n)| - 1] == |n| - 1
  {
    InkIsListed(n, 0);
    var k :| 0 <= k < |InkAt(n)| && InkAt(n)[k] == 0;
    InkStartsAt(n, k);
  }

  lemma {:induction false} MoreInk(t: string, u: string, n: string, m: string, c: char)
    requires SameInk(t, n) && t <= u && n <= m && u != "" && m != "" && u[|u| - 1] == m[|m| - 1] == c
    requires InkAt(u) == InkAt(t) + [|u| - 1] && InkAt(m) == InkAt(n) + [|m| - 1]
    ensures SameInk(u, m)
  {
    var p, q := InkAt(t), InkAt(n);
    forall k | 0 <= k < |p| + 1 ensures m[InkAt(m)[k]] == u[InkAt(u)[k]] {
      if k < |p| { assert m[q[k]] == n[q[k]] && u[p[k]] == t[p[k]]; }
    }
  }

  lemma {:induction false} MoreGaps(p: seq<nat>, q: seq<nat>, a: nat, b: nat)
    requires GapsNarrowed(p, q)
    requires p != [] ==> b == q[|q| - 1] + if a > p[|p| - 1] + 1 then 2 else 1
    ensures GapsNarrowed(p + [a], q + [b])
  {
    var p', q' := p + [a], q + [b];
    forall k | 0 < k < |p'| ensures Gap(q', k) == if Gap(p', k) > 1 then 2 else 1 {
      if k < |p| { assert Gap(q, k) == Gap(q', k) && Gap(p, k) == Gap(p', k); }
    }
  }

  lemma {:induction false} InkStep(t: string, s: Normalizer, c: char)
    requires IsNormalized(t, s.clean) && Pending(t, s) && !IsBlank(c)
    ensures IsNormalized(t + [c], s.Step(c).clean) && Pending(t + [c], s.Step(c))
  {
    hide SameInk, GapsNarrowed, InkAt, IsBlank;
    var n, u := s.Step(c).clean, t + [c];
    InkSnoc(t, c);
    assert InkAt(n) == InkAt(s.clean) + [|n| - 1] by { InkOfStep(s, c); }
    MoreInk(t, u, s.clean, n, c);
    if s.clean != "" { InkAtEnds(s.clean); }
    assert |InkAt(t)| == |InkAt(s.clean)| by { SameInkSameNumber(t, s.clean); }
    assert InkAt(t) != [] ==> s.clean != "" by { InkOfNothing(); }
    MoreGaps(InkAt(t), InkAt(s.clean), |t|, |n| - 1);
    assert Tight(n) && OnlySpaces(n) by { StepTight(s, c); }
  }

  lemma {:induction false} StepTight(s: Normalizer, c: char)
    requires Tight(s.clean) && OnlySpaces(s.clean) && !IsBlank(c) && (s.pendingSpace ==> s.clean != "")
    ensures Tight(s.Step(c).clean) && OnlySpaces(s.Step(c).clean)
  {
  }

  lemma {:induction false} InkOfNothing()
    ensures InkAt("") == []
  {
  }

  lemma {:induction false} InkOfStep(s: Normalizer, c: char)
    requires !IsBlank(c)
    ensures InkAt(s.Step(c).clean) == InkAt(s.clean) + [|s.Step(c).clean| - 1]
  {
    InkSnoc(s.clean, ' ');
    InkSnoc(s.clean + " ", c);
    InkSnoc(s.clean, c);
  }

  lemma {:induction false} SameInkSameNumber(t: string, n: string)
    requires SameInk(t, n)
    ensures |InkAt(t)| == |InkAt(n)|
  {
  }

  lemma {:induction false} BlankStep(t: string, s: Normalizer, c: char)
    requires IsNormalized(t, s.clean) && Pending(t, s) && IsBlank(c)
    ensures IsNormalized(t + [c], s.Step(c).clean) && Pending(t + [c], s.Step(c))
  {
    hide GapsNarrowed, Tight, OnlySpaces, InkAt;
    var p, q := InkAt(t), InkAt(s.clean);
    InkSnoc(t, c);
    assert InkAt(t + [c]) == p;
    assert SameInk(t + [c], s.clean) by {
      forall k | 0 <= k < |p| ensures s.clean[q[k]] == (t + [c])[p[k]] { assert (t + [c])[p[k]] == t[p[k]]; }
    }
    InkOfNothing();
    if s.clean != "" { InkAtEnds(s.clean); }
  }

  lemma {:induction false} FoldNormalizes(t: string)
    ensures IsNormalized(t, NormalizeFold(t).clean) && Pending(t, NormalizeFold(t))
  {
    hide IsNormalized, Pending;
    if t == "" {
      NothingNormalizes();
    } else {
      var n := |t| - 1;
      FoldNormalizes(t[..n]);
      var s := NormalizeFold(t[..n]);
      if IsBlank(t[n]) { BlankStep(t[..n], s, t[n]); } else { InkStep(t[..n], s, t[n]); }
      assert t[..n] + [t[n]] == t;
    }
  }

  lemma {:induction false} NothingNormalizes()
    ensures IsNormalized("", "") && Pending("", Normalizer("", false))
  {
  }

  /** Normalising keeps every character that is not blank, in order, and turns blanks between two of them into
      one space. */
  lemma {:induction false} NormalizeIs(t: string)
    ensures IsNormalized(t, Normalize(t))
  {
    FoldNormalizes(t);
  }

  /** Tabs and newlines are gone. */
  lemma {:induction false} NormalizedIsOneLine(t: string)
    ensures forall i :: 0 <= i < |Normalize(t)| ==> Normalize(t)[i] != '\t' && Normalize(t)[i] != '\n'
  {
    hide Normalize;
    NormalizeIs(t);
  }

  /** There is only one such text. */
  lemma {:induction false} NormalizedIsUnique(t: string, m: string, n: string)
    requires IsNormalized(t, m) && IsNormalized(t, n)
    ensures m == n
  {
    var p, q := InkAt(m), InkAt(n);
    forall k | 0 <= k < |p| ensures p[k] == q[k] { SamePositions(t, m, n, k); }
    assert p == q;
    if m != "" { InkAtEnds(m); }
    if n != "" { InkAtEnds(n); }
    InkOfNothing();
    forall i | 0 <= i < |m| ensures m[i] == n[i] {
      if i in p {
        var k :| 0 <= k < |p| && p[k] == i;
        assert m[p[k]] == n[q[k]];
      } else {
        if !IsBlank(m[i]) { InkIsListed(m, i); }
        if !IsBlank(n[i]) { InkIsListed(n, i); }
      }
    }
  }

  lemma {:induction false} SamePositions(t: string, m: string, n: string, k: nat)
    requires IsNormalized(t, m) && IsNormalized(t, n) && k < |InkAt(m)|
    ensures InkAt(m)[k] == InkAt(n)[k]
  {
    if k > 0 {
      SamePositions(t, m, n, k - 1);
      assert Gap(InkAt(m), k) == Gap(InkAt(n), k);
    } else {
      InkOfNothing();
      InkAtEnds(m);
      InkAtEnds(n);
    }
  }

  // ---- what a slug spells -------------------------------------------------------------------------

  predicate NoLetters(t: string) { forall i :: 0 <= i < |t| ==> !IsLetter(t[i]) }

  function Dashes(n: nat): string { seq(n, _ => '-') }

  /** The dashes that a stretch without letters gives: its own, and one more for a separator that stands before
      all of them. At the front of a slug separators give none. */
  function DashesFor(gap: string, front: bool): nat {
    if gap == "" then 0
    else
      var n, c := DashesFor(gap[..|gap| - 1], front), gap[|gap| - 1];
      if c == '-' then n + 1 else if IsSeparator(c) && n == 0 && !front then 1 else n
  }

  lemma {:induction false} DashStep(a: string, d: nat, c: char)
    requires !IsLetter(c) && (a == "" || a[|a| - 1] != '-')
    ensures SlugStep(a + Dashes(d), c)
         == a + Dashes(if c == '-' then d + 1 else if IsSeparator(c) && d == 0 && a != "" then 1 else d)
  {
    var s := a + Dashes(d);
    assert a + Dashes(0) == a && Dashes(1) == "-";
    if d > 0 { assert s[|s| - 1] == '-'; }
    assert s + "-" == a + Dashes(d + 1) by { assert Dashes(d + 1) == Dashes(d) + "-"; }
  }

  lemma {:induction false} GapGivesDashes(t: string, gap: string)
    requires NoLetters(gap)
    requires SlugFold(t) == "" || SlugFold(t)[|SlugFold(t)| - 1] != '-'
    ensures SlugFold(t + gap) == SlugFold(t) + Dashes(DashesFor(gap, SlugFold(t) == ""))
  {
    hide SlugFold, SlugStep, Dashes, IsLetter, IsSeparator;
    if gap == "" {
      assert t + gap == t && SlugFold(t) + Dashes(0) == SlugFold(t) by { NoDashes(SlugFold(t)); }
    } else {
      var n := |gap| - 1;
      GapGivesDashes(t, gap[..n]);
      assert t + gap == (t + gap[..n]) + [gap[n]];
      SlugFoldSnoc(t + gap[..n], gap[n]);
      DashStep(SlugFold(t), DashesFor(gap[..n], SlugFold(t) == ""), gap[n]);
    }
  }

  lemma {:induction false} NoDashes(a: string)
    ensures a + Dashes(0) == a
  {
  }

  /** A letter is spelled in lower case. */
  lemma {:induction false} LetterIsSpelled(t: string, c: char)
    requires IsLetter(c)
    ensures SlugFold(t + [c]) == SlugFold(t) + [ToLower(c)] && ToLower(c) != '-'
  {
    SlugFoldSnoc(t, c);
  }

  /** A text cut into letters, each with the stretch before it, and a last stretch. */
  datatype Spelling = Spelling(gaps: seq<string>, letters: string, last: string)
  {
    ghost predicate Valid() {
      |gaps| == |letters| && NoLetters(last)
      && forall k :: 0 <= k < |letters| ==> IsLetter(letters[k]) && NoLetters(gaps[k])
    }
  }

  function TextOf(s: Spelling, k: nat): string
    requires k <= |s.gaps| == |s.letters|
  {
    if k == 0 then "" else TextOf(s, k - 1) + s.gaps[k - 1] + [s.letters[k - 1]]
  }

  /** The slug without trailing dashes: each letter in lower case behind the dashes of its stretch. */
  function SpelledSlug(s: Spelling, k: nat): string
    requires k <= |s.gaps| == |s.letters|
  {
    if k == 0 then ""
    else SpelledSlug(s, k - 1) + Dashes(DashesFor(s.gaps[k - 1], k == 1)) + [ToLower(s.letters[k - 1])]
  }

  lemma {:induction false} SlugOfNothing()
    ensures SlugFold("") == ""
  {
  }

  lemma {:induction false} SlugSpells(s: Spelling, k: nat)
    requires s.Valid() && k <= |s.letters|
    ensures SlugFold(TextOf(s, k)) == SpelledSlug(s, k)
    ensures k > 0 ==> SpelledSlug(s, k) != "" && SpelledSlug(s, k)[|SpelledSlug(s, k)| - 1] != '-'
  {
    hide SlugFold, DashesFor, Dashes;
    assert SlugFold("") == "" by { SlugOfNothing(); }
    if k > 0 {
      SlugSpells(s, k - 1);
      var t := TextOf(s, k - 1);
      GapGivesDashes(t, s.gaps[k - 1]);
      LetterIsSpelled(t + s.gaps[k - 1], s.letters[k - 1]);
    }
  }

  /** Every text can be cut in this way. */
  lemma {:induction false} EveryTextSpells(t: string) returns (s: Spelling)
    ensures s.Valid() && t == TextOf(s, |s.letters|) + s.last
  {
    if t == "" {
      s := Spelling([], "", "");
    } else {
      var n := |t| - 1;
      var r := EveryTextSpells(t[..n]);
      if IsLetter(t[n]) {
        s := Spelling(r.gaps + [r.last], r.letters + [t[n]], "");
        SameTextOf(r, s, |r.letters|);
      } else {
        s := r.(last := r.last + [t[n]]);
        SameTextOf(r, s, |r.letters|);
      }
    }
  }

  lemma {:induction false} SameTextOf(r: Spelling, s: Spelling, k: nat)
    requires k <= |r.gaps| == |r.letters| && k <= |s.gaps| == |s.letters|
    requires forall i :: 0 <= i < k ==> r.gaps[i] == s.gaps[i] && r.letters[i] == s.letters[i]
    ensures TextOf(r, k) == TextOf(s, k)
  {
    if k > 0 { SameTextOf(r, s, k - 1); }
  }

  lemma {:induction false} TrimAllDashes(a: string, n: nat)
    requires a == "" || a[|a| - 1] != '-'
    ensures TrimDashes(a + Dashes(n)) == a
  {
    if n == 0 {
      assert a + Dashes(0) == a;
    } else {
      TrimAllDashes(a, n - 1);
      assert (a + Dashes(n))[..|a| + n - 1] == a + Dashes(n - 1);
    }
  }

  /** The slug of any text: its letters, digits and the marks `_`, `.` and `~` in lower case, with dashes in
      between as above and none at the end; "section" if there are none of these. */
  lemma {:induction false} SlugIsSpelled(s: Spelling)
    requires s.Valid()
    ensures Slugify(TextOf(s, |s.letters|) + s.last)
         == if s.letters == "" then "section" else SpelledSlug(s, |s.letters|)
  {
    var n := |s.letters|;
    var t := TextOf(s, n);
    SlugSpells(s, n);
    GapGivesDashes(t, s.last);
    TrimAllDashes(SlugFold(t), DashesFor(s.last, SlugFold(t) == ""));
  }

  /** Letters of a slug are letters, digits and three marks. */
  lemma {:induction false} SlugLetters(c: char)
    ensures IsLetter(c) <==> 'a' <= c <= 'z' || 'A' <= c <= 'Z' || '0' <= c <= '9' || c in "_.~"
    ensures 'A' <= c <= 'Z' ==> 'a' <= ToLower(c) <= 'z' && ToLower(c) - 'a' == c - 'A'
    ensures !('A' <= c <= 'Z') ==> ToLower(c) == c
  {
  }

  /** No slug has upper-case letters or anything else that does not belong in a link. */
  lemma {:induction false} SlugCharacters(t: string, i: nat)
    requires i < |Slugify(t)|
    ensures var c := Slugify(t)[i]; 'a' <= c <= 'z' || '0' <= c <= '9' || c in "-_.~"
  {
    hide Slugify;
    SlugShape(t);
    SlugLetters(Slugify(t)[i]);
  }

  // ---- plain texts and collected headings ---------------------------------------------------------

  predicate IsPiece(kind: NodeType) {
    kind == Text || kind == CodeSpan || kind == SoftBreak || kind == HardBreak || kind == NodeType.Image
  }

  /** The topmost pieces of text, in document order. */
  function Pieces(n: Node): seq<Node>
    decreases n, 0
  {
    if IsPiece(n.kind) then [n] else PiecesIn(n.children)
  }

  function PiecesIn(ns: seq<Node>): seq<Node>
    decreases ns
  {
    if ns == [] then [] else Pieces(ns[0]) + PiecesIn(ns[1..])
  }

  /** A text or code span gives its text, a line break a space, an image its title or else its alternative text. */
  function PieceText(n: Node): string {
    if n.kind == Text || n.kind == CodeSpan then n.text
    else if n.kind == NodeType.Image then (if n.title != "" then n.title else n.text)
    else " "
  }

  function Joined(ns: seq<Node>): string { if ns == [] then "" else PieceText(ns[0]) + Joined(ns[1..]) }

  lemma {:induction false} JoinedConcat(a: seq<Node>, b: seq<Node>)
    ensures Joined(a + b) == Joined(a) + Joined(b)
  {
    if a == [] {
      assert a + b == b;
    } else {
      assert (a + b)[1..] == a[1..] + b;
      JoinedConcat(a[1..], b);
    }
  }

  lemma {:induction false} PlainTextIsJoined(n: Node)
    ensures PlainText(n) == Joined(Pieces(n))
    decreases n, 0
  {
    if IsPiece(n.kind) {
      assert [n][1..] == [] && Joined([n]) == PieceText(n) + "";
    } else {
      PlainTextsAreJoined(n.children);
    }
  }

  /** Plain text is the text of all pieces, in document order. */
  lemma {:induction false} PlainTextsAreJoined(ns: seq<Node>)
    ensures PlainTexts(ns) == Joined(PiecesIn(ns))
    decreases ns
  {
    hide PlainText, Pieces;
    if ns != [] {
      PlainTextIsJoined(ns[0]);
      PlainTextsAreJoined(ns[1..]);
      JoinedConcat(Pieces(ns[0]), PiecesIn(ns[1..]));
    }
  }

  /** What the table of contents and the layout know of the `k`-th heading of a document: its level, its pieces
      of text normalised, and the anchor made of that text. */
  lemma {:induction false} CollectedHeading(root: Node, k: nat)
    requires k < |Headings(root)|
    ensures var h, node := DocumentHeadings(root)[k], Headings(root)[k];
            && h.level == node.level && IsNormalized(Joined(PiecesIn(node.children)), h.text)
            && h.anchor == AnchorsOf(SlugsOf(RecordTexts(root)))[k] && RecordTexts(root)[k] == h.text
  {
    hide Normalize, IsNormalized, AnchorsOf;
    var node := Headings(root)[k];
    PlainTextsAreJoined(node.children);
    NormalizeIs(PlainTexts(node.children));
  }
}
