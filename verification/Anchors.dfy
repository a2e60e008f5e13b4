/** Anchor deduplication: "Intro", "Intro" get the anchors "intro" and "intro-2". */
module Anchors {
  import Decimal
  import opened MarkdownAst

  // ---- specification ----------------------------------------------------------------------

  /** How many of `slugs` equal `s`. */
  function Count(slugs: seq<string>, s: string): nat {
    if slugs == [] then 0 else Count(slugs[..|slugs| - 1], s) + if slugs[|slugs| - 1] == s then 1 else 0
  }

  /** The anchor of a slug that has already been used `used` times. */
  function Anchor(slug: string, used: nat): string {
    if used == 0 then slug else slug + "-" + Decimal.Print(used + 1)
  }

  /** The anchors of headings with these slugs, in order. */
  function AnchorsOf(slugs: seq<string>): (anchors: seq<string>)
    ensures |anchors| == |slugs|
  {
    seq(|slugs|, i requires 0 <= i < |slugs| => Anchor(slugs[i], Count(slugs[..i], slugs[i])))
  }

  function SlugsOf(texts: seq<string>): (slugs: seq<string>) {
    seq(|texts|, i requires 0 <= i < |texts| => Slugify(texts[i]))
  }

  /** The normalised texts of the collected headings. */
  function RecordTexts(root: Node): seq<string> {
    var rs := Records(Headings(root));
    seq(|rs|, i requires 0 <= i < |rs| => rs[i].text)
  }

  /** The anchors of the document's headings, as the table of contents and the PDF use them. */
  function HeadingAnchors(root: Node): (anchors: seq<string>)
    ensures |anchors| == |Headings(root)|
  {
    AnchorsOf(SlugsOf(RecordTexts(root)))
  }

  // ---- the two deduplicators --------------------------------------------------------------

  /** The deduplicator of the HTML renderer. */
  class AnchorIndex {
    var counts: map<string, nat>
    ghost var made: seq<string>   // the slugs of all anchors made so far

    ghost predicate Valid() reads this {
      forall s :: Count(made, s) == if s in counts then counts[s] else 0
    }

    constructor ()
      ensures Valid() && made == []
    {
      counts := map[];
      made := [];
    }

    method Make(section: string) returns (anchor: string)
      requires Valid()
      modifies this
      ensures Valid()
      ensures made == old(made) + [Slugify(section)]
      ensures anchor == AnchorsOf(made)[|made| - 1]
    {
      var base := SlugifyHeading(section);
      if base !in counts {
        counts := counts[base := 0];
      }
      var used := counts[base];
      anchor := base;
      if used > 0 {
        anchor := base + "-" + Decimal.Print(used + 1);
      }
      counts := counts[base := used + 1];
      made := made + [base];
      assert made[..|made| - 1] == old(made);
    }
  }

  /** The deduplicating loop over the collected headings. */
  method AssignAnchors(texts: seq<string>) returns (anchors: seq<string>)
    ensures anchors == AnchorsOf(SlugsOf(texts))
  {
    hide AnchorsOf, Slugify, SlugFold, Decimal.Print;
    AnchorsOfNone();
    anchors := [];
    var counts: map<string, nat> := map[];
    ghost var slugs := SlugsOf(texts);
    for i := 0 to |texts|
      invariant anchors == AnchorsOf(slugs[..i])
      invariant forall s :: Count(slugs[..i], s) == if s in counts then counts[s] else 0
    {
      var base := SlugifyHeading(texts[i]);
      if base !in counts {
        counts := counts[base := 0];
      }
      var used := counts[base];
      var anchor := base;
      if used > 0 {
        anchor := base + "-" + Decimal.Print(used + 1);
      }
      counts := counts[base := used + 1];
      AnchorsSnoc(slugs, i);
      anchors := anchors + [anchor];
    }
    assert slugs[..|texts|] == slugs;
  }

  lemma {:induction false} AnchorsOfNone()
    ensures AnchorsOf([]) == []
  {
  }

  lemma {:induction false} AnchorsSnoc(slugs: seq<string>, i: nat)
    requires i < |slugs|
    ensures slugs[..i + 1] == slugs[..i] + [slugs[i]]
    ensures slugs[..i + 1][..i] == slugs[..i]
    ensures AnchorsOf(slugs[..i + 1]) == AnchorsOf(slugs[..i]) + [Anchor(slugs[i], Count(slugs[..i], slugs[i]))]
  {
    forall j | 0 <= j < i ensures slugs[..i + 1][..j] == slugs[..i][..j] {}
  }

  // ---- when anchors are unique ------------------------------------------------------------

  ghost predicate Distinct(xs: seq<string>) {
    forall i, j :: 0 <= i < j < |xs| ==> xs[i] != xs[j]
  }

  /** Some heading's own slug is what another, repeated, slug becomes when it is numbered. */
  ghost predicate Clash(slugs: seq<string>) {
    exists i, j, k: nat :: 0 <= i < |slugs| && 0 <= j < |slugs| && 1 <= k < Count(slugs, slugs[i])
      && slugs[j] == Anchor(slugs[i], k)
  }

  /** A numbered anchor determines slug and number: the part after the last dash is the number. */
  lemma {:induction false} NumberedInjective(s: string, t: string, a: nat, b: nat)
    requires s + "-" + Decimal.Print(a) == t + "-" + Decimal.Print(b)
    ensures s == t && a == b
  {
    hide Decimal.Print;
    Decimal.LastMark(s, t, '-', Decimal.Print(a), Decimal.Print(b));
    Decimal.PrintInjective(a, b);
  }

  lemma {:induction false} CountMonotone(slugs: seq<string>, s: string, i: nat, j: nat)
    requires i <= j <= |slugs|
    ensures Count(slugs[..i], s) <= Count(slugs[..j], s)
    ensures i < j && slugs[i] == s ==> Count(slugs[..i], s) < Count(slugs[..j], s)
    decreases j
  {
    if i < j {
      assert slugs[..j][..j - 1] == slugs[..j - 1];
      CountMonotone(slugs, s, i, j - 1);
    }
  }

  /** The heading that gets number `k` of its slug. */
  lemma {:induction false} KthUse(slugs: seq<string>, s: string, k: nat) returns (i: nat)
    requires k < Count(slugs, s)
    ensures i < |slugs| && slugs[i] == s && Count(slugs[..i], s) == k
  {
    var n := |slugs| - 1;
    if slugs[n] == s && Count(slugs[..n], s) == k {
      i := n;
    } else {
      i := KthUse(slugs[..n], s, k);
      assert slugs[..n][..i] == slugs[..i];
    }
  }

  /** Headings with the same slug always get different anchors. */
  lemma {:induction false} SameSlugDifferentAnchor(slugs: seq<string>, i: nat, j: nat)
    requires i < j < |slugs| && slugs[i] == slugs[j]
    ensures AnchorsOf(slugs)[i] != AnchorsOf(slugs)[j]
  {
    var s := slugs[i];
    CountMonotone(slugs, s, i, j);
    var a, b := Count(slugs[..i], s), Count(slugs[..j], s);
    if a > 0 && Anchor(s, a) == Anchor(s, b) {
      NumberedInjective(s, s, a + 1, b + 1);
    }
  }

  lemma {:induction false} ClashRepeatsAnchor(slugs: seq<string>)
    requires Clash(slugs)
    ensures !Distinct(AnchorsOf(slugs))
  {
    var anchors := AnchorsOf(slugs);
    var i, j, k: nat :| 0 <= i < |slugs| && 0 <= j < |slugs| && 1 <= k < Count(slugs, slugs[i])
      && slugs[j] == Anchor(slugs[i], k);
    var m := KthUse(slugs, slugs[i], k);
    FirstUse(slugs, j);
    var f := KthUse(slugs, slugs[j], 0);
    assert |slugs[m]| < |slugs[f]|;
    assert anchors[m] == anchors[f];
  }

  /** Two headings with different slugs share an anchor only if one of the two makes a clash. */
  lemma {:induction false} RepeatedAnchorClashes(slugs: seq<string>, i: nat, j: nat)
    requires i < |slugs| && j < |slugs| && slugs[i] != slugs[j]
    requires AnchorsOf(slugs)[i] == AnchorsOf(slugs)[j]
    ensures Clash(slugs)
  {
    var a, b := Count(slugs[..i], slugs[i]), Count(slugs[..j], slugs[j]);
    CountMonotone(slugs, slugs[i], i, |slugs|);
    CountMonotone(slugs, slugs[j], j, |slugs|);
    assert slugs[..|slugs|] == slugs;
    if a > 0 && b > 0 {
      NumberedInjective(slugs[i], slugs[j], a + 1, b + 1);
    }
  }

  /** Anchors are unique if and only if no slug equals a numbered form of a repeated slug. */
  lemma {:induction false} AnchorsUnique(slugs: seq<string>)
    ensures Distinct(AnchorsOf(slugs)) <==> !Clash(slugs)
  {
    if Clash(slugs) {
      ClashRepeatsAnchor(slugs);
    } else {
      forall i, j | 0 <= i < j < |slugs| ensures AnchorsOf(slugs)[i] != AnchorsOf(slugs)[j] {
        if slugs[i] == slugs[j] {
          SameSlugDifferentAnchor(slugs, i, j);
        } else if AnchorsOf(slugs)[i] == AnchorsOf(slugs)[j] {
          RepeatedAnchorClashes(slugs, i, j);
        }
      }
    }
  }

  lemma {:induction false} FirstUse(slugs: seq<string>, j: nat)
    requires j < |slugs|
    ensures Count(slugs, slugs[j]) > 0
  {
    CountMonotone(slugs, slugs[j], j, |slugs|);
    assert slugs[..|slugs|] == slugs;
  }

  /** The three headings "Intro", "Intro", "Intro 2" do clash: two get the anchor "intro-2". */
  lemma {:induction false} IntroTwiceClashes()
    ensures AnchorsOf(["intro", "intro", "intro-2"]) == ["intro", "intro-2", "intro-2"]
  {
    var slugs := ["intro", "intro", "intro-2"];
    assert slugs[..0] == [] && slugs[..1] == ["intro"] && slugs[..2] == ["intro", "intro"];
    assert slugs[..1][..0] == [] && slugs[..2][..1] == ["intro"];
    assert Decimal.Print(2) == "2";
    assert "intro" + "-" + "2" == "intro-2";
    assert "intro"[0] != "intro-2"[5];
    assert |"intro"| != |"intro-2"|;
    assert Count(["intro"], "intro") == 1;
    assert Count(["intro", "intro"], "intro-2") == 0;
  }
}
