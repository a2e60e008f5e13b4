/** PDF bookmarks and native section numbers, and when they agree with the HTML contents tree. */
module Numbering {
  import opened Outline

  /** Markdown heading levels. */
  ghost predicate MarkdownLevels(levels: seq<int>) {
    forall i :: 0 <= i < |levels| ==> 1 <= levels[i] <= 6
  }

  /** No heading is more than one level deeper than the heading before it. */
  ghost predicate NoSkip(levels: seq<int>) {
    forall i :: 0 < i < |levels| ==> levels[i] <= levels[i - 1] + 1
  }

  // ---- PDF bookmarks ----------------------------------------------------------------------

  function Clamp(level: int): (l: nat)
    ensures 1 <= l <= 6
    ensures 1 <= level <= 6 ==> l == level
  {
    if level < 1 then 1 else if level > 6 then 6 else level
  }

  /** Levels out of range count as the nearest in range. */
  lemma {:induction false} ClampIsNearest(level: int, k: int)
    requires 1 <= k <= 6
    ensures if level <= k then level <= Clamp(level) <= k else k <= Clamp(level) <= level
  {
  }

  /** The last heading before `i` of exactly level `l`, or -1 for the outline root. */
  function LastAtLevel(levels: seq<int>, i: nat, l: int): (p: int)
    requires i <= |levels|
    ensures -1 <= p < i
  {
    if i == 0 then -1 else if Clamp(levels[i - 1]) == l then i - 1 else LastAtLevel(levels, i - 1, l)
  }

  /** The bookmark under which heading `i` is filed, or -1 for the root. */
  function PdfParent(levels: seq<int>, i: nat): (p: int)
    requires i < |levels|
  {
    LastAtLevel(levels, i, Clamp(levels[i]) - 1)
  }

  /** The export loop with its table of the last bookmark per level; bookmark ids are heading indices. */
  method PdfOutline(levels: seq<int>) returns (parents: seq<int>)
    ensures |parents| == |levels|
    ensures forall i :: 0 <= i < |levels| ==> parents[i] == PdfParent(levels, i)
  {
    var last := new int[7](_ => -1);
    parents := [];
    for i := 0 to |levels|
      invariant |parents| == i
      invariant forall k :: 0 <= k < i ==> parents[k] == PdfParent(levels, k)
      invariant forall l :: 0 <= l < 7 ==> last[l] == LastAtLevel(levels, i, l)
    {
      var level := Clamp(levels[i]);
      parents := parents + [last[level - 1]];
      last[level] := i;
    }
  }

  lemma {:induction false} LastAtLevelIs(levels: seq<int>, i: nat, l: int, p: int)
    requires MarkdownLevels(levels) && -1 <= p < i <= |levels|
    ensures LastAtLevel(levels, i, l) == p <==>
              (p >= 0 ==> levels[p] == l) && forall k :: p < k < i ==> levels[k] != l
  {
    if p < i - 1 {
      LastAtLevelIs(levels, i - 1, l, p);
    }
  }

  /** One heading: the bookmark parent is the HTML parent if and only if the HTML parent is the root
      or exactly one level above. */
  lemma {:induction false} PdfParentAgrees(levels: seq<int>, i: nat)
    requires MarkdownLevels(levels) && i < |levels|
    ensures var p := Parent(levels, i);
            PdfParent(levels, i) == p <==> p == -1 || levels[p] == levels[i] - 1
  {
    var p := Parent(levels, i);
    NearestBelowIs(levels, i, levels[i], p);
    LastAtLevelIs(levels, i, levels[i] - 1, p);
  }

  /** A deeper heading is a child of the heading right before it. */
  lemma {:induction false} DeeperIsChild(levels: seq<int>, i: nat)
    requires 0 < i < |levels| && levels[i] > levels[i - 1]
    ensures Parent(levels, i) == i - 1
  {
    NearestBelowIs(levels, i, levels[i], i - 1);
  }

  /** Without skips, a parent is exactly one level above. */
  lemma {:induction false} ParentIsOneAbove(levels: seq<int>, i: nat)
    requires NoSkip(levels) && i < |levels|
    ensures var p := Parent(levels, i); p >= 0 ==> levels[p] == levels[i] - 1
  {
    var p := Parent(levels, i);
    NearestBelowIs(levels, i, levels[i], p);
    if p >= 0 {
      assert levels[p + 1] <= levels[p] + 1;
    }
  }

  /** Whole document: the PDF bookmarks form the HTML contents tree if and only if no level is skipped. */
  lemma {:induction false} PdfOutlineIsHtmlTree(levels: seq<int>)
    requires MarkdownLevels(levels)
    ensures (forall i :: 0 <= i < |levels| ==> PdfParent(levels, i) == Parent(levels, i)) <==> NoSkip(levels)
  {
    if NoSkip(levels) {
      forall i | 0 <= i < |levels| ensures PdfParent(levels, i) == Parent(levels, i) {
        PdfParentAgrees(levels, i);
        ParentIsOneAbove(levels, i);
      }
    } else {
      var i :| 0 < i < |levels| && levels[i] > levels[i - 1] + 1;
      DeeperIsChild(levels, i);
      PdfParentAgrees(levels, i);
      assert PdfParent(levels, i) != Parent(levels, i);
    }
  }

  /** Bookmarks against the printed contents: over the headings that are not too deep, every bookmark has the
      parent of its printed entry if and only if no level is skipped among these headings. */
  lemma {:induction false} PdfOutlineIsPrintedTree(headings: seq<int>, maxDepth: int)
    requires MarkdownLevels(headings)
    ensures var levels, at := Kept(headings, maxDepth), KeptPositions(headings, maxDepth);
            |at| == |levels| && (forall k :: 0 <= k < |at| ==> at[k] < |headings|)
            && ((forall k :: 0 <= k < |at| ==> PdfParent(headings, at[k]) == PositionOf(at, Parent(levels, k))) <==>
              NoSkip(levels))
  {
    var levels, at := Kept(headings, maxDepth), KeptPositions(headings, maxDepth);
    KeptAre(headings, maxDepth);
    PdfOutlineIsHtmlTree(levels);
    forall k | 0 <= k < |at|
      ensures PdfParent(headings, at[k]) == PositionOf(at, Parent(levels, k)) <==>
                PdfParent(levels, k) == Parent(levels, k)
    {
      KeptParent(headings, maxDepth, k);
      PdfParentAgrees(headings, at[k]);
      PdfParentAgrees(levels, k);
    }
  }

  // ---- section numbers of the native table of contents ------------------------------------

  /** The counters cut or zero-extended to `n` entries. */
  function Resize(counters: seq<nat>, n: nat): (r: seq<nat>)
    ensures |r| == n
  {
    if n <= |counters| then counters[..n] else counters + seq(n - |counters|, _ => 0)
  }

  function Bump(counters: seq<nat>, level: nat): (r: seq<nat>)
    requires level >= 1
    ensures |r| == level
  {
    var c := Resize(counters, level);
    c[level - 1 := c[level - 1] + 1]
  }

  ghost predicate Positive(levels: seq<int>) {
    forall i :: 0 <= i < |levels| ==> levels[i] >= 1
  }

  /** The counters after the first `n` headings. */
  function Counters(levels: seq<int>, n: nat): (r: seq<nat>)
    requires n <= |levels| && Positive(levels)
  {
    if n == 0 then [] else Bump(Counters(levels, n - 1), levels[n - 1])
  }

  /** The section number of heading `i`. */
  function Number(levels: seq<int>, i: nat): (r: seq<nat>)
    requires i < |levels| && Positive(levels)
    ensures |r| == levels[i]
  {
    Counters(levels, i + 1)
  }

  /** The numbers of all rows; the counters are resized and counted up once per heading. */
  method TocNumbers(levels: seq<int>) returns (numbers: seq<seq<nat>>)
    requires Positive(levels)
    ensures |numbers| == |levels|
    ensures forall i :: 0 <= i < |levels| ==> numbers[i] == Number(levels, i)
  {
    numbers := [];
    var counters: seq<nat> := [];
    for i := 0 to |levels|
      invariant |numbers| == i
      invariant counters == Counters(levels, i)
      invariant forall k :: 0 <= k < i ==> numbers[k] == Number(levels, k)
    {
      counters := Resize(counters, levels[i]);
      counters := counters[|counters| - 1 := counters[|counters| - 1] + 1];
      numbers := numbers + [counters];
    }
  }

  /** `a` comes before `b` at position `k`: equal up to `k`, where `a` ends or is smaller. */
  ghost predicate LessAt(a: seq<nat>, b: seq<nat>, k: nat) {
    k <= |a| && k < |b| && a[..k] == b[..k] && (k < |a| ==> a[k] < b[k])
  }

  /** Lexicographic order on section numbers. */
  ghost predicate LexLess(a: seq<nat>, b: seq<nat>) {
    exists k: nat :: LessAt(a, b, k)
  }

  lemma {:induction false} LexLessTransitive(a: seq<nat>, b: seq<nat>, c: seq<nat>)
    requires LexLess(a, b) && LexLess(b, c)
    ensures LexLess(a, c)
  {
    var j: nat :| LessAt(a, b, j);
    var k: nat :| LessAt(b, c, k);
    var m := if j < k then j else k;
    assert a[..m] == a[..j][..m] && b[..m] == b[..j][..m] == b[..k][..m] && c[..m] == c[..k][..m];
    assert j < k ==> b[j] == b[..k][j] && c[j] == c[..k][j];
    assert k < j ==> a[k] == a[..j][k] && b[k] == b[..j][k];
    assert LessAt(a, c, m);
  }

  lemma {:induction false} LexLessIrreflexive(a: seq<nat>)
    ensures !LexLess(a, a)
  {
  }

  /** A heading's number comes strictly after the number of the heading before it. */
  lemma {:induction false} NumberIncreases(levels: seq<int>, i: nat)
    requires 0 < i < |levels| && Positive(levels)
    ensures LexLess(Number(levels, i - 1), Number(levels, i))
  {
    var a, b := Number(levels, i - 1), Number(levels, i);
    var k := if |b| <= |a| then |b| - 1 else |a|;
    assert a[..k] == b[..k];
    assert LessAt(a, b, k);
  }

  /** Section numbers increase strictly through the document, so no two headings share one. */
  lemma {:induction false} NumbersIncrease(levels: seq<int>, i: nat, j: nat)
    requires i < j < |levels| && Positive(levels)
    ensures LexLess(Number(levels, i), Number(levels, j)) && Number(levels, i) != Number(levels, j)
    decreases j
  {
    var a, b := Number(levels, i), Number(levels, j);
    assert LexLess(a, b) by {
      NumberIncreases(levels, j);
      if i < j - 1 {
        NumbersIncrease(levels, i, j - 1);
        LexLessTransitive(a, Number(levels, j - 1), b);
      }
    }
    LexLessIrreflexive(a);
  }

  // ---- section numbers are tree paths ------------------------------------------------------

  /** The 1-based position of entry `i` among its siblings. */
  function Rank(levels: seq<int>, i: nat): nat
    requires i < |levels|
  {
    |ChildrenIn(levels, Parent(levels, i), 0, i)| + 1
  }

  /** The sibling ranks on the way from the root of the HTML contents tree to entry `i`. */
  function Path(levels: seq<int>, i: nat): (r: seq<nat>)
    requires i < |levels|
    ensures |r| == Depth(levels, i) + 1
  {
    (if Parent(levels, i) == -1 then [] else Path(levels, Parent(levels, i))) + [Rank(levels, i)]
  }

  /** The outline starts at level 1 and never skips a level. */
  ghost predicate Regular(levels: seq<int>) {
    (levels != [] ==> levels[0] == 1) && NoSkip(levels) && Positive(levels)
  }

  /** A prefix of a number is the number of the enclosing heading of that level. */
  lemma {:induction false} PrefixIsEnclosing(levels: seq<int>, i: nat, l: nat)
    requires Regular(levels) && i < |levels| && 1 <= l <= levels[i]
    ensures var j := NearestBelow(levels, i + 1, l + 1);
            0 <= j <= i && levels[j] == l && Number(levels, j) == Number(levels, i)[..l]
    decreases i
  {
    if l < levels[i] {
      assert i > 0;
      PrefixIsEnclosing(levels, i - 1, l);
      assert Number(levels, i)[..l] == Number(levels, i - 1)[..l];
    } else {
      assert Number(levels, i)[..l] == Number(levels, i);
    }
  }

  /** The nearest earlier entry of the same level is a sibling when everything in between is deeper. */
  lemma {:induction false} NearestSameLevelIsSibling(levels: seq<int>, s: nat, i: nat)
    requires s < i < |levels| && levels[s] == levels[i]
    requires NearestBelow(levels, i, levels[i] + 1) == s
    ensures Parent(levels, s) == Parent(levels, i)
    ensures Rank(levels, i) == Rank(levels, s) + 1
  {
    var p := Parent(levels, s);
    assert Parent(levels, i) == p by {
      NearestBelowIs(levels, i, levels[i] + 1, s);
      NearestBelowIs(levels, s, levels[s], p);
      NearestBelowIs(levels, i, levels[i], p);
    }
    assert ChildrenIn(levels, p, s + 1, i) == [] by {
      NearestBelowIs(levels, i, levels[i] + 1, s);
      forall k | s + 1 <= k < i ensures Parent(levels, k) != p {
        NearestBelowReaches(levels, k, levels[k], s);
      }
      NoChildren(levels, p, s + 1, i);
    }
    ChildrenConcat(levels, p, 0, s + 1, i);
  }

  /** All of a number but its last component is the parent's number. */
  lemma {:induction false} NumberPrefix(levels: seq<int>, i: nat)
    requires Regular(levels) && i < |levels|
    ensures var p := Parent(levels, i);
            Number(levels, i)[..levels[i] - 1] == if p == -1 then [] else Number(levels, p)
  {
    var l, p := levels[i], Parent(levels, i);
    if p >= 0 {
      ParentIsOneAbove(levels, i);
      PrefixIsEnclosing(levels, i - 1, l - 1);
      assert Number(levels, i)[..l - 1] == Number(levels, i - 1)[..l - 1];
    } else {
      RootIsLevelOne(levels, i);
    }
  }

  /** Without an earlier sibling the last component is 1, else it is one more than the sibling's. */
  lemma {:induction false} NumberLast(levels: seq<int>, i: nat)
    requires Regular(levels) && i < |levels|
    ensures var l, last := levels[i], Number(levels, i)[levels[i] - 1];
            if i > 0 && l <= levels[i - 1] then
              var s := NearestBelow(levels, i, l + 1);
              && 0 <= s < i && levels[s] == l && last == Number(levels, s)[l - 1] + 1
              && Rank(levels, i) == Rank(levels, s) + 1
            else last == 1 && Rank(levels, i) == 1
  {
    var l := levels[i];
    if i > 0 && l <= levels[i - 1] {
      PrefixIsEnclosing(levels, i - 1, l);
      NearestSameLevelIsSibling(levels, NearestBelow(levels, i, l + 1), i);
    } else if i > 0 {
      assert levels[i] == levels[i - 1] + 1;
      assert |Number(levels, i - 1)| == l - 1;
      DeeperIsChild(levels, i);
      NoChildren(levels, i - 1, 0, i);
    }
  }

  lemma {:induction false} NumberIsPath(levels: seq<int>, i: nat)
    requires Regular(levels) && i < |levels|
    ensures Number(levels, i) == Path(levels, i)
    decreases i
  {
    hide Number, Rank, NearestBelow;
    var l, p, n := levels[i], Parent(levels, i), Number(levels, i);
    assert n[..l - 1] == if p == -1 then [] else Path(levels, p) by {
      NumberPrefix(levels, i);
      if p >= 0 { NumberIsPath(levels, p); }
    }
    assert n[l - 1] == Rank(levels, i) by {
      NumberLast(levels, i);
      if i > 0 && l <= levels[i - 1] {
        var s := NearestBelow(levels, i, l + 1);
        NumberIsPath(levels, s);
        assert Path(levels, s)[l - 1] == Rank(levels, s);
      }
    }
    assert n == n[..l - 1] + [n[l - 1]];
  }

  lemma {:induction false} RootIsLevelOne(levels: seq<int>, i: nat)
    requires Regular(levels) && i < |levels| && Parent(levels, i) == -1
    ensures levels[i] == 1
  {
    NearestBelowIs(levels, i, levels[i], -1);
  }

  /** The native section numbers are the sibling ranks of the HTML contents tree if and only if the
      outline starts at level 1 and never skips a level. */
  lemma {:induction false} NumbersAreTreePaths(levels: seq<int>)
    requires Positive(levels)
    ensures (forall i :: 0 <= i < |levels| ==> Number(levels, i) == Path(levels, i)) <==> Regular(levels)
  {
    if Regular(levels) {
      forall i | 0 <= i < |levels| ensures Number(levels, i) == Path(levels, i) {
        NumberIsPath(levels, i);
      }
    } else if levels[0] != 1 {
      assert |Number(levels, 0)| != |Path(levels, 0)|;
    } else {
      var i :| 0 < i < |levels| && levels[i] > levels[i - 1] + 1;
      DeeperIsChild(levels, i);
      assert |Number(levels, i)| != |Path(levels, i)| || |Number(levels, i - 1)| != |Path(levels, i - 1)|;
    }
  }

  /** An outline that skips from level 1 to level 3: its second heading is a bookmark at the root but a child
      in the HTML contents, and is numbered 1.0.1 though its path is 1.1. */
  lemma {:induction false} SkippedLevel()
    ensures PdfParent([1, 3], 1) == -1 && Parent([1, 3], 1) == 0
    ensures Number([1, 3], 1) == [1, 0, 1] && Path([1, 3], 1) == [1, 1]
  {
    var levels := [1, 3];
    assert Counters(levels, 1) == [1];
    assert Resize([1], 3) == [1, 0, 0];
    assert Counters(levels, 2) == [1, 0, 1];
    assert Parent(levels, 0) == -1;
    FirstPaths(levels);
  }

  lemma {:induction false} FirstPaths(levels: seq<int>)
    requires levels == [1, 3]
    ensures Path(levels, 1) == [1, 1]
  {
    assert Parent(levels, 0) == -1 && Parent(levels, 1) == 0;
    assert ChildrenIn(levels, -1, 0, 0) == [] && ChildrenIn(levels, 0, 0, 0) == [];
    assert ChildrenIn(levels, 0, 0, 1) == [];
    assert Rank(levels, 0) == 1 && Rank(levels, 1) == 1;
    assert Path(levels, 0) == [] + [Rank(levels, 0)];
    assert Path(levels, 1) == Path(levels, 0) + [Rank(levels, 1)];
  }
}
