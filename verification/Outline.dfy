/** Three readings of one list of heading levels: the HTML contents tree, the PDF bookmarks and the
    section numbers of the native table of contents. */
module Outline {

  // ---- the tree behind the levels ---------------------------------------------------------

  /** The nearest entry before `i` whose level is below `bound`, or -1. */
  function NearestBelow(levels: seq<int>, i: nat, bound: int): (p: int)
    requires i <= |levels|
    ensures -1 <= p < i
    ensures p >= 0 ==> levels[p] < bound
  {
    if i == 0 then -1 else if levels[i - 1] < bound then i - 1 else NearestBelow(levels, i - 1, bound)
  }

  /** The parent of entry `i` in the HTML contents: the nearest earlier entry of lower level. */
  function Parent(levels: seq<int>, i: nat): (p: int)
    requires i < |levels|
    ensures -1 <= p < i
  {
    NearestBelow(levels, i, levels[i])
  }

  /** `NearestBelow` is the one index that is below the bound with nothing below it in between. */
  lemma {:induction false} NearestBelowIs(levels: seq<int>, i: nat, bound: int, p: int)
    requires -1 <= p < i <= |levels|
    ensures NearestBelow(levels, i, bound) == p <==>
              (p >= 0 ==> levels[p] < bound) && forall k :: p < k < i ==> levels[k] >= bound
  {
    if p < i - 1 {
      NearestBelowIs(levels, i - 1, bound, p);
    }
  }

  lemma {:induction false} NearestBelowReaches(levels: seq<int>, i: nat, bound: int, j: nat)
    requires j < i <= |levels| && levels[j] < bound
    ensures j <= NearestBelow(levels, i, bound)
  {
    if j < i - 1 {
      NearestBelowReaches(levels, i - 1, bound, j);
    }
  }

  function Depth(levels: seq<int>, i: nat): nat
    requires i < |levels|
  {
    if Parent(levels, i) == -1 then 0 else Depth(levels, Parent(levels, i)) + 1
  }

  /** All of `ids` lie strictly between `above` and `hi`. */
  ghost predicate After(ids: seq<nat>, above: int, hi: nat) {
    forall k :: 0 <= k < |ids| ==> above < ids[k] < hi
  }

  /** The entries `k` with `lo <= k < hi` whose parent is `p`, in order. */
  function ChildrenIn(levels: seq<int>, p: int, lo: nat, hi: nat): (ids: seq<nat>)
    requires lo <= hi <= |levels|
    ensures After(ids, p, hi)
  {
    if lo == hi then []
    else ChildrenIn(levels, p, lo, hi - 1) + if Parent(levels, hi - 1) == p then [hi - 1] else []
  }

  lemma {:induction false} ChildrenConcat(levels: seq<int>, p: int, lo: nat, mid: nat, hi: nat)
    requires lo <= mid <= hi <= |levels|
    ensures ChildrenIn(levels, p, lo, hi) == ChildrenIn(levels, p, lo, mid) + ChildrenIn(levels, p, mid, hi)
    decreases hi
  {
    if mid < hi {
      ChildrenConcat(levels, p, lo, mid, hi - 1);
    }
  }

  lemma {:induction false} NoChildren(levels: seq<int>, p: int, lo: nat, hi: nat)
    requires lo <= hi <= |levels|
    requires forall k :: lo <= k < hi ==> Parent(levels, k) != p
    ensures ChildrenIn(levels, p, lo, hi) == []
    decreases hi
  {
    if lo < hi {
      NoChildren(levels, p, lo, hi - 1);
    }
  }

  // ---- the HTML table of contents ---------------------------------------------------------

  /** One printed line of the contents: which entry, and how many lists it is nested in. */
  datatype Line = Line(id: nat, depth: nat)

  /** The lines printed for entry `id` and everything below it. */
  function Emitted(levels: seq<int>, id: nat, depth: nat): seq<Line>
    requires id < |levels|
    decreases |levels| - id, 1, 0
  {
    [Line(id, depth)] + EmittedAll(levels, id, ChildrenIn(levels, id, 0, |levels|), depth + 1)
  }

  /** The lines printed for a list of siblings, all of them after entry `above`. */
  function EmittedAll(levels: seq<int>, above: int, ids: seq<nat>, depth: nat): seq<Line>
    requires -1 <= above < |levels|
    requires After(ids, above, |levels|)
    decreases |levels| - above, 0, |ids|
  {
    if ids == [] then []
    else EmittedAll(levels, above, ids[..|ids| - 1], depth) + Emitted(levels, ids[|ids| - 1], depth)
  }

  /** The children lists that the loop over all entries builds. */
  method BuildToc(levels: seq<int>) returns (children: seq<seq<nat>>, roots: seq<nat>)
    ensures |children| == |levels|
    ensures forall p :: 0 <= p < |levels| ==> children[p] == ChildrenIn(levels, p, 0, |levels|)
    ensures roots == ChildrenIn(levels, -1, 0, |levels|)
  {
    var n := |levels|;
    children := seq(n, _ => []);
    roots := [];
    for i := 0 to n
      invariant |children| == n
      invariant forall p :: 0 <= p < n ==> children[p] == ChildrenIn(levels, p, 0, i)
      invariant roots == ChildrenIn(levels, -1, 0, i)
    {
      var parent := -1;
      var j := i;
      while j > 0
        invariant 0 <= j <= i
        invariant parent == -1
        invariant Parent(levels, i) == NearestBelow(levels, j, levels[i])
      {
        j := j - 1;
        if levels[j] < levels[i] {
          parent := j;
          break;
        }
      }
      assert parent == Parent(levels, i);
      if parent >= 0 {
        children := children[parent := children[parent] + [i]];
      } else {
        roots := roots + [i];
      }
    }
  }

  /** The recursive printer. It terminates because children come after their parent. */
  method EmitToc(levels: seq<int>, children: seq<seq<nat>>, id: nat, depth: nat, out: seq<Line>)
    returns (r: seq<Line>)
    requires |children| == |levels| && id < |levels|
    requires forall p :: 0 <= p < |levels| ==> children[p] == ChildrenIn(levels, p, 0, |levels|)
    ensures r == out + Emitted(levels, id, depth)
    decreases |levels| - id
  {
    r := out + [Line(id, depth)];
    ghost var first := r;
    var ids := children[id];
    for k := 0 to |ids|
      invariant r == first + EmittedAll(levels, id, ids[..k], depth + 1)
    {
      ghost var before := EmittedAll(levels, id, ids[..k], depth + 1);
      r := EmitToc(levels, children, ids[k], depth + 1, r);
      assert ids[..k + 1][..k] == ids[..k];
      assert EmittedAll(levels, id, ids[..k + 1], depth + 1) == before + Emitted(levels, ids[k], depth + 1);
    }
    assert ids[..|ids|] == ids;
  }

  /** The levels of the headings that are not too deep for the contents. */
  function Kept(headings: seq<int>, maxDepth: int): seq<int> {
    if headings == [] then []
    else
      var last := headings[|headings| - 1];
      Kept(headings[..|headings| - 1], maxDepth) + if last <= maxDepth then [last] else []
  }

  /** Where the kept headings stand in the document. */
  function KeptPositions(headings: seq<int>, maxDepth: int): seq<nat> {
    if headings == [] then []
    else
      var last := |headings| - 1;
      KeptPositions(headings[..last], maxDepth) + if headings[last] <= maxDepth then [last] else []
  }

  /** The heading of a printed entry, or -1 for the root. */
  function PositionOf(at: seq<nat>, k: int): int
    requires -1 <= k < |at|
  {
    if k == -1 then -1 else at[k]
  }

  /** The kept headings are those within the depth, in order. */
  lemma {:induction false} KeptAre(headings: seq<int>, maxDepth: int)
    ensures var levels, at := Kept(headings, maxDepth), KeptPositions(headings, maxDepth);
            && |at| == |levels|
            && (forall k :: 0 <= k < |at| ==> at[k] < |headings| && levels[k] == headings[at[k]] <= maxDepth)
            && (forall j, k :: 0 <= j < k < |at| ==> at[j] < at[k])
            && forall i :: 0 <= i < |headings| && headings[i] <= maxDepth ==> i in at
  {
    if headings != [] {
      var last := |headings| - 1;
      KeptAre(headings[..last], maxDepth);
      var at, before := KeptPositions(headings, maxDepth), KeptPositions(headings[..last], maxDepth);
      forall i | 0 <= i < |headings| && headings[i] <= maxDepth ensures i in at {
        if i < last { assert headings[..last][i] == headings[i] && i in before; }
      }
    }
  }

  /** Leaving out deep headings keeps parents: a parent has a lower level, so it is kept as well. */
  lemma {:induction false} KeptParent(headings: seq<int>, maxDepth: int, k: nat)
    requires k < |Kept(headings, maxDepth)|
    ensures var levels, at := Kept(headings, maxDepth), KeptPositions(headings, maxDepth);
            |at| == |levels| && at[k] < |headings| && Parent(headings, at[k]) == PositionOf(at, Parent(levels, k))
  {
    var levels, at := Kept(headings, maxDepth), KeptPositions(headings, maxDepth);
    KeptAre(headings, maxDepth);
    var q := Parent(levels, k);
    var p := PositionOf(at, q);
    NearestBelowIs(levels, k, levels[k], q);
    forall j | p < j < at[k] ensures headings[j] >= levels[k] {
      if j in at {
        var m :| 0 <= m < |at| && at[m] == j;
        assert q < m < k;
      }
    }
    NearestBelowIs(headings, at[k], levels[k], p);
  }

  /** The contents print every kept heading once and in document order. */
  method RenderToc(headings: seq<int>, maxDepth: int) returns (out: seq<Line>)
    ensures var levels := Kept(headings, maxDepth); out == Lines(levels, 0, |levels|)
  {
    var levels: seq<int> := [];
    for i := 0 to |headings|
      invariant levels == Kept(headings[..i], maxDepth)
    {
      assert headings[..i + 1][..i] == headings[..i];
      if headings[i] <= maxDepth {
        levels := levels + [headings[i]];
      }
    }
    assert headings[..|headings|] == headings;
    var children, roots := BuildToc(levels);
    out := [];
    if levels != [] {
      for k := 0 to |roots|
        invariant out == EmittedAll(levels, -1, roots[..k], 0)
      {
        out := EmitToc(levels, children, roots[k], 0, out);
        assert roots[..k + 1][..k] == roots[..k];
      }
      assert roots[..|roots|] == roots;
      ForestIsRange(levels, -1, 0, |levels|);
    }
  }

  /** The lines `lo..hi` of the contents when every entry is printed once and in document order. */
  function Lines(levels: seq<int>, lo: nat, hi: nat): (r: seq<Line>)
    requires lo <= hi <= |levels|
    ensures |r| == hi - lo
  {
    seq(hi - lo, k requires 0 <= k < hi - lo => Line(lo + k, Depth(levels, lo + k)))
  }

  /** `lo..hi` is a run of whole subtrees directly below `p` that ends where `p`'s own subtree ends. */
  ghost predicate IsForest(levels: seq<int>, p: int, lo: nat, hi: nat) {
    && -1 <= p < lo <= hi <= |levels|
    && (p >= 0 ==> forall k :: lo <= k < hi ==> levels[p] < levels[k])
    && (lo < hi ==> forall k :: p < k < lo ==> levels[k] >= levels[lo])
    && (hi < |levels| ==> p >= 0 && levels[hi] <= levels[p])
  }

  /** Where the subtree of `i` ends: the first later entry that is not deeper, or `hi`. */
  function SubtreeEnd(levels: seq<int>, i: nat, from: nat, hi: nat): (e: nat)
    requires i < from <= hi <= |levels|
    ensures from <= e <= hi
    ensures forall k :: from <= k < e ==> levels[i] < levels[k]
    ensures e < hi ==> levels[e] <= levels[i]
    decreases hi - from
  {
    if from == hi || levels[from] <= levels[i] then from else SubtreeEnd(levels, i, from + 1, hi)
  }

  lemma {:induction false} ForestSplits(levels: seq<int>, p: int, lo: nat, hi: nat)
    requires IsForest(levels, p, lo, hi) && lo < hi
    ensures var e := SubtreeEnd(levels, lo, lo + 1, hi);
            IsForest(levels, lo, lo + 1, e) && IsForest(levels, p, e, hi)
  {
  }

  lemma {:induction false} NextSibling(levels: seq<int>, p: int, lo: nat, e: nat, hi: nat)
    requires lo < e <= hi <= |levels|
    requires Parent(levels, lo) == p
    requires ChildrenIn(levels, p, lo + 1, e) == []
    ensures ChildrenIn(levels, p, lo, hi) == [lo] + ChildrenIn(levels, p, e, hi)
  {
    assert ChildrenIn(levels, p, lo, lo + 1) == [lo] by {
      assert ChildrenIn(levels, p, lo, lo) == [];
    }
    assert ChildrenIn(levels, p, lo, e) == [lo] by {
      ChildrenConcat(levels, p, lo, lo + 1, e);
    }
    ChildrenConcat(levels, p, lo, e, hi);
  }

  /** The first child of a forest is its first entry; the next one starts where its subtree ends. */
  lemma {:induction false} FirstChild(levels: seq<int>, p: int, lo: nat, hi: nat)
    requires IsForest(levels, p, lo, hi) && lo < hi
    ensures var e := SubtreeEnd(levels, lo, lo + 1, hi);
            && Parent(levels, lo) == p
            && ChildrenIn(levels, p, lo, hi) == [lo] + ChildrenIn(levels, p, e, hi)
  {
    var e := SubtreeEnd(levels, lo, lo + 1, hi);
    NearestBelowIs(levels, lo, levels[lo], p);
    forall k | lo + 1 <= k < e ensures Parent(levels, k) != p {
      NearestBelowReaches(levels, k, levels[k], lo);
    }
    NoChildren(levels, p, lo + 1, e);
    NextSibling(levels, p, lo, e, hi);
  }

  /** All children of the top of a forest lie in the forest. */
  lemma {:induction false} ChildrenInForest(levels: seq<int>, i: nat, e: nat)
    requires IsForest(levels, i, i + 1, e)
    ensures ChildrenIn(levels, i, 0, |levels|) == ChildrenIn(levels, i, i + 1, e)
  {
    NoChildren(levels, i, 0, i + 1);
    forall k | e <= k < |levels| ensures Parent(levels, k) != i {
      NearestBelowIs(levels, k, levels[k], i);
    }
    NoChildren(levels, i, e, |levels|);
    ChildrenConcat(levels, i, 0, i + 1, |levels|);
    ChildrenConcat(levels, i, i + 1, e, |levels|);
  }

  lemma {:induction false} EmittedAllConcat(levels: seq<int>, above: int, a: seq<nat>, b: seq<nat>, depth: nat)
    requires -1 <= above < |levels|
    requires After(a, above, |levels|) && After(b, above, |levels|)
    ensures EmittedAll(levels, above, a + b, depth) ==
              EmittedAll(levels, above, a, depth) + EmittedAll(levels, above, b, depth)
    decreases |b|
  {
    if b == [] {
      assert a + b == a;
    } else {
      var init := b[..|b| - 1];
      assert (a + b)[..|a + b| - 1] == a + init;
      EmittedAllConcat(levels, above, a, init, depth);
    }
  }

  lemma {:induction false} LinesConcat(levels: seq<int>, lo: nat, mid: nat, hi: nat)
    requires lo < mid <= hi <= |levels|
    ensures Lines(levels, lo, mid) == [Line(lo, Depth(levels, lo))] + Lines(levels, lo + 1, mid)
    ensures Lines(levels, lo, hi) == Lines(levels, lo, mid) + Lines(levels, mid, hi)
  {
  }

  function DepthBelow(levels: seq<int>, p: int): nat
    requires -1 <= p < |levels|
  {
    if p == -1 then 0 else Depth(levels, p) + 1
  }

  lemma {:induction false} EmittedCons(levels: seq<int>, above: int, id: nat, rest: seq<nat>, depth: nat)
    requires -1 <= above < id < |levels| && After(rest, above, |levels|)
    ensures After([id] + rest, above, |levels|)
    ensures EmittedAll(levels, above, [id] + rest, depth)
         == Emitted(levels, id, depth) + EmittedAll(levels, above, rest, depth)
  {
    EmittedAllConcat(levels, above, [id], rest, depth);
    assert [id][..0] == [];
  }

  /** Printing a forest prints its index range: each entry once, in document order, at its depth. */
  lemma {:induction false} ForestIsRange(levels: seq<int>, p: int, lo: nat, hi: nat)
    requires p < |levels| && IsForest(levels, p, lo, hi)
    ensures EmittedAll(levels, p, ChildrenIn(levels, p, lo, hi), DepthBelow(levels, p)) == Lines(levels, lo, hi)
    decreases hi - lo, 1
  {
    if lo < hi {
      var e := SubtreeEnd(levels, lo, lo + 1, hi);
      var rest := ChildrenIn(levels, p, e, hi);
      assert DepthBelow(levels, p) == Depth(levels, lo) && ChildrenIn(levels, p, lo, hi) == [lo] + rest by {
        FirstChild(levels, p, lo, hi);
      }
      assert Emitted(levels, lo, Depth(levels, lo)) == Lines(levels, lo, e) by {
        ForestSplits(levels, p, lo, hi);
        TreeIsRange(levels, lo, e);
      }
      assert EmittedAll(levels, p, rest, DepthBelow(levels, p)) == Lines(levels, e, hi) by {
        ForestSplits(levels, p, lo, hi);
        ForestIsRange(levels, p, e, hi);
      }
      EmittedCons(levels, p, lo, rest, DepthBelow(levels, p));
      LinesConcat(levels, lo, e, hi);
    }
  }

  lemma {:induction false} TreeIsRange(levels: seq<int>, i: nat, e: nat)
    requires IsForest(levels, i, i + 1, e)
    ensures Emitted(levels, i, Depth(levels, i)) == Lines(levels, i, e)
    decreases e - i - 1, 2
  {
    ForestIsRange(levels, i, i + 1, e);
    ChildrenInForest(levels, i, e);
    LinesConcat(levels, i, e, e);
    assert DepthBelow(levels, i) == Depth(levels, i) + 1;
    assert Lines(levels, i, e) == [Line(i, Depth(levels, i))] + Lines(levels, i + 1, e);
  }

  /** Every subtree of the HTML contents is a contiguous run of entries. */
  lemma {:induction false} SubtreeIsRange(levels: seq<int>, i: nat)
    requires i < |levels|
    ensures Emitted(levels, i, Depth(levels, i)) == Lines(levels, i, SubtreeEnd(levels, i, i + 1, |levels|))
  {
    TreeIsRange(levels, i, SubtreeEnd(levels, i, i + 1, |levels|));
  }
}
