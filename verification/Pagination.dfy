/** Greedy pagination of the flow: hard page breaks, oversize blocks, heading keep-with-next. */
module Pagination {
  import opened Flow
  import opened Options

  /** Blocks `first..last` (both included) go on one page whose top edge is at `startY`. */
  datatype Slice = Slice(first: nat, last: nat, startY: real)

  /** Block `i` ends within a page of height `h` that starts at the top of block `top`. */
  predicate Fits(blocks: seq<Block>, h: real, top: nat, i: nat)
    requires top < |blocks| && i < |blocks|
  {
    blocks[i].y - blocks[top].y + blocks[i].height <= h
  }

  /** Block `i` exists and is not a page break. */
  predicate Content(blocks: seq<Block>, i: nat) {
    i < |blocks| && !blocks[i].IsBreak()
  }

  // ---- specification of the greedy algorithm ---------------------------------------------

  /** The first non-break block at or after `from`. */
  function SkipBreaks(blocks: seq<Block>, from: nat): (c: nat)
    requires from <= |blocks|
    ensures from <= c <= |blocks|
    ensures c < |blocks| ==> !blocks[c].IsBreak()
    decreases |blocks| - from
  {
    if from < |blocks| && blocks[from].IsBreak() then SkipBreaks(blocks, from + 1) else from
  }

  /** The last block of the longest run, starting at `top` and known to reach `e`, in which every
      further block is content and fits the page. */
  function RunEnd(blocks: seq<Block>, h: real, top: nat, e: nat): (r: nat)
    requires top <= e < |blocks|
    ensures e <= r < |blocks|
    ensures Content(blocks, r + 1) ==> !Fits(blocks, h, top, r + 1)
    decreases |blocks| - e
  {
    if Content(blocks, e + 1) && Fits(blocks, h, top, e + 1) then RunEnd(blocks, h, top, e + 1) else e
  }

  /** A page that would end in a heading cut off from the block after it. */
  predicate Strands(blocks: seq<Block>, last: nat) {
    last < |blocks| && blocks[last].kind == Heading && Content(blocks, last + 1)
  }

  /** The last block of the page that starts at content block `c`. */
  function PageEnd(blocks: seq<Block>, h: real, c: nat): (last: nat)
    requires c < |blocks|
    ensures c <= last < |blocks|
  {
    if !Fits(blocks, h, c, c) then c
    else
      var e := RunEnd(blocks, h, c, c);
      if e > c && Strands(blocks, e) then e - 1 else e
  }

  /** The pages of the flow from block `from` on. */
  function Pages(blocks: seq<Block>, h: real, from: nat): (pages: seq<Slice>)
    requires from <= |blocks|
    decreases |blocks| - from
  {
    var c := SkipBreaks(blocks, from);
    if c == |blocks| then []
    else
      var last := PageEnd(blocks, h, c);
      [Slice(c, last, blocks[c].y)] + Pages(blocks, h, last + 1)
  }

  lemma {:induction false} SkipsOnlyBreaks(blocks: seq<Block>, from: nat)
    requires from <= |blocks|
    ensures forall k :: from <= k < SkipBreaks(blocks, from) ==> blocks[k].IsBreak()
    decreases |blocks| - from
  {
    if from < |blocks| && blocks[from].IsBreak() {
      SkipsOnlyBreaks(blocks, from + 1);
    }
  }

  lemma {:induction false} RunFits(blocks: seq<Block>, h: real, top: nat, e: nat)
    requires top <= e < |blocks|
    ensures forall k :: e < k <= RunEnd(blocks, h, top, e) ==> Content(blocks, k) && Fits(blocks, h, top, k)
    decreases |blocks| - e
  {
    if Content(blocks, e + 1) && Fits(blocks, h, top, e + 1) {
      RunFits(blocks, h, top, e + 1);
    }
  }

  // ---- the loops of the exporter ---------------------------------------------------------

  /** The inner loop: how far the page that starts at `cursor` reaches. */
  method FillPage(blocks: seq<Block>, h: real, cursor: nat) returns (last: nat)
    requires Content(blocks, cursor)
    ensures last == PageEnd(blocks, h, cursor)
  {
    var n := |blocks|;
    last := cursor;
    var pageTop := blocks[cursor].y;
    var candidate := cursor;
    while candidate < n
      invariant cursor <= candidate <= n
      invariant candidate == cursor ==> last == cursor
      invariant candidate > cursor ==>
        && last == candidate - 1
        && Fits(blocks, h, cursor, cursor)
        && RunEnd(blocks, h, cursor, cursor) == RunEnd(blocks, h, cursor, last)
        && (Strands(blocks, last) ==> Fits(blocks, h, cursor, candidate))
    {
      if blocks[candidate].IsBreak() {
        break;
      }
      var b := blocks[candidate];
      var relTop := b.y - pageTop;
      var relBottom := relTop + b.height;
      if relBottom > h {
        if candidate == cursor {
          last := candidate;
          candidate := n;
          break;
        }
        break;
      }
      last := candidate;
      candidate := candidate + 1;
      if candidate < n && blocks[candidate].kind != PageBreak && b.kind == Heading {
        var nb := blocks[candidate];
        var nbRelTop := nb.y - pageTop;
        if nbRelTop + nb.height > h {
          if last > cursor {
            last := last - 1;
          }
          break;
        }
      }
    }
  }

  /** The whole flow cut into pages; a flow without content still gets one page. */
  method PaginateBlocks(blocks: seq<Block>, h: real) returns (pages: seq<Slice>)
    ensures pages == if Pages(blocks, h, 0) == [] then [Slice(0, 0, 0.0)] else Pages(blocks, h, 0)
  {
    pages := [];
    var n := |blocks|;
    var cursor := 0;
    while cursor < n
      invariant cursor <= n
      invariant Pages(blocks, h, 0) == pages + Pages(blocks, h, cursor)
    {
      ghost var from := cursor;
      while cursor < n && blocks[cursor].IsBreak()
        invariant from <= cursor <= n
        invariant SkipBreaks(blocks, from) == SkipBreaks(blocks, cursor)
      {
        cursor := cursor + 1;
      }
      if cursor >= n {
        break;
      }
      var last := FillPage(blocks, h, cursor);
      var page := Slice(cursor, last, blocks[cursor].y);
      ghost var rest := Pages(blocks, h, last + 1);
      assert Pages(blocks, h, from) == [page] + rest;
      assert pages + ([page] + rest) == (pages + [page]) + rest;
      pages := pages + [page];
      cursor := last + 1;
    }
    if pages == [] {
      pages := [Slice(0, 0, 0.0)];
    }
  }

  // ---- cuts: what any pagination has to be ------------------------------------------------

  /** Every block of the slice fits the page that starts at its first block. */
  ghost predicate SliceFits(blocks: seq<Block>, h: real, s: Slice)
    requires s.last < |blocks|
  {
    forall i :: s.first <= i <= s.last ==> Fits(blocks, h, s.first, i)
  }

  /** `s` may be the next slice of a cut that has reached block `from`: it skips only page breaks,
      contains none, and fits the page or is a single block. */
  ghost predicate IsSlice(blocks: seq<Block>, h: real, from: nat, s: Slice) {
    && from <= s.first <= s.last < |blocks|
    && (forall i :: from <= i < s.first ==> blocks[i].IsBreak())
    && (forall i :: s.first <= i <= s.last ==> !blocks[i].IsBreak())
    && (s.first == s.last || SliceFits(blocks, h, s))
  }

  /** `cuts` splits the blocks from `from` on into consecutive slices. */
  ghost predicate IsCut(blocks: seq<Block>, h: real, from: nat, cuts: seq<Slice>)
    decreases |cuts|
  {
    if cuts == [] then forall i :: from <= i < |blocks| ==> blocks[i].IsBreak()
    else IsSlice(blocks, h, from, cuts[0]) && IsCut(blocks, h, cuts[0].last + 1, cuts[1..])
  }

  /** No slice of several blocks ends in a heading cut off from the block after it. */
  ghost predicate KeepsHeadings(blocks: seq<Block>, cuts: seq<Slice>) {
    forall s :: s in cuts && s.first < s.last ==> !Strands(blocks, s.last)
  }

  ghost predicate TopsNeverDecrease(blocks: seq<Block>) {
    forall i, j :: 0 <= i <= j < |blocks| ==> blocks[i].y <= blocks[j].y
  }

  // ---- results ----------------------------------------------------------------------------

  /** The page at content block `c` is a slice. */
  lemma {:induction false} PageIsASlice(blocks: seq<Block>, h: real, from: nat)
    requires from <= |blocks| && SkipBreaks(blocks, from) < |blocks|
    ensures var c := SkipBreaks(blocks, from);
            IsSlice(blocks, h, from, Slice(c, PageEnd(blocks, h, c), blocks[c].y))
  {
    var c := SkipBreaks(blocks, from);
    SkipsOnlyBreaks(blocks, from);
    RunFits(blocks, h, c, c);
    var last := PageEnd(blocks, h, c);
    forall i | c <= i <= last ensures !blocks[i].IsBreak() {
      assert i == c || Content(blocks, i);
    }
  }

  /** The greedy pages are a cut of the flow, each drawn from the top of its first block. */
  lemma {:induction false} PagesAreACut(blocks: seq<Block>, h: real, from: nat)
    requires from <= |blocks|
    ensures IsCut(blocks, h, from, Pages(blocks, h, from))
    ensures forall s :: s in Pages(blocks, h, from) ==> s.first < |blocks| && s.startY == blocks[s.first].y
    decreases |blocks| - from
  {
    var c := SkipBreaks(blocks, from);
    if c == |blocks| {
      SkipsOnlyBreaks(blocks, from);
    } else {
      PageIsASlice(blocks, h, from);
      PagesAreACut(blocks, h, PageEnd(blocks, h, c) + 1);
    }
  }

  /** The slices of a cut come in order, without overlap. */
  lemma {:induction false} CutIsOrdered(blocks: seq<Block>, h: real, from: nat, cuts: seq<Slice>)
    requires IsCut(blocks, h, from, cuts)
    ensures forall k :: 0 <= k < |cuts| ==> from <= cuts[k].first <= cuts[k].last < |blocks|
    ensures forall j, k :: 0 <= j < k < |cuts| ==> cuts[j].last < cuts[k].first
    decreases |cuts|
  {
    if cuts != [] {
      var rest := cuts[1..];
      CutIsOrdered(blocks, h, cuts[0].last + 1, rest);
      assert forall k :: 0 < k < |cuts| ==> cuts[k] == rest[k - 1];
    }
  }

  ghost predicate Covers(cuts: seq<Slice>, i: nat) {
    exists k :: 0 <= k < |cuts| && cuts[k].first <= i <= cuts[k].last
  }

  /** A cut is a partition: its slices, in order and disjoint, cover exactly the content blocks. */
  lemma {:induction false} CutIsPartition(blocks: seq<Block>, h: real, from: nat, cuts: seq<Slice>, i: nat)
    requires IsCut(blocks, h, from, cuts)
    requires from <= i < |blocks|
    ensures Covers(cuts, i) <==> !blocks[i].IsBreak()
    decreases |cuts|
  {
    if cuts != [] {
      var s, rest := cuts[0], cuts[1..];
      CutIsOrdered(blocks, h, from, cuts);
      if i <= s.last {
        if s.first <= i { assert cuts[0].first <= i <= cuts[0].last; }
      } else {
        CutIsPartition(blocks, h, s.last + 1, rest, i);
        assert forall k :: 0 < k < |cuts| ==> cuts[k] == rest[k - 1];
        if Covers(rest, i) {
          var k :| 0 <= k < |rest| && rest[k].first <= i <= rest[k].last;
          assert cuts[k + 1] == rest[k];
        }
      }
    }
  }

  /** The longest run that fits the page from `c` on has at least three blocks and ends in two headings, the
      last of which is cut off from the block after it. */
  predicate EndsInTwoHeadings(blocks: seq<Block>, h: real, c: nat)
    requires c < |blocks|
  {
    Fits(blocks, h, c, c) &&
    var e := RunEnd(blocks, h, c, c);
    e > c + 1 && Strands(blocks, e) && blocks[e - 1].kind == Heading
  }

  /** Keep-with-next, exactly: a page of several blocks strands a heading if and only if what fits on it ends
      in two headings. */
  lemma {:induction false} KeepWithNext(blocks: seq<Block>, h: real, c: nat)
    requires Content(blocks, c)
    ensures c < PageEnd(blocks, h, c) && Strands(blocks, PageEnd(blocks, h, c)) <==> EndsInTwoHeadings(blocks, h, c)
  {
    if Fits(blocks, h, c, c) { RunFits(blocks, h, c, c); }
  }

  ghost predicate NoAdjacentHeadings(blocks: seq<Block>) {
    forall i :: 0 < i < |blocks| ==> !(blocks[i - 1].kind == Heading && blocks[i].kind == Heading)
  }

  /** The pages of a flow keep all headings exactly when no page starts where what fits ends in two headings. */
  lemma {:induction false} PagesKeepHeadings(blocks: seq<Block>, h: real, from: nat)
    requires from <= |blocks|
    ensures KeepsHeadings(blocks, Pages(blocks, h, from)) <==>
              forall s :: s in Pages(blocks, h, from) ==> s.first < |blocks| && !EndsInTwoHeadings(blocks, h, s.first)
    decreases |blocks| - from
  {
    hide EndsInTwoHeadings, RunEnd, Strands, PageEnd;
    var c := SkipBreaks(blocks, from);
    if c < |blocks| {
      var last := PageEnd(blocks, h, c);
      var page, rest := Slice(c, last, blocks[c].y), Pages(blocks, h, last + 1);
      KeepWithNext(blocks, h, c);
      PagesKeepHeadings(blocks, h, last + 1);
      assert Pages(blocks, h, from) == [page] + rest;
    }
  }

  /** A page ends only where it must. Unless it is one block that is too high for a page, all its blocks end
      within the height of a page below its first block; and the block after the last one either is no content,
      or ends below the page, or is a heading whose own successor ends below the page. */
  lemma {:induction false} PagesAreFull(blocks: seq<Block>, h: real, from: nat, s: Slice)
    requires from <= |blocks| && s in Pages(blocks, h, from)
    ensures s.first <= s.last < |blocks| && s.startY == blocks[s.first].y
    ensures s.first == s.last || forall i :: s.first <= i <= s.last ==> blocks[i].y + blocks[i].height <= s.startY + h
    ensures blocks[s.first].y + blocks[s.first].height > s.startY + h ==> s.first == s.last
    ensures blocks[s.first].y + blocks[s.first].height <= s.startY + h && Content(blocks, s.last + 1) ==>
              || blocks[s.last + 1].y + blocks[s.last + 1].height > s.startY + h
              || (blocks[s.last + 1].kind == Heading && Content(blocks, s.last + 2)
                  && blocks[s.last + 2].y + blocks[s.last + 2].height > s.startY + h)
    decreases |blocks| - from
  {
    hide PageEnd;
    var c := SkipBreaks(blocks, from);
    var last := PageEnd(blocks, h, c);
    if s == Slice(c, last, blocks[c].y) {
      PageIsFull(blocks, h, c);
    } else {
      assert s in Pages(blocks, h, last + 1);
      PagesAreFull(blocks, h, last + 1, s);
    }
  }

  lemma {:induction false} PageIsFull(blocks: seq<Block>, h: real, c: nat)
    requires Content(blocks, c)
    ensures var last, bottom := PageEnd(blocks, h, c), blocks[c].y + h;
            && (c == last || forall i :: c <= i <= last ==> blocks[i].y + blocks[i].height <= bottom)
            && (blocks[c].y + blocks[c].height > bottom ==> c == last)
            && (blocks[c].y + blocks[c].height <= bottom && Content(blocks, last + 1) ==>
                  || blocks[last + 1].y + blocks[last + 1].height > bottom
                  || (blocks[last + 1].kind == Heading && Content(blocks, last + 2)
                      && blocks[last + 2].y + blocks[last + 2].height > bottom))
  {
    if Fits(blocks, h, c, c) {
      RunFits(blocks, h, c, c);
      forall i | c <= i <= PageEnd(blocks, h, c) ensures blocks[i].y + blocks[i].height <= blocks[c].y + h {
        assert Fits(blocks, h, c, i);
      }
    }
  }

  /** A flow without adjacent headings is cut without stranding any. */
  lemma {:induction false} SeparateHeadingsAreKept(blocks: seq<Block>, h: real, from: nat)
    requires from <= |blocks| && NoAdjacentHeadings(blocks)
    ensures KeepsHeadings(blocks, Pages(blocks, h, from))
  {
    hide Pages;
    PagesKeepHeadings(blocks, h, from);
    PagesAreACut(blocks, h, from);
  }

  /** Two adjacent headings at a page end do strand the first one, against the intent that a heading
      moves on together with what follows it. */
  lemma {:induction false} AdjacentHeadingsStrandOne()
    ensures var blocks := [Block(P, 0.0, 10.0, "", None), Block(Heading, 10.0, 10.0, "a", None),
                           Block(Heading, 20.0, 10.0, "b", None), Block(P, 30.0, 10.0, "", None)];
            Pages(blocks, 35.0, 0) == [Slice(0, 1, 0.0), Slice(2, 3, 20.0)] && Strands(blocks, 1)
  {
    var blocks := [Block(P, 0.0, 10.0, "", None), Block(Heading, 10.0, 10.0, "a", None),
                   Block(Heading, 20.0, 10.0, "b", None), Block(P, 30.0, 10.0, "", None)];
    assert RunEnd(blocks, 35.0, 0, 2) == 2;
    assert PageEnd(blocks, 35.0, 0) == 1;
    assert RunEnd(blocks, 35.0, 2, 3) == 3;
    assert PageEnd(blocks, 35.0, 2) == 3;
    assert Pages(blocks, 35.0, 4) == [];
    assert Pages(blocks, 35.0, 2) == [Slice(2, 3, 20.0)];
  }

  /** A run that fits from an earlier top also fits from a later one, so it cannot outgrow the
      greedy run of the later top. */
  lemma {:induction false} RunReaches(blocks: seq<Block>, h: real, c: nat, e: nat, d: nat)
    requires c <= e <= d < |blocks|
    requires forall i :: e < i <= d ==> Content(blocks, i) && Fits(blocks, h, c, i)
    ensures d <= RunEnd(blocks, h, c, e)
    decreases d - e
  {
    if e < d {
      RunReaches(blocks, h, c, e + 1, d);
    }
  }

  /** A greedy page that starts inside a slice of a heading-keeping cut reaches the slice's end. */
  lemma {:induction false} PageReachesSliceEnd(blocks: seq<Block>, h: real, c: nat, s: Slice)
    requires TopsNeverDecrease(blocks)
    requires s.first <= c <= s.last < |blocks|
    requires forall i :: s.first <= i <= s.last ==> !blocks[i].IsBreak()
    requires s.first == s.last || SliceFits(blocks, h, s)
    requires s.first < s.last ==> !Strands(blocks, s.last)
    ensures s.last <= PageEnd(blocks, h, c)
  {
    if s.first < s.last {
      forall i | c <= i <= s.last ensures Fits(blocks, h, c, i) {
        assert Fits(blocks, h, s.first, i);
      }
      RunReaches(blocks, h, c, c, s.last);
    }
  }

  lemma {:induction false} SkipTwice(blocks: seq<Block>, h: real, from: nat)
    requires from <= |blocks|
    ensures Pages(blocks, h, SkipBreaks(blocks, from)) == Pages(blocks, h, from)
  {
  }

  /** One step of staying ahead: the next greedy page starts behind the slice or reaches its end. */
  lemma {:induction false} NextPageReaches(blocks: seq<Block>, h: real, from: nat, s: Slice, g: nat)
    requires TopsNeverDecrease(blocks)
    requires from <= g <= |blocks|
    requires IsSlice(blocks, h, from, s)
    requires s.first < s.last ==> !Strands(blocks, s.last)
    ensures var c := SkipBreaks(blocks, g);
            c == |blocks| || s.last < c || s.last <= PageEnd(blocks, h, c)
  {
    var c := SkipBreaks(blocks, g);
    if c < |blocks| && c <= s.last {
      PageReachesSliceEnd(blocks, h, c, s);
    }
  }

  /** Staying ahead: from any point not behind the cut, greedy needs no more pages than the cut. */
  lemma {:induction false} GreedyStaysAhead(blocks: seq<Block>, h: real, from: nat, cuts: seq<Slice>, g: nat)
    requires TopsNeverDecrease(blocks)
    requires from <= g <= |blocks|
    requires IsCut(blocks, h, from, cuts) && KeepsHeadings(blocks, cuts)
    ensures |Pages(blocks, h, g)| <= |cuts|
    decreases |cuts|
  {
    hide PageEnd, RunEnd, Fits, Strands, TopsNeverDecrease, SliceFits, SkipBreaks;
    var c := SkipBreaks(blocks, g);
    if c < |blocks| {
      assert cuts != [];
      var s, rest := cuts[0], cuts[1..];
      assert KeepsHeadings(blocks, rest) by {
        assert forall t :: t in rest ==> t in cuts;
      }
      NextPageReaches(blocks, h, from, s, g);
      SkipTwice(blocks, h, g);
      GreedyStaysAhead(blocks, h, s.last + 1, rest, if s.last < c then c else PageEnd(blocks, h, c) + 1);
    }
  }

  /** Optimality: on a flow whose tops never decrease, the paginator uses at most as many pages as
      any cut that strands no heading, and as any cut at all when the flow has no heading. */
  lemma {:induction false} FewestPages(blocks: seq<Block>, h: real, cuts: seq<Slice>)
    requires TopsNeverDecrease(blocks)
    requires IsCut(blocks, h, 0, cuts)
    requires KeepsHeadings(blocks, cuts) || forall i :: 0 <= i < |blocks| ==> blocks[i].kind != Heading
    ensures |Pages(blocks, h, 0)| <= |cuts|
  {
    GreedyStaysAhead(blocks, h, 0, cuts, 0);
  }

  // ---- pagination looks at nothing but kinds, tops and heights ------------------------------

  lemma {:induction false} SkipDependsOnGeometry(a: seq<Block>, b: seq<Block>, from: nat)
    requires SameGeometry(a, b) && from <= |a|
    ensures SkipBreaks(a, from) == SkipBreaks(b, from)
    decreases |a| - from
  {
    if from < |a| && a[from].IsBreak() {
      SkipDependsOnGeometry(a, b, from + 1);
    }
  }

  lemma {:induction false} RunDependsOnGeometry(a: seq<Block>, b: seq<Block>, h: real, top: nat, e: nat)
    requires SameGeometry(a, b) && top <= e < |a|
    ensures RunEnd(a, h, top, e) == RunEnd(b, h, top, e)
    decreases |a| - e
  {
    if Content(a, e + 1) && Fits(a, h, top, e + 1) {
      RunDependsOnGeometry(a, b, h, top, e + 1);
    }
  }

  lemma {:induction false} PageEndDependsOnGeometry(a: seq<Block>, b: seq<Block>, h: real, c: nat)
    requires SameGeometry(a, b) && c < |a|
    ensures PageEnd(a, h, c) == PageEnd(b, h, c)
  {
    RunDependsOnGeometry(a, b, h, c, c);
  }

  /** Flows with the same geometry get the same pages. */
  lemma {:induction false} PagesDependOnGeometry(a: seq<Block>, b: seq<Block>, h: real, from: nat)
    requires SameGeometry(a, b) && from <= |a|
    ensures Pages(a, h, from) == Pages(b, h, from)
    decreases |a| - from
  {
    hide PageEnd, SkipBreaks;
    SkipDependsOnGeometry(a, b, from);
    var c := SkipBreaks(a, from);
    if c < |a| {
      PageEndDependsOnGeometry(a, b, h, c);
      PagesDependOnGeometry(a, b, h, PageEnd(a, h, c) + 1);
    }
  }
}
