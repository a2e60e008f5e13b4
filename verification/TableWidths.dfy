/** Automatic table layout: column widths between the widest word and the widest line of a column
    (section 17.5.2.2 of CSS 2.1). */
module TableWidths {

  /** A measured cell: the width of its widest word and of its widest unwrapped line. */
  datatype Cell = Cell(word: real, line: real)

  /** Inner padding of a cell, on each side. */
  const CELL_PAD := 5.0

  function Max(a: real, b: real): real { if a < b then b else a }

  function TotalOf(ws: seq<real>): real {
    if ws == [] then 0.0 else TotalOf(ws[..|ws| - 1]) + ws[|ws| - 1]
  }

  // ---- specification ----------------------------------------------------------------------

  /** The widest word of column `c` over the given rows; a row may be too short to have the column. */
  function WidestWord(rows: seq<seq<Cell>>, c: nat): real {
    if rows == [] then 0.0
    else
      var row, rest := rows[|rows| - 1], WidestWord(rows[..|rows| - 1], c);
      if c < |row| then Max(rest, row[c].word) else rest
  }

  /** The widest line of column `c` over the given rows. */
  function WidestLine(rows: seq<seq<Cell>>, c: nat): real {
    if rows == [] then 0.0
    else
      var row, rest := rows[|rows| - 1], WidestLine(rows[..|rows| - 1], c);
      if c < |row| then Max(rest, row[c].line) else rest
  }

  function MinWidths(rows: seq<seq<Cell>>, columns: nat): (r: seq<real>)
    ensures |r| == columns
  {
    seq(columns, (c: nat) => WidestWord(rows, c) + 2.0 * CELL_PAD)
  }

  function MaxWidths(rows: seq<seq<Cell>>, columns: nat): (r: seq<real>)
    ensures |r| == columns
  {
    seq(columns, (c: nat) => WidestLine(rows, c) + 2.0 * CELL_PAD)
  }

  /** The point at share `k` of the way from `lo` to `hi`. */
  function Between(lo: real, hi: real, k: real): real { lo + (hi - lo) * k }

  /** Every column at share `k` of the way from its minimum to its maximum. */
  function Blend(mins: seq<real>, maxs: seq<real>, k: real): (r: seq<real>)
    requires |mins| == |maxs|
    ensures |r| == |mins|
  {
    seq(|mins|, c requires 0 <= c < |mins| => Between(mins[c], maxs[c], k))
  }

  /** The column widths chosen for a content area of the given width. */
  function Widths(mins: seq<real>, maxs: seq<real>, content: real): (r: seq<real>)
    requires |mins| == |maxs|
    ensures |r| == |mins|
  {
    if TotalOf(maxs) <= content then maxs
    else if TotalOf(mins) >= content then mins
    else Blend(mins, maxs, (content - TotalOf(mins)) / (TotalOf(maxs) - TotalOf(mins)))
  }

  // ---- the layout loops -------------------------------------------------------------------

  /** Measured extremes, widths and the horizontal offset of the table. */
  method LayoutColumns(rows: seq<seq<Cell>>, content: real)
    returns (columns: nat, widths: seq<real>, centerX: real)
    ensures forall r :: 0 <= r < |rows| ==> |rows[r]| <= columns
    ensures columns == 0 || exists r :: 0 <= r < |rows| && |rows[r]| == columns
    ensures widths == Widths(MinWidths(rows, columns), MaxWidths(rows, columns), content)
    ensures centerX == Max(0.0, (content - TotalOf(widths)) / 2.0)
  {
    columns := 0;
    for r := 0 to |rows|
      invariant forall q :: 0 <= q < r ==> |rows[q]| <= columns
      invariant columns == 0 || exists q :: 0 <= q < r && |rows[q]| == columns
    {
      if columns < |rows[r]| {
        columns := |rows[r]|;
      }
    }
    var mins, maxs := MeasureColumns(rows, columns);
    var sumMax := Total(maxs);
    var sumMin := Total(mins);
    if sumMax <= content {
      widths := maxs;
    } else if sumMin >= content {
      widths := mins;
    } else {
      widths := StretchColumns(mins, maxs, content - sumMin, sumMax - sumMin);
    }
    var tableW := Total(widths);
    centerX := Max(0.0, (content - tableW) / 2.0);
  }

  method StretchColumns(mins: seq<real>, maxs: seq<real>, space: real, elastic: real) returns (widths: seq<real>)
    requires |mins| == |maxs| && elastic > 0.0
    ensures widths == Blend(mins, maxs, space / elastic)
  {
    var colW := new real[|mins|](_ => 0.0);
    ghost var k := space / elastic;
    for c := 0 to |mins|
      invariant forall d :: 0 <= d < c ==> colW[d] == Between(mins[d], maxs[d], k)
    {
      var share := if elastic > 0.0 then space / elastic else 0.0;
      var w := mins[c] + (maxs[c] - mins[c]) * share;
      assert w == Between(mins[c], maxs[c], share) && share == k;
      colW[c] := w;
    }
    widths := colW[..];
  }

  method Total(ws: seq<real>) returns (sum: real)
    ensures sum == TotalOf(ws)
  {
    sum := 0.0;
    for c := 0 to |ws|
      invariant sum == TotalOf(ws[..c])
    {
      assert ws[..c + 1][..c] == ws[..c];
      sum := sum + ws[c];
    }
    assert ws[..|ws|] == ws;
  }

  /** Lets one row of cells widen the measured columns. */
  method MeasureRow(ghost done: seq<seq<Cell>>, row: seq<Cell>, minW: array<real>, maxW: array<real>)
    requires minW != maxW && minW.Length == maxW.Length
    requires forall c :: 0 <= c < minW.Length ==> minW[c] == WidestWord(done, c) && maxW[c] == WidestLine(done, c)
    modifies minW, maxW
    ensures forall c :: 0 <= c < minW.Length ==>
              minW[c] == WidestWord(done + [row], c) && maxW[c] == WidestLine(done + [row], c)
  {
    assert (done + [row])[..|done|] == done;
    var c := 0;
    while c < |row| && c < minW.Length
      invariant c <= |row| && c <= minW.Length
      invariant forall d :: c <= d < minW.Length ==> minW[d] == WidestWord(done, d) && maxW[d] == WidestLine(done, d)
      invariant forall d :: 0 <= d < c ==>
                  minW[d] == WidestWord(done + [row], d) && maxW[d] == WidestLine(done + [row], d)
    {
      maxW[c] := Max(maxW[c], row[c].line);
      minW[c] := Max(minW[c], row[c].word);
      c := c + 1;
    }
  }

  method MeasureColumns(rows: seq<seq<Cell>>, columns: nat) returns (mins: seq<real>, maxs: seq<real>)
    ensures mins == MinWidths(rows, columns) && maxs == MaxWidths(rows, columns)
  {
    var minW := new real[columns](_ => 0.0);
    var maxW := new real[columns](_ => 0.0);
    for r := 0 to |rows|
      invariant forall c :: 0 <= c < columns ==>
                  minW[c] == WidestWord(rows[..r], c) && maxW[c] == WidestLine(rows[..r], c)
    {
      MeasureRow(rows[..r], rows[r], minW, maxW);
      assert rows[..r + 1] == rows[..r] + [rows[r]];
    }
    assert rows[..|rows|] == rows;
    for c := 0 to columns
      invariant forall d :: c <= d < columns ==> minW[d] == WidestWord(rows, d) && maxW[d] == WidestLine(rows, d)
      invariant forall d :: 0 <= d < c ==>
                minW[d] == MinWidths(rows, columns)[d] && maxW[d] == MaxWidths(rows, columns)[d]
    {
      maxW[c] := maxW[c] + 2.0 * CELL_PAD;
      minW[c] := minW[c] + 2.0 * CELL_PAD;
    }
    mins, maxs := minW[..], maxW[..];
  }

  // ---- what the widths guarantee ----------------------------------------------------------

  /** Pointwise `a <= b`. */
  ghost predicate Below(a: seq<real>, b: seq<real>) {
    |a| == |b| && forall c :: 0 <= c < |a| ==> a[c] <= b[c]
  }

  /** The measured extreme of a column is as wide as the widest of its cells, in any row, and no wider; a column
      without cells, or with negative widths only, measures 0. */
  lemma {:induction false} WidestIs(rows: seq<seq<Cell>>, c: nat)
    ensures forall r :: 0 <= r < |rows| && c < |rows[r]| ==>
              rows[r][c].word <= WidestWord(rows, c) && rows[r][c].line <= WidestLine(rows, c)
    ensures WidestWord(rows, c) >= 0.0 && WidestLine(rows, c) >= 0.0
    ensures WidestWord(rows, c) == 0.0 ||
              exists r :: 0 <= r < |rows| && c < |rows[r]| && rows[r][c].word == WidestWord(rows, c)
    ensures WidestLine(rows, c) == 0.0 ||
              exists r :: 0 <= r < |rows| && c < |rows[r]| && rows[r][c].line == WidestLine(rows, c)
  {
    if rows != [] {
      var n := |rows| - 1;
      var init := rows[..n];
      WidestIs(init, c);
      assert forall r :: 0 <= r < n ==> init[r] == rows[r];
    }
  }

  /** Both extremes get the padding of a cell on each side. */
  lemma {:induction false} ExtremesArePadded(rows: seq<seq<Cell>>, columns: nat, c: nat)
    requires c < columns
    ensures MinWidths(rows, columns)[c] == WidestWord(rows, c) + 10.0
    ensures MaxWidths(rows, columns)[c] == WidestLine(rows, c) + 10.0
  {
  }

  /** No word is wider than the line it stands on. */
  ghost predicate WordsFitLines(rows: seq<seq<Cell>>) {
    forall r, c :: 0 <= r < |rows| && 0 <= c < |rows[r]| ==> rows[r][c].word <= rows[r][c].line
  }

  lemma {:induction false} WidestWordBelowLine(rows: seq<seq<Cell>>, c: nat)
    requires WordsFitLines(rows)
    ensures WidestWord(rows, c) <= WidestLine(rows, c)
  {
    if rows != [] {
      WidestWordBelowLine(rows[..|rows| - 1], c);
    }
  }

  /** Measured cells give each column a minimum no larger than its maximum. */
  lemma {:induction false} MeasuredMinBelowMax(rows: seq<seq<Cell>>, columns: nat)
    requires WordsFitLines(rows)
    ensures Below(MinWidths(rows, columns), MaxWidths(rows, columns))
  {
    forall c: nat | c < columns ensures MinWidths(rows, columns)[c] <= MaxWidths(rows, columns)[c] {
      WidestWordBelowLine(rows, c);
    }
  }

  lemma {:induction false} SumMonotone(a: seq<real>, b: seq<real>)
    requires Below(a, b)
    ensures TotalOf(a) <= TotalOf(b)
  {
    if a != [] {
      SumMonotone(a[..|a| - 1], b[..|b| - 1]);
    }
  }

  lemma {:induction false} Distribute(a: real, b: real, k: real)
    ensures a * k + b * k == (a + b) * k
  {
  }

  lemma {:induction false} SumOfBlend(mins: seq<real>, maxs: seq<real>, k: real)
    requires |mins| == |maxs|
    ensures TotalOf(Blend(mins, maxs, k)) == TotalOf(mins) + (TotalOf(maxs) - TotalOf(mins)) * k
  {
    if mins != [] {
      var n := |mins| - 1;
      SumOfBlend(mins[..n], maxs[..n], k);
      assert Blend(mins, maxs, k)[..n] == Blend(mins[..n], maxs[..n], k);
      assert Blend(mins, maxs, k)[n] == Between(mins[n], maxs[n], k);
      Distribute(TotalOf(maxs[..n]) - TotalOf(mins[..n]), maxs[n] - mins[n], k);
    }
  }

  function Confined(x: real, lo: real, hi: real): real
  {
    if hi <= x then hi else if x <= lo then lo else x
  }

  /** The columns add up to the content width, clamped to what the columns can be. */
  lemma {:induction false} WidthsAddUp(mins: seq<real>, maxs: seq<real>, content: real)
    requires Below(mins, maxs)
    ensures TotalOf(mins) <= TotalOf(maxs)
    ensures TotalOf(Widths(mins, maxs, content)) == Confined(content, TotalOf(mins), TotalOf(maxs))
  {
    SumMonotone(mins, maxs);
    if TotalOf(mins) < content < TotalOf(maxs) {
      var elastic := TotalOf(maxs) - TotalOf(mins);
      var space := content - TotalOf(mins);
      SumOfBlend(mins, maxs, space / elastic);
      assert elastic * (space / elastic) == space;
    }
  }

  lemma {:induction false} ProductNonNegative(a: real, b: real)
    requires 0.0 <= a && 0.0 <= b
    ensures 0.0 <= a * b
  {
  }

  lemma {:induction false} BetweenMonotone(lo: real, hi: real, j: real, k: real)
    requires lo <= hi && 0.0 <= j <= k <= 1.0
    ensures lo <= Between(lo, hi, j) <= Between(lo, hi, k) <= hi
  {
    var gap := hi - lo;
    ProductNonNegative(gap, j);
    ProductNonNegative(gap, k - j);
    ProductNonNegative(gap, 1.0 - k);
    assert gap * j + gap * (k - j) == gap * k;
    assert gap * k + gap * (1.0 - k) == gap;
  }

  lemma {:induction false} Ratio(space: real, elastic: real)
    requires 0.0 <= space <= elastic && 0.0 < elastic
    ensures 0.0 <= space / elastic <= 1.0
  {
  }

  lemma {:induction false} RatioMonotone(a: real, b: real, elastic: real)
    requires 0.0 <= a <= b <= elastic && 0.0 < elastic
    ensures 0.0 <= a / elastic <= b / elastic <= 1.0
  {
    Ratio(a, elastic);
    Ratio(b, elastic);
    Ratio(b - a, elastic);
    assert a / elastic + (b - a) / elastic == b / elastic;
  }

  lemma {:induction false} BlendMonotone(mins: seq<real>, maxs: seq<real>, j: real, k: real)
    requires Below(mins, maxs) && 0.0 <= j <= k <= 1.0
    ensures Below(mins, Blend(mins, maxs, j))
    ensures Below(Blend(mins, maxs, j), Blend(mins, maxs, k))
    ensures Below(Blend(mins, maxs, k), maxs)
  {
    forall c | 0 <= c < |mins|
      ensures mins[c] <= Blend(mins, maxs, j)[c] <= Blend(mins, maxs, k)[c] <= maxs[c]
    {
      BetweenMonotone(mins[c], maxs[c], j, k);
    }
  }

  /** Every column stays between its minimum and its maximum. */
  lemma {:induction false} WidthsInRange(mins: seq<real>, maxs: seq<real>, content: real)
    requires Below(mins, maxs)
    ensures Below(mins, Widths(mins, maxs, content)) && Below(Widths(mins, maxs, content), maxs)
  {
    if TotalOf(mins) < content < TotalOf(maxs) {
      var k := (content - TotalOf(mins)) / (TotalOf(maxs) - TotalOf(mins));
      Ratio(content - TotalOf(mins), TotalOf(maxs) - TotalOf(mins));
      BlendMonotone(mins, maxs, k, k);
    }
  }

  /** A wider content area never makes any column narrower. */
  lemma {:induction false} WidthsMonotone(mins: seq<real>, maxs: seq<real>, narrow: real, wide: real)
    requires Below(mins, maxs) && narrow <= wide
    ensures Below(Widths(mins, maxs, narrow), Widths(mins, maxs, wide))
  {
    WidthsInRange(mins, maxs, narrow);
    WidthsInRange(mins, maxs, wide);
    if TotalOf(mins) < narrow && wide < TotalOf(maxs) {
      var elastic := TotalOf(maxs) - TotalOf(mins);
      RatioMonotone(narrow - TotalOf(mins), wide - TotalOf(mins), elastic);
      BlendMonotone(mins, maxs, (narrow - TotalOf(mins)) / elastic, (wide - TotalOf(mins)) / elastic);
    }
  }

  /** A table fits the content area if and only if its minimum widths do; it is then centred. */
  lemma {:induction false} FittingTableIsCentred(mins: seq<real>, maxs: seq<real>, content: real)
    requires Below(mins, maxs)
    ensures var table := TotalOf(Widths(mins, maxs, content));
            var x := Max(0.0, (content - table) / 2.0);
            && (table <= content <==> TotalOf(mins) <= content)
            && (table <= content ==> x + table + x == content)
            && (table > content ==> x == 0.0 && Widths(mins, maxs, content) == mins)
  {
    WidthsAddUp(mins, maxs, content);
  }
}
