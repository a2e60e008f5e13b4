# Verification of the Remin core logic

Remin is a terminal and notes workspace. This project models its pure logic in Dafny 4.11 and proves what the
program promises about it. `dafny verify dfyconfig.toml` checks everything.

- **Pagination and PDF layout** (`Flow`, `Pagination`, `Layout`, `LaidItems`, `PdfPages`,
  `HeadingAnchorShift`, `RowPages`, `TableWidths`). The layout engine walks the document and moves a cursor down
  the page; a greedy paginator cuts the flow of blocks into pages; the export does both twice, so that the table
  of contents can print page numbers. Proved: no node is lost on the way to the flow, the pages are an ordered
  partition, full, and as few as possible, page numbers move nothing, and exactly when every row prints the page
  of its own heading. Table columns share the width exactly.
- **Headings** (`MarkdownAst`, `HeadingTexts`, `SlugNewlines`, `Anchors`, `HtmlIds`, `Outline`, `Numbering`).
  One list of headings becomes HTML ids, link anchors, a nested HTML list, PDF bookmarks and section numbers, each
  by its own algorithm. Proved: what normalising and slugs make of any text, and when the algorithms agree, as
  equivalences.
- **Pane trees and the workspace** (`PaneTree`, `PaneNodes`, `WorkspaceModel`, `WorkspaceSpec`, `WorkspaceCore`,
  `WorkspaceSteps`, `WorkspaceInvariants`, `WorkspaceEffects`, `CommandHistory`, `AggregatedHistory`). A state
  machine of seventeen operations with its invariant over all runs, when each operation is accepted, what it
  changes and what it leaves untouched, the in-place tree algorithms on heap nodes, and command histories as the
  last 1000 collapsed records of the run.
- **Codecs** (`Base64`, `IsoTime`, `Json`, `Serialization`, `LegacyForms`, `Migration`, `Checkpoint`, `Sessions`,
  `Decimal`, `Integers`). Base64, timestamps, the JSON of workspaces, the files of older versions, their migration,
  checkpoint followed by reopening, and whole sessions of operations, checkpoints and reopenings.
- **Shell history and autosave** (`HistoryParser`, `HistoryAppending`, `HistoryPrinter`, `HistoryTracker`, `Autosave`).
  Parser against printers, parsing in parts against parsing at once, the incremental cache against a full reload
  over all runs, and the debouncing scheduler over all traces.
- **Shared** (`Options`, `Whitespace`, `Collapsing`, `Sums`).

Code that works by loops and updates is modelled by methods and classes; each is proved equal to a
specification function, and the lemmas prove what that function means. Real numbers stand for the program's
floating-point lengths and ratios. Measured text, the style sheet, the calendar and the clock are parameters.

## Properties that turned out to have exceptions

Each has a concrete counterexample and an exact condition.

- The paginator can leave a heading alone at the bottom of a page when two headings follow each other
  (`Pagination.AdjacentHeadingsStrandOne`; exactly when, for one page: `Pagination.KeepWithNext`, for a whole
  flow: `Pagination.PagesKeepHeadings`; never without adjacent headings: `Pagination.SeparateHeadingsAreKept`).
- Two different headings can get the same anchor: "intro", "intro", "intro-2"
  (`Anchors.IntroTwiceClashes`; exactly when: `Anchors.AnchorsUnique`).
- The slug of a heading with a raw newline can differ from the slug of its normalised text
  (`MarkdownAst.NewlineBreaksSlug`; exactly when: `SlugNewlines.NormalizingKeepsSlug`), and then an id in the HTML
  is not the anchor that is linked to (`HtmlIds.IdsAreHeadingAnchors`).
- A heading inside a quote makes the next heading's block carry the wrong anchor
  (`HeadingAnchorShift.QuotedHeadingShiftsAnchors`; exactly when: `HeadingAnchorShift.AnchorsAreOwnUnlessShifted`;
  all headings are visited exactly when `HeadingAnchorShift.VisitedIsAll` says).
- The table of contents of the PDF then prints wrong pages: the row of the quoted heading shows the page of the
  next heading, and the row of that one shows none (`RowPages.QuotedHeadingShiftsPages`; every row shows its own
  heading's page exactly when `RowPages.RowsShowTheirHeadingsWhen` and, on the document alone,
  `RowPages.RowsShowTheirHeadingsUnlessShifted` say).
- PDF bookmarks and the HTML contents nest differently as soon as a level is skipped, and section numbers are
  then no tree paths (`Numbering.SkippedLevel`; exactly when: `Numbering.PdfOutlineIsPrintedTree` for
  contents of any depth, `Numbering.NumbersAreTreePaths`).
- Splitting a tab whose focused pane is elsewhere returns and focuses a pane id that is in no tree
  (`WorkspaceEffects.SplitWithoutFocus`; exactly when: `WorkspaceEffects.SplitAddsPane`).
- Tabs without panes, as all note tabs are, come back from storage with a blank pane, and all blank panes have
  the empty id (`Sessions.TwoNotesShareAnId`; all pane ids stay unique exactly when
  `Sessions.NormalKeepsAllIds` says). The invariant of the workspace therefore counts the empty id as none.
- A rewrite of the history file that keeps its size is not noticed (`HistoryTracker.SameSizeRewriteIsMissed`;
  after any change of the file a sync agrees exactly when `HistoryTracker.SyncAgreesWhen` says).
- Timestamp lines appended to a plain file read differently on their own (`HistoryParser.StampAfterPlain`;
  exactly when: `HistoryParser.PlainAppended`).
- A command of several lines is split when a sync comes between its lines (`HistoryTracker.LateLineIsSplit`);
  lines appended to any file, plain or with timestamps, append their commands exactly when
  `HistoryAppending.AppendedWhen` says.
- Milliseconds -9 to -1 before the epoch are lost in ISO text (`IsoTime.FiveMillisAreLost`; exactly when:
  `IsoTime.RereadDropsBelowMillis`).
- Reopening brings back an old snapshot of a pane that has none any more
  (`Checkpoint.StaleSnapshotComesBack`; exactly when: `Checkpoint.ReopenRecovers`).
- A null tab cannot be read, but migrating makes a terminal tab of it (`Migration.NullTabBecomesReadable`;
  exactly when: `Migration.MigrateKeepsReading`).

## Model

| member | source | states |
|---|---|---|
| `Pagination.FillPage` | src/gui/markdown/markdown_pdf_export.cpp:92-124 | the page loop ends the page at the last block of the longest fitting run of content, one earlier if that run ends in a heading cut off from its successor |
| `Pagination.PaginateBlocks` | src/gui/markdown/markdown_pdf_export.cpp:81-131 | the whole paginator yields exactly the specified pages, and one blank page for a flow without content |
| `Pagination.PageIsASlice` | src/gui/markdown/markdown_pdf_export.cpp:86-125 | one page skips only page breaks, contains none, and fits the page height or is a single block |
| `Pagination.PagesAreACut` | src/gui/markdown/markdown_pdf_export.cpp:86-130 | the pages are consecutive slices of that kind that use up the flow, each drawn from the top of its first block |
| `Pagination.CutIsOrdered` | src/gui/markdown/markdown_pdf_export.cpp:125-126 | slices of any such cut come in order and never overlap |
| `Pagination.CutIsPartition` | src/gui/markdown/markdown_pdf_export.cpp:86-127 | a block is in a slice of a cut if and only if it is not a page break: the pages partition the content |
| `Pagination.PagesAreFull` | src/gui/markdown/markdown_pdf_export.cpp:92-124 | a page ends only where it must: its blocks end within the page height unless it is one block that is too high, and the block after it is no content, ends below the page, or is a heading whose own successor does |
| `Pagination.KeepWithNext` | src/gui/markdown/markdown_pdf_export.cpp:112-123 | a page strands its last heading if and only if the longest run that fits from its start has several blocks, ends in two headings, and the last of them is cut off from the next block |
| `Pagination.PagesKeepHeadings` | src/gui/markdown/markdown_pdf_export.cpp:81-131 | the pages of a whole flow strand no heading if and only if no page starts where what fits ends in two headings |
| `Pagination.SeparateHeadingsAreKept` | src/gui/markdown/markdown_pdf_export.cpp:112-123 | a flow without adjacent headings is cut without stranding any, so its pages are among the cuts they are compared with |
| `Pagination.AdjacentHeadingsStrandOne` | src/gui/markdown/markdown_pdf_export.cpp:112-123 | a flow of four blocks in which the first of two headings is left at the bottom of a page |
| `Pagination.GreedyStaysAhead` | src/gui/markdown/markdown_pdf_export.cpp:81-131 | from any point at or past the start of a cut, the greedy pages are no more than the slices of the cut |
| `Pagination.FewestPages` | src/gui/markdown/markdown_pdf_export.cpp:81-131 | on a flow whose tops never decrease no cut that strands no heading, and without headings no cut at all, has fewer pages |
| `Pagination.PagesDependOnGeometry` | src/gui/markdown/markdown_pdf_export.cpp:92-124 | flows with equal kinds, tops and heights get equal pages |
| `TableWidths.LayoutColumns` | src/gui/markdown/markdown_layout.cpp:690-743 | the column step yields the specified widths for the largest row and centres the table |
| `TableWidths.StretchColumns` | src/gui/markdown/markdown_layout.cpp:736-742 | each column gets its minimum plus its share of the space by elasticity |
| `TableWidths.MeasureRow` | src/gui/markdown/markdown_layout.cpp:714-720 | one row of cells widens the measured columns to the maxima over all rows so far |
| `TableWidths.MeasureColumns` | src/gui/markdown/markdown_layout.cpp:709-724 | minimum and maximum widths are the widest word and the widest line of each column plus padding |
| `TableWidths.WidestIs` | src/gui/markdown/markdown_layout.cpp:709-724 | the measured extremes of a column are the maxima over all its cells in any row, and 0 if there is none |
| `TableWidths.ExtremesArePadded` | src/gui/markdown/markdown_layout.cpp:713-724 | both extremes get 5 points of padding on each side |
| `TableWidths.MeasuredMinBelowMax` | src/gui/markdown/markdown_layout.cpp:713-724 | if no word is wider than its line, minima do not exceed maxima |
| `TableWidths.WidthsAddUp` | src/gui/markdown/markdown_layout.cpp:725-743 | the widths add up to the content width clamped between the sums of minima and maxima |
| `TableWidths.WidthsInRange` | src/gui/markdown/markdown_layout.cpp:725-743 | every column stays between its minimum and maximum |
| `TableWidths.WidthsMonotone` | src/gui/markdown/markdown_layout.cpp:725-743 | no column gets narrower when the content gets wider |
| `TableWidths.FittingTableIsCentred` | src/gui/markdown/markdown_layout.cpp:731-775 | the table fits if and only if the minima do; then it has equal margins, otherwise all columns are minimal and start at the left edge |
| `Layout.LayoutEngine.constructor` | src/gui/markdown/markdown_layout.cpp:362-375 | a new engine stands at the top of an empty flow |
| `Layout.LayoutEngine.PushBlock` | src/gui/markdown/markdown_layout.cpp:455-457 | a block is placed at the cursor plus its margin and the cursor moves below it |
| `Layout.LayoutEngine.AppendHeading` | src/gui/markdown/markdown_layout.cpp:427-458 | a heading takes the next anchor even when it has no text and gives no block |
| `Layout.LayoutEngine.MakeRow` | src/gui/markdown/markdown_layout.cpp:806-875 | the row of a heading has its number, anchor and page; its height is measured without the page number |
| `Layout.LayoutEngine.EmitToc` | src/gui/markdown/markdown_layout.cpp:803-880 | one row per collected heading, in order |
| `Layout.LayoutEngine.EmitHtml` | src/gui/markdown/markdown_layout.cpp:882-944 | raw HTML gives a page break, a rule, text, or opens or closes a wrapper |
| `Layout.LayoutEngine.EmitNode` | src/gui/markdown/markdown_layout.cpp:477-949 | the walk over one node adds exactly the specified items, whatever was laid out before |
| `Layout.LayoutEngine.EmitAll` | src/gui/markdown/markdown_layout.cpp:945-951 | the walk over all children of a node |
| `Layout.JoinCounters` | src/gui/markdown/markdown_layout.cpp:813-818 | the printed section number joins the counters with dots |
| `Layout.LayoutDocument` | src/gui/markdown/markdown_layout.cpp:357-954 | the blocks of a document are the specified items placed one below the other |
| `Layout.PlacedSnoc` | src/gui/markdown/markdown_layout.cpp:455-457 | what placing one more item adds to the flow and to the cursor |
| `Layout.PlacedInOrder` | src/gui/markdown/markdown_layout.cpp:455-457 | with non-negative margins and heights each block starts at or below the bottom of every earlier one |
| `Layout.VisitKeeps` | src/gui/markdown/markdown_layout.cpp:427-458 | over the whole walk heading blocks and rows carry the anchor and page of their heading, heading blocks come in order, and the headings met are exactly those outside other blocks |
| `Layout.VisitsAgree` | src/gui/markdown/markdown_layout.cpp:803-881 | two walks that differ only in known page numbers yield the same items but for these numbers |
| `Layout.PagesMoveNothing` | src/gui/markdown/markdown_layout.cpp:840-878 | filling in page numbers changes no kind, position or height of any block |
| `LaidItems.ShapesAsItems` | src/gui/markdown/markdown_layout.cpp:381-424 | the blocks of a node are appended to the flow, one item each with its kind and box, in order |
| `LaidItems.RowsAsItems` | src/gui/markdown/markdown_layout.cpp:803-880 | the first n rows of a table of contents add one item each, with number, depth, anchor and page of its heading |
| `LaidItems.NodeGivesItems` | src/gui/markdown/markdown_layout.cpp:477-949 | the walk over one laid-out node adds exactly what the node becomes: its blocks, its heading, its rows, its rule or what its raw HTML says, and opens or closes wrappers only for raw HTML |
| `LaidItems.VisitComes` | src/gui/markdown/markdown_layout.cpp:477-951 | after the nodes met so far, the walk over one more node of any kind has met the laid-out nodes in it as well, in document order |
| `LaidItems.DocumentIsItsNodes` | src/gui/markdown/markdown_layout.cpp:357-954 | the flow of a document is, in document order, what each of its laid-out nodes becomes, with heading numbers counted and wrappers opened by the nodes before it |
| `LaidItems.EveryNodeIsLaidOut` | src/gui/markdown/markdown_layout.cpp:945-951 | no laid-out node is lost: what it becomes stands in the flow right behind what the nodes before it became |
| `LaidItems.PlacedGaps` | src/gui/markdown/markdown_layout.cpp:455-457 | each block keeps kind, height, anchor and page of its item and starts exactly the two margins below the bottom of the block before it |
| `LaidItems.NumberTextSnoc` | src/gui/markdown/markdown_layout.cpp:813-818 | one more counter of a section number is one more numeral behind a dot |
| `LaidItems.NumberTextInjective` | src/gui/markdown/markdown_layout.cpp:813-818 | a printed section number determines all its counters |
| `LaidItems.PrintedNumbersDiffer` | src/gui/markdown/markdown_layout.cpp:803-818 | no two rows of a table of contents print the same number |
| `PdfPages.EnterPage` | src/gui/markdown/markdown_pdf_export.cpp:163-169 | the headings of one page overwrite their entries in the anchor map, and no other entry changes |
| `PdfPages.AnchorPages` | src/gui/markdown/markdown_pdf_export.cpp:161-170 | the map gives each anchor the last page that holds a heading with it, and has no other entry |
| `PdfPages.ExportPages` | src/gui/markdown/markdown_pdf_export.cpp:149-182 | both passes give the same pages; every printed number is the last page with a heading of that anchor; with distinct anchors every row shows the page of its own heading if and only if there are no rows or no block is numbered otherwise than its heading |
| `PdfPages.SamePages` | src/gui/markdown/markdown_pdf_export.cpp:178-180 | flows with equal geometry get equal final pages |
| `PdfPages.PrintedPagesAreRight` | src/gui/markdown/markdown_pdf_export.cpp:171-180 | in the second pass every row prints what the first pass found, and it still holds there |
| `PdfPages.SamePlaces` | src/gui/markdown/markdown_pdf_export.cpp:171-180 | both passes have the same rows and blocks of the same headings |
| `PdfPages.LayoutIsInOrder` | src/gui/markdown/markdown_layout.cpp:455-457 | in a laid-out document no block starts above the bottom of an earlier one |
| `PdfPages.DocumentUsesFewestPages` | src/gui/markdown/markdown_pdf_export.cpp:81-131 | the pages of a laid-out document are as few as any cut that strands no heading allows |
| `HeadingAnchorShift.VisitedIsAll` | src/gui/markdown/markdown_layout.cpp:945-951 | the layout meets all collected headings if and only if none is nested in a quote, list, table or other closed block |
| `HeadingAnchorShift.VisitedArePicked` | src/gui/markdown/markdown_layout.cpp:427-458 | the headings the layout meets are the collected ones outside other blocks, in order |
| `HeadingAnchorShift.AnchorsAreOwnUnlessShifted` | src/gui/markdown/markdown_layout.cpp:226-231 | with distinct anchors every heading met by the layout gets its own anchor if and only if no heading nested in another block comes before one that is not |
| `HeadingAnchorShift.BlocksCarryAnchors` | src/gui/markdown/markdown_layout.cpp:427-458 | each heading block carries the anchor its heading gets in this way |
| `HeadingAnchorShift.QuotedHeadingShiftsAnchors` | src/gui/markdown/markdown_layout.cpp:226-231 | a heading after a quoted heading is laid out with the quoted heading's anchor, which is not its own |
| `RowPages.AnchorTellsHeading` | src/gui/markdown/markdown_layout.cpp:226-231 | with distinct anchors a heading block and a row have the same anchor if and only if they have the same number |
| `RowPages.OneBlockPerHeading` | src/gui/markdown/markdown_layout.cpp:427-458 | no heading has two blocks |
| `RowPages.HeadingIsOnAPage` | src/gui/markdown/markdown_pdf_export.cpp:162-170 | pagination loses no heading, so a heading with a block always has a page |
| `RowPages.RowShowsItsNumber` | src/gui/markdown/markdown_pdf_export.cpp:160-182 | with distinct anchors a row shows the page of the one block with its number, and no page exactly when there is none |
| `RowPages.AllRowsOrNone` | src/gui/markdown/markdown_layout.cpp:803-881 | a document has a row for every collected heading, or no rows |
| `RowPages.NotShifted` | src/gui/markdown/markdown_layout.cpp:226-231 | if all rows are there and show their own headings, no block is numbered otherwise than its heading: each such block would need a later one |
| `RowPages.RowsShowTheirHeadingsWhen` | src/gui/markdown/markdown_pdf_export.cpp:160-182 | with distinct anchors, and headings nested anywhere, every row shows the page of its own heading if and only if there are no rows or every block has the number of its heading |
| `RowPages.InPlaceWhen` | src/gui/markdown/markdown_layout.cpp:226-231 | blocks have the numbers of their headings if no nested heading comes before a free one, and only then if all headings met have text |
| `RowPages.RowsShowTheirHeadingsUnlessShifted` | src/gui/markdown/markdown_pdf_export.cpp:160-182 | if all headings met have text, every row shows the page of its own heading if and only if there are no rows or no nested heading comes before a free one |
| `RowPages.QuotedHeadingShiftsPages` | src/gui/markdown/markdown_pdf_export.cpp:160-182 | for a quoted heading, a heading and a table of contents the first row shows the page of the second heading, and the second row shows none |
| `MarkdownAst.HeadingPlain` | src/gui/markdown/markdown_ast.cpp:393-410 | the accumulating walk appends the plain text of the node |
| `MarkdownAst.NormalizeText` | src/gui/markdown/markdown_ast.cpp:416-427 | runs of blanks become one space, blanks at both ends go |
| `MarkdownAst.SlugifyHeading` | src/gui/markdown/markdown_ast.cpp:69-82 | the slug loop computes the specified slug |
| `MarkdownAst.SlugOfNormalized` | src/gui/markdown/markdown_ast.cpp:69-82 | for every text, the slug of the normalised text is the slug of the text with newlines taken for spaces |
| `MarkdownAst.SlugIgnoresNormalization` | src/gui/markdown/markdown_ast.cpp:416-441 | without raw newlines, normalising does not change the slug |
| `MarkdownAst.NewlineBreaksSlug` | src/gui/markdown/markdown_ast.cpp:69-82 | a text with a newline whose slug changes when it is normalised |
| `MarkdownAst.SlugShape` | src/gui/markdown/markdown_ast.cpp:69-82 | slugs are non-empty, of slug characters in lower case, do not end in a dash, and are their own slugs |
| `MarkdownAst.CollectHeadings` | src/gui/markdown/markdown_ast.cpp:412-432 | the collector appends level and normalised text of all headings in document order |
| `HeadingTexts.NormalizeIs` | src/gui/markdown/markdown_ast.cpp:416-427 | a normalised text has the non-blank characters of the text in order, no blank at either end and otherwise only single spaces, and one of these between two neighbouring characters exactly where the text has blanks |
| `HeadingTexts.NormalizedIsUnique` | src/gui/markdown/markdown_ast.cpp:416-427 | there is no other text of that kind |
| `HeadingTexts.NormalizedIsOneLine` | src/gui/markdown/markdown_ast.cpp:416-427 | it has no tab and no newline |
| `HeadingTexts.EveryTextSpells` | src/gui/markdown/markdown_ast.cpp:69-82 | every text is letters of slugs with gaps of other characters between them |
| `HeadingTexts.SlugIsSpelled` | src/gui/markdown/markdown_ast.cpp:69-82 | its slug has these letters in lower case with as many dashes between them as the gap has, plus one for a separator before the first dash, and is "section" if there is no letter |
| `HeadingTexts.SlugCharacters` | src/gui/markdown/markdown_ast.cpp:69-82 | a slug has only lower-case letters, digits and four marks |
| `HeadingTexts.PlainTextsAreJoined` | src/gui/markdown/markdown_ast.cpp:393-410 | the plain text of a heading is the text of all pieces in it, at any depth, in document order |
| `HeadingTexts.CollectedHeading` | src/gui/markdown/markdown_ast.cpp:412-448 | the collected heading at each position has the level of the heading node there, its joined pieces normalised, and the anchor of that position |
| `SlugNewlines.SlugsSideBySide` | src/gui/markdown/markdown_ast.cpp:69-82 | the slugs of a text with newlines and with spaces for them are equal but for dashes at the end, unless a newline breaks the slug; then the first is shorter |
| `SlugNewlines.NormalizingKeepsSlug` | src/gui/markdown/markdown_ast.cpp:69-82 | normalising a heading keeps its slug if and only if no newline breaks it: one where the slug so far is open to a dash, the next slug character or separator is a slug character, and a slug character other than a dash follows |
| `Anchors.AnchorIndex.constructor` | src/gui/markdown/markdown_html.cpp:43-56 | no anchor has been made yet |
| `Anchors.AnchorIndex.Make` | src/gui/markdown/markdown_html.cpp:45-52 | the HTML deduplicator returns the anchor that the slugs so far determine |
| `Anchors.AssignAnchors` | src/gui/markdown/markdown_ast.cpp:436-448 | the deduplicating loop over the collected headings gives the same anchors |
| `Anchors.SameSlugDifferentAnchor` | src/gui/markdown/markdown_ast.cpp:440-446 | two headings with the same slug always get different anchors |
| `Anchors.NumberedInjective` | src/gui/markdown/markdown_ast.cpp:444 | a numbered anchor determines slug and number |
| `Anchors.AnchorsUnique` | src/gui/markdown/markdown_ast.cpp:440-446 | all anchors differ if and only if no slug equals what a repeated other slug becomes when numbered |
| `Anchors.IntroTwiceClashes` | src/gui/markdown/markdown_ast.cpp:440-446 | three headings of which two share an anchor |
| `HtmlIds.Renderer.RenderHeading` | src/gui/markdown/markdown_html.cpp:157-163 | a heading gets the next anchor as its id |
| `HtmlIds.Renderer.RenderBlock` | src/gui/markdown/markdown_html.cpp:155-267 | rendering a block visits its headings in order |
| `HtmlIds.Renderer.RenderItems` | src/gui/markdown/markdown_html.cpp:189-226 | rendering a list visits the headings of all its items |
| `HtmlIds.Renderer.RenderItem` | src/gui/markdown/markdown_html.cpp:206-220 | an item renders its blocks, except inline content |
| `HtmlIds.RenderHtmlBody` | src/gui/markdown/markdown_html.cpp:351-358 | the ids written are the anchors of the headings visited |
| `HtmlIds.RenderedIsAll` | src/gui/markdown/markdown_html.cpp:155-267 | the renderer visits exactly the collected headings if and only if headings stand only under root, quotes and list items |
| `HtmlIds.ItemsGiveIds` | src/gui/markdown/markdown_html.cpp:206-220 | in a list item text gives no ids, a heading gives its own, and other content those inside it |
| `HtmlIds.IdsAreHeadingAnchors` | src/gui/markdown/markdown_html.cpp:155-163 | where all headings are visited, the ids in the HTML are position by position the anchors linked to, if and only if no heading has a newline that breaks its slug |
| `Outline.NearestBelowIs` | src/gui/markdown/markdown_html.cpp:332-338 | the backward search finds the one index that is below the bound with nothing below it in between |
| `Outline.BuildToc` | src/gui/markdown/markdown_html.cpp:327-342 | the children of an entry are exactly the entries whose nearest lower predecessor it is, in order |
| `Outline.EmitToc` | src/gui/markdown/markdown_html.cpp:277-295 | the recursion prints an entry and then the subtrees of its children, one level deeper |
| `Outline.RenderToc` | src/gui/markdown/markdown_html.cpp:317-349 | every heading within the depth is printed exactly once, in document order, at its depth |
| `Outline.ForestIsRange` | src/gui/markdown/markdown_html.cpp:339-345 | a forest of whole subtrees prints a contiguous range of lines |
| `Outline.SubtreeIsRange` | src/gui/markdown/markdown_html.cpp:277-295 | a subtree prints exactly the range of entries up to the next one that is not deeper |
| `Outline.KeptParent` | src/gui/markdown/markdown_html.cpp:317-349 | leaving out deep headings changes no parent |
| `Numbering.PdfOutline` | src/gui/markdown/markdown_pdf_export.cpp:225-232 | the bookmark loop gives each heading the specified parent |
| `Numbering.LastAtLevelIs` | src/gui/markdown/markdown_pdf_export.cpp:225-231 | the table entry of a level is the last heading at that level |
| `Numbering.ClampIsNearest` | src/gui/markdown/markdown_pdf_export.cpp:225-232 | a level out of range counts as the nearest of 1 to 6 |
| `Numbering.PdfParentAgrees` | src/gui/markdown/markdown_pdf_export.cpp:225-232 | a bookmark's parent is the parent in the HTML contents if and only if that parent is exactly one level up, or there is none |
| `Numbering.PdfOutlineIsHtmlTree` | src/gui/markdown/markdown_pdf_export.cpp:225-232 | bookmarks and HTML contents are the same tree if and only if no heading skips a level |
| `Numbering.PdfOutlineIsPrintedTree` | src/gui/markdown/markdown_pdf_export.cpp:225-232 | over the headings within any depth, bookmarks and printed contents have the same parents if and only if none of these headings skips a level |
| `Numbering.TocNumbers` | src/gui/markdown/markdown_layout.cpp:804-812 | the resized counters of the native contents |
| `Numbering.NumbersIncrease` | src/gui/markdown/markdown_layout.cpp:811-812 | for any levels of at least 1, numbers increase lexicographically and never repeat |
| `Numbering.NumberIsPath` | src/gui/markdown/markdown_layout.cpp:811-812 | on a regular outline a number is the path of sibling ranks from the root |
| `Numbering.NumbersAreTreePaths` | src/gui/markdown/markdown_layout.cpp:811-812 | all numbers are tree paths if and only if the outline starts at level 1 and never skips one |
| `Numbering.SkippedLevel` | src/gui/markdown/markdown_layout.cpp:811-812 | for levels 1 and 3 the bookmark has no parent but the HTML entry has one, and the number is 1.0.1 where the path is 1.1 |
| `PaneTree.Find` | src/core/workspace_core.cpp:235-242 | a search finds a pane if and only if a leaf has that id, and finds that id |
| `PaneTree.RemoveDeletesOneLeaf` | src/core/workspace_core.cpp:256-292 | removing deletes exactly the first leaf with that id from the in-order list, and changes nothing if there is none |
| `PaneTree.RemoveKeepsFull` | src/core/workspace_core.cpp:278-291 | no empty leaf or one-sided split is left; a bare pane becomes the empty node |
| `PaneTree.RemoveDropsOneSplit` | src/core/workspace_core.cpp:278-291 | exactly one split disappears |
| `PaneTree.RemoveKeepsOthers` | src/core/workspace_core.cpp:256-292 | every other pane stays with its state |
| `PaneTree.RemovePromotesSibling` | src/core/workspace_core.cpp:280-290 | panes beside the removed one lose just that split from their path; all other paths keep kinds, ratios and sides |
| `PaneTree.PathsDetermineTree` | src/core/workspace_core.cpp:256-292 | two trees with the same panes on the same paths are equal |
| `PaneTree.SplitAddsOneLeaf` | src/core/workspace_core.cpp:325-338 | the new leaf comes directly behind the split one |
| `PaneTree.SplitKeepsShape` | src/core/workspace_core.cpp:325-338 | splitting keeps trees full, ids distinct and ratios in range |
| `PaneTree.SplitKeepsOthers` | src/core/workspace_core.cpp:325-338 | only the split pane's path grows, by the new split; all states and other paths stay |
| `PaneTree.RemoveUndoesSplit` | src/core/workspace_core.cpp:314-362 | removing the new pane restores exactly the old tree |
| `PaneTree.ParentOfPane` | src/core/workspace_core.cpp:295-310 | in a full tree every pane has a split above it unless it is the root |
| `PaneTree.SetRatioKeepsLeaves` | src/core/workspace_core.cpp:295-310 | a new ratio changes no pane, no emptiness, and no range |
| `PaneTree.SetRatioChangesParent` | src/core/workspace_core.cpp:295-310 | it shows exactly on the paths through the pane's own parent |
| `PaneTree.WithStateKeepsOthers` | src/core/workspace_core.cpp:396-418 | a new state of one pane is found there and changes no other |
| `PaneNodes.PaneNode.Leaf` | src/core/pane/pane.hpp:86-91 | a new leaf node |
| `PaneNodes.PaneNode.Split` | src/core/pane/pane.hpp:92-99 | a new split node over two nodes |
| `PaneNodes.PaneNode.MoveFrom` | src/core/workspace_core.cpp:282-284 | a node takes over everything another node holds |
| `PaneNodes.CollectPanes` | src/core/pane/pane.cpp:5-12 | the recursion appends the in-order leaves |
| `PaneNodes.Copy` | src/core/pane/pane.hpp:128-136 | a deep copy is a new tree of the same value |
| `PaneNodes.FindPane` | src/core/workspace_core.cpp:235-242 | the search returns the node that holds the pane, or null |
| `PaneNodes.Prune` | src/core/workspace_core.cpp:270-291 | pruning a split in place gives what joining its children gives |
| `PaneNodes.RemovePane` | src/core/workspace_core.cpp:256-292 | the in-place removal returns whether the id was there and leaves the tree with that leaf removed, without touching other nodes |
| `PaneNodes.SetSplitRatio` | src/core/workspace_core.cpp:295-310 | the in-place ratio edit succeeds exactly when the pane has a parent and changes that parent's ratio only |
| `PaneNodes.SplitFound` | src/core/workspace_core.cpp:325-338 | the in-place split succeeds exactly when the pane is there and gives the specified tree |
| `PaneNodes.SetState` | src/core/workspace_core.cpp:480-488 | overwriting the state of a found pane |
| `WorkspaceCore.WorkspaceCore.AddWindow` | src/core/workspace_core.cpp:93-102 | one step of the state machine, with its reply: a window is appended and focused, or the call throws without a workspace |
| `WorkspaceCore.WorkspaceCore.RemoveWindow` | src/core/workspace_core.cpp:104-114 | one step of the state machine, with its reply: all windows with the id go; focus is cleared if it was there; always marks dirty |
| `WorkspaceCore.WorkspaceCore.RenameWindow` | src/core/workspace_core.cpp:116-127 | one step of the state machine, with its reply: the first window with the id is renamed |
| `WorkspaceCore.WorkspaceCore.FocusWindow` | src/core/workspace_core.cpp:129-139 | one step of the state machine, with its reply: focus moves only to an existing window |
| `WorkspaceCore.WorkspaceCore.AddTab` | src/core/workspace_core.cpp:143-158 | one step of the state machine, with its reply: a terminal tab is appended and focused, or the call throws |
| `WorkspaceCore.WorkspaceCore.AddNoteTab` | src/core/workspace_core.cpp:160-177 | one step of the state machine, with its reply: a note tab is appended and focused, or the call throws |
| `WorkspaceCore.WorkspaceCore.SetTabNoteState` | src/core/workspace_core.cpp:179-193 | one step of the state machine, with its reply: the first matching tab takes the state if it is a note |
| `WorkspaceCore.WorkspaceCore.RemoveTab` | src/core/workspace_core.cpp:195-209 | one step of the state machine, with its reply: tabs with the id go from the first matching window |
| `WorkspaceCore.WorkspaceCore.FocusTab` | src/core/workspace_core.cpp:211-221 | one step of the state machine, with its reply: the tab focus is set unchecked |
| `WorkspaceCore.WorkspaceCore.SplitPane` | src/core/workspace_core.cpp:314-347 | one step of the state machine, with its reply: the bare root or the focused pane is split; the new id is focused in any case |
| `WorkspaceCore.WorkspaceCore.RemovePane` | src/core/workspace_core.cpp:349-362 | one step of the state machine, with its reply: the pane is removed and loses focus, or the call is refused |
| `WorkspaceCore.WorkspaceCore.FocusPane` | src/core/workspace_core.cpp:364-377 | one step of the state machine, with its reply: focus moves only to a pane of a focused tab |
| `WorkspaceCore.WorkspaceCore.SetPaneRatio` | src/core/workspace_core.cpp:379-392 | one step of the state machine, with its reply: ratios outside 0 to 1 and panes without a parent are refused |
| `WorkspaceCore.WorkspaceCore.AddCommand` | src/core/workspace_core.cpp:396-418 | one step of the state machine, with its reply: a command is appended unless empty or repeating, and the history is cut to 1000 |
| `WorkspaceCore.WorkspaceCore.SetPinned` | src/core/workspace_core.cpp:449-470 | one step of the state machine, with its reply: the newest record of the command is pinned or unpinned |
| `WorkspaceCore.WorkspaceCore.ClearHistory` | src/core/workspace_core.cpp:420-433 | one step of the state machine, with its reply: all histories are emptied |
| `WorkspaceCore.WorkspaceCore.ApplyRuntime` | src/core/workspace_core.cpp:474-496 | one step of the state machine, with its reply: the runtime state replaces the pane's, and its history only if it is not empty |
| `WorkspaceCore.PinNewest` | src/core/workspace_core.cpp:457-466 | the backward search pins the newest record of the command, or fails |
| `WorkspaceSteps.WindowStepsAre` | src/core/workspace_core.cpp:93-139 | when the operations on windows are accepted and what they change: the window added last and focused, all windows with the id gone, the first one renamed, the focus moved |
| `WorkspaceSteps.FilterLeaves` | src/core/workspace_core.cpp:104-114 | removing leaves exactly the elements without the id, in order |
| `WorkspaceSteps.TabStepsAre` | src/core/workspace_core.cpp:143-221 | the same for the operations on tabs, in the first window they apply to |
| `WorkspaceSteps.NoteStepIs` | src/core/workspace_core.cpp:179-193 | a note state goes to the first tab with the id, if that is a note tab, and nowhere else |
| `WorkspaceSteps.FocusPaneStepIs` | src/core/workspace_core.cpp:364-377 | a pane is focused in the first window whose focused tab shows it |
| `WorkspaceSteps.ClearStepIs` | src/core/workspace_core.cpp:420-433 | every history of every pane is empty, and nothing else has changed |
| `WorkspaceSteps.SplitTreeIs` | src/core/workspace_core.cpp:325-340 | for every orientation, ratio and tree with distinct ids, the new pane stands behind the bare or focused pane under a new split of just that orientation and ratio, and all other paths and states stay |
| `WorkspaceSteps.NothingToSplit` | src/core/workspace_core.cpp:325-340 | without a bare or focused pane in it the tree stays as it is |
| `WorkspaceSteps.PinMarksNewest` | src/core/workspace_core.cpp:457-466 | pinning changes the pin of the newest record of the command and nothing else, and fails exactly when there is none |
| `WorkspaceSteps.NewStateIs` | src/core/workspace_core.cpp:396-496 | when a command, a pin or a runtime state is accepted, and what the new state of the pane is, member by member |
| `WorkspaceSteps.WithStateChangesOne` | src/core/workspace_core.cpp:396-496 | a new state changes one pane of the tree: paths and all other states stay |
| `WorkspaceSteps.PaneStepsAre` | src/core/workspace_core.cpp:314-496 | operations on a pane change the tree of the first tab with the id, as described there, and the pane focus, and nothing else |
| `WorkspaceSteps.StepsAre` | src/core/workspace_core.cpp:93-496 | every one of the seventeen operations is accepted exactly when so described, and then changes exactly what is described |
| `WorkspaceSteps.AnswersAre` | src/core/workspace_core.cpp:93-418 | what the caller is answered: a fault or a no when it is not accepted, a yes without a change for a repeated command, a yes with the dirty mark otherwise |
| `WorkspaceInvariants.UsedOnceIsDistinct` | src/core/workspace_core.cpp:93-221 | ids used at most once are distinct within a tree |
| `WorkspaceInvariants.AddWindowKeepsInv` | src/core/workspace_core.cpp:93-102 | adding a window keeps the invariant of the workspace |
| `WorkspaceInvariants.RemoveWindowKeepsInv` | src/core/workspace_core.cpp:104-114 | removing windows keeps the invariant of the workspace |
| `WorkspaceInvariants.FocusWindowKeepsInv` | src/core/workspace_core.cpp:129-139 | focusing a window keeps the invariant of the workspace |
| `WorkspaceInvariants.AppendTabKeepsInv` | src/core/workspace_core.cpp:143-177 | adding a tab keeps the invariant of the workspace |
| `WorkspaceInvariants.RemoveTabKeepsInv` | src/core/workspace_core.cpp:195-209 | removing tabs keeps the invariant of the workspace |
| `WorkspaceInvariants.NoteStateKeepsInv` | src/core/workspace_core.cpp:179-193 | changing a note keeps the invariant of the workspace |
| `WorkspaceInvariants.PaneStepKeepsInv` | src/core/workspace_core.cpp:314-418 | any operation on one pane keeps the invariant of the workspace |
| `WorkspaceInvariants.ClearHistoryKeepsInv` | src/core/workspace_core.cpp:420-433 | clearing all histories keeps the invariant of the workspace |
| `WorkspaceInvariants.StepKeepsInv` | src/core/workspace_core.cpp:93-418 | every successful operation with fresh non-empty ids keeps ids unique but for blank panes, trees full or empty, ratios in range and the window focus valid |
| `WorkspaceInvariants.RunKeepsInv` | src/core/workspace_core.cpp:93-418 | so does every run |
| `WorkspaceInvariants.PaneStepUses` | src/core/workspace_core.cpp:314-418 | an operation on one pane uses no id more often than before, except the new pane's id once |
| `WorkspaceEffects.OthersUntouched` | src/core/workspace_core.cpp:314-418 | an operation on one pane leaves the state of every other pane of the workspace as it was |
| `WorkspaceEffects.OnlyPlace` | src/core/workspace_core.cpp:235-251 | where ids are unique, a pane found anywhere is the pane found first |
| `WorkspaceEffects.StateIsSetInTab` | src/core/workspace_core.cpp:396-496 | in the addressed tab the pane gets exactly the state the operation computes, whatever ids are shared |
| `WorkspaceEffects.StateIsSet` | src/core/workspace_core.cpp:396-496 | so the pane is found with that state in the workspace, if no other pane shares its id |
| `WorkspaceEffects.SplitAddsPane` | src/core/workspace_core.cpp:325-340 | after a split the new id exists if and only if the root was a bare pane, or the tab holds the focused pane, or it holds a pane with the empty id; it is focused in any case |
| `WorkspaceEffects.SplitWithoutFocus` | src/core/workspace_core.cpp:325-343 | a run of three operations after which the answered id is focused but in no tree |
| `WorkspaceEffects.RemoveUndoesSplitPane` | src/core/workspace_core.cpp:314-362 | splitting and removing the new pane restores the whole workspace but for the cleared pane focus |
| `CommandHistory.AddAllIsCappedCollapse` | src/core/workspace_core.cpp:404-412 | adding records one at a time gives the last 1000 of their collapse |
| `CommandHistory.StructureKeepsPane` | src/core/workspace_core.cpp:93-221 | operations on windows and tabs keep the state of every pane that stays, if no other pane shares its id |
| `CommandHistory.StepHistory` | src/core/workspace_core.cpp:396-418 | one operation adds at most its own record to a pane's history |
| `CommandHistory.RemovedIsGone` | src/core/workspace_core.cpp:349-362 | a removal uses the id exactly once less; the pane is found no more if and only if it was used once |
| `CommandHistory.RunHistory` | src/core/workspace_core.cpp:396-418 | over any run in which the pane stays and its history is not cleared, replaced or pinned, it is the old one with the run's accepted records added, also after reopening |
| `CommandHistory.RunHistoryFromEmpty` | src/core/workspace_core.cpp:396-418 | from an empty history it is then the last 1000 of the run's records with adjacent repeats collapsed to the first |
| `CommandHistory.RunCommands` | src/core/workspace_core.cpp:396-470 | with pins in between the same holds of the commands |
| `CommandHistory.RunCommandsFromEmpty` | src/core/workspace_core.cpp:396-470 | from an empty history the commands are, pins or not, those of the last 1000 collapsed records |
| `Collapsing.CollapseHasNoRepeat` | src/core/workspace_core.cpp:404-412 | a collapsed list has no adjacent repeats and nothing new |
| `Collapsing.CollapseCongruence` | src/gui/terminal/pane_history_tracker.cpp:171-179 | collapsing a concatenation depends only on what the parts collapse to |
| `AggregatedHistory.CollectTab` | src/core/workspace/workspace.hpp:82-88 | the loop over one tab appends the commands of its panes in order |
| `AggregatedHistory.AggregateCommandHistory` | src/core/workspace/workspace.hpp:77-92 | the nested loops list all commands in window, tab, pane and command order |
| `AggregatedHistory.AggregateHoldsHistories` | src/core/workspace/workspace.hpp:77-92 | for every pane the list holds exactly that pane's history, in order |
| `AggregatedHistory.AggregateIsInOrder` | src/core/workspace/workspace.hpp:77-92 | cutting windows, tabs or panes in two cuts the list in two; each command gives one entry with the ids of its window, tab and pane |
| `AggregatedHistory.EntriesNameTheirPlace` | src/core/workspace/workspace.hpp:77-92 | every entry names a window, a tab in it and a pane in that, and a command of its history |
| `Base64.EncodeBytes` | src/core/serialization.hpp:25-38 | the encoding loop computes the specified encoding |
| `Base64.DecodeString` | src/core/serialization.hpp:40-75 | the decoding loop computes the specified decoding, also of malformed text |
| `Base64.DecodeOfEncode` | src/core/serialization.hpp:25-75 | decoding an encoding gives the bytes back, for every byte sequence |
| `Base64.EncodeShape` | src/core/serialization.hpp:25-38 | an encoding has four characters per started group of three bytes, and padding exactly at the end (section 4 of RFC 4648) |
| `Base64.EncodeIsCanonical` | src/core/serialization.hpp:25-38 | encodings are in canonical form |
| `Base64.EncodeOfDecode` | src/core/serialization.hpp:25-75 | encoding what was decoded gives the text back if and only if it is canonical |
| `Base64.AlphabetIs` | src/core/serialization.hpp:25-38 | the alphabet of table 1 of RFC 4648 |
| `Base64.StandardVectors` | src/core/serialization.hpp:25-38 | test vectors of section 10 of RFC 4648 |
| `IsoTime.LeadingIntOfPadded` | src/core/serialization.cpp:11-35 | zero-padded milliseconds read back, except that a sign behind the padding is lost |
| `IsoTime.FromIsoOfToIso` | src/core/serialization.cpp:9-38 | what a written time reads back as, for every 64-bit time |
| `IsoTime.RereadDropsBelowMillis` | src/core/serialization.cpp:9-38 | that is the time cut to milliseconds toward zero if and only if its milliseconds are not -9 to -1 |
| `IsoTime.FiveMillisAreLost` | src/core/serialization.cpp:9-38 | five milliseconds before the epoch read back as the epoch |
| `IsoTime.RereadTwice` | src/core/serialization.cpp:9-38 | reading back loses nothing the second time |
| `IsoTime.IsoText` | src/core/serialization.cpp:9-22 | a time from the epoch on is written as its second, a dot, three digits of milliseconds and a Z |
| `IsoTime.TextsWithoutFraction` | src/core/serialization.cpp:24-38 | a text without a fraction is read to the second, one without a date as the epoch |
| `Serialization.InterruptedReadsBack` | src/core/serialization.hpp:102-127 | interrupted commands round trip |
| `Serialization.RecordReadsBack` | src/core/serialization.hpp:135-148 | command records round trip, pinned or not |
| `Serialization.PaneStateReadsBack` | src/core/serialization.hpp:150-190 | pane states round trip but for the environment |
| `Serialization.TreeReadsBack` | src/core/serialization.cpp:40-86 | any pane tree reads back with empty nodes as blank panes and without environments |
| `Serialization.TreeRoundTrip` | src/core/serialization.cpp:40-86 | a pane tree reads back as itself if and only if it has no empty node and no environment |
| `Serialization.NoteReadsBack` | src/core/serialization.hpp:204-230 | note states round trip |
| `Serialization.TabReadsBack` | src/core/serialization.hpp:232-250 | tabs round trip up to their tree |
| `Serialization.WindowReadsBack` | src/core/serialization.hpp:252-288 | windows round trip up to their tabs; times are exact |
| `Serialization.UiReadsBack` | src/core/serialization.hpp:292-323 | the directory tree state round trips |
| `Serialization.WorkspaceReadsBack` | src/core/serialization.hpp:325-360 | a workspace reads back normalised: trees as above, times cut, generation cut to 32 bits, everything else the same |
| `Serialization.NormalTwice` | src/core/serialization.hpp:325-360 | normalising is idempotent |
| `LegacyForms.EitherFormReads` | src/core/serialization.hpp:135-148 | a history that mixes strings and objects reads as the commands of the strings, without time and pin, and the records as they are |
| `LegacyForms.OldStateReads` | src/core/serialization.hpp:150-190 | the state of a pane written with plain strings, scrollback text and a bare interrupted command keeps all texts, with times 0, no pins and an unknown source |
| `LegacyForms.OldTreeReads` | src/core/serialization.cpp:40-86 | so does any pane tree over such states |
| `LegacyForms.OldTabReads` | src/core/serialization.hpp:232-250 | a tab without kind and note state is a terminal tab |
| `LegacyForms.OldWindowReads` | src/core/serialization.hpp:252-288 | a window with a title in place of a label has it as its name |
| `LegacyForms.OldWorkspaceReads` | src/core/serialization.hpp:325-360 | a workspace without version, generation and user interface state reads with the defaults for these, and with all else that was written |
| `LegacyForms.OldWorkspaceMigrates` | src/core/serialization.hpp:363-394 | such a file can be migrated, reads as the same workspace then, and also after it was written again in the current form |
| `LegacyForms.DefaultsOfParts` | src/core/serialization.hpp:102-250 | what is read of records, panes, trees, notes and tabs that have no member at all |
| `LegacyForms.DefaultsOfStates` | src/core/serialization.hpp:150-323 | the same for states, windows and the directory tree |
| `LegacyForms.DefaultsOfWorkspace` | src/core/serialization.hpp:325-360 | the same for a workspace |
| `LegacyForms.NoteTextsByName` | src/core/serialization.hpp:204-230 | each text of a note is read from the member of its name; flags and numbers likewise |
| `LegacyForms.DirectoryMembersByName` | src/core/serialization.hpp:292-323 | each member of the directory tree is read from the member of its name |
| `LegacyForms.RecordMembersByName` | src/core/serialization.hpp:102-148 | the same for command records and interrupted commands, with the two known sources |
| `LegacyForms.TabKindsByName` | src/core/serialization.hpp:232-250 | only the kind "note" makes a note tab |
| `LegacyForms.TreeMembersByName` | src/core/serialization.cpp:69-86 | only the kind "empty" makes a blank pane of an object without one, only "vertical" a vertical split; the ratio is read by its name |
| `Migration.MigrateElements` | src/core/serialization.hpp:377-392 | a loop that migrates elements in place, over arrays, objects, null and single values |
| `Migration.MigrateWorkspaceJson` | src/core/serialization.hpp:371-394 | the in-place migration computes the specified JSON or throws |
| `Migration.StateMeaning` | src/core/serialization.hpp:382-387 | rewriting a bare interrupted command does not change what is read |
| `Migration.TreeMeaning` | src/core/serialization.hpp:380-388 | nor does migrating the tree of a tab, whatever its kind |
| `Migration.TabMeaning` | src/core/serialization.hpp:378-388 | filling in kind and note state changes neither what is read of a tab nor whether it can be read, unless it is null |
| `Migration.HeaderMeaning` | src/core/serialization.hpp:372-374 | filling in schema version, generation and user interface state changes neither what is read nor whether it can be read |
| `Migration.WindowMeaning` | src/core/serialization.hpp:375-390 | migrating all tabs of a readable window does not change what is read |
| `Migration.WindowKeepsReading` | src/core/serialization.hpp:375-390 | without a null tab, migrating a window changes neither what is read of it nor whether it can be read |
| `Migration.NullTabThrows` | src/core/serialization.hpp:232-250 | a window with a null tab cannot be read |
| `Migration.MigrateKeepsMeaning` | src/core/serialization.hpp:371-394 | every JSON that reads as a workspace can be migrated and then reads as the same workspace |
| `Migration.MigrateKeepsReading` | src/core/serialization.hpp:371-394 | a JSON that reads after migrating reads as the same before it if and only if it has no null tab; with one it cannot be read |
| `Migration.NullTabBecomesReadable` | src/core/serialization.hpp:378-379 | a workspace with a null tab that cannot be read, but can after migrating |
| `Migration.MigrateTwice` | src/core/serialization.hpp:371-394 | migrating again changes nothing, for every JSON that can be migrated |
| `Migration.MigratedIsCurrent` | src/core/serialization.hpp:363-394 | after migrating, version, generation and user interface state are present, every tab has kind and note state, and no root pane holds a bare interrupted command |
| `Migration.TabKeepsMembers` | src/core/serialization.hpp:377-388 | a tab migrates if and only if it is an object or null, and keeps every member but the missing kind and note state and the state of a pane at its root |
| `Migration.WindowKeepsMembers` | src/core/serialization.hpp:375-390 | a list of tabs migrates if and only if each tab does, tab by tab, and nothing else of the window changes |
| `Migration.WorkspaceKeepsMembers` | src/core/serialization.hpp:371-394 | a workspace migrates if and only if it is an object whose version and generation are numbers or missing and whose windows migrate; everything else is kept |
| `Checkpoint.CollectSnapshots` | src/core/workspace_core.cpp:511-524 | the nested loops collect the snapshots of all panes that have one, in order |
| `Checkpoint.Storage.WriteCheckpoint` | src/storage/storage.cpp:28-161 | row and blobs are all written, or nothing is |
| `Checkpoint.Storage.LoadWorkspace` | src/storage/storage.cpp:184-203 | the stored row as a workspace; none if it is missing or does not read |
| `Checkpoint.TakeCheckpoint` | src/core/workspace_core.cpp:500-538 | time and generation move on in any case; only a successful write changes the store and clears the dirty mark |
| `Checkpoint.OpenWorkspace` | src/core/workspace_core.cpp:34-59 | the stored workspace with stored snapshots laid over its panes becomes current, or nothing changes |
| `Checkpoint.StoredBlob` | src/core/workspace_core.cpp:511-528 | after a checkpoint a pane id without snapshots keeps its old blob and one with a snapshot has a snapshot |
| `Checkpoint.StoredSnapshot` | src/core/workspace_core.cpp:511-528 | the blob of a pane is its own snapshot, if no other pane with its id has one |
| `Checkpoint.SnapshotsApartUpToBlanks` | src/core/workspace_core.cpp:511-524 | where ids are unique, no two panes store under the same id if and only if at most one blank pane has a snapshot |
| `Checkpoint.OverlaidWindows` | src/core/workspace_core.cpp:39-55 | where no two panes store under the same id, laying stored snapshots over the normalised workspace changes nothing if and only if no blob is stale |
| `Checkpoint.ReopenRecovers` | src/core/workspace_core.cpp:34-59 | opening after a checkpoint gives the normalised workspace if and only if nothing is stored under a pane's id but its own snapshot, for all workspaces and tables |
| `Checkpoint.ReopenRecoversUnlessStale` | src/core/workspace_core.cpp:34-59 | where no two panes store under the same id, that is if and only if no pane without a snapshot has an id with a stored blob |
| `Checkpoint.StaleSnapshotComesBack` | src/core/workspace_core.cpp:39-55 | a pane without a snapshot gets an old one when its workspace is reopened |
| `Sessions.NormalUses` | src/core/serialization.cpp:69-86 | reading back adds a use of the empty id for every tab without panes, and changes no other count |
| `Sessions.NormalKeepsInv` | src/core/serialization.cpp:69-86 | what is read back of a well-formed workspace is well formed |
| `Sessions.NormalKeepsAllIds` | src/core/serialization.cpp:69-86 | reading back keeps all pane ids unique, the empty one included, if and only if there is at most one blank pane or tab without panes |
| `Sessions.TwoNotesShareAnId` | src/core/serialization.cpp:69-86 | two note tabs are read back with a blank pane each, under the same id |
| `Sessions.OverlayKeepsInv` | src/core/workspace_core.cpp:39-55 | laying stored snapshots over a workspace keeps it well formed |
| `Sessions.SessionsKeepInv` | src/core/workspace_core.cpp:34-538 | over every session of operations, checkpoints and openings the open workspace and all that is stored stay well formed |
| `Sessions.FreshSessionsKeepInv` | src/core/workspace_core.cpp:34-538 | in particular every session from an empty database |
| `Sessions.ReopenKeepsHistory` | src/core/workspace_core.cpp:34-59 | a checkpoint followed by opening keeps the history of every pane that has an id |
| `Sessions.CheckpointLeaves` | src/core/workspace_core.cpp:500-538 | a checkpoint changes time and generation only; once written the stored row reads as that workspace, other rows stay and the dirty mark goes; refused, database and mark stay |
| `Sessions.OpenLeaves` | src/core/workspace_core.cpp:34-59 | opening leaves database and dirty mark alone; if the row reads, its workspace is open with the stored snapshot, where there is one, in each pane and nothing else changed; otherwise nothing changes |
| `Sessions.GenerationCountsSaves` | src/core/workspace_core.cpp:500-538 | over any run of operations and checkpoints the generation counts the checkpoints, refused ones included, modulo 64 bits |
| `Whitespace.TrimIs` | src/core/terminal/history_parser.cpp:13-19 | trimming takes all white space off both ends and nothing else |
| `HistoryParser.TrimLine` | src/core/terminal/history_parser.cpp:13-19 | the two loops trim both ends |
| `HistoryParser.DetectTimestamps` | src/core/terminal/history_parser.cpp:41-48 | the format is decided by the first line that is not blank |
| `HistoryParser.ParseTimedLines` | src/core/terminal/history_parser.cpp:50-81 | the loop over a timestamped file, with the exception for timestamps beyond 64 bits |
| `HistoryParser.ParsePlainLines` | src/core/terminal/history_parser.cpp:82-93 | the loop over a plain file |
| `HistoryParser.ParseHistoryBuffer` | src/core/terminal/history_parser.cpp:32-97 | the parser computes the specified records |
| `HistoryParser.LinesConcat` | src/core/terminal/history_parser.cpp:55 | the lines of a file that ended in a newline and was appended to |
| `HistoryParser.TimedConcat` | src/core/terminal/history_parser.cpp:58-70 | a timestamp line finishes everything before it |
| `HistoryParser.ParseAppended` | src/core/terminal/history_parser.cpp:32-97 | appending lines that keep the format appends their commands |
| `HistoryParser.PlainAppended` | src/core/terminal/history_parser.cpp:41-93 | for a plain file that holds if and only if the appended part does not start with a timestamp |
| `HistoryParser.StampAfterPlain` | src/core/terminal/history_parser.cpp:41-93 | a timestamp line appended to a plain file is a command of the file but none on its own |
| `HistoryAppending.ParseSplits` | src/core/terminal/history_parser.cpp:50-81 | a timestamped parse stops and goes on from the timestamp and command collected so far |
| `HistoryAppending.AppendedWhen` | src/core/terminal/history_parser.cpp:32-97 | for every file and all lines appended to it, their commands are appended if and only if the lines keep the format, or follow an exception, or throw as well behind an open command, or between commands are blank up to the next timestamp or are one trimmed line under timestamp 0 |
| `HistoryAppending.SplitCommand` | src/core/terminal/history_parser.cpp:50-81 | a command of two lines parsed in two parts gives two commands |
| `HistoryAppending.StampsAre` | src/core/terminal/history_parser.cpp:21-30 | a timestamp line is a number sign and a numeral within white space, and its seconds are that number |
| `HistoryPrinter.ParseOfPrintPlain` | src/gui/window/terminal_tab_view.cpp:680-688 | commands seeded one per line read back as they were if and only if each is trimmed, non-empty and on one line and the first is not timestamp-like |
| `HistoryPrinter.ParseOfPrintTimed` | src/core/terminal/history_parser.cpp:50-81 | records written with timestamp lines read back, multi-line commands included, if and only if first lines are not blank, no line is a timestamp and the seconds fit 64 bits |
| `HistoryPrinter.TimedSize` | src/core/terminal/history_parser.cpp:50-81 | the timestamped format keeps every character of the commands only if no line is skipped or taken for a timestamp |
| `HistoryPrinter.PlainSize` | src/core/terminal/history_parser.cpp:82-93 | the plain format keeps every character only if every line is a trimmed command |
| `HistoryTracker.PaneHistoryTracker.InitialLoad` | src/gui/terminal/pane_history_tracker.cpp:18-40 | the cache becomes the parsed file; after an exception it is empty and sizes are unchanged |
| `HistoryTracker.PaneHistoryTracker.ParseAndMerge` | src/gui/terminal/pane_history_tracker.cpp:165-180 | new records are appended unless they repeat the newest command |
| `HistoryTracker.PaneHistoryTracker.Sync` | src/gui/terminal/pane_history_tracker.cpp:42-97 | nothing, an incremental merge or a full reload, by size and time; returns whether the number of entries changed |
| `HistoryTracker.PaneHistoryTracker.PinCommand` | src/gui/terminal/pane_history_tracker.cpp:127-137 | the newest entry of the command is pinned |
| `HistoryTracker.PaneHistoryTracker.IsPinned` | src/gui/terminal/pane_history_tracker.cpp:139-148 | the pin of the newest entry of the command |
| `HistoryTracker.PinIsRead` | src/gui/terminal/pane_history_tracker.cpp:127-148 | a pin that was set is read back, no other command's pin and no record changes |
| `HistoryTracker.MergedCollapses` | src/gui/terminal/pane_history_tracker.cpp:171-179 | merging and appending are the same up to adjacent repeats |
| `HistoryTracker.MergedGrows` | src/gui/terminal/pane_history_tracker.cpp:171-179 | merging keeps the old entries with their pins and adds unpinned ones, none of which repeats the command before it |
| `HistoryTracker.GrowingSync` | src/gui/terminal/pane_history_tracker.cpp:60-90 | a sync on a file that has grown grows the cache in that way by what the new part adds, and answers whether it has more entries; an exception changes nothing |
| `HistoryTracker.GrowthIsUnique` | src/gui/terminal/pane_history_tracker.cpp:171-179 | there is only one cache of that kind with the same collapsed records |
| `HistoryTracker.ShrinkingSync` | src/gui/terminal/pane_history_tracker.cpp:42-97 | a sync on a file that has shrunk takes the whole file without pins and answers whether the number of entries changed; an exception empties the cache |
| `HistoryTracker.SameSizeSync` | src/gui/terminal/pane_history_tracker.cpp:60-97 | a file of the same size is not looked at |
| `HistoryTracker.SyncAgrees` | src/gui/terminal/pane_history_tracker.cpp:42-97 | a sync on an extended or shortened file makes the cache agree with the file, and does not throw |
| `HistoryTracker.SyncAgreesWhen` | src/gui/terminal/pane_history_tracker.cpp:42-97 | whatever has become of the file, a sync that does not throw agrees with it if and only if it is smaller, or what was seen followed by what lies beyond the old size collapses to the same records |
| `HistoryTracker.RunKeepsInv` | src/gui/terminal/pane_history_tracker.cpp:18-97 | over every run the cache agrees with what was last seen of the file |
| `HistoryTracker.IncrementalAgreesWithReload` | src/gui/terminal/pane_history_tracker.cpp:18-97 | over every run of appends, rewrites, pins and syncs that ends with a sync, cache and reload hold the same records up to adjacent repeats |
| `HistoryTracker.SameSizeRewriteIsMissed` | src/gui/terminal/pane_history_tracker.cpp:60-80 | a pair of files of one size for which a sync leaves the cache wrong |
| `HistoryTracker.LateLineIsSplit` | src/gui/terminal/pane_history_tracker.cpp:60-80 | a command whose second line comes after a sync is in the cache in two parts |
| `Autosave.Autosaver.NoteTerminalActivity` | src/core/autosave.cpp:17-21 | activity (re)starts the window of its resource |
| `Autosave.Autosaver.Due` | src/core/autosave.cpp:39-45 | true exactly when an entry is due |
| `Autosave.Autosaver.RunCallback` | src/core/autosave.cpp:77 | one run of the callback, with the activity it raises meanwhile |
| `Autosave.Autosaver.Flush` | src/core/autosave.cpp:58-80 | true exactly when an entry was due; the callback runs exactly once if a workspace entry was due and there is one, else never |
| `Autosave.Autosaver.FlushNow` | src/core/autosave.cpp:82-90 | one callback run if there is one, and nothing stays pending |
| `Autosave.FlushDropsDue` | src/core/autosave.cpp:62-79 | due entries go even if the callback marked them again; all others stay, unchanged unless marked |
| `Autosave.ReentrantMarksVanish` | src/core/autosave.cpp:77-78 | over any trace the marks that the callback raises on the workspace never outlive the flush |
| `Autosave.PendingIsArmed` | src/core/autosave.cpp:17-79 | over any trace, with or without callbacks, what is pending is exactly what had activity after its last flush, with the time of its last activity |
| `Autosave.FlushedExactlyWhenIdle` | src/core/autosave.cpp:33-80 | an entry is flushed if and only if its window has passed since its last activity and it was not flushed since |
| `Autosave.WindowsByKind` | src/core/autosave.cpp:33-37 | terminals and the workspace wait for the debounce window, notes for the idle window, and a window of 0 is never due |
| `Autosave.CallbackRunsWhenIdle` | src/core/autosave.cpp:58-80 | over any trace a flush runs the workspace callback if and only if the debounce window has passed since the last activity of a workspace not flushed since |
| `Autosave.NewActivityBetweenFlushes` | src/core/autosave.cpp:58-80 | between two flushes of the same entry lies new activity |

## Left out

- Widgets, drawing, sockets, processes, file locks, hashing and id generation: new ids, times and page
  measurements are parameters; uniqueness of new ids is a hypothesis of the invariant.
- Markdown parsing: the model starts from the syntax tree.
- SQL: the database is two maps, and a checkpoint is one update of both; snapshot rows with their revision
  numbers, closed windows and plugin data are not modelled.
- Measured text, style sheet and inline HTML: functions of a node, its open wrappers and the width; for
  paragraphs, quotes, code, lists and tables the kinds and boxes of their blocks are one such function.
- Floating point: lengths and ratios are real numbers, so rounding is not modelled.
- Calendar: dates are written and read by parameters assumed inverse on 64-bit nanosecond times; the fraction
  is modelled character by character.
- Signed overflow of seconds to microseconds in the history parser, and of parsed dates outside 64 bits, is
  undefined in the program; the model keeps unbounded seconds and wraps dates.
- Locale: character classes are those of the C locale.
- JSON text: values are modelled, not their dump; numbers too large for a target type keep their low bits also
  where the conversion from a real is undefined. Objects are maps whose known keys are enumerated.
- Json.Elements: a loop over `expanded` or `snapshots` given as an object is treated as an error, because the
  order of its keys is not modelled.
- Section numbers of the HTML contents: deeper counters are never reset there, so only nesting and order of
  that list are modelled.
- Blank panes share the empty id, which therefore counts as no id: laws about the place, state or history of
  one pane of the workspace need it to be the only blank one (`WorkspaceEffects.NotShared`).
- Layout.LayoutEngine.EmitHtml: what raw HTML does to the flow is an uninterpreted function of its text.
- Layout.LayoutEngine.EmitNode: the boxes of paragraphs, quotes, code, lists and tables come from an uninterpreted
  style function.
- Layout.LayoutDocument: as for its nodes, the boxes of other blocks than headings and contents are a parameter.
- HtmlIds.Renderer.RenderBlock: only the heading ids of the output are modelled, not its other markup.
- Outline.EmitToc: the printed number strings are not part of the contract.
- Checkpoint.Storage.WriteCheckpoint: the inserted snapshot row with revision and reason is not modelled.
- Focus of tabs and panes: it is set unchecked and kept after removal, so only window focus is an invariant.
- Creating, closing, renaming and deleting workspaces, `restore_snapshot`, `persist` and change events.
- WorkspaceCore.WorkspaceCore.SplitPane: works on tree values; the same algorithms on linked nodes that are updated
  in place are in `PaneNodes`.
- HistoryTracker.PaneHistoryTracker.Sync: one thread, one reading of the file per call; before the first load the
  program locks its mutex twice, so a load is required. A reload forgets pins.
- HistoryTracker.IncrementalAgreesWithReload: after a rewrite the next sync must see a smaller file than the last
  one it saw; same-size and larger rewrites are not recognised by the program, as
  `HistoryTracker.SyncAgreesWhen` states.
- RowPages.RowsShowTheirHeadingsWhen: needs distinct anchors (`Anchors.AnchorsUnique` says when); without them the
  program prints the last page with the anchor, as `PdfPages.ExportPages` states.
- Autosave.FlushedExactlyWhenIdle: one clock reading per flush; the setters of the windows and providers
  between flushes are not modelled.
- Annotations applied to the history cache and its listings in both orders: plain loops over the same entries.
