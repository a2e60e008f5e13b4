/** The vertical flow of laid-out blocks that the layout engine hands to the PDF exporter. */
module Flow {
  import opened Options

  datatype Kind =
    | P | Heading | Quote | Code | UlItem | OlItem | TaskItem
    | Table | Hr | Image | TocRow | PageBreak

  /** One block of the flow. `anchor` is the link target of a heading or of a TOC row
      (without its leading '#'); `page` is the page number printed on a TOC row. */
  datatype Block = Block(kind: Kind, y: real, height: real, anchor: string, page: Option<nat>)
  {
    function Bottom(): real { y + height }

    predicate IsBreak() { kind == PageBreak }
  }

  /** Two flows with the same kinds, positions and heights; anchors and page numbers may differ. */
  ghost predicate SameGeometry(a: seq<Block>, b: seq<Block>) {
    |a| == |b|
    && forall i :: 0 <= i < |a| ==> a[i].kind == b[i].kind && a[i].y == b[i].y && a[i].height == b[i].height
  }
}
