/**
 * What the renderers put on a page, recorded instead of drawn: the PDF and
 * imaging libraries are not modelled, each drawing call becomes one record.
 */
module Canvas {
  import opened Fragments

  /** One drawing call. */
  datatype Draw =
    | Background                                                  // the original page, rasterised, as a full-page image
    | WhiteBox(box: BBox)                                         // PyMuPDF `draw_rect` with white fill, top-left origin
    | WhiteRect(x: real, y: real, w: real, h: real)               // reportlab `rect` with white fill, bottom-left origin
    | Text(x: real, y: real, text: string, size: int, font: string) // a string drawn with its baseline at (x, y)

  /** One page of the output document. */
  datatype PageOut =
    | Copied(index: nat)                  // the source page, unchanged
    | Drawn(index: nat, ops: seq<Draw>)   // a new page of the same size, drawn in order
}
