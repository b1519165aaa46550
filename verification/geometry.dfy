/**
 * Page geometry as the scripts read it from the host document: page size,
 * the four margins, the measurement unit, and the per-unit height
 * correction used when a new frame is sized.
 */
module Geometry {

  /** Page margins, named by the way the scripts index the host's margin
      tuple: element 0 is used as left, 1 as right, 2 as top, 3 as bottom. */
  datatype Margins = Margins(left: real, right: real, top: real, bottom: real)

  datatype PageSize = PageSize(width: real, height: real)

  /** Index of one of the host's four measurement units. */
  type Unit = u: int | 0 <= u < 4

  /** Additive height correction per unit: "2 mm" written in each unit. */
  const UnitCorrection: seq<real> := [0.79, 2.0, 0.48, 5.67]

  /** The read-only layout constants of the document's pages. */
  datatype Page = Page(size: PageSize, margins: Margins, unit: Unit)

  /** Position and size of a frame on its page. */
  datatype Rect = Rect(x: real, y: real, width: real, height: real)

  /** Horizontal extent inside the left and right margins. */
  function PrintableWidth(p: Page): real
  {
    p.size.width - p.margins.left - p.margins.right
  }

  /** Vertical extent inside the top and bottom margins. */
  function PrintableHeight(p: Page): real
  {
    p.size.height - p.margins.top - p.margins.bottom
  }

}
