/**
 * The rectangle arithmetic of the viewer: a selection's on-screen rectangle
 * becomes a page-local position, and a match's bounding box becomes the
 * same kind of position. Both are plain translations and copies.
 */
module Geometry {
  import opened Types

  /** A `getBoundingClientRect()` result: viewport coordinates. */
  datatype ClientRect = ClientRect(left: real, top: real, width: real, height: real)

  /**
   * Where an element absolutely positioned at `p` inside the page element
   * appears on screen, given the page element's own rectangle.
   */
  function PlaceOnPage(p: Position, page: ClientRect): (r: ClientRect)
    ensures r.width == p.width && r.height == p.height
  {
    ClientRect(page.left + p.x, page.top + p.y, p.width, p.height)
  }

  /**
   * The position stored for a selection: its offset from the page's top-left
   * corner, with width and height copied. Placing it back on the same page
   * rectangle gives the selection's rectangle again.
   */
  function SelectionToPosition(selection: ClientRect, page: ClientRect): (p: Position)
    ensures PlaceOnPage(p, page) == selection
  {
    Position(selection.left - page.left, selection.top - page.top, selection.width, selection.height)
  }

  /** The other direction of the round trip: a page-local position survives being drawn and re-measured. */
  lemma PositionRoundTrip(p: Position, page: ClientRect)
    ensures SelectionToPosition(PlaceOnPage(p, page), page) == p
  {
  }

  function Shift(r: ClientRect, dx: real, dy: real): ClientRect {
    ClientRect(r.left + dx, r.top + dy, r.width, r.height)
  }

  /** Scrolling moves the selection and the page together and leaves the stored position alone. */
  lemma ScrollInvariant(selection: ClientRect, page: ClientRect, dx: real, dy: real)
    ensures SelectionToPosition(Shift(selection, dx, dy), Shift(page, dx, dy))
         == SelectionToPosition(selection, page)
  {
  }

  /** The box spanned by a position: corners at (x, y) and (x + width, y + height). */
  function BoxOf(p: Position): (b: BoundingBox)
    ensures b.x0 == p.x && b.y0 == p.y
  {
    BoundingBox(p.x, p.y, p.x + p.width, p.y + p.height)
  }

  /** A match's box as an overlay position: the top-left corner and the two extents. */
  function BoundingBoxToPosition(b: BoundingBox): (p: Position)
    ensures BoxOf(p) == b
  {
    Position(b.x0, b.y0, b.x1 - b.x0, b.y1 - b.y0)
  }

  lemma BoxRoundTrip(p: Position)
    ensures BoundingBoxToPosition(BoxOf(p)) == p
  {
  }

  /** No box is rejected: a reversed box gives a negative width or height. */
  lemma DegenerateBoxKept(b: BoundingBox)
    ensures BoundingBoxToPosition(b).width < 0.0 <==> b.x1 < b.x0
    ensures BoundingBoxToPosition(b).height < 0.0 <==> b.y1 < b.y0
  {
  }
}
