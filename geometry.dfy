/** Axis-aligned rectangles as values: the geometry both games share.
    Positions are reals because obstacles scroll by half pixels once the
    trainer speeds up; widths and heights are whole pixels. */
module Geometry {

  /** A rectangle given by its top-left corner and its size. */
  datatype Box = Box(x: real, y: real, width: int, height: int) {
    function Top(): real { y }
    function Bottom(): real { y + height as real }
    function Left(): real { x }
    function Right(): real { x + width as real }
    /** Vertical centre, with the height halved by floor division. */
    function CenterY(): real { y + (height / 2) as real }
  }

  /** Strict overlap on both axes: rectangles that only share an edge do not overlap. */
  predicate Overlap(a: Box, b: Box) {
    a.Left() < b.Right() && a.Right() > b.Left() && a.Top() < b.Bottom() && a.Bottom() > b.Top()
  }

  /** The rectangle translated by (dx, dy). */
  function Moved(b: Box, dx: real, dy: real): (r: Box)
    ensures r.Left() == b.Left() + dx && r.Right() == b.Right() + dx
    ensures r.Top() == b.Top() + dy && r.Bottom() == b.Bottom() + dy
    ensures r.width == b.width && r.height == b.height
  {
    b.(x := b.x + dx, y := b.y + dy)
  }

  lemma OverlapSymmetric(a: Box, b: Box)
    ensures Overlap(a, b) == Overlap(b, a)
  {
  }

  /** Rectangles that touch along a vertical or a horizontal edge do not overlap. */
  lemma TouchingDoNotOverlap(a: Box, b: Box)
    requires a.Right() == b.Left() || a.Left() == b.Right() || a.Bottom() == b.Top() || a.Top() == b.Bottom()
    ensures !Overlap(a, b)
  {
  }

  /** Translating both rectangles by the same amount does not change whether they overlap. */
  lemma OverlapTranslationInvariant(a: Box, b: Box, dx: real, dy: real)
    ensures Overlap(Moved(a, dx, dy), Moved(b, dx, dy)) == Overlap(a, b)
  {
  }

  /** Two moves add up. */
  lemma MovedCompose(b: Box, dx1: real, dy1: real, dx2: real, dy2: real)
    ensures Moved(Moved(b, dx1, dy1), dx2, dy2) == Moved(b, dx1 + dx2, dy1 + dy2)
  {
  }
}
