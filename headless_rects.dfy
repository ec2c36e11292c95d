/** The trainer's two rendering-free rectangle classes. Each keeps its
    derived bounds (top, bottom, left, right; the agent's also its vertical
    centre) in fields that UpdateBounds recomputes after every move. */
module HeadlessRects {
  import opened Geometry

  /** The agent's rectangle. */
  class AgentRect {
    var x: real
    var y: real
    var width: int
    var height: int
    var top: real
    var bottom: real
    var left: real
    var right: real
    var centery: real

    /** The derived fields agree with position and size. */
    ghost predicate Valid()
      reads this
    {
      && top == y && bottom == y + height as real
      && left == x && right == x + width as real
      && centery == y + (height / 2) as real
    }

    function Shape(): Box
      reads this
    {
      Box(x, y, width, height)
    }

    constructor (x: real, y: real, width: int, height: int)
      ensures Valid() && Shape() == Box(x, y, width, height)
    {
      this.x, this.y, this.width, this.height := x, y, width, height;
      new;
      UpdateBounds();
    }

    method UpdateBounds()
      modifies this
      ensures Valid() && Shape() == old(Shape())
    {
      top, bottom := y, y + height as real;
      left, right := x, x + width as real;
      centery := y + (height / 2) as real;
    }

    /** Translation in place: only the position moves, by exactly (dx, dy). */
    method MoveIp(dx: real, dy: real)
      modifies this
      ensures Valid() && Shape() == Moved(old(Shape()), dx, dy)
    {
      x := x + dx;
      y := y + dy;
      UpdateBounds();
    }

    /** Strict overlap with a pillar, read from the derived fields. */
    predicate Colliderect(other: PillarRect): (r: bool)
      reads this, other
      requires Valid() && other.Valid()
      ensures r == Overlap(Shape(), other.Shape())
    {
      left < other.right && right > other.left && top < other.bottom && bottom > other.top
    }
  }

  /** An obstacle's pillar: the same rectangle without a vertical centre. */
  class PillarRect {
    var x: real
    var y: real
    var width: int
    var height: int
    var top: real
    var bottom: real
    var left: real
    var right: real

    ghost predicate Valid()
      reads this
    {
      top == y && bottom == y + height as real && left == x && right == x + width as real
    }

    function Shape(): Box
      reads this
    {
      Box(x, y, width, height)
    }

    constructor (x: real, y: real, width: int, height: int)
      ensures Valid() && Shape() == Box(x, y, width, height)
    {
      this.x, this.y, this.width, this.height := x, y, width, height;
      new;
      UpdateBounds();
    }

    method UpdateBounds()
      modifies this
      ensures Valid() && Shape() == old(Shape())
    {
      top, bottom := y, y + height as real;
      left, right := x, x + width as real;
    }

    method MoveIp(dx: real, dy: real)
      modifies this
      ensures Valid() && Shape() == Moved(old(Shape()), dx, dy)
    {
      x := x + dx;
      y := y + dy;
      UpdateBounds();
    }

    /** Strict overlap with the agent's rectangle, read from the derived fields. */
    predicate Colliderect(other: AgentRect): (r: bool)
      reads this, other
      requires Valid() && other.Valid()
      ensures r == Overlap(Shape(), other.Shape())
    {
      left < other.right && right > other.left && top < other.bottom && bottom > other.top
    }
  }

  /** The two classes agree on overlap, whichever side asks. */
  lemma ColliderectSymmetric(a: AgentRect, p: PillarRect)
    requires a.Valid() && p.Valid()
    ensures a.Colliderect(p) == p.Colliderect(a)
  {
    OverlapSymmetric(a.Shape(), p.Shape());
  }
}
