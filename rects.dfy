/** pygame's `Rect` as the core uses it: integer position and size, the
    derived edges and centre, the centre setters and the `in` test. */
module Rects {

  datatype Rect = Rect(x: int, y: int, w: nat, h: nat) {
    function Top(): int { y }
    function Bottom(): int { y + h }
    function Left(): int { x }
    function Right(): int { x + w }
    function CenterX(): int { x + w / 2 }
    function CenterY(): int { y + h / 2 }

    /** `rect.centerx = c`: moves the rect horizontally so that its centre
        is at `c`; the size and the vertical position are kept. */
    function WithCenterX(c: int): (r: Rect)
      ensures r.CenterX() == c
      ensures r.y == y && r.w == w && r.h == h
    {
      Rect(c - w / 2, y, w, h)
    }

    /** `rect.centery = c`. */
    function WithCenterY(c: int): (r: Rect)
      ensures r.CenterY() == c
      ensures r.x == x && r.w == w && r.h == h
    {
      Rect(x, c - h / 2, w, h)
    }

    /** `rect.x += dx; rect.y += dy`. */
    function Moved(dx: int, dy: int): (r: Rect)
      ensures r.Left() == Left() + dx && r.Right() == Right() + dx
      ensures r.Top() == Top() + dy && r.Bottom() == Bottom() + dy
      ensures r.w == w && r.h == h
    {
      Rect(x + dx, y + dy, w, h)
    }

    /** `Rect((cx, cy), (1, 1)) in self`: the 1x1 cell at (cx, cy) lies
        entirely inside this rect. */
    predicate ContainsCell(cx: int, cy: int)
    {
      x <= cx && cx + 1 <= x + w && y <= cy && cy + 1 <= y + h
    }
  }

  /** Shifting the centre moves the whole rect by the same amount, whatever
      the parity of its size. */
  lemma ShiftCenter(r: Rect, dx: int, dy: int)
    ensures r.WithCenterX(r.CenterX() + dx) == r.Moved(dx, 0)
    ensures r.WithCenterY(r.CenterY() + dy) == r.Moved(0, dy)
  {
  }
}
