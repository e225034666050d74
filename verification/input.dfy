/** The hit test of `handle_tic_tac_toe_board`: from a pointer position and
    the board's on-screen rectangle to the (column, row) of the cell under
    it. Coordinates are exact reals here. */
module InputMapper {
  import opened Options

  datatype Point = Point(x: real, y: real)

  /** The board's rectangle: origin, width and height. */
  datatype Rect = Rect(x: real, y: real, width: real, height: real)

  /** The rectangle the game loop passes each frame: a 100-pixel margin on
      every side of a screen of the given size. */
  function BoardRect(screenWidth: real, screenHeight: real): (r: Rect)
    ensures r.x == 100.0 && r.y == 100.0
    ensures r.x + r.width == screenWidth - 100.0 && r.y + r.height == screenHeight - 100.0
  {
    Rect(100.0, 100.0, screenWidth - 200.0, screenHeight - 200.0)
  }

  /** The closed rectangle, edges included. */
  predicate Within(p: Point, rect: Rect) {
    rect.x <= p.x <= rect.x + rect.width && rect.y <= p.y <= rect.y + rect.height
  }

  /** The guard that rejects a click: strictly left of, above, right of or
      below the rectangle. It rejects exactly the points off the closed
      rectangle, so a point on any edge passes it. */
  predicate Outside(p: Point, rect: Rect)
    ensures Outside(p, rect) <==> !Within(p, rect)
  {
    p.x < rect.x || p.y < rect.y || p.x > rect.x + rect.width || p.y > rect.y + rect.height
  }

  /** `((offset) / (extent / 3)).floor() as usize` for an offset the guard
      has admitted. On a zero extent the division is 0/0, and the cast of
      that NaN to usize yields 0. The index is the third of the extent the
      offset falls in, and it is 3 exactly on the far edge. */
  function CellIndex(offset: real, extent: real): (i: nat)
    requires 0.0 <= offset <= extent
    ensures i <= 3
    ensures extent > 0.0 ==> i as real * extent <= 3.0 * offset < (i + 1) as real * extent
    ensures i == 3 <==> extent > 0.0 && offset == extent
    ensures extent == 0.0 ==> i == 0
  {
    if extent == 0.0 then 0
    else
      var q := offset / (extent / 3.0);
      QuotientTimesExtent(offset, extent, q);
      ThirdBounds(offset, extent, q, q.Floor);
      q.Floor
  }

  lemma QuotientTimesExtent(offset: real, extent: real, q: real)
    requires extent > 0.0 && q == offset / (extent / 3.0)
    ensures q * extent == 3.0 * offset
  {
  }

  /** When q is three times the offset's share of the extent, its floor f
      places the offset in the f-th third of the extent. */
  lemma ThirdBounds(offset: real, extent: real, q: real, f: int)
    requires 0.0 <= offset <= extent && extent > 0.0
    requires q * extent == 3.0 * offset
    requires f as real <= q < f as real + 1.0
    ensures 0 <= f <= 3
    ensures f as real * extent <= 3.0 * offset < (f + 1) as real * extent
    ensures f == 3 <==> offset == extent
  {
    QuotientRange(offset, extent, q);
    AboveThisThird(offset, extent, q, f as real);
    BelowNextThird(offset, extent, q, (f + 1) as real);
  }

  lemma AboveThisThird(offset: real, extent: real, q: real, low: real)
    requires extent > 0.0
    requires q * extent == 3.0 * offset
    requires low <= q
    ensures low * extent <= 3.0 * offset
  {
    ScaleLe(low, q, extent);
  }

  lemma BelowNextThird(offset: real, extent: real, q: real, next: real)
    requires extent > 0.0
    requires q * extent == 3.0 * offset
    requires q < next
    ensures 3.0 * offset < next * extent
  {
    ScaleLt(q, next, extent);
  }

  /** q lies in [0, 3], and is 3 exactly on the far edge. */
  lemma QuotientRange(offset: real, extent: real, q: real)
    requires 0.0 <= offset <= extent && extent > 0.0
    requires q * extent == 3.0 * offset
    ensures 0.0 <= q <= 3.0
    ensures q == 3.0 <==> offset == extent
  {
    if q > 3.0 {
      ScaleLt(3.0, q, extent);
    }
    if q < 0.0 {
      ScaleLt(q, 0.0, extent);
    }
    if offset == extent && q < 3.0 {
      ScaleLt(q, 3.0, extent);
    }
  }

  lemma ScaleLe(a: real, b: real, c: real)
    requires a <= b && c > 0.0
    ensures a * c <= b * c
  {
  }

  lemma ScaleLt(a: real, b: real, c: real)
    requires a < b && c > 0.0
    ensures a * c < b * c
  {
  }

  /** The hit test as written: None for a point outside, otherwise
      Some((column, row)) of the cell the point falls in, where a point on the
      far edge yields index 3, one past the last cell. */
  function HitTest(p: Point, rect: Rect): (r: Option<(nat, nat)>)
    ensures r.None? <==> Outside(p, rect)
    ensures r.Some? ==> r.value.0 <= 3 && r.value.1 <= 3
    ensures r.Some? && rect.width > 0.0 ==>
      r.value.0 as real * rect.width <= 3.0 * (p.x - rect.x) < (r.value.0 + 1) as real * rect.width
    ensures r.Some? && rect.height > 0.0 ==>
      r.value.1 as real * rect.height <= 3.0 * (p.y - rect.y) < (r.value.1 + 1) as real * rect.height
    ensures r.Some? ==> (r.value.0 == 3 <==> rect.width > 0.0 && p.x == rect.x + rect.width)
    ensures r.Some? ==> (r.value.1 == 3 <==> rect.height > 0.0 && p.y == rect.y + rect.height)
    ensures r.Some? && rect.width == 0.0 ==> r.value.0 == 0
    ensures r.Some? && rect.height == 0.0 ==> r.value.1 == 0
  {
    if Outside(p, rect) then None
    else Some((CellIndex(p.x - rect.x, rect.width), CellIndex(p.y - rect.y, rect.height)))
  }

  /** A point strictly inside the rectangle (or on its near edges). */
  predicate StrictlyInside(p: Point, rect: Rect) {
    rect.x <= p.x < rect.x + rect.width && rect.y <= p.y < rect.y + rect.height
  }

  /** Points strictly inside map to a cell of the board; points on the far
      right or bottom edge map to index 3. */
  lemma HitTestRange(p: Point, rect: Rect)
    ensures StrictlyInside(p, rect) ==>
      HitTest(p, rect).Some? && HitTest(p, rect).value.0 < 3 && HitTest(p, rect).value.1 < 3
    ensures rect.width > 0.0 && rect.y <= p.y <= rect.y + rect.height && p.x == rect.x + rect.width ==>
      HitTest(p, rect).Some? && HitTest(p, rect).value.0 == 3
    ensures rect.height > 0.0 && rect.x <= p.x <= rect.x + rect.width && p.y == rect.y + rect.height ==>
      HitTest(p, rect).Some? && HitTest(p, rect).value.1 == 3
  {
  }

  /** The corrected hit test: the far edges belong to the last column and row,
      so every admitted click names a cell of the board. */
  function HitTestClamped(p: Point, rect: Rect): (r: Option<(nat, nat)>)
    ensures r.None? <==> Outside(p, rect)
    ensures r.Some? ==> r.value.0 < 3 && r.value.1 < 3
    ensures r.Some? && rect.width > 0.0 ==>
      r.value.0 as real * rect.width <= 3.0 * (p.x - rect.x) <= (r.value.0 + 1) as real * rect.width
    ensures r.Some? && rect.height > 0.0 ==>
      r.value.1 as real * rect.height <= 3.0 * (p.y - rect.y) <= (r.value.1 + 1) as real * rect.height
    ensures HitTest(p, rect).Some? && HitTest(p, rect).value.0 < 3 && HitTest(p, rect).value.1 < 3
      ==> r == HitTest(p, rect)
  {
    match HitTest(p, rect)
    case None => None
    case Some((col, row)) => Some((Clamp(col), Clamp(row)))
  }

  function Clamp(i: nat): nat {
    if i > 2 then 2 else i
  }
}
