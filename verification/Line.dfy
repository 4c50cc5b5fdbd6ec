/** The line drawing of kernel/graphics.c (Bresenham's algorithm). */
module Lines {
  import opened Guard

  datatype Point = Point(x: int, y: int)

  function Abs(a: int): int { if a < 0 then -a else a }
  function Max(a: int, b: int): int { if a > b then a else b }
  function Sign(a: int, b: int): int { if a < b then 1 else -1 }

  /** p is within half a pixel of the line from a to b, measured along the axis on which the line is shorter. */
  predicate Near(a: Point, b: Point, p: Point) {
    2 * Abs((p.y - a.y) * (b.x - a.x) - (p.x - a.x) * (b.y - a.y)) <= Max(Abs(b.x - a.x), Abs(b.y - a.y))
  }

  /** The two points touch, at a side or a corner. */
  predicate Adjacent(p: Point, q: Point) { p != q && Abs(p.x - q.x) <= 1 && Abs(p.y - q.y) <= 1 }

  /** i steps along x and j along y have been taken; err lies in a range as wide as the longer side. */
  predicate State(dx: int, dy: int, i: int, j: int, err: int) {
    && 0 <= dx && 0 <= dy && 0 <= i && 0 <= j && (dx == 0 ==> i == 0)
    && if dx > dy then i <= dx && err == dx / 2 - i * dy + j * dx && 0 <= err < dx
       else j <= dy && err == j * dx - i * dy - dy / 2 && (err == 0 || 0 - dy < err <= 0)
  }

  ghost predicate Going(dx: int, dy: int, i: int, j: int, err: int) {
    && 0 <= i && 0 <= j && (if dx > dy then i <= dx else j <= dy)
    && forall k {:trigger Look(k)} :: Look(k) ==> State(dx, dy, i, j, err)
  }

  lemma Begins(dx: int, dy: int)
    requires 0 <= dx && 0 <= dy
    ensures Going(dx, dy, 0, 0, if dx > dy then dx / 2 else -(dy / 2))
  {
  }

  lemma Times(a: int, b: int)
    ensures (a + 1) * b == a * b + b
  {
  }

  /** One pass of the loop keeps the state and moves along the longer side. */
  lemma Advance(dx: int, dy: int, i: int, j: int, err: int)
    requires Going(dx, dy, i, j, err) && (if dx > dy then i < dx else j < dy)
    ensures dx > dy ==>
      err > 0 - dx && Going(dx, dy, i + 1, if err < dy then j + 1 else j, if err < dy then err - dy + dx else err - dy)
    ensures dx <= dy ==>
      err < dy && Going(dx, dy, if err > 0 - dx then i + 1 else i, j + 1, if err > 0 - dx then err - dy + dx
        else err + dx)
  {
    assert Look(0);
    Times(i, dy);
    Times(j, dx);
  }

  /** At the end of the longer side the shorter one is done too. */
  lemma Arrived(dx: int, dy: int, i: int, j: int, err: int)
    requires Going(dx, dy, i, j, err) && (if dx > dy then i == dx else j == dy)
    ensures i == dx && j == dy
  {
    assert Look(0);
    if dx > dy {
      Product(j, dy, dx);
      Pinned(dx, j - dy, dx / 2);
    } else if dy > 0 {
      Product(dx, i, dy);
      Pinned(dy, i - dx, dy / 2);
    }
  }

  lemma Product(a: int, b: int, m: int)
    ensures (a - b) * m == a * m - b * m && (b - a) * m == b * m - a * m
  {
  }

  /** A multiple of m that is less than m away from 0 is 0. */
  lemma Pinned(m: int, q: int, r: int)
    requires 0 <= r < m && 0 <= r + q * m < m
    ensures q == 0
  {
    Product(q, 1, m);
    Product(q, -1, m);
    assert q >= 1 ==> (q - 1) * m >= 0;
    assert q <= -1 ==> (q + 1) * m <= 0;
  }

  /** Neither side is overrun. */
  lemma Within(dx: int, dy: int, i: int, j: int, err: int)
    requires State(dx, dy, i, j, err)
    ensures 2 * Abs(j * dx - i * dy) <= Max(dx, dy)
  {
  }

  /** i steps from a towards b. */
  function Along(a: int, b: int, i: int): int { if a < b then a + i else a - i }

  lemma NearThere(a: Point, b: Point, i: int, j: int, err: int)
    requires Going(Abs(b.x - a.x), Abs(b.y - a.y), i, j, err)
    ensures Near(a, b, Point(Along(a.x, b.x, i), Along(a.y, b.y, j)))
  {
    assert Look(0);
    var dx, dy, sx, sy := Abs(b.x - a.x), Abs(b.y - a.y), Sign(a.x, b.x), Sign(a.y, b.y);
    Within(dx, dy, i, j, err);
    assert b.x - a.x == sx * dx && b.y - a.y == sy * dy;
    assert Along(a.x, b.x, i) - a.x == i * sx && Along(a.y, b.y, j) - a.y == j * sy;
    Cross(i, j, dx, dy, sx, sy);
  }

  lemma Cross(i: int, j: int, dx: int, dy: int, sx: int, sy: int)
    requires (sx == 1 || sx == -1) && (sy == 1 || sy == -1)
    ensures Abs((j * sy) * (sx * dx) - (i * sx) * (sy * dy)) == Abs(j * dx - i * dy)
  {
    if sx == sy {
      assert (j * sy) * (sx * dx) == j * dx && (i * sx) * (sy * dy) == i * dy;
    } else {
      assert (j * sy) * (sx * dx) == -(j * dx) && (i * sx) * (sy * dy) == -(i * dy);
    }
  }

  /**
    vga_draw_line: the pixels it draws, in order.  It ends at b after one pixel for each step of
    the longer side; neighbours touch, and every pixel is within half a pixel of the ideal line.
  */
  method DrawLine(a: Point, b: Point) returns (pixels: seq<Point>)
    ensures |pixels| == Max(Abs(b.x - a.x), Abs(b.y - a.y)) + 1
    ensures pixels[0] == a && pixels[|pixels| - 1] == b
    ensures forall k :: 0 <= k < |pixels| - 1 ==> Adjacent(pixels[k], pixels[k + 1])
    ensures forall k :: 0 <= k < |pixels| ==> Near(a, b, pixels[k])
  {
    var dx, sx := Abs(b.x - a.x), Sign(a.x, b.x);
    var dy, sy := Abs(b.y - a.y), Sign(a.y, b.y);
    var err := if dx > dy then dx / 2 else -(dy / 2);
    var x, y := a.x, a.y;
    ghost var i, j := 0, 0;
    pixels := [];
    Begins(dx, dy);
    while true
      invariant Going(dx, dy, i, j, err) && |pixels| == if dx > dy then i else j
      invariant x == Along(a.x, b.x, i) && y == Along(a.y, b.y, j)
      invariant forall k :: 0 <= k < |pixels| ==> Near(a, b, pixels[k])
      invariant forall k :: 0 <= k < |pixels| - 1 ==> Adjacent(pixels[k], pixels[k + 1])
      invariant if pixels == [] then x == a.x && y == a.y
        else pixels[0] == a && Adjacent(pixels[|pixels| - 1], Point(x, y))
      decreases Max(dx, dy) - |pixels|
    {
      NearThere(a, b, i, j, err);
      pixels := pixels + [Point(x, y)];
      if |pixels| == Max(dx, dy) + 1 {
        Arrived(dx, dy, i, j, err);
      }
      if x == b.x && y == b.y {
        break;
      }
      Advance(dx, dy, i, j, err);
      var e2 := err;
      if e2 > 0 - dx {
        err := err - dy;
        x := x + sx;
        i := i + 1;
      }
      if e2 < dy {
        err := err + dx;
        y := y + sy;
        j := j + 1;
      }
    }
  }
}
