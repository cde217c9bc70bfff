/** The integer geometry behind the rasterizers of the drawing board: which
    cells each outline reaches, what each draw loop needs in order to stay
    inside the board, and the arithmetic of C++ integer division.

    Cells are addressed as (row, col), matching `board[drawY][drawX]`:
    the row is the y coordinate and the column the x coordinate. */
module Raster {

  /** The trigonometric step of a line: for an angle in degrees and a step
      index i, the integer offsets (dx, dy) that truncating i*cos and i*sin
      of the angle gives. It is computed in floating point by the program,
      so the model takes it as a parameter. */
  type LineStep = (real, int) -> (int, int)

  /** `v` indexes an axis of extent `n`, i.e. the write at `v` is not clipped. */
  predicate InRange(v: int, n: int) {
    0 <= v < n
  }

  /** C++ integer division of `a` by a positive `b`: the quotient is
      truncated toward zero, so the remainder takes the sign of `a`.
      (Dafny's own `/` is Euclidean and disagrees for negative `a`.) */
  function TDiv(a: int, b: int): (q: int)
    requires b > 0
    ensures a >= 0 ==> 0 <= a - q * b < b
    ensures a < 0 ==> -b < a - q * b <= 0
    ensures (a >= 0 ==> q >= 0) && (a <= 0 ==> q <= 0)
  {
    if a >= 0 then a / b else -((-a) / b)
  }

  // ---------------------------------------------------------------------
  // Rectangle

  /** The cells the two loops of Rectangle::draw reach: the top and bottom
      rows over columns [x, x+width), and the left and right columns over
      rows [y, y+height). */
  predicate RectangleCell(x: int, y: int, width: int, height: int, row: int, col: int) {
    || (x <= col < x + width && (row == y || row == y + height - 1))
    || (y <= row < y + height && (col == x || col == x + width - 1))
  }

  /** Rectangle::draw clips only the upper end of each loop. Its first loop
      writes column `x` first, so a negative `x` is out of bounds as soon as
      that loop runs and one of its two rows is on the board; its second
      loop likewise writes row `y` first. */
  predicate RectangleSafe(x: int, y: int, width: int, height: int, boardWidth: int, boardHeight: int) {
    && (x >= 0 || width <= 0 || !(InRange(y, boardHeight) || InRange(y + height - 1, boardHeight)))
    && (y >= 0 || height <= 0 || !(InRange(x, boardWidth) || InRange(x + width - 1, boardWidth)))
  }

  /** An anchor with non-negative coordinates is always safe to draw. */
  lemma NonNegativeAnchorRectangleSafe(x: int, y: int, width: int, height: int, boardWidth: int, boardHeight: int)
    requires x >= 0 && y >= 0
    ensures RectangleSafe(x, y, width, height, boardWidth, boardHeight)
  {
  }

  /** A rectangle of positive size paints its four corners. */
  lemma RectangleCorners(x: int, y: int, width: int, height: int)
    requires width > 0 && height > 0
    ensures RectangleCell(x, y, width, height, y, x)
    ensures RectangleCell(x, y, width, height, y, x + width - 1)
    ensures RectangleCell(x, y, width, height, y + height - 1, x)
    ensures RectangleCell(x, y, width, height, y + height - 1, x + width - 1)
  {
  }

  /** Only the border is painted: no cell strictly inside the box. */
  lemma RectangleHollow(x: int, y: int, width: int, height: int, row: int, col: int)
    requires y < row < y + height - 1 && x < col < x + width - 1
    ensures !RectangleCell(x, y, width, height, row, col)
  {
  }

  // ---------------------------------------------------------------------
  // Circle

  /** The ring test of Circle::draw for the offset (i, j) from the centre:
      both offsets in [-r, r] and r*r - r <= i*i + j*j <= r*r + r. */
  predicate Ring(radius: int, i: int, j: int) {
    && -radius <= i <= radius && -radius <= j <= radius
    && radius * radius - radius <= i * i + j * j <= radius * radius + radius
  }

  /** The cells Circle::draw reaches around the centre (x, y). */
  predicate CircleCell(x: int, y: int, radius: int, row: int, col: int) {
    Ring(radius, row - y, col - x)
  }

  /** The ring is symmetric under reflection in either axis and in the
      diagonal, so the drawn outline is too. */
  lemma RingSymmetric(radius: int, i: int, j: int)
    ensures Ring(radius, i, j) == Ring(radius, -i, j)
    ensures Ring(radius, i, j) == Ring(radius, i, -j)
    ensures Ring(radius, i, j) == Ring(radius, j, i)
  {
  }

  /** A circle of non-negative radius reaches the four points at distance
      `radius` along the axes, e.g. the top of the outline at (x, y - radius). */
  lemma CircleAxisPoints(x: int, y: int, radius: int)
    requires radius >= 0
    ensures CircleCell(x, y, radius, y - radius, x) && CircleCell(x, y, radius, y + radius, x)
    ensures CircleCell(x, y, radius, y, x - radius) && CircleCell(x, y, radius, y, x + radius)
  {
  }

  /** A radius of zero paints the centre alone. */
  lemma PointCircle(x: int, y: int, row: int, col: int)
    ensures CircleCell(x, y, 0, row, col) <==> row == y && col == x
  {
  }

  // ---------------------------------------------------------------------
  // Triangle

  /** The half-width of the triangle at row offset i, computed as
      `(i * width / height) / 2` with C++ truncating division. */
  function Edge(width: int, height: int, i: int): (half: int)
    requires 0 <= i < height
  {
    TDiv(TDiv(i * width, height), 2)
  }

  /** First and last column of the base loop of Triangle::draw; the base
      is symmetric about the apex column. */
  function BaseStart(x: int, width: int): (first: int)
    ensures width >= 0 ==> first <= x
  {
    x - TDiv(width, 2)
  }

  function BaseEnd(x: int, width: int): (last: int)
    ensures width >= 0 ==> last >= x
    ensures last - x == x - BaseStart(x, width)
  {
    x + TDiv(width, 2)
  }

  /** The cells the first loop of Triangle::draw reaches: the two edge
      columns x -/+ Edge on each row y+i for i in [0, height). */
  predicate EdgeCell(x: int, y: int, height: int, width: int, row: int, col: int) {
    0 <= row - y < height && (col == x - Edge(width, height, row - y) || col == x + Edge(width, height, row - y))
  }

  /** The cells Triangle::draw reaches: the edge cells, and the base row
      y+height-1 from BaseStart to BaseEnd. The base row is drawn even when
      height <= 0. */
  predicate TriangleCell(x: int, y: int, height: int, width: int, row: int, col: int) {
    || EdgeCell(x, y, height, width, row, col)
    || (row == y + height - 1 && BaseStart(x, width) <= col <= BaseEnd(x, width))
  }

  /** The edge loop of Triangle::draw clips both ends; the base loop starts
      at BaseStart and clips only the upper end, so when the base row is on
      the board and the loop runs at all, BaseStart must not be negative. */
  predicate TriangleSafe(x: int, y: int, height: int, width: int, boardWidth: int, boardHeight: int) {
    || !InRange(y + height - 1, boardHeight)
    || BaseStart(x, width) >= 0
    || BaseStart(x, width) > BaseEnd(x, width)
  }

  /** For non-negative operands truncating division agrees with Dafny's. */
  lemma TDivNonNegative(a: int, b: int)
    requires a >= 0 && b > 0
    ensures TDiv(a, b) == a / b
  {
  }

  /** A multiple k*b of a positive b reaches b once k does 1. */
  lemma MultipleAtLeast(k: int, b: int)
    requires b > 0
    ensures k >= 1 ==> k * b >= b
  {
  }

  /** Truncating division by a positive number is monotone. */
  lemma TDivMonotone(a: int, c: int, b: int)
    requires a <= c && b > 0
    ensures TDiv(a, b) <= TDiv(c, b)
  {
    var q, p := TDiv(a, b), TDiv(c, b);
    if a >= 0 || c < 0 {
      // in both cases q*b < p*b + b, so q - p < 1
      assert (q - p) * b == q * b - p * b;
      MultipleAtLeast(q - p, b);
    }
  }

  /** The staircase never leaves the base: for a non-negative width, the
      half-width of every row lies between 0 and width/2, and the apex row
      is a single cell. */
  lemma EdgeWithinBase(width: int, height: int, i: int)
    requires width >= 0 && 0 <= i < height
    ensures 0 <= Edge(width, height, i) <= TDiv(width, 2)
    ensures i == 0 ==> Edge(width, height, i) == 0
  {
    assert 0 <= i * width <= height * width by {
      assert (height - i) * width >= 0;
      assert height * width - i * width == (height - i) * width;
    }
    TDivMonotone(0, i * width, height);
    var q := TDiv(i * width, height);
    // q * height <= i * width <= height * width, so q <= width
    assert q <= width;
    TDivMonotone(0, q, 2);
    TDivMonotone(q, width, 2);
  }

  /** The staircase widens (weakly) from the apex down. */
  lemma EdgeMonotone(width: int, height: int, i: int, k: int)
    requires width >= 0 && 0 <= i <= k < height
    ensures Edge(width, height, i) <= Edge(width, height, k)
  {
    assert i * width <= k * width by {
      assert k * width - i * width == (k - i) * width;
      assert (k - i) * width >= 0;
    }
    TDivMonotone(i * width, k * width, height);
    TDivMonotone(TDiv(i * width, height), TDiv(k * width, height), 2);
  }

  /** Every cell a triangle of positive height and non-negative width
      paints lies in its bounding box: rows y .. y+height-1 and columns
      BaseStart .. BaseEnd. (At height 0 the base loop still paints row
      y-1.) */
  lemma TriangleWithinBox(x: int, y: int, height: int, width: int, row: int, col: int)
    requires width >= 0 && height > 0
    requires TriangleCell(x, y, height, width, row, col)
    ensures y <= row <= y + height - 1
    ensures BaseStart(x, width) <= col <= BaseEnd(x, width)
  {
    if EdgeCell(x, y, height, width, row, col) {
      EdgeWithinBase(width, height, row - y);
    }
  }

  /** An anchor with non-negative coordinates is not enough for the triangle:
      its base starts width/2 columns to the left of the apex. */
  lemma TriangleUnsafeNearLeftEdge()
    ensures !TriangleSafe(1, 0, 3, 4, 10, 10)
  {
  }

  // ---------------------------------------------------------------------
  // Line

  /** The cells Line::draw reaches: (x + dx, y + dy) for the offsets of the
      steps 0 .. length-1. */
  predicate LineCell(x: int, y: int, length: int, angle: real, step: LineStep, row: int, col: int) {
    exists i :: 0 <= i < length && x + step(angle, i).0 == col && y + step(angle, i).1 == row
  }
}
