/** The shapes of the drawing board. The four C++ subclasses of Shape become
    one class whose variant part is the closed datatype Geometry; the
    `dynamic_cast` that isSameSpot uses to recover the other shape's variant
    becomes a match on the pair of geometries. */
module Shapes {
  import opened Raster

  /** The variant of a shape with its size fields, in the order the
      variant's constructor takes them. The line's angle is in degrees. */
  datatype Geometry =
    | Rectangle(width: int, height: int)
    | Circle(radius: int)
    | Triangle(height: int, width: int)
    | Line(length: int, angle: real)

  /** The name getType returns for each variant. */
  function TypeName(g: Geometry): (name: string)
    ensures name == "Rectangle" <==> g.Rectangle?
    ensures name == "Circle" <==> g.Circle?
    ensures name == "Triangle" <==> g.Triangle?
    ensures name == "Line" <==> g.Line?
  {
    match g
    case Rectangle(_, _) => "Rectangle"
    case Circle(_) => "Circle"
    case Triangle(_, _) => "Triangle"
    case Line(_, _) => "Line"
  }

  /** The type names tell the variants apart, so comparing them is the same
      test as the `dynamic_cast` of isSameSpot. */
  lemma TypeNameIdentifiesVariant(g: Geometry, h: Geometry)
    ensures TypeName(g) == TypeName(h) <==> g.Rectangle? == h.Rectangle? && g.Circle? == h.Circle? && g.Triangle? == h.Triangle?
  {
  }

  /** The size fields isSameSpot compares, for two shapes of the same variant:
      width and height of rectangles, the radius of circles, the height (but
      not the width) of triangles, the length (but not the angle) of lines.
      Shapes of different variants never compare equal. */
  predicate SameSize(g: Geometry, h: Geometry)
    ensures SameSize(g, h) ==> TypeName(g) == TypeName(h)
  {
    match (g, h)
    case (Rectangle(w1, h1), Rectangle(w2, h2)) => w1 == w2 && h1 == h2
    case (Circle(r1), Circle(r2)) => r1 == r2
    case (Triangle(h1, _), Triangle(h2, _)) => h1 == h2
    case (Line(l1, _), Line(l2, _)) => l1 == l2
    case _ => false
  }

  /** Two triangles that differ only in width count as the same spot even
      though they paint different cells: the apex (0, 0) is shared, but row 1
      reaches column 1 only for the wider one. */
  lemma TriangleSpotIgnoresWidth()
    ensures SameSize(Triangle(3, 2), Triangle(3, 6))
    ensures TriangleCell(0, 0, 3, 6, 1, 1) && !TriangleCell(0, 0, 3, 2, 1, 1)
  {
  }

  /** Two lines that differ only in angle count as the same spot. */
  lemma LineSpotIgnoresAngle(length: int, angle: real, otherAngle: real)
    ensures SameSize(Line(length, angle), Line(length, otherAngle))
  {
  }

  class Shape {
    var x: int
    var y: int
    var id: int
    var colour: char
    var fillMode: bool
    var geometry: Geometry

    /** The constructors of Shape.cpp take the anchor and the size fields and
        leave id, colour and fillMode unset; one constructor stands for the
        four, the variant being chosen by `geometry`. */
    constructor (x: int, y: int, geometry: Geometry)
      ensures this.x == x && this.y == y && this.geometry == geometry
    {
      this.x := x;
      this.y := y;
      this.geometry := geometry;
    }

    /** getPosition: the anchor, x first. */
    function GetPosition(): (position: (int, int))
      reads this
      ensures position.0 == x && position.1 == y
    {
      (x, y)
    }

    /** getType: the name of the shape's variant, one of four. */
    function GetType(): (name: string)
      reads this
      ensures name in {"Rectangle", "Circle", "Triangle", "Line"}
      ensures name == "Rectangle" <==> geometry.Rectangle?
      ensures name == "Circle" <==> geometry.Circle?
      ensures name == "Triangle" <==> geometry.Triangle?
      ensures name == "Line" <==> geometry.Line?
    {
      TypeName(geometry)
    }

    /** getColour: the colour last set. */
    function GetColour(): (c: char)
      reads this
      ensures c == colour
    {
      colour
    }

    /** getFillMode: the fill mode; no draw consults it. */
    function GetFillMode(): (filled: bool)
      reads this
      ensures filled == fillMode
    {
      fillMode
    }

    /** getId: the id last set by setId. */
    function GetId(): (shapeId: int)
      reads this
      ensures shapeId == id
    {
      id
    }

    /** Moves the anchor; nothing else about the shape changes. */
    method EditPosition(x: int, y: int)
      modifies this`x, this`y
      ensures GetPosition() == (x, y)
      ensures GetType() == old(GetType()) && geometry == old(geometry)
      ensures GetColour() == old(GetColour()) && GetFillMode() == old(GetFillMode()) && GetId() == old(GetId())
    {
      this.x := x;
      this.y := y;
    }

    /** Repaints the shape; nothing else about the shape changes. */
    method EditColour(colour: char)
      modifies this`colour
      ensures GetColour() == colour
      ensures GetPosition() == old(GetPosition()) && geometry == old(geometry)
      ensures GetFillMode() == old(GetFillMode()) && GetId() == old(GetId())
    {
      this.colour := colour;
    }

    method SetId(newId: int)
      modifies this`id
      ensures GetId() == newId
      ensures GetPosition() == old(GetPosition()) && geometry == old(geometry)
      ensures GetColour() == old(GetColour()) && GetFillMode() == old(GetFillMode())
    {
      id := newId;
    }

    /** isSameSpot: the same variant at the same anchor with the same size
        fields, as SameSize picks them. */
    predicate IsSameSpot(other: Shape)
      reads this, other
      ensures IsSameSpot(other) ==> GetType() == other.GetType() && GetPosition() == other.GetPosition()
    {
      x == other.x && y == other.y && SameSize(geometry, other.geometry)
    }

    /** The cell (row, col) is one that draw paints, clipping aside. */
    predicate Paints(step: LineStep, row: int, col: int)
      reads this
    {
      match geometry
      case Rectangle(w, h) => RectangleCell(x, y, w, h, row, col)
      case Circle(r) => CircleCell(x, y, r, row, col)
      case Triangle(h, w) => TriangleCell(x, y, h, w, row, col)
      case Line(l, a) => LineCell(x, y, l, a, step, row, col)
    }

    /** draw stays inside a board of the given size; circles and lines clip
        every write, rectangles and triangles do not. */
    predicate SafeOn(boardWidth: int, boardHeight: int)
      reads this
    {
      match geometry
      case Rectangle(w, h) => RectangleSafe(x, y, w, h, boardWidth, boardHeight)
      case Circle(_) => true
      case Triangle(h, w) => TriangleSafe(x, y, h, w, boardWidth, boardHeight)
      case Line(_, _) => true
    }

    /** draw: paints '#' on exactly the cells of the board this shape
        reaches and leaves every other cell as it was. */
    method Draw(board: array2<char>, step: LineStep)
      requires board.Length0 > 0
      requires SafeOn(board.Length1, board.Length0)
      modifies board
      ensures forall row, col :: 0 <= row < board.Length0 && 0 <= col < board.Length1 ==>
        board[row, col] == if Paints(step, row, col) then '#' else old(board[row, col])
    {
      match geometry
      case Rectangle(w, h) => DrawRectangle(board, w, h);
      case Circle(r) => DrawCircle(board, r);
      case Triangle(h, w) => DrawTriangle(board, h, w);
      case Line(l, a) => DrawLine(board, l, a, step);
    }

    /** Rectangle::draw: the outline of the box [x, x+width) x [y, y+height). */
    method DrawRectangle(board: array2<char>, width: int, height: int)
      requires board.Length0 > 0
      requires RectangleSafe(x, y, width, height, board.Length1, board.Length0)
      modifies board
      ensures forall row, col :: 0 <= row < board.Length0 && 0 <= col < board.Length1 ==>
        board[row, col] == if RectangleCell(x, y, width, height, row, col) then '#' else old(board[row, col])
    {
      var boardHeight, boardWidth := board.Length0, board.Length1;
      var i := x;
      while i < x + width && i < boardWidth
        invariant x <= i && (i == x || (i <= x + width && i <= boardWidth))
        invariant forall row, col :: 0 <= row < boardHeight && 0 <= col < boardWidth ==>
          board[row, col] == if x <= col < i && (row == y || row == y + height - 1) then '#' else old(board[row, col])
      {
        if y >= 0 && y < boardHeight { board[y, i] := '#'; }
        if y + height - 1 >= 0 && y + height - 1 < boardHeight { board[y + height - 1, i] := '#'; }
        i := i + 1;
      }
      var j := y;
      while j < y + height && j < boardHeight
        invariant y <= j && (j == y || (j <= y + height && j <= boardHeight))
        invariant forall row, col :: 0 <= row < boardHeight && 0 <= col < boardWidth ==>
          board[row, col] ==
            if (x <= col < x + width && (row == y || row == y + height - 1)) || (y <= row < j && (col == x || col == x + width - 1))
            then '#' else old(board[row, col])
      {
        if x >= 0 && x < boardWidth { board[j, x] := '#'; }
        if x + width - 1 >= 0 && x + width - 1 < boardWidth { board[j, x + width - 1] := '#'; }
        j := j + 1;
      }
    }

    /** Circle::draw: every cell whose offset from the centre passes the ring
        test, clipped to the board. */
    method DrawCircle(board: array2<char>, radius: int)
      requires board.Length0 > 0
      modifies board
      ensures forall row, col :: 0 <= row < board.Length0 && 0 <= col < board.Length1 ==>
        board[row, col] == if CircleCell(x, y, radius, row, col) then '#' else old(board[row, col])
    {
      var boardHeight, boardWidth := board.Length0, board.Length1;
      var i := -radius;
      while i <= radius
        invariant -radius <= i && (i == -radius || i <= radius + 1)
        invariant forall row, col :: 0 <= row < boardHeight && 0 <= col < boardWidth ==>
          board[row, col] == if row - y < i && CircleCell(x, y, radius, row, col) then '#' else old(board[row, col])
      {
        var j := -radius;
        while j <= radius
          invariant -radius <= j <= radius + 1
          invariant forall row, col :: 0 <= row < boardHeight && 0 <= col < boardWidth ==>
            board[row, col] ==
              if (row - y < i || (row - y == i && col - x < j)) && CircleCell(x, y, radius, row, col)
              then '#' else old(board[row, col])
        {
          var dist := i * i + j * j;
          if dist >= radius * radius - radius && dist <= radius * radius + radius {
            var drawX := x + j;
            var drawY := y + i;
            if drawX >= 0 && drawX < boardWidth && drawY >= 0 && drawY < boardHeight {
              board[drawY, drawX] := '#';
            }
          }
          j := j + 1;
        }
        i := i + 1;
      }
    }

    /** Triangle::draw: the two edge columns of every row from the apex down,
        then the base row, both clipped to the board except for the first
        column of the base. */
    method DrawTriangle(board: array2<char>, height: int, width: int)
      requires board.Length0 > 0
      requires TriangleSafe(x, y, height, width, board.Length1, board.Length0)
      modifies board
      ensures forall row, col :: 0 <= row < board.Length0 && 0 <= col < board.Length1 ==>
        board[row, col] == if TriangleCell(x, y, height, width, row, col) then '#' else old(board[row, col])
    {
      var boardHeight, boardWidth := board.Length0, board.Length1;
      var i := 0;
      while i < height
        invariant 0 <= i && (i == 0 || i <= height)
        invariant forall row, col :: 0 <= row < boardHeight && 0 <= col < boardWidth ==>
          board[row, col] == if row - y < i && EdgeCell(x, y, height, width, row, col) then '#' else old(board[row, col])
      {
        var leftX := x - TDiv(TDiv(i * width, height), 2);
        var rightX := x + TDiv(TDiv(i * width, height), 2);
        var drawY := y + i;
        if drawY >= 0 && drawY < boardHeight {
          if leftX >= 0 && leftX < boardWidth { board[drawY, leftX] := '#'; }
          if rightX >= 0 && rightX < boardWidth { board[drawY, rightX] := '#'; }
        }
        i := i + 1;
      }
      var j := x - TDiv(width, 2);
      while j <= x + TDiv(width, 2) && j < boardWidth
        invariant BaseStart(x, width) <= j
        invariant j == BaseStart(x, width) || (j <= BaseEnd(x, width) + 1 && j <= boardWidth)
        invariant forall row, col :: 0 <= row < boardHeight && 0 <= col < boardWidth ==>
          board[row, col] ==
            if EdgeCell(x, y, height, width, row, col) || (row == y + height - 1 && BaseStart(x, width) <= col < j)
            then '#' else old(board[row, col])
      {
        if y + height - 1 >= 0 && y + height - 1 < boardHeight {
          board[y + height - 1, j] := '#';
        }
        j := j + 1;
      }
    }

    /** Line::draw up to its floating-point step: the cells (x + dx, y + dy)
        of the steps 0 .. length-1, clipped to the board. */
    method DrawLine(board: array2<char>, length: int, angle: real, step: LineStep)
      requires board.Length0 > 0
      modifies board
      ensures forall row, col :: 0 <= row < board.Length0 && 0 <= col < board.Length1 ==>
        board[row, col] == if LineCell(x, y, length, angle, step, row, col) then '#' else old(board[row, col])
    {
      var boardHeight, boardWidth := board.Length0, board.Length1;
      var i := 0;
      while i < length
        invariant 0 <= i && (i == 0 || i <= length)
        invariant forall row, col :: 0 <= row < boardHeight && 0 <= col < boardWidth ==>
          board[row, col] == if LineCell(x, y, i, angle, step, row, col) then '#' else old(board[row, col])
      {
        var drawX := x + step(angle, i).0;
        var drawY := y + step(angle, i).1;
        forall row, col | 0 <= row < boardHeight && 0 <= col < boardWidth
          ensures LineCell(x, y, i + 1, angle, step, row, col) <==>
            LineCell(x, y, i, angle, step, row, col) || (row == drawY && col == drawX)
        {
          LineCellExtend(x, y, i, angle, step, row, col);
        }
        if drawX >= 0 && drawX < boardWidth && drawY >= 0 && drawY < boardHeight {
          board[drawY, drawX] := '#';
        }
        i := i + 1;
      }
    }
  }

  /** One more step of a line adds exactly the cell of that step. */
  lemma LineCellExtend(x: int, y: int, n: int, angle: real, step: LineStep, row: int, col: int)
    requires n >= 0
    ensures LineCell(x, y, n + 1, angle, step, row, col) <==>
      LineCell(x, y, n, angle, step, row, col) || (x + step(angle, n).0 == col && y + step(angle, n).1 == row)
  {
  }

  /** isSameSpot is reflexive and symmetric. */
  lemma SameSpotReflexiveSymmetric(a: Shape, b: Shape)
    ensures a.IsSameSpot(a)
    ensures a.IsSameSpot(b) <==> b.IsSameSpot(a)
  {
  }
}
