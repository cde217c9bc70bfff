/** The drawing board: a grid of characters, rendered from an ordered list
    of shapes, and the list itself, in which no two shapes are at the same
    spot. */
module Board {
  import opened Raster
  import opened Shapes

  /** Some shape of the list paints the cell (row, col). */
  ghost predicate PaintedByAny(shapes: seq<Shape>, step: LineStep, row: int, col: int)
    reads shapes
  {
    exists k :: 0 <= k < |shapes| && shapes[k].Paints(step, row, col)
  }

  /** Drawing one more shape adds exactly that shape's cells. */
  lemma PaintedByAnySnoc(shapes: seq<Shape>, s: Shape, step: LineStep, row: int, col: int)
    ensures PaintedByAny(shapes + [s], step, row, col) <==> PaintedByAny(shapes, step, row, col) || s.Paints(step, row, col)
  {
    var all := shapes + [s];
    if PaintedByAny(shapes, step, row, col) {
      var k :| 0 <= k < |shapes| && shapes[k].Paints(step, row, col);
      assert all[k] == shapes[k];
    }
    if s.Paints(step, row, col) {
      assert all[|shapes|] == s;
    }
    if PaintedByAny(all, step, row, col) {
      var k :| 0 <= k < |all| && all[k].Paints(step, row, col);
      if k < |shapes| {
        assert all[k] == shapes[k];
      }
    }
  }

  /** Every shape paints the same glyph, so the rendered grid depends only
      on which shapes are listed: neither their order nor repetitions
      change it. */
  lemma PaintedByAnyMembers(a: seq<Shape>, b: seq<Shape>, step: LineStep, row: int, col: int)
    requires forall s :: s in a <==> s in b
    ensures PaintedByAny(a, step, row, col) <==> PaintedByAny(b, step, row, col)
  {
    if PaintedByAny(a, step, row, col) {
      var k :| 0 <= k < |a| && a[k].Paints(step, row, col);
      assert a[k] in b;
      var m :| 0 <= m < |b| && b[m] == a[k];
    }
    if PaintedByAny(b, step, row, col) {
      var k :| 0 <= k < |b| && b[k].Paints(step, row, col);
      assert b[k] in a;
      var m :| 0 <= m < |a| && a[m] == b[k];
    }
  }

  /** No two entries of the list are at the same spot. */
  ghost predicate Apart(shapes: seq<Shape>)
    reads shapes
  {
    forall i, j :: 0 <= i < |shapes| && 0 <= j < |shapes| && i != j ==> !shapes[i].IsSameSpot(shapes[j])
  }

  /** Appending a shape that no entry is at the same spot as keeps the list
      apart. */
  lemma ApartSnoc(shapes: seq<Shape>, s: Shape)
    requires Apart(shapes)
    requires forall k :: 0 <= k < |shapes| ==> !shapes[k].IsSameSpot(s)
    ensures Apart(shapes + [s])
  {
  }

  /** A list kept apart holds no shape twice. */
  lemma ApartDistinct(shapes: seq<Shape>, i: int, j: int)
    requires Apart(shapes)
    requires 0 <= i < |shapes| && 0 <= j < |shapes| && i != j
    ensures shapes[i] != shapes[j]
  {
  }

  class Blackboard {
    var width: int
    var height: int
    var board: array2<char>
    var shapes: seq<Shape>

    /** The grid has `height` rows of `width` cells, and no two shapes of the
        list are at the same spot. */
    ghost predicate Valid()
      reads this, shapes
    {
      board.Length0 == height && board.Length1 == width && Apart(shapes)
    }

    /** A blank board of `h` rows of `w` cells with no shapes. */
    constructor (w: int, h: int)
      requires w >= 0 && h >= 0
      ensures Valid() && fresh(board)
      ensures width == w && height == h && shapes == []
      ensures forall row, col :: 0 <= row < h && 0 <= col < w ==> board[row, col] == ' '
    {
      width, height := w, h;
      board := new char[h, w]((row, col) => ' ');
      shapes := [];
    }

    /** clearBoard: every cell of the grid becomes blank. */
    method ClearBoard()
      requires Valid()
      modifies board
      ensures forall row, col :: 0 <= row < height && 0 <= col < width ==> board[row, col] == ' '
    {
      var i := 0;
      while i < height
        invariant 0 <= i <= height
        invariant forall row, col :: 0 <= row < i && 0 <= col < width ==> board[row, col] == ' '
      {
        var j := 0;
        while j < width
          invariant 0 <= j <= width
          invariant forall row, col :: 0 <= row < i && 0 <= col < width ==> board[row, col] == ' '
          invariant forall col :: 0 <= col < j ==> board[i, col] == ' '
        {
          board[i, j] := ' ';
          j := j + 1;
        }
        i := i + 1;
      }
    }

    /** The rasterizing part of draw: blank the grid, then draw every shape
        in insertion order. A cell ends up '#' exactly when some shape
        paints it, whatever the grid held before. Drawing reads
        `board[0]`, so a board without rows can be drawn only while empty. */
    method Draw(step: LineStep)
      requires Valid()
      requires height > 0 || shapes == []
      requires forall k :: 0 <= k < |shapes| ==> shapes[k].SafeOn(width, height)
      modifies board
      ensures Valid() && shapes == old(shapes)
      ensures forall row, col :: 0 <= row < height && 0 <= col < width ==>
        board[row, col] == if PaintedByAny(shapes, step, row, col) then '#' else ' '
    {
      ClearBoard();
      var k := 0;
      while k < |shapes|
        invariant 0 <= k <= |shapes|
        invariant forall row, col :: 0 <= row < height && 0 <= col < width ==>
          board[row, col] == if PaintedByAny(shapes[..k], step, row, col) then '#' else ' '
      {
        shapes[k].Draw(board, step);
        assert shapes[..k + 1] == shapes[..k] + [shapes[k]];
        forall row, col | 0 <= row < height && 0 <= col < width
          ensures PaintedByAny(shapes[..k + 1], step, row, col) <==>
            PaintedByAny(shapes[..k], step, row, col) || shapes[k].Paints(step, row, col)
        {
          PaintedByAnySnoc(shapes[..k], shapes[k], step, row, col);
        }
        k := k + 1;
      }
      assert shapes[..k] == shapes;
    }

    /** addShape: rejects a shape when some listed shape is at the same spot
        (the program reports this on the console), otherwise appends it. */
    method AddShape(shape: Shape) returns (added: bool)
      requires Valid()
      modifies this`shapes
      ensures Valid()
      ensures added <==> forall k :: 0 <= k < |old(shapes)| ==> !old(shapes)[k].IsSameSpot(shape)
      ensures shapes == if added then old(shapes) + [shape] else old(shapes)
    {
      var k := 0;
      while k < |shapes|
        invariant 0 <= k <= |shapes|
        invariant forall m :: 0 <= m < k ==> !shapes[m].IsSameSpot(shape)
      {
        if shapes[k].IsSameSpot(shape) {
          return false;
        }
        k := k + 1;
      }
      ApartSnoc(shapes, shape);
      shapes := shapes + [shape];
      added := true;
    }

    /** clear: the list becomes empty; the grid keeps what it shows until
        the next draw. */
    method Clear()
      requires Valid()
      modifies this`shapes
      ensures Valid() && shapes == []
    {
      shapes := [];
    }
  }
}
