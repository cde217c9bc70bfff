/** A client of the board that uses only the contracts: on a 10 x 10 board a
    4 x 3 rectangle anchored at (1, 1) is added, the same rectangle is
    refused, and drawing shows the outline and nothing inside it. */
module Scenario {
  import opened Raster
  import opened Shapes
  import opened Board

  method DuplicateRectangle(step: LineStep)
  {
    var b := new Blackboard(10, 10);
    var r := new Shape(1, 1, Rectangle(4, 3));
    var again := new Shape(1, 1, Rectangle(4, 3));
    var first := b.AddShape(r);
    assert first;
    assert b.shapes[0] == r && b.shapes[0].IsSameSpot(again);
    var second := b.AddShape(again);
    assert !second && b.shapes == [r];

    b.Draw(step);
    assert b.shapes == [r];
    forall row, col | 0 <= row < 10 && 0 <= col < 10
      ensures b.board[row, col] == if r.Paints(step, row, col) then '#' else ' '
    {
      PaintedByAnySnoc([], r, step, row, col);
      assert [] + [r] == [r];
    }
    assert r.x == 1 && r.y == 1 && r.geometry == Rectangle(4, 3);
    // the four corners (row, col) are painted
    RectangleCorners(1, 1, 4, 3);
    assert r.Paints(step, 1, 1) && r.Paints(step, 1, 4) && r.Paints(step, 3, 1) && r.Paints(step, 3, 4);
    assert b.board[1, 1] == '#' && b.board[1, 4] == '#' && b.board[3, 1] == '#' && b.board[3, 4] == '#';
    // the inside and the outside stay blank
    assert !r.Paints(step, 2, 2) && !r.Paints(step, 0, 0) && !r.Paints(step, 5, 5);
    assert b.board[2, 2] == ' ' && b.board[0, 0] == ' ' && b.board[5, 5] == ' ';
  }
}
