# ShapesBlackBoard in Dafny

A model of the core of a text-mode drawing board. The board holds a
`height × width` grid of characters and an ordered list of shapes. There
are four kinds of shape: rectangle, circle, triangle and line. Drawing
blanks the grid and then lets every shape, in insertion order, write `'#'`
into the cells its outline reaches. A shape is added only when no listed
shape is at the same spot.

The model has four modules, one per file:

- `Raster` (`raster.dfy`) holds the integer geometry of the rasterizers.
  It says which cells each outline reaches (`RectangleCell`, `CircleCell`,
  `TriangleCell`, `LineCell`). It says when a draw loop stays inside the
  board (`RectangleSafe`, `TriangleSafe`). It models C++ truncating
  division (`TDiv`). Its lemmas state what those outlines look like: corners,
  symmetry, and the triangle's staircase staying inside its base.
- `Shapes` (`shapes.dfy`) holds the `Shape` class. Its fields are `x`, `y`,
  `id`, `colour` and `fillMode`, which the program updates in place. Its
  variant part is the closed datatype `Geometry`, one constructor per C++
  subclass. `IsSameSpot` matches on the pair of geometries instead of
  using `dynamic_cast`. `GetPosition`, `GetType`, `GetColour`,
  `GetFillMode` and `GetId` are the getters. `Draw` dispatches to
  `DrawRectangle`, `DrawCircle`, `DrawTriangle` and `DrawLine`. Each is
  the C++ loop, proved to write `'#'` on exactly the cells its `…Cell`
  predicate names and to leave every other cell unchanged.
- `Board` (`blackboard.dfy`) holds the `Blackboard` class. It owns an
  `array2<char>` grid and a `seq<Shape>`. Its invariant `Valid()` says the
  grid is `height × width` and that no two listed shapes are at the same
  spot (`Apart`).
- `Scenario` (`scenario.dfy`) is a client that uses only the contracts.
  On a 10 × 10 board it adds a 4 × 3 rectangle and then the same rectangle
  again. The second add is refused. Drawing then shows the corners and
  leaves the inside blank.

The model follows the code as written, including where it departs from
what the Shape.h declarations and the program's names suggest:

- Every `draw` paints `'#'`. The shape's colour is never painted, and
  fill mode is never consulted.
- The rectangle and triangle loops do not clip the lower end of the
  board. The model states the resulting memory-safety conditions as
  `requires` clauses instead of clipping.
- Triangle's `isSameSpot` compares the height only. Line's compares the
  length only.
- Every shape paints the same glyph, so drawing order does not change the
  grid (`Board.PaintedByAnyMembers`), although shapes are drawn in
  insertion order.
- The Shape.cpp constructors take only the anchor and the size fields.
  The model follows them, not the Shape.h declarations that add `colour`
  and `fillMode`.

## Model

| member | source | states |
|---|---|---|
| `Raster.TDiv` | Shape.cpp:82-83 | C++ `/` by a positive divisor truncates toward zero: the remainder is smaller than the divisor and has the sign of the dividend, and the quotient has the dividend's sign |
| `Raster.TDivNonNegative` | Shape.cpp:82 | for a non-negative dividend, truncating division agrees with Euclidean division |
| `Raster.TDivMonotone` | Shape.cpp:82-83 | truncating division by a positive number is monotone in the dividend |
| `Raster.NonNegativeAnchorRectangleSafe` | Shape.cpp:15-31 | with `x ≥ 0` and `y ≥ 0` the two rectangle loops never index below zero |
| `Raster.RectangleCorners` | Shape.cpp:15-31 | a rectangle of positive width and height reaches its four corners |
| `Raster.RectangleHollow` | Shape.cpp:11-32 | no cell strictly inside the box is reached: only the outline is drawn |
| `Raster.RingSymmetric` | Shape.cpp:51-54 | the ring test `r²−r ≤ i²+j² ≤ r²+r` is symmetric under negating either offset and under swapping them |
| `Raster.CircleAxisPoints` | Shape.cpp:51-62 | a circle of radius `r ≥ 0` reaches the four points at distance `r` along the axes, e.g. the top of the outline |
| `Raster.PointCircle` | Shape.cpp:51-58 | radius 0 reaches the centre cell and nothing else |
| `Raster.EdgeWithinBase` | Shape.cpp:81-96 | for a non-negative width, the staircase half-width `(i*width/height)/2` of every row lies in `[0, width/2]`, and is 0 at the apex |
| `Raster.EdgeMonotone` | Shape.cpp:81-83 | the staircase half-width never shrinks from the apex down |
| `Raster.TriangleWithinBox` | Shape.cpp:77-97 | every cell a triangle of positive height and non-negative width reaches lies in rows `y .. y+height-1` and columns `x−width/2 .. x+width/2` |
| `Raster.BaseStart` | Shape.cpp:92 | the base loop's first column `x − width/2` is not right of the apex column for a non-negative width |
| `Raster.BaseEnd` | Shape.cpp:92 | the base loop's last column `x + width/2` is not left of the apex column for a non-negative width, and the base is symmetric about the apex column |
| `Raster.TriangleUnsafeNearLeftEdge` | Shape.cpp:92-96 | a non-negative anchor is not enough for the triangle: with apex (1, 0) and width 4 the base loop starts at column −1 on the board |
| `Shapes.TypeName` | Shape.cpp:40-42 | each variant has its own name, as the four getType bodies return it (Rectangle here, Circle at Shape.cpp:70-72, Triangle at 104-106, Line at 131-133): the name is "Rectangle", "Circle", "Triangle" or "Line" exactly when the shape is that variant |
| `Shapes.TypeNameIdentifiesVariant` | Shape.cpp:34-42 | the names getType returns are equal exactly when the variants are, so comparing them is the `dynamic_cast` test |
| `Shapes.SameSize` | Shape.cpp:99-102 | comparing sizes succeeds only for shapes of the same variant |
| `Shapes.TriangleSpotIgnoresWidth` | Shape.cpp:99-102 | two triangles differing only in width count as the same spot although they reach different cells |
| `Shapes.LineSpotIgnoresAngle` | Shape.cpp:126-129 | two lines differing only in angle count as the same spot |
| `Shapes.SameSpotReflexiveSymmetric` | Shape.cpp:65-68 | isSameSpot is reflexive and symmetric |
| `Shapes.Shape.constructor` | Shape.cpp:3-9 | a new shape has the given anchor and variant with its sizes |
| `Shapes.Shape.GetPosition` | Shape.cpp:5-7 | getPosition returns the anchor as the pair `(x, y)`, x first |
| `Shapes.Shape.GetType` | Shape.h:31 | getType returns one of the four names, and the name is that of the shape's own variant (bodies at Shape.cpp:40-42, 70-72, 104-106, 131-133) |
| `Shapes.Shape.GetColour` | Shape.h:39-41 | getColour returns the stored colour |
| `Shapes.Shape.GetFillMode` | Shape.h:43-45 | getFillMode returns the stored fill mode |
| `Shapes.Shape.GetId` | Shape.h:47 | getId returns the stored id |
| `Shapes.Shape.EditPosition` | Shape.h:18-21 | afterwards getPosition is exactly the new `(x, y)`; type, sizes, colour, fill mode and id are unchanged |
| `Shapes.Shape.EditColour` | Shape.h:37-45 | afterwards getColour is the new colour; position, sizes, fill mode and id are unchanged |
| `Shapes.Shape.SetId` | Shape.h:47-49 | afterwards getId returns the new id; nothing else changes |
| `Shapes.Shape.IsSameSpot` | Shape.cpp:34-38 | the predicate covers all four isSameSpot bodies (Rectangle here, Circle at Shape.cpp:65-68, Triangle at 99-102, Line at 126-129); being at the same spot implies the same type (getType) and the same position (getPosition) |
| `Shapes.Shape.Draw` | Shape.h:25 | a board with at least one row on which the shape is safe gets `'#'` on exactly the cells the shape reaches; every other cell keeps its value |
| `Shapes.Shape.DrawRectangle` | Shape.cpp:11-32 | under the exact safety condition of the two loops, `'#'` is written on the in-board cells of rows `y`, `y+height−1` over columns `[x, x+width)` and of columns `x`, `x+width−1` over rows `[y, y+height)`; nothing else changes |
| `Shapes.Shape.DrawCircle` | Shape.cpp:47-63 | `'#'` is written on cell `(y+i, x+j)` exactly when `i, j ∈ [−r, r]`, the ring test holds and the cell is on the board; nothing else changes |
| `Shapes.Shape.DrawTriangle` | Shape.cpp:77-97 | `'#'` is written on the in-board cells `x ∓ (i*width/height)/2` of each row `y+i` (truncating division) and on the base row from `x−width/2` to `x+width/2`; the base row must start on the board when it is on the board; nothing else changes |
| `Shapes.Shape.DrawLine` | Shape.cpp:110-124 | `'#'` is written on the in-board cells `(y+dy, x+dx)` of steps `0 .. length−1`, given the floating-point offsets of each step; nothing else changes |
| `Shapes.LineCellExtend` | Shape.cpp:116-123 | one more step of the line loop adds exactly that step's cell |
| `Board.PaintedByAnySnoc` | Blackboard.cpp:10-12 | drawing one more shape adds exactly that shape's cells to the painted set |
| `Board.PaintedByAnyMembers` | Blackboard.cpp:10-12 | the rendered cells depend only on which shapes are listed, not on their order or repetition |
| `Board.ApartSnoc` | Blackboard.cpp:30-39 | appending a shape that no listed shape is at the same spot as keeps "no two shapes at the same spot" |
| `Board.ApartDistinct` | Blackboard.cpp:31-36 | a list kept apart never holds the same shape object twice |
| `Board.Blackboard.constructor` | Blackboard.cpp:3-5 | the new grid has `h` rows of `w` cells, all `' '`, and the shape list is empty |
| `Board.Blackboard.ClearBoard` | Blackboard.cpp:22-28 | all `height × width` cells become `' '`; the shape list is untouched |
| `Board.Blackboard.Draw` | Blackboard.cpp:7-12 | afterwards a cell is `'#'` exactly when some listed shape reaches it and `' '` otherwise, whatever the grid held before; the list and the invariant are unchanged |
| `Board.Blackboard.AddShape` | Blackboard.cpp:30-39 | the shape is added exactly when no listed shape is at the same spot; if added it is appended at the end and the earlier entries are unchanged, otherwise the list is unchanged; "no two shapes at the same spot" is preserved |
| `Board.Blackboard.Clear` | Blackboard.cpp:41-43 | the shape list becomes empty; the grid is not touched |

## Left out

- Line::draw's trigonometry (Shape.cpp:114-118): `angle * M_PI / 180`, `cos`, `sin` and the casts to `int` are floating point. `DrawLine` and `Blackboard.Draw` take the integer offsets of each step as the parameter `step`. The loop, its clipping and its writes are modelled.
- The console output: the printing loop of Blackboard::draw (Blackboard.cpp:14-19), and the message of addShape (Blackboard.cpp:33), which `AddShape` returns as its `added` flag.
- 32-bit integer arithmetic: `int` is unbounded in the model. Overflow in `radius * radius`, `i * width` or `x + width` (undefined in C++) is not modelled.
- Ownership through `shared_ptr` is modelled as a `seq` of object references. A shape moved through another reference while it is listed can break `Valid()`. No method of the board does that, and every board method requires `Valid()`.
- `Shapes.Shape.constructor` follows Shape.cpp, which sets only the anchor and the sizes. `id`, `colour` and `fillMode` start unspecified, and the Shape.h signature that also takes `colour` and `fillMode` is not modelled.
- The Blackboard fields `nextShapeId` and `shapeId` are not read or written by any shown body, so they are not modelled.
- Declared operations with no body in the source are not modelled, because there is no code to model: `editSize`, `coversPoint`, `isWithinBounds`, `removeShape`, `listShapes`, `undo`, `save`, `load`, `editParams`, the board's `editPosition` and `editColour`, `selectId` and `selectPosition`.
- The command-line interface (CLI.cpp, CLI.h), including undo through numbered temporary files, and the file-stream wrapper (RaiiWrapper.cpp, RaiiWrapper.h) are I/O glue, and the program entry (main.cpp) is not part of this model.
