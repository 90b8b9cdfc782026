/**
 * src/Board.ts: the earlier board, an array of tiles pushed in the order the
 * nested loops visit the hexagon. Its tiles carry only drawing data, so the
 * model keeps the center each tile was created at.
 */
module SketchBoard {
  import opened Geometry
  import opened HexRegion
  import Hex

  class Board {
    /** The centers of the pushed tiles, in push order. */
    var tiles: seq<Vec2>

    /** Fills `tiles` with every cell of the hexagon of the given radius. */
    constructor (radius: int)
      ensures tiles == Region(radius)
    {
      var cells: seq<Vec2> := [];
      var x := -radius;
      while x <= radius
        invariant -radius <= x
        invariant x <= radius + 1 || x == -radius
        invariant cells == Columns(radius, x)
      {
        var y := -radius;
        while y <= radius
          invariant -radius <= y <= radius + 1
          invariant cells == Columns(radius, x) + Column(radius, x, y)
        {
          NextCell(radius, x, y);
          if Hex.Abs(x + y) <= radius {
            cells := cells + [Vec2(x, y)];
          }
          y := y + 1;
        }
        x := x + 1;
      }
      tiles := cells;
    }

    /**
     * What the constructor promises about the array: every cell pushed lies in
     * the hexagon, every cell of the hexagon is pushed, none twice, in x-major
     * order, 3R^2 + 3R + 1 of them for R >= 0.
     */
    lemma Enumeration(radius: int)
      requires tiles == Region(radius)
      ensures forall v :: v in tiles <==> InHex(radius, v)
      ensures StrictlyIncreasing(tiles)
      ensures forall i, j :: 0 <= i < j < |tiles| ==> tiles[i] != tiles[j]
      ensures radius >= 0 ==> |tiles| == 3 * radius * radius + 3 * radius + 1
      ensures radius < 0 ==> tiles == []
    {
      RegionMembers(radius);
      RegionIncreasing(radius);
      if radius >= 0 {
        RegionSize(radius);
      }
    }
  }
}
