/**
 * Directions on the axial hex grid of src/Game.ts: the `Direction` type and
 * the `Tile.DirectionMap` table of neighbour offsets.
 */
module Hex {
  import opened Geometry

  /** The six directions a capture can go in. */
  datatype Direction = North | NorthWest | SouthWest | South | SouthEast | NorthEast

  /** The directions in the order `getAllBorderingTileCenters` and `hasLegalMoves3` visit them. */
  const AllDirections: seq<Direction> := [North, NorthEast, NorthWest, South, SouthEast, SouthWest]

  /** `Tile.DirectionMap`: the offset from a tile to its neighbour in direction `d`. */
  function DirectionMap(d: Direction): Vec2
  {
    match d
    case North => Vec2(0, -1)
    case NorthEast => Vec2(1, -1)
    case NorthWest => Vec2(-1, 0)
    case South => Vec2(0, 1)
    case SouthEast => Vec2(1, 0)
    case SouthWest => Vec2(-1, 1)
  }

  /** The direction pointing back. */
  function Opposite(d: Direction): Direction
  {
    match d
    case North => South
    case South => North
    case NorthEast => SouthWest
    case SouthWest => NorthEast
    case NorthWest => SouthEast
    case SouthEast => NorthWest
  }

  function Abs(n: int): nat
  {
    if n < 0 then -n else n
  }

  /** The number of steps from the origin to `v` on the axial hex grid. */
  function HexNorm(v: Vec2): nat
  {
    var a, b, c := Abs(v.x), Abs(v.y), Abs(v.x + v.y);
    if a >= b && a >= c then a else if b >= c then b else c
  }

  /** The number of steps between two cells. */
  function HexDistance(a: Vec2, b: Vec2): nat
  {
    HexNorm(Vec2(b.x - a.x, b.y - a.y))
  }

  /** The offsets come in negated pairs: North/South, NorthEast/SouthWest, NorthWest/SouthEast. */
  lemma OppositeOffsets(d: Direction)
    ensures DirectionMap(Opposite(d)) == Neg(DirectionMap(d))
    ensures Opposite(Opposite(d)) == d && Opposite(d) != d
  {
  }

  /** Six different offsets, listed once each by `AllDirections`. */
  lemma OffsetsDistinct(d: Direction, e: Direction)
    ensures DirectionMap(d) == DirectionMap(e) ==> d == e
    ensures d in AllDirections
  {
  }

  /** The offsets are exactly the vectors one step from the origin. */
  lemma OffsetsAreUnitSteps(v: Vec2)
    ensures HexNorm(v) == 1 <==> exists d :: DirectionMap(d) == v
  {
    if HexNorm(v) == 1 {
      var d :=
        if v == Vec2(0, -1) then North
        else if v == Vec2(1, -1) then NorthEast
        else if v == Vec2(-1, 0) then NorthWest
        else if v == Vec2(0, 1) then South
        else if v == Vec2(1, 0) then SouthEast
        else SouthWest;
      assert DirectionMap(d) == v;
    }
  }
}
