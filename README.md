# Hexles: the territory-capture core in Dafny

Hexles is a browser game played on a hexagonal board of tiles in axial
coordinates `(x, y)`. A player owns some tiles. `captureTiles(player, d)`
claims, in one move, every neutral tile that lies one step in direction `d`
from a tile the player owned before the move. This project models that core
and proves what it promises:

- `src/Game.ts`: players, tiles, the tile dictionary the board builds, the
  capture move and the neighbour queries;
- `src/Geometry.ts`: clamping, `Vec2.add` and the weighted random choice of
  a bucket;
- `src/Board.ts`: the earlier board, which enumerates the same hexagon into
  an array.

Modules:

- `Geometry` (geometry.dfy): `Vec2`, `Math2.clamp`, `Math2.selectRandom` and
  `Math2.selectRandomBucket`. The integer that `Math2.randomInt` draws is a
  parameter, constrained by `IsDraw`.
- `Hex` (hex.dfy): the six directions, the `DirectionMap` offsets and hex
  distance.
- `HexRegion` (hexregion.dfy): the cells that the nested `for` loops visit,
  in visiting order (`Region`). Lemmas give their membership, order and
  count.
- `Keys` (keys.dfy): the `x + ',' + y` dictionary keys. Parsing a key back
  recovers its cell, so different cells never share a key.
- `Seqs` (seqs.dfy): the two ways the source drops repeated keys, the
  `indexOf` filter and `[...new Set(..)]`. They are proved to agree.
- `Territory` (territory.dfy): a value-level reference model of the board,
  a map from cell to owner id. It defines the capture (`Capture`, `Targets`,
  `Sources`) and replays, cell by cell, the list pipeline the board runs.
- `Game` (game.dfy): `Player` as a value; `Tile` and `Board` as classes whose
  owners change in place. `Board.OwnerIds()` reads the board as a
  `Territory.Ownership`, and every query and the capture method are proved
  against the `Territory` model.
- `SketchBoard` (sketchboard.dfy): the constructor of `src/Board.ts`.

The source keeps its tiles in a JavaScript object under string keys. The
model keys the dictionary by the cell itself. Every lookup the source makes
builds the key from a cell, so this changes nothing: `Keys.KeyInjective`
shows that different cells have different keys. `Keys.SetSpreadKeys` and
`Keys.FirstOccurrencesKeys` show that dropping repeated keys drops exactly
the repeated cells. The board's `order` field is the order in which
`Object.values` lists the tiles. The keys contain a comma, so they are never
array indices, and that order is insertion order.

## Model

| member | source | states |
|---|---|---|
| Game.Player.Equals | src/Game.ts:13-15 | `this.id === other.id`; an equivalence that ignores the colour (`Game.EqualsComparesIds`) |
| Game.EqualsComparesIds | src/Game.ts:13-15 | `equals` holds exactly when the ids are equal; it is reflexive, symmetric and transitive, and ignores the colour |
| Game.Tile.constructor | src/Game.ts:42-45 | a new tile has the given center and no owner |
| Game.Tile.Capture | src/Game.ts:55-59 | a neutral tile becomes the player's; an owned tile keeps its first owner |
| Game.Tile.OwnedByComparesIds | src/Game.ts:63-65 | `isOwnedBy` is false on a neutral tile, and otherwise true exactly when the owner's id is the player's id |
| Game.Tile.BorderingStepBack | src/Game.ts:69-71 | the neighbour toward d is one hex step away, and stepping the opposite way comes back |
| Game.Tile.AllBorderingTileCenters | src/Game.ts:75-84 | six centers: entry i is the neighbour toward the i-th of North, NorthEast, NorthWest, South, SouthEast, SouthWest |
| Game.Tile.BorderingRing | src/Game.ts:75-84 | the six centers are distinct, none is the tile's own, and they are exactly the cells at hex distance 1 |
| Game.Board.constructor | src/Game.ts:109-116 | the board holds one neutral, fresh tile per cell of the hexagon, filed under its own center, in the order the loops create them |
| Game.Board.FillColumn | src/Game.ts:111-115 | the inner loop adds column x of the hexagon; earlier tiles stay, and new tiles are fresh, neutral and centred on their cell |
| Game.Board.TilesAt | src/Game.ts:143 | the tiles filed under a list of on-board cells, position by position; with the board's insertion order it is `Object.values` |
| Game.Board.TilesAtCells | src/Game.ts:149 | a tile is on the looked-up list exactly when its cell is; distinct cells give distinct tiles |
| Game.Board.OwnedBy | src/Game.ts:144 | the filter keeps exactly the listed tiles the player owns (the order is given by `Game.Board.OwnedByCells`) |
| Game.Board.OwnedByCells | src/Game.ts:143-144 | filtering the board's tiles by owner is filtering its cells by owner id |
| Game.Board.CentersToward | src/Game.ts:165 | the i-th center is the i-th tile's neighbour toward d |
| Game.Board.CentersTowardCells | src/Game.ts:165 | the neighbours toward d of the tiles at cs are the cells of cs shifted one step toward d |
| Game.Board.NeutralAt | src/Game.ts:166-167 | a tile is kept exactly when it is the tile of a listed cell that is on the board and neutral: every kept tile is a neutral board tile filed under a listed cell (`Game.Board.TilesOfCells`), and every listed on-board neutral cell's tile is kept |
| Game.Board.TilesOfCellsMembers | src/Game.ts:166 | the tiles the lookup can reach from cs are exactly those filed under a cell of cs |
| Game.Board.NeutralAtFromListed | src/Game.ts:166-167 | every kept tile is the tile of some listed, on-board cell |
| Game.Board.TilesOfCells | src/Game.ts:166 | the set of tiles `this.tiles[key]` finds for the cells of cs, skipping cells off the board (see `Game.Board.TilesOfCellsMembers`) |
| Game.Board.NeutralAtCells | src/Game.ts:166-167 | the lookup-then-filter is the tiles of the cells that are on the board and neutral |
| Game.Board.NeutralBorderingTilesList | src/Game.ts:162-168 | `getNeutralBorderingTiles` is the tile list of the cell-level target list |
| Game.Board.NeutralBorderingTargets | src/Game.ts:162-168 | a tile is listed exactly when its cell is a capture target toward d; no tile is listed twice |
| Game.Board.NeutralBorderingCount | src/Game.ts:162-171 | the list is as long as the set of targets, which is as large as the set of source tiles |
| Game.Board.CaptureTiles | src/Game.ts:169-172 | afterwards the board is `Territory.Capture` of the board before: exactly the targets chosen before the move become the player's, every other tile keeps its owner, and the player gains as many tiles as `getNeutralBorderingTiles` listed before the move |
| Game.Board.CapturedCount | src/Game.ts:169-172 | a board that is `Territory.Capture` of another has gained exactly as many cells as there were targets |
| Game.Board.OwnersAfterCapture | src/Game.ts:169-172 | owners that agree cell by cell with `Territory.Capture` make the board equal to it |
| Game.Board.CaptureEach | src/Game.ts:170-171 | the `forEach` over distinct neutral tiles leaves each of them owned by the player |
| Game.Board.CentersAround | src/Game.ts:145-146 | `.map(tile => tile.getAllBorderingTileCenters()).flat()`: the six neighbour centers of each tile, tile after tile; its members are the cells one step from a tile (`Game.Board.CentersAroundMembers`) |
| Game.Board.CentersAroundMembers | src/Game.ts:145-146 | a cell is in the flattened neighbour list exactly when it is one step from one of the tiles |
| Game.Board.CentersAroundCells | src/Game.ts:145-146 | the flattened neighbours of tiles centred on cs are the cells of cs shifted in some direction |
| Game.Board.AllNeutralBorderingCell | src/Game.ts:142-151 | a tile is on `getAllNeutralBorderingTiles` exactly when it is a capture target in some direction |
| Game.Board.AllNeutralBorderingTilesAre | src/Game.ts:142-161 | the `indexOf` and `Set` variants return the same list, with no tile twice; a tile is on it exactly when some direction targets it, that is, when `getNeutralBorderingTiles` lists it for some direction |
| Game.Board.NoneTowardIsNoTargets | src/Game.ts:162-168 | `getNeutralBorderingTiles` is empty exactly when nothing can be captured toward d |
| Game.Board.DirectionalQueryIsNoCapture | src/Game.ts:179-186 | `hasLegalMoves3` holds exactly when no direction gives a capture |
| Game.Board.FlatQueryIsNoCapture | src/Game.ts:173-175 | `hasLegalMoves` holds exactly when no direction gives a capture |
| Game.Board.LegalMoveQueriesAgree | src/Game.ts:173-186 | the three queries always agree, and each is true exactly when the player can capture nothing |
| Game.Board.HasLegalMovesInverted | src/Game.ts:173-186 | whenever a capture is available, all three queries are false (the code as written; see Findings) |
| Game.Board.CentreOwnedNorthNeutral | src/Game.ts:173-175 | an owned centre tile with a neutral tile to its north gives a capture, and `hasLegalMoves` is false |
| Game.CentreTileExample | src/Game.ts:173-175 | on a board of radius at least 1, after the centre tile is captured, a capture exists and `hasLegalMoves` is false |
| Game.Board.HasAnyLegalMove | src/Game.ts:173-186 | the corrected query: true exactly when the player can capture, that is, when all three source queries are false |
| Game.Tile.IsNeutral | src/Game.ts:49-51 | the tile has no owner; a neutral tile is owned by nobody (`Game.Tile.OwnedByComparesIds`) |
| Game.Tile.IsOwnedBy | src/Game.ts:63-65 | `owner?.equals(player) ?? false`: false on a neutral tile, id equality otherwise (`Game.Tile.OwnedByComparesIds`) |
| Game.Tile.BorderingTileCenter | src/Game.ts:69-71 | the center plus the direction's offset; one hex step away, and undone by the opposite direction (`Game.Tile.BorderingStepBack`) |
| Game.Board.Values | src/Game.ts:143 | `Object.values(this.tiles)`: the tiles in the order the constructor filed them; each tile once (`Game.Board.TilesAtCells`, `HexRegion.RegionIncreasing`) |
| Game.Board.NeutralBorderingTiles | src/Game.ts:162-168 | `getNeutralBorderingTiles`: the neutral tiles one step toward d from the player's tiles; exactly the targets toward d, each once (`Game.Board.NeutralBorderingTargets`, `Game.Board.NeutralBorderingCount`) |
| Game.Board.AllNeutralBorderingTiles | src/Game.ts:142-151 | `getAllNeutralBorderingTiles` with the `indexOf` filter; exactly the tiles some direction targets, each once (`Game.Board.AllNeutralBorderingTilesAre`) |
| Game.Board.AllNeutralBorderingTiles2 | src/Game.ts:152-161 | `getAllNeutralBorderingTiles2` with the `Set` spread; the same list as the `indexOf` variant (`Game.Board.AllNeutralBorderingTilesAre`) |
| Game.Board.HasLegalMoves | src/Game.ts:173-175 | `getAllNeutralBorderingTiles(player).length === 0`; true exactly when no capture exists (`Game.Board.FlatQueryIsNoCapture`) |
| Game.Board.HasLegalMoves2 | src/Game.ts:176-178 | `getAllNeutralBorderingTiles2(player).length === 0`; agrees with `hasLegalMoves` (`Game.Board.LegalMoveQueriesAgree`) |
| Game.Board.HasLegalMoves3 | src/Game.ts:179-186 | the six per-direction lists are all empty; true exactly when no capture exists (`Game.Board.DirectionalQueryIsNoCapture`) |
| Hex.DirectionMap | src/Game.ts:29-36 | the six offsets of the source's table; negated in pairs, distinct, and exactly the unit hex steps (`Hex.OppositeOffsets`, `Hex.OffsetsDistinct`, `Hex.OffsetsAreUnitSteps`) |
| Geometry.Add | src/Geometry.ts:53-55 | `Vec2.add`, the componentwise sum; commutative, associative, cancelled by the negation (`Geometry.AddCommutative`, `Geometry.AddAssociative`, `Geometry.AddNegCancels`) |
| Keys.Key | src/Game.ts:113 | the string `x + ',' + y`; two cells share a key exactly when they are the same cell (`Keys.KeyInjective`) |
| Seqs.FirstOccurrences | src/Game.ts:148 | `.filter((key, i, arr) => arr.indexOf(key) === i)`; keeps every element, repeats none, and equals the `Set` spread (`Seqs.FirstOccurrencesIsSetSpread`) |
| Seqs.SetSpread | src/Game.ts:153-157 | `[...new Set(arr)]`; holds exactly the array's elements, each once (`Seqs.SetSpreadElements`) |
| Territory.TargetsAre | src/Game.ts:162-168 | a target toward d is a neutral board cell whose neighbour against d belongs to the player |
| Territory.NeighbourCapturable | src/Game.ts:162-168 | a player's cell with a neutral neighbour toward d makes that neighbour a target, so a capture is available |
| Territory.CaptureEffect | src/Game.ts:169-172 | the board keeps its cells; the player now owns its old cells plus the targets; owned cells keep their owner; every other cell is untouched |
| Territory.CaptureNoChain | src/Game.ts:169-172 | every newly owned cell was neutral and borders, against d, a cell the player owned before the move: no chain capture |
| Territory.CaptureNeverShrinks | src/Game.ts:55-59 | a capture never takes a cell from the player |
| Territory.StepCard | src/Game.ts:165 | shifting a set of cells one step keeps its size |
| Territory.CaptureCount | src/Game.ts:162-171 | the newly owned cells are exactly the targets, as many as the source cells |
| Territory.OwnedCells | src/Game.ts:164 | exactly the listed cells the player owns, with no repeats if the list has none |
| Territory.Shifted | src/Game.ts:165 | each cell moved one step toward d, position by position |
| Territory.NeutralCells | src/Game.ts:166-167 | exactly the listed cells that are neutral board cells, with no repeats if the list has none |
| Territory.TargetListIsTargets | src/Game.ts:162-168 | run over every board cell once, the list pipeline yields each target exactly once |
| Hex.OppositeOffsets | src/Game.ts:29-36 | offsets come in negated pairs: North/South, NorthEast/SouthWest, NorthWest/SouthEast |
| Hex.OffsetsDistinct | src/Game.ts:29-36 | the six offsets are different, and each direction is listed |
| Hex.OffsetsAreUnitSteps | src/Game.ts:29-36 | the offsets are exactly the vectors at hex distance 1 from the origin |
| Keys.IntToString | src/Game.ts:113 | the string form of an integer coordinate: a minus sign for negatives, then the digits; read back by `Keys.ParseIntRoundTrip` |
| Keys.NatToString | src/Game.ts:113 | the decimal form of a number is non-empty and all digits |
| Keys.KeysOf | src/Game.ts:147 | the i-th key is the key of the i-th cell |
| Keys.ParseNatRoundTrip | src/Game.ts:113 | reading the digits back gives the number |
| Keys.ParseIntRoundTrip | src/Game.ts:113 | reading a coordinate's string back gives the coordinate; the string has no comma |
| Keys.KeyInjective | src/Game.ts:113 | two cells share a key exactly when they are the same cell |
| Keys.KeysOfDistinct | src/Game.ts:147 | keys of distinct cells are distinct |
| Keys.KeysOfMember | src/Game.ts:166 | a cell's key is among the keys of a list exactly when the cell is in the list |
| Keys.KeysOfAppend | src/Game.ts:147 | the keys of two lists joined are their key lists joined |
| Keys.SetSpreadKeys | src/Game.ts:153-157 | `[...new Set(keys)]` is the key list of the cells with repeats dropped |
| Keys.FirstOccurrencesKeys | src/Game.ts:147-148 | the `indexOf` filter on keys is the key list of the cells with repeats dropped |
| Seqs.IndexOf | src/Game.ts:148 | `indexOf` gives the first index holding the element, or -1 when it is absent |
| Seqs.SetSpreadElements | src/Game.ts:153-157 | the spread `Set` holds exactly the array's elements, each once |
| Seqs.IndexFilterIsSetSpread | src/Game.ts:148 | the `indexOf` filter over a prefix equals the `Set` spread of that prefix |
| Seqs.FirstOccurrencesIsSetSpread | src/Game.ts:148 | the two duplicate-dropping filters agree, keep every element and repeat none |
| Seqs.DistinctCard | src/Game.ts:171 | a list without repeats has as many elements as its set |
| HexRegion.ColumnMembers | src/Game.ts:111-112 | column x holds exactly the cells of the hexagon with that x and y below the inner loop's bound |
| HexRegion.ColumnsMembers | src/Game.ts:110-112 | the columns before xEnd hold exactly the cells of the hexagon with x below xEnd |
| HexRegion.NextCell | src/Game.ts:111-113 | one inner step adds (x, y) exactly when abs(x + y) is at most R, and that cell was not there before |
| HexRegion.RegionMembers | src/Game.ts:109-116 | the enumeration holds exactly the cells with abs(x), abs(y) and abs(x + y) at most R |
| HexRegion.IncreasingAppend | src/Board.ts:37-38 | two increasing runs glued in order stay increasing |
| HexRegion.ColumnIncreasing | src/Board.ts:38 | a column is in increasing y order |
| HexRegion.ColumnsIncreasing | src/Board.ts:37-38 | the columns are in x-major, y-ascending order |
| HexRegion.RegionIncreasing | src/Board.ts:37-43 | the whole enumeration is strictly increasing, so no cell appears twice |
| HexRegion.ColumnSize | src/Board.ts:38-39 | the size of a partial column |
| HexRegion.FullColumnSize | src/Board.ts:38-39 | a full column x holds 2R + 1 - abs(x) cells |
| HexRegion.LeftColumnsSize | src/Board.ts:37-43 | the columns left of xEnd, for xEnd up to 0, hold n(2R + 1 + n)/2 cells, where n = xEnd + R |
| HexRegion.RightColumnsSize | src/Board.ts:37-43 | the count of cells in the columns left of xEnd, for xEnd from 0 to R + 1 |
| HexRegion.RegionSize | src/Board.ts:35-44 | a board of radius R >= 0 has 3R^2 + 3R + 1 tiles |
| HexRegion.NegativeRadiusEmpty | src/Board.ts:37 | a negative radius gives no tiles |
| HexRegion.InHexIsDistance | src/Game.ts:112 | the hexagon of radius R is the set of cells at most R steps from the origin |
| SketchBoard.Board.constructor | src/Board.ts:35-44 | the array holds the enumeration of the hexagon, in loop order |
| SketchBoard.Board.Enumeration | src/Board.ts:35-44 | every pushed cell is in the hexagon and every hexagon cell is pushed, none twice, in x-major order, 3R^2 + 3R + 1 of them for R >= 0 |
| Geometry.AddCommutative | src/Geometry.ts:53-55 | `Vec2.add` is commutative |
| Geometry.AddAssociative | src/Geometry.ts:53-55 | `Vec2.add` is associative |
| Geometry.AddNegCancels | src/Geometry.ts:53-55 | adding b and then -b returns to a, so shifting by b is injective |
| Geometry.Clamp | src/Geometry.ts:8-10 | for min <= max the result lies in [min, max]: it is min when x < min, max when x > max, and x itself when x is in range; it is always x, min or max |
| Geometry.ClampNearest | src/Geometry.ts:8-10 | for min <= max the clamped value is a point of [min, max] nearest to x |
| Geometry.ClampIdempotent | src/Geometry.ts:8-10 | for min <= max, clamping twice equals clamping once |
| Geometry.IsDraw | src/Geometry.ts:14-16 | the integers `floor(r * (hi - lo) + lo)` takes for 0 <= r < 1: lo to hi - 1 when lo < hi, lo itself when lo == hi, and hi to lo when lo > hi; tied to `Geometry.Draws` for lo < hi |
| Geometry.SelectRandom | src/Geometry.ts:20-22 | with a draw from `randomInt(0, length)`, a non-empty array yields its element at the draw, and an empty one yields nothing |
| Geometry.SumStep | src/Geometry.ts:29-31 | the running total grows by the next size |
| Geometry.StartVal | src/Geometry.ts:27-32 | `startVal[i]` is the sum of the sizes up to and including bucket i |
| Geometry.FindIndexAbove | src/Geometry.ts:35 | `findIndex(s => ran < s)`: the first index whose entry exceeds the draw, or -1 when none does |
| Geometry.SelectRandomBucket | src/Geometry.ts:26-36 | the loop builds the running totals, and the result is the bucket whose total first exceeds the draw |
| Geometry.SumPrefixMonotone | src/Geometry.ts:29-32 | with non-negative sizes, a longer prefix never sums to less |
| Geometry.StartValNondecreasing | src/Geometry.ts:27-33 | with non-negative sizes the running totals never decrease, and the last one is the total |
| Geometry.BucketInterval | src/Geometry.ts:33-35 | a draw in [0, total) selects the bucket i with startVal[i-1] <= ran < startVal[i], so bucket i has a positive size |
| Geometry.BucketFromInterval | src/Geometry.ts:33-35 | every draw in bucket i's interval selects bucket i |
| Geometry.Draws | src/Geometry.ts:14-16 | the integers from lo to hi - 1, hi - lo of them; for lo < hi these are exactly the values `randomInt(lo, hi)` can return (`IsDraw`) |
| Geometry.DrawsSelectingInterval | src/Geometry.ts:26-35 | bucket i is selected by exactly the draws in its interval |
| Geometry.BucketProportional | src/Geometry.ts:26-35 | of the total possible draws, exactly `bucketSizes[i]` select bucket i |
| Geometry.SumOfZeros | src/Geometry.ts:29-33 | all-zero sizes sum to zero |
| Geometry.EmptyBucketsSelectNone | src/Geometry.ts:26-36 | when every size is 0 the draw is 0 and the result is -1 |

## Left out

- Drawing is not modelled: the `draw` methods, canvas calls, the `green`
  hue counter in `src/Board.ts`, and `Color.toString`.
- Floating-point geometry is not modelled: the pixel centers computed with
  `Math.sqrt(3)`, `Hexagon`'s vertices and `Vec2.length`. A tile keeps only
  its integer center.
- `src/Engine.ts`, `src/app.ts` and `src/Hexagon.ts` (the tick loop, event
  handlers and bootstrap wiring) are not part of this model.
- `Math.random` is not modelled. The integer `randomInt` returns is a
  parameter, and `IsDraw` states the values it can take.
- The timing block at the end of the `Game.ts` board constructor is not
  modelled: `Date.now`, `console.log` and the 10,000-iteration loops (see
  the `Game.Board.constructor` line below).
- `Player.id_count` is not modelled as global state. Players carry ids, and
  `equals` compares them.
- Geometry.Clamp: works on exact reals; NaN and infinities are not modelled.
- Keys.NatToString: writes the decimal digits of any integer. JavaScript
  switches to exponent notation from 10^21, far beyond any board radius.
- Game.Board.CaptureEach: requires a list of distinct neutral tiles.
  `NeutralBorderingTargets` proves that this is what `captureTiles` hands to
  `forEach`. A `forEach` over other lists is not modelled.
- Game.Board.constructor: stands for the loops at `src/Game.ts:109-116` only.
  The source constructor then runs a timing block (lines 117-140). For
  radius 0 or any negative radius, the lookup at line 118 (`"0,-0"`,
  `"-1,--1"`, ...) finds no tile and throws. For radius >= 1 it captures the
  tile under that key for a benchmark player and runs `captureTiles` 3 x 10^4
  times, so the source returns a board already captured across by that
  player, not a neutral one.
- Board radius and tile coordinates are integers. Both board constructors
  take `radius: number`; a fractional radius such as 1.5 starts the loops at
  -1.5 and builds a grid of half-integer cells, for which the count
  3R^2 + 3R + 1 (`HexRegion.RegionSize`) and the integer keys of `Keys` do
  not hold. The model covers integer radii only.
- Geometry.SelectRandomBucket: bucket sizes are integers. The source takes
  `number[]`; with fractional sizes the draw is not proportional (sizes
  `[0.5, 0.5]` always give bucket 0, `[1.5, 1.5]` give bucket 0 twice as
  often as bucket 1), so `Geometry.BucketProportional` holds only for
  integer sizes.
- Game.Board.constructor: the dictionary is keyed by cells, not by the
  strings `x + ',' + y`. `Keys.KeyInjective`, `Keys.SetSpreadKeys` and
  `Keys.FirstOccurrencesKeys` show this is the same dictionary and the same
  deduplication.

## Findings

| source | as written | input that shows it | evidently intended | confidence | as-written member | corrected member |
|---|---|---|---|---|---|---|
| src/Game.ts:173-186 | `hasLegalMoves`, `hasLegalMoves2` and `hasLegalMoves3` return true when the player has NO neutral bordering tile, that is, when no move is possible | a board of radius 1 on which the player owns the centre tile: the tile north of it is neutral and capturable, yet all three queries return false | true exactly when some capture is available | high, not executed | Game.Board.HasLegalMovesInverted | Game.Board.HasAnyLegalMove |
