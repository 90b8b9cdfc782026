/**
 * src/Game.ts: players, tiles and the board they are captured on.
 *
 * A tile is an object whose owner changes in place; the board is a
 * dictionary from the key `x + ',' + y` to the tile centred at (x, y). The
 * board's queries are the source's filter/map chains over
 * `Object.values(this.tiles)`, and `captureTiles` captures the tiles one of
 * them lists. Each query is related to the value-level reference in module
 * Territory through `OwnerIds`.
 */
module Game {
  import opened Optional
  import opened Geometry
  import opened Hex
  import opened HexRegion
  import Seqs
  import Territory

  /** An RGB colour (src/Color.ts); players carry one for display. */
  datatype Color = Color(red: int, green: int, blue: int)

  /**
   * A player (`Player` and its subclass `Human`). Every player gets its own
   * id when it is created; `equals` compares ids and nothing else.
   */
  datatype Player = Player(id: int, color: Color)
  {
    predicate Equals(other: Player)
    {
      id == other.id
    }
  }

  /** `equals` is an equivalence that ignores the colour. */
  lemma EqualsComparesIds(p: Player, q: Player, r: Player)
    ensures p.Equals(q) <==> p.id == q.id
    ensures p.Equals(p)
    ensures p.Equals(q) ==> q.Equals(p)
    ensures p.Equals(q) && q.Equals(r) ==> p.Equals(r)
    ensures Player(p.id, q.color).Equals(p)
  {
  }

  /** The id of a tile's owner, if it has one. */
  function OwnerId(owner: Option<Player>): Option<int>
  {
    if owner.Some? then Some(owner.value.id) else None
  }

  /** A single tile of the board. */
  class Tile {
    /** Where the tile sits, in tile coordinates. */
    const center: Vec2
    /** The player who captured the tile; `None` while it is neutral. */
    var owner: Option<Player>

    constructor (center: Vec2)
      ensures this.center == center && owner == None
    {
      this.center := center;
      owner := None;
    }

    /** `isNeutral`: nobody has captured the tile yet. */
    predicate IsNeutral()
      reads this
    {
      owner == None
    }

    /** `capture`: a neutral tile becomes the player's; an owned tile keeps its owner. */
    method Capture(player: Player)
      modifies this
      ensures old(IsNeutral()) ==> owner == Some(player) && IsOwnedBy(player)
      ensures !old(IsNeutral()) ==> owner == old(owner)
    {
      if IsNeutral() {
        owner := Some(player);
      }
    }

    /** `isOwnedBy`: the tile has an owner and that owner `equals` the player. */
    predicate IsOwnedBy(player: Player)
      reads this
    {
      owner.Some? && owner.value.Equals(player)
    }

    /**
     * `isOwnedBy` compares ids: it is false on a neutral tile, and on an
     * owned one true exactly when the owner's id is the player's.
     */
    lemma OwnedByComparesIds(player: Player)
      ensures IsNeutral() ==> !IsOwnedBy(player)
      ensures IsOwnedBy(player) <==> OwnerId(owner) == Some(player.id)
    {
    }

    /** `getBorderingTileCenter`: the center of the neighbour in direction d. */
    function BorderingTileCenter(d: Direction): Vec2
    {
      Add(center, DirectionMap(d))
    }

    /** `getAllBorderingTileCenters`: the six neighbours' centers, in `AllDirections` order. */
    function AllBorderingTileCenters(): (cs: seq<Vec2>)
      ensures |cs| == 6
      ensures forall i :: 0 <= i < 6 ==> cs[i] == BorderingTileCenter(AllDirections[i])
    {
      [ Add(center, DirectionMap(North)),
        Add(center, DirectionMap(NorthEast)),
        Add(center, DirectionMap(NorthWest)),
        Add(center, DirectionMap(South)),
        Add(center, DirectionMap(SouthEast)),
        Add(center, DirectionMap(SouthWest)) ]
    }

    /** The neighbour in direction d is one step away, and stepping back returns here. */
    lemma BorderingStepBack(d: Direction)
      ensures HexDistance(center, BorderingTileCenter(d)) == 1
      ensures Add(BorderingTileCenter(d), DirectionMap(Opposite(d))) == center
    {
    }

    /**
     * The six bordering centers are all different, none is the tile's own,
     * and they are exactly the cells one step away.
     */
    lemma BorderingRing()
      ensures Seqs.Distinct(AllBorderingTileCenters())
      ensures center !in AllBorderingTileCenters()
      ensures forall d :: BorderingTileCenter(d) in AllBorderingTileCenters()
      ensures forall v :: v in AllBorderingTileCenters() <==> HexDistance(center, v) == 1
    {
      var cs := AllBorderingTileCenters();
      forall d
        ensures BorderingTileCenter(d) in cs
      {
        OffsetsDistinct(d, d);
        var i :| 0 <= i < 6 && AllDirections[i] == d;
        assert cs[i] == BorderingTileCenter(d);
      }
      forall v
        ensures v in cs <==> HexDistance(center, v) == 1
      {
        var off := Vec2(v.x - center.x, v.y - center.y);
        OffsetsAreUnitSteps(off);
        if HexDistance(center, v) == 1 {
          var d :| DirectionMap(d) == off;
          assert BorderingTileCenter(d) == v;
        }
      }
    }
  }


  /**
   * The game board of a given radius.
   *
   * The source files the tile centred at c under the string key `Key(c)`.
   * Every lookup it makes builds that key from a cell, and `Keys.KeyInjective`
   * shows that different cells never share a key, so the dictionary is
   * modelled as keyed by the cells themselves.
   */
  class Board {
    /** The tile dictionary: `tiles[c]` is the tile filed under `Key(c)`. */
    const tiles: map<Vec2, Tile>
    /**
     * The cells whose keys the dictionary holds, in insertion order: the
     * order in which `Object.values(this.tiles)` lists the tiles.
     */
    const order: seq<Vec2>
    /** The radius the board was built with (the source does not store it). */
    ghost const radius: int

    /**
     * One tile per cell of the hexagon of radius `radius`, each filed under
     * its own center, with the cells in the order the constructor created
     * the tiles.
     */
    ghost predicate Valid()
    {
      && order == Region(radius)
      && (forall c :: c in tiles <==> c in order)
      && (forall c :: c in tiles <==> InHex(radius, c))
      && (forall c :: c in tiles ==> tiles[c].center == c)
    }

    /** Creates a neutral tile for every cell of the hexagon, column by column. */
    constructor (radius: int)
      ensures this.radius == radius && Valid()
      ensures forall c :: c in tiles ==> tiles[c].owner == None && fresh(tiles[c])
    {
      var m: map<Vec2, Tile> := map[];
      var keys: seq<Vec2> := [];
      var x := -radius;
      while x <= radius
        invariant -radius <= x
        invariant x <= radius + 1 || x == -radius
        invariant keys == Columns(radius, x)
        invariant forall c :: c in m <==> c in keys
        invariant forall c :: c in m ==> m[c].center == c && m[c].owner == None && fresh(m[c])
      {
        m, keys := FillColumn(radius, x, m, keys);
        x := x + 1;
      }
      tiles := m;
      order := keys;
      this.radius := radius;
      RegionMembers(radius);
    }

    /**
     * The constructor's inner loop over y for column x: files a new tile under
     * each cell (x, y) of the hexagon, appending its key to the insertion order.
     */
    static method FillColumn(radius: int, x: int, m0: map<Vec2, Tile>, keys0: seq<Vec2>)
      returns (m: map<Vec2, Tile>, keys: seq<Vec2>)
      requires keys0 == Columns(radius, x)
      requires forall c :: c in m0 <==> c in keys0
      requires forall c :: c in m0 ==> m0[c].center == c && m0[c].owner == None
      ensures keys == Columns(radius, x) + Column(radius, x, radius + 1)
      ensures forall c :: c in m <==> c in keys
      ensures forall c :: c in m ==> m[c].center == c && m[c].owner == None
      ensures forall c :: c in m && c !in m0 ==> fresh(m[c])
      ensures forall c :: c in m0 ==> c in m && m[c] == m0[c]
    {
      m, keys := m0, keys0;
      var y := -radius;
      while y <= radius
        invariant -radius <= y
        invariant y <= radius + 1 || y == -radius
        invariant keys == Columns(radius, x) + Column(radius, x, y)
        invariant forall c :: c in m <==> c in keys
        invariant forall c :: c in m ==> m[c].center == c && m[c].owner == None
        invariant forall c :: c in m && c !in m0 ==> fresh(m[c])
        invariant forall c :: c in m0 ==> c in m && m[c] == m0[c]
      {
        NextCell(radius, x, y);
        if Abs(x + y) <= radius {
          // The key is new, so it goes to the end of the insertion order.
          assert Vec2(x, y) !in m;
          keys := keys + [Vec2(x, y)];
          var t := new Tile(Vec2(x, y));
          m := m[Vec2(x, y) := t];
        }
        y := y + 1;
      }
    }

    /** The owner id of every cell: the board as a `Territory.Ownership` value. */
    ghost function OwnerIds(): Territory.Ownership
      reads tiles.Values
    {
      map c | c in tiles :: OwnerId(tiles[c].owner)
    }

    /** `keys.map(key => this.tiles[key])` for keys all on the board. */
    function TilesAt(cs: seq<Vec2>): (ts: seq<Tile>)
      requires forall c :: c in cs ==> c in tiles
      ensures |ts| == |cs| && forall i :: 0 <= i < |cs| ==> ts[i] == tiles[cs[i]]
    {
      if cs == [] then [] else [tiles[cs[0]]] + TilesAt(cs[1..])
    }

    /** `Object.values(this.tiles)`: the tiles in insertion order. */
    function Values(): seq<Tile>
      requires Valid()
    {
      TilesAt(order)
    }

    /** `.filter(tile => tile.isOwnedBy(player))`. */
    static function OwnedBy(ts: seq<Tile>, player: Player): (r: seq<Tile>)
      reads ts
      ensures forall i :: 0 <= i < |r| ==> r[i] in ts && r[i].IsOwnedBy(player)
      ensures forall i :: 0 <= i < |ts| ==> (ts[i] in r <==> ts[i].IsOwnedBy(player))
    {
      if ts == [] then []
      else (if ts[0].IsOwnedBy(player) then [ts[0]] else []) + OwnedBy(ts[1..], player)
    }

    /** `.map(tile => tile.getBorderingTileCenter(direction))`. */
    static function CentersToward(ts: seq<Tile>, d: Direction): (cs: seq<Vec2>)
      ensures |cs| == |ts| && forall i :: 0 <= i < |ts| ==> cs[i] == ts[i].BorderingTileCenter(d)
    {
      if ts == [] then [] else [ts[0].BorderingTileCenter(d)] + CentersToward(ts[1..], d)
    }

    /** `.map(tile => tile.getAllBorderingTileCenters()).flat()`. */
    static function CentersAround(ts: seq<Tile>): seq<Vec2>
    {
      if ts == [] then [] else ts[0].AllBorderingTileCenters() + CentersAround(ts[1..])
    }

    /** The tiles filed under the cells of cs that are on the board. */
    function TilesOfCells(cs: seq<Vec2>): set<Tile>
    {
      if cs == [] then {}
      else (if cs[0] in tiles then {tiles[cs[0]]} else {}) + TilesOfCells(cs[1..])
    }

    /** A tile is among `TilesOfCells(cs)` exactly when it is filed under a cell of cs. */
    lemma {:induction false} TilesOfCellsMembers(cs: seq<Vec2>, t: Tile)
      ensures t in TilesOfCells(cs) <==> exists c :: c in cs && c in tiles && t == tiles[c]
    {
      if cs != [] {
        TilesOfCellsMembers(cs[1..], t);
        if t in TilesOfCells(cs[1..]) {
          var c :| c in cs[1..] && c in tiles && t == tiles[c];
          assert c in cs;
        }
        forall c | c in cs && c in tiles && t == tiles[c]
          ensures t in TilesOfCells(cs)
        {
          if c != cs[0] {
            assert c in cs[1..];
          }
        }
      }
    }

    /**
     * `.map(c => this.tiles[c.x + ',' + c.y]).filter(tile => tile?.isNeutral())`:
     * the tiles at the cells of cs that are on the board and neutral, in order.
     */
    function NeutralAt(cs: seq<Vec2>): (r: seq<Tile>)
      reads tiles.Values
      ensures forall i :: 0 <= i < |r| ==> r[i] in tiles.Values && r[i].IsNeutral()
      ensures forall i :: 0 <= i < |r| ==> r[i] in TilesOfCells(cs)
      ensures forall c :: c in cs && c in tiles && tiles[c].IsNeutral() ==> tiles[c] in r
    {
      if cs == [] then []
      else
        (if cs[0] in tiles && tiles[cs[0]].IsNeutral() then [tiles[cs[0]]] else []) + NeutralAt(cs[1..])
    }

    /** Every tile the lookup-then-filter keeps is filed under one of the listed cells. */
    lemma NeutralAtFromListed(cs: seq<Vec2>, i: int)
      requires 0 <= i < |NeutralAt(cs)|
      ensures exists c :: c in cs && c in tiles && NeutralAt(cs)[i] == tiles[c]
    {
      TilesOfCellsMembers(cs, NeutralAt(cs)[i]);
    }

    /** `getNeutralBorderingTiles`: the neutral tiles one step towards d from the player's tiles. */
    function NeutralBorderingTiles(player: Player, d: Direction): seq<Tile>
      requires Valid()
      reads tiles.Values
    {
      NeutralAt(CentersToward(OwnedBy(Values(), player), d))
    }

    /** `getAllNeutralBorderingTiles`: repeats dropped with the `indexOf` filter. */
    function AllNeutralBorderingTiles(player: Player): seq<Tile>
      requires Valid()
      reads tiles.Values
    {
      NeutralAt(Seqs.FirstOccurrences(CentersAround(OwnedBy(Values(), player))))
    }

    /** `getAllNeutralBorderingTiles2`: repeats dropped by spreading a `Set`. */
    function AllNeutralBorderingTiles2(player: Player): seq<Tile>
      requires Valid()
      reads tiles.Values
    {
      NeutralAt(Seqs.SetSpread(CentersAround(OwnedBy(Values(), player))))
    }

    /** `hasLegalMoves`: true when the player has NO neutral bordering tile. */
    predicate HasLegalMoves(player: Player)
      requires Valid()
      reads tiles.Values
    {
      |AllNeutralBorderingTiles(player)| == 0
    }

    /** `hasLegalMoves2`: the same test on the `Set` variant. */
    predicate HasLegalMoves2(player: Player)
      requires Valid()
      reads tiles.Values
    {
      |AllNeutralBorderingTiles2(player)| == 0
    }

    /** `hasLegalMoves3`: the same test, one direction at a time. */
    predicate HasLegalMoves3(player: Player)
      requires Valid()
      reads tiles.Values
    {
      && |NeutralBorderingTiles(player, North)| == 0
      && |NeutralBorderingTiles(player, NorthEast)| == 0
      && |NeutralBorderingTiles(player, NorthWest)| == 0
      && |NeutralBorderingTiles(player, South)| == 0
      && |NeutralBorderingTiles(player, SouthEast)| == 0
      && |NeutralBorderingTiles(player, SouthWest)| == 0
    }

    /** Filtering the tiles at cs by owner is filtering the cells by owner id. */
    lemma {:induction false} OwnedByCells(cs: seq<Vec2>, player: Player)
      requires Valid() && forall c :: c in cs ==> c in tiles
      ensures OwnedBy(TilesAt(cs), player) == TilesAt(Territory.OwnedCells(cs, OwnerIds(), player.id))
    {
      if cs != [] {
        var m := OwnerIds();
        assert TilesAt(cs)[1..] == TilesAt(cs[1..]);
        OwnedByCells(cs[1..], player);
        assert tiles[cs[0]].IsOwnedBy(player) <==> Territory.Owns(m, cs[0], player.id);
        var rest := Territory.OwnedCells(cs[1..], m, player.id);
        assert ([cs[0]] + rest)[1..] == rest;
      }
    }

    /** Each tile's bordering center towards d is its cell stepped towards d. */
    lemma CentersTowardCells(cs: seq<Vec2>, d: Direction)
      requires Valid() && forall c :: c in cs ==> c in tiles
      ensures CentersToward(TilesAt(cs), d) == Territory.Shifted(cs, d)
    {
    }

    /** Looking up cells and keeping the neutral tiles is keeping the neutral cells. */
    lemma {:induction false} NeutralAtCells(cs: seq<Vec2>)
      requires Valid()
      ensures NeutralAt(cs) == TilesAt(Territory.NeutralCells(cs, OwnerIds()))
    {
      if cs != [] {
        var m := OwnerIds();
        NeutralAtCells(cs[1..]);
        assert (cs[0] in tiles && tiles[cs[0]].IsNeutral()) <==> Territory.Neutral(m, cs[0]);
        var rest := Territory.NeutralCells(cs[1..], m);
        assert ([cs[0]] + rest)[1..] == rest;
      }
    }

    /** Distinct cells hold distinct tiles, and a tile is listed exactly when its cell is. */
    lemma TilesAtCells(cs: seq<Vec2>)
      requires Valid() && forall c :: c in cs ==> c in tiles
      ensures Seqs.Distinct(cs) ==> Seqs.Distinct(TilesAt(cs))
      ensures forall c :: c in tiles ==> (tiles[c] in TilesAt(cs) <==> c in cs)
    {
      forall c | c in tiles && tiles[c] in TilesAt(cs)
        ensures c in cs
      {
        var i :| 0 <= i < |cs| && TilesAt(cs)[i] == tiles[c];
        assert tiles[cs[i]].center == cs[i];
      }
      if Seqs.Distinct(cs) {
        forall i, j | 0 <= i < j < |cs|
          ensures TilesAt(cs)[i] != TilesAt(cs)[j]
        {
          assert tiles[cs[i]].center == cs[i] && tiles[cs[j]].center == cs[j];
        }
      }
    }

    /** `getNeutralBorderingTiles` is the pipeline of `Territory.TargetList` run on the tiles. */
    lemma NeutralBorderingTilesList(player: Player, d: Direction)
      requires Valid()
      ensures NeutralBorderingTiles(player, d) == TilesAt(Territory.TargetList(order, OwnerIds(), player.id, d))
    {
      var owned := Territory.OwnedCells(order, OwnerIds(), player.id);
      OwnedByCells(order, player);
      CentersTowardCells(owned, d);
      NeutralAtCells(Territory.Shifted(owned, d));
    }

    /**
     * `getNeutralBorderingTiles(player, d)` lists the tiles at the targets of a
     * capture by the player towards d, each once.
     */
    lemma NeutralBorderingTargets(player: Player, d: Direction)
      requires Valid()
      ensures forall c :: c in tiles ==>
                (tiles[c] in NeutralBorderingTiles(player, d) <==> c in Territory.Targets(OwnerIds(), player.id, d))
      ensures Seqs.Distinct(NeutralBorderingTiles(player, d))
    {
      NeutralBorderingTilesList(player, d);
      RegionIncreasing(radius);
      Territory.TargetListIsTargets(order, OwnerIds(), player.id, d);
      TilesAtCells(Territory.TargetList(order, OwnerIds(), player.id, d));
    }

    /**
     * The number of tiles `getNeutralBorderingTiles(player, d)` lists is the
     * number of targets, which is the number of the player's tiles with a
     * neutral neighbour towards d.
     */
    lemma NeutralBorderingCount(player: Player, d: Direction)
      requires Valid()
      ensures |NeutralBorderingTiles(player, d)| == |Territory.Targets(OwnerIds(), player.id, d)|
                                                == |Territory.Sources(OwnerIds(), player.id, d)|
    {
      NeutralBorderingTilesList(player, d);
      RegionIncreasing(radius);
      Territory.TargetListIsTargets(order, OwnerIds(), player.id, d);
      Territory.CaptureCount(OwnerIds(), player.id, d);
    }

    /**
     * `captureTiles`: the player captures, all at once, the tiles
     * `getNeutralBorderingTiles` lists before the first capture. The board
     * afterwards is `Territory.Capture` of the board before; every other
     * tile keeps its owner. The player gains exactly as many tiles as that
     * list holds.
     */
    method CaptureTiles(player: Player, direction: Direction)
      requires Valid()
      modifies tiles.Values
      ensures OwnerIds() == Territory.Capture(old(OwnerIds()), player.id, direction)
      ensures forall c :: c in tiles ==>
                tiles[c].owner == if c in Territory.Targets(old(OwnerIds()), player.id, direction)
                                  then Some(player) else old(tiles[c].owner)
      ensures |Territory.NewlyOwned(old(OwnerIds()), OwnerIds(), player.id)|
           == old(|NeutralBorderingTiles(player, direction)|)
    {
      ghost var before := OwnerIds();
      var targets := NeutralBorderingTiles(player, direction);
      ghost var captured := Territory.Targets(before, player.id, direction);
      NeutralBorderingTargets(player, direction);
      NeutralBorderingCount(player, direction);
      ghost var n := |targets|;
      CaptureEach(targets, player);
      ListedCaptured(targets, captured, player);
      OwnersAfterCapture(before, player, direction);
      CapturedCount(before, player, direction, n);
    }

    /** A board that is `Territory.Capture` of `before` has gained as many cells as there were targets. */
    lemma CapturedCount(before: Territory.Ownership, player: Player, direction: Direction, n: int)
      requires OwnerIds() == Territory.Capture(before, player.id, direction)
      requires n == |Territory.Targets(before, player.id, direction)|
      ensures |Territory.NewlyOwned(before, OwnerIds(), player.id)| == n
    {
      Territory.CaptureCount(before, player.id, direction);
    }

    /** Once every listed tile is the player's, so is the tile of every cell whose tile is listed. */
    lemma ListedCaptured(targets: seq<Tile>, captured: set<Vec2>, player: Player)
      requires forall c :: c in tiles ==> (tiles[c] in targets <==> c in captured)
      requires forall i :: 0 <= i < |targets| ==> targets[i].owner == Some(player)
      ensures forall c :: c in tiles && c in captured ==> tiles[c].owner == Some(player)
    {
      forall c | c in tiles && c in captured
        ensures tiles[c].owner == Some(player)
      {
        var i :| 0 <= i < |targets| && targets[i] == tiles[c];
      }
    }

    /** Owners changed as `captureTiles` changes them make the board `Territory.Capture` of the board before. */
    lemma OwnersAfterCapture(before: Territory.Ownership, player: Player, direction: Direction)
      requires forall c :: c in tiles <==> c in before
      requires forall c :: c in tiles ==>
                 OwnerId(tiles[c].owner) == if c in Territory.Targets(before, player.id, direction)
                                            then Some(player.id) else before[c]
      ensures OwnerIds() == Territory.Capture(before, player.id, direction)
    {
    }

    /**
     * `.forEach(tile => tile.capture(player))` over a list of distinct
     * neutral tiles: each becomes the player's, and no other object changes.
     */
    static method CaptureEach(targets: seq<Tile>, player: Player)
      requires Seqs.Distinct(targets)
      requires forall i :: 0 <= i < |targets| ==> targets[i].IsNeutral()
      modifies targets
      ensures forall i :: 0 <= i < |targets| ==> targets[i].owner == Some(player)
    {
      for i := 0 to |targets|
        invariant forall j :: 0 <= j < i ==> targets[j].owner == Some(player)
        invariant forall j :: i <= j < |targets| ==> targets[j].IsNeutral()
      {
        targets[i].Capture(player);
      }
    }

    /** A cell is among the flattened bordering centers of ts when it is one step from one of the tiles. */
    static lemma {:induction false} CentersAroundMembers(ts: seq<Tile>, c: Vec2)
      ensures c in CentersAround(ts) <==> exists i, d :: 0 <= i < |ts| && c == Territory.Step(ts[i].center, d)
    {
      if ts != [] {
        CentersAroundMembers(ts[1..], c);
        var t := ts[0];
        if c in t.AllBorderingTileCenters() {
          var k :| 0 <= k < 6 && t.AllBorderingTileCenters()[k] == c;
          assert c == Territory.Step(ts[0].center, AllDirections[k]);
        }
        if c in CentersAround(ts[1..]) {
          var i, d :| 0 <= i < |ts| - 1 && c == Territory.Step(ts[1..][i].center, d);
          assert c == Territory.Step(ts[i + 1].center, d);
        }
        if exists i, d :: 0 <= i < |ts| && c == Territory.Step(ts[i].center, d) {
          var i, d :| 0 <= i < |ts| && c == Territory.Step(ts[i].center, d);
          if i == 0 {
            t.BorderingRing();
            assert c == t.BorderingTileCenter(d);
          } else {
            assert c == Territory.Step(ts[1..][i - 1].center, d);
          }
        }
      }
    }

    /** The flattened bordering centers of tiles centred on cs are the cells one step from cs in some direction. */
    static lemma CentersAroundCells(ts: seq<Tile>, cs: seq<Vec2>, c: Vec2)
      requires |ts| == |cs| && forall i :: 0 <= i < |ts| ==> ts[i].center == cs[i]
      ensures c in CentersAround(ts) <==> exists d :: c in Territory.Shifted(cs, d)
    {
      CentersAroundMembers(ts, c);
      if c in CentersAround(ts) {
        var i, d :| 0 <= i < |ts| && c == Territory.Step(ts[i].center, d);
        assert Territory.Shifted(cs, d)[i] == c;
      }
      forall d | c in Territory.Shifted(cs, d)
        ensures c in CentersAround(ts)
      {
        var i :| 0 <= i < |cs| && Territory.Shifted(cs, d)[i] == c;
        StepFromTile(ts, cs, i, d);
      }
    }

    /** The i-th shifted cell is a step from the i-th tile. */
    static lemma StepFromTile(ts: seq<Tile>, cs: seq<Vec2>, i: int, d: Direction)
      requires |ts| == |cs| && forall i :: 0 <= i < |ts| ==> ts[i].center == cs[i]
      requires 0 <= i < |cs|
      ensures Territory.Shifted(cs, d)[i] == Territory.Step(ts[i].center, d)
    {
    }

    /**
     * `getAllNeutralBorderingTiles` and `getAllNeutralBorderingTiles2` return
     * the same list, with no tile twice, and a tile is on it exactly when it
     * is the target of a capture by the player in some direction, that is,
     * when `getNeutralBorderingTiles` lists it for some direction.
     */
    lemma AllNeutralBorderingTilesAre(player: Player)
      requires Valid()
      ensures AllNeutralBorderingTiles(player) == AllNeutralBorderingTiles2(player)
      ensures Seqs.Distinct(AllNeutralBorderingTiles(player))
      ensures forall c :: c in tiles ==>
                (tiles[c] in AllNeutralBorderingTiles(player) <==> exists d :: c in Territory.Targets(OwnerIds(), player.id, d))
      ensures forall c :: c in tiles ==>
                (tiles[c] in AllNeutralBorderingTiles(player) <==> exists d :: tiles[c] in NeutralBorderingTiles(player, d))
    {
      var m := OwnerIds();
      var owned := Territory.OwnedCells(order, m, player.id);
      OwnedByCells(order, player);
      var around := CentersAround(TilesAt(owned));
      Seqs.FirstOccurrencesIsSetSpread(around);
      var kept := Territory.NeutralCells(Seqs.FirstOccurrences(around), m);
      NeutralAtCells(Seqs.FirstOccurrences(around));
      TilesAtCells(kept);
      forall c | c in tiles
        ensures tiles[c] in AllNeutralBorderingTiles(player) <==> exists d :: c in Territory.Targets(m, player.id, d)
        ensures tiles[c] in AllNeutralBorderingTiles(player) <==> exists d :: tiles[c] in NeutralBorderingTiles(player, d)
      {
        AllNeutralBorderingCell(player, c);
        if tiles[c] in AllNeutralBorderingTiles(player) {
          var d :| c in Territory.Targets(m, player.id, d);
          NeutralBorderingTargets(player, d);
        }
        forall d | tiles[c] in NeutralBorderingTiles(player, d)
          ensures tiles[c] in AllNeutralBorderingTiles(player)
        {
          NeutralBorderingTargets(player, d);
        }
      }
    }

    /** One tile is on `getAllNeutralBorderingTiles` exactly when some direction's capture targets it. */
    lemma AllNeutralBorderingCell(player: Player, c: Vec2)
      requires Valid() && c in tiles
      ensures tiles[c] in AllNeutralBorderingTiles(player) <==> exists d :: c in Territory.Targets(OwnerIds(), player.id, d)
    {
      var m := OwnerIds();
      var owned := Territory.OwnedCells(order, m, player.id);
      OwnedByCells(order, player);
      var around := CentersAround(TilesAt(owned));
      CentersAroundCells(TilesAt(owned), owned, c);
      Seqs.FirstOccurrencesIsSetSpread(around);
      var kept := Territory.NeutralCells(Seqs.FirstOccurrences(around), m);
      NeutralAtCells(Seqs.FirstOccurrences(around));
      TilesAtCells(kept);
      assert tiles[c] in AllNeutralBorderingTiles(player) <==> c in around && Territory.Neutral(m, c);
      RegionIncreasing(radius);
      forall d
        ensures c in Territory.Targets(m, player.id, d) <==> c in Territory.Shifted(owned, d) && Territory.Neutral(m, c)
      {
        Territory.TargetListIsTargets(order, m, player.id, d);
      }
      if tiles[c] in AllNeutralBorderingTiles(player) {
        var d :| c in Territory.Shifted(owned, d);
        assert c in Territory.Targets(m, player.id, d);
      }
      forall d | c in Territory.Targets(m, player.id, d)
        ensures tiles[c] in AllNeutralBorderingTiles(player)
      {
        assert c in Territory.Shifted(owned, d);
      }
    }

    /** `getNeutralBorderingTiles` is empty exactly when the player can capture nothing towards d. */
    lemma NoneTowardIsNoTargets(player: Player, d: Direction)
      requires Valid()
      ensures |NeutralBorderingTiles(player, d)| == 0 <==> Territory.Targets(OwnerIds(), player.id, d) == {}
    {
      NeutralBorderingCount(player, d);
    }

    /** `hasLegalMoves3` holds exactly when no direction gives the player a capture. */
    lemma DirectionalQueryIsNoCapture(player: Player)
      requires Valid()
      ensures HasLegalMoves3(player) <==> !Territory.CanCapture(OwnerIds(), player.id)
    {
      NoneTowardIsNoTargets(player, North);
      NoneTowardIsNoTargets(player, NorthEast);
      NoneTowardIsNoTargets(player, NorthWest);
      NoneTowardIsNoTargets(player, South);
      NoneTowardIsNoTargets(player, SouthEast);
      NoneTowardIsNoTargets(player, SouthWest);
      if Territory.CanCapture(OwnerIds(), player.id) {
        var d :| Territory.Targets(OwnerIds(), player.id, d) != {};
        match d
        case North =>
        case NorthEast =>
        case NorthWest =>
        case South =>
        case SouthEast =>
        case SouthWest =>
      }
    }

    /** `hasLegalMoves` holds exactly when no direction gives the player a capture. */
    lemma FlatQueryIsNoCapture(player: Player)
      requires Valid()
      ensures HasLegalMoves(player) <==> !Territory.CanCapture(OwnerIds(), player.id)
    {
      var m := OwnerIds();
      AllNeutralBorderingTilesAre(player);
      var all := AllNeutralBorderingTiles(player);
      if |all| > 0 {
        assert all[0] in all;
        var c :| c in tiles && tiles[c] == all[0];
        var d :| c in Territory.Targets(m, player.id, d);
      }
      if Territory.CanCapture(m, player.id) {
        var d :| Territory.Targets(m, player.id, d) != {};
        var c :| c in Territory.Targets(m, player.id, d);
        assert tiles[c] in all;
      }
    }

    /**
     * The three legal-move queries always agree, and each is true exactly
     * when the player can capture nothing in any direction.
     */
    lemma LegalMoveQueriesAgree(player: Player)
      requires Valid()
      ensures HasLegalMoves(player) == HasLegalMoves2(player)
      ensures HasLegalMoves2(player) == HasLegalMoves3(player)
      ensures HasLegalMoves3(player) == !Territory.CanCapture(OwnerIds(), player.id)
    {
      AllNeutralBorderingTilesAre(player);
      FlatQueryIsNoCapture(player);
      DirectionalQueryIsNoCapture(player);
    }

    /**
     * The three queries answer the opposite of their names: whenever the
     * player has a capture available, all three say there is no legal move.
     */
    lemma HasLegalMovesInverted(player: Player)
      requires Valid() && Territory.CanCapture(OwnerIds(), player.id)
      ensures !HasLegalMoves(player) && !HasLegalMoves2(player) && !HasLegalMoves3(player)
    {
      LegalMoveQueriesAgree(player);
    }

    /**
     * With the centre tile the player's and the tile north of it neutral,
     * the player can capture, and `hasLegalMoves` says otherwise.
     */
    lemma CentreOwnedNorthNeutral(player: Player)
      requires Valid() && Vec2(0, 0) in tiles && Vec2(0, -1) in tiles
      requires tiles[Vec2(0, 0)].owner == Some(player) && tiles[Vec2(0, -1)].owner == None
      ensures Territory.CanCapture(OwnerIds(), player.id) && !HasLegalMoves(player)
    {
      var m := OwnerIds();
      assert Territory.Step(Vec2(0, 0), North) == Vec2(0, -1);
      Territory.NeighbourCapturable(m, player.id, Vec2(0, 0), North);
      HasLegalMovesInverted(player);
    }

    /** The query the name promises: the player has a neutral bordering tile to capture. */
    function HasAnyLegalMove(player: Player): (r: bool)
      requires Valid()
      reads tiles.Values
      ensures r <==> Territory.CanCapture(OwnerIds(), player.id)
      ensures r <==> !HasLegalMoves(player) && !HasLegalMoves2(player) && !HasLegalMoves3(player)
    {
      LegalMoveQueriesAgree(player);
      |AllNeutralBorderingTiles(player)| > 0
    }
  }

  /**
   * A board of any radius from 1 up whose centre tile the player has
   * captured: the tile north of the centre is neutral and can be captured,
   * yet `hasLegalMoves` reports no legal move.
   */
  method CentreTileExample(radius: int) returns (board: Board, player: Player)
    requires radius >= 1
    ensures board.Valid() && Territory.CanCapture(board.OwnerIds(), player.id)
    ensures !board.HasLegalMoves(player) && board.HasAnyLegalMove(player)
  {
    board := new Board(radius);
    player := Player(1, Color(255, 0, 0));
    assert InHex(radius, Vec2(0, 0)) && InHex(radius, Vec2(0, -1));
    board.tiles[Vec2(0, 0)].Capture(player);
    board.CentreOwnedNorthNeutral(player);
  }
}
