/** The placeholder tile map: a 10 x 10 grid described by a flat list of
    0 (open) and 1 (solid), turned into one fresh `Tile` per entry, after
    which a nested loop writes each tile's own grid coordinates into it. */
module TileMaps {
  import opened Numerics
  import opened Vectors
  import opened Tiles

  /** A grid of tiles in row-major order. */
  datatype TileMap = TileMap(size: Size, tiles: seq<Tile>)

  /** The placeholder layout, row by row (the flat list is the ten rows
      concatenated): a closed border and a wall at x = 4 from the top edge
      down to y = 4. */
  const PlaceholderMap: seq<int> :=
    [1, 1, 1, 1, 1, 1, 1, 1, 1, 1] +
    [1, 0, 0, 0, 1, 0, 0, 0, 0, 1] +
    [1, 0, 0, 0, 1, 0, 0, 0, 0, 1] +
    [1, 0, 0, 0, 1, 0, 0, 0, 0, 1] +
    [1, 0, 0, 0, 1, 0, 0, 0, 0, 1] +
    [1, 0, 0, 0, 0, 0, 0, 0, 0, 1] +
    [1, 0, 0, 0, 0, 0, 0, 0, 0, 1] +
    [1, 0, 0, 0, 0, 0, 0, 0, 0, 1] +
    [1, 0, 0, 0, 0, 0, 0, 0, 0, 1] +
    [1, 1, 1, 1, 1, 1, 1, 1, 1, 1]

  const MapWidth: int := 10
  const MapHeight: int := 10

  /** Whether the placeholder layout marks cell (x, y) solid. */
  predicate PlaceholderSolid(x: int, y: int)
    requires 0 <= x < MapWidth && 0 <= y < MapHeight
  {
    PlaceholderMap[y * MapWidth + x] == 1
  }

  /** Rows 0 and 9 and columns 0 and 9 are solid: the border is closed. */
  lemma PlaceholderBorderClosed(x: int, y: int)
    requires 0 <= x < MapWidth && 0 <= y < MapHeight
    requires x == 0 || x == MapWidth - 1 || y == 0 || y == MapHeight - 1
    ensures PlaceholderSolid(x, y)
  {
  }

  /** The inner wall at x = 4 is solid for y = 1..4 and open for y = 5..8. */
  lemma PlaceholderInnerWall(y: int)
    requires 1 <= y <= 8
    ensures PlaceholderSolid(4, y) <==> y <= 4
  {
  }

  /** The layout described cell by cell: the border, and column 4 from the
      top edge down to row 4. */
  predicate DescribedSolid(x: int, y: int) {
    x == 0 || x == MapWidth - 1 || y == 0 || y == MapHeight - 1 || (x == 4 && y <= 4)
  }

  /** Every cell off the border and off the inner wall is open. */
  lemma PlaceholderOpenInside(x: int, y: int)
    requires 1 <= x < MapWidth - 1 && 1 <= y < MapHeight - 1 && !(x == 4 && y <= 4)
    ensures PlaceholderMap[y * MapWidth + x] == 0
  {
    if y <= 4 {
      if y == 1 {
      } else if y == 2 {
      } else if y == 3 {
      }
    } else {
      if y == 5 {
      } else if y == 6 {
      } else if y == 7 {
      }
    }
  }

  /** The flat layout list is exactly the described grid. */
  lemma PlaceholderMatchesDescription(x: int, y: int)
    requires 0 <= x < MapWidth && 0 <= y < MapHeight
    ensures PlaceholderSolid(x, y) <==> DescribedSolid(x, y)
  {
    if x == 0 || x == MapWidth - 1 || y == 0 || y == MapHeight - 1 {
      PlaceholderBorderClosed(x, y);
    } else if x == 4 {
      PlaceholderInnerWall(y);
    } else {
      PlaceholderOpenInside(x, y);
    }
  }

  /** Grid coordinates of the tile at row-major index `k`. */
  function GridPosition(k: int): Vec2D {
    Vec2D((k % MapWidth) as real, (k / MapWidth) as real)
  }

  /** First half of `tileMap`: a new tile per layout entry, solid exactly
      where the entry is 1, all at the origin for now. */
  method CreateTiles(layout: seq<int>) returns (tiles: seq<Tile>)
    ensures |tiles| == |layout|
    ensures forall k :: 0 <= k < |tiles| ==> fresh(tiles[k])
    ensures forall i, j :: 0 <= i < j < |tiles| ==> tiles[i] != tiles[j]
    ensures forall k :: 0 <= k < |tiles| ==> tiles[k].solid == (layout[k] == 1)
    ensures forall k :: 0 <= k < |tiles| ==> tiles[k].position == Origin
    ensures forall k :: 0 <= k < |tiles| ==> tiles[k].texture == NoTextures && tiles[k].detail == NoTextures
  {
    tiles := [];
    var k := 0;
    while k < |layout|
      invariant 0 <= k <= |layout| && |tiles| == k
      invariant forall i :: 0 <= i < k ==> fresh(tiles[i])
      invariant forall i, j :: 0 <= i < j < k ==> tiles[i] != tiles[j]
      invariant forall i :: 0 <= i < k ==> tiles[i].solid == (layout[i] == 1)
      invariant forall i :: 0 <= i < k ==> tiles[i].position == Origin
      invariant forall i :: 0 <= i < k ==> tiles[i].texture == NoTextures && tiles[i].detail == NoTextures
    {
      var tile := new Tile(Origin, layout[k] == 1, None, None);
      tiles := tiles + [tile];
      k := k + 1;
    }
  }

  /** Second half of `tileMap`: visits the grid row by row and moves every
      tile to its own (x, y). */
  method PlaceTiles(tiles: seq<Tile>)
    requires |tiles| == MapWidth * MapHeight
    requires forall i, j :: 0 <= i < j < |tiles| ==> tiles[i] != tiles[j]
    modifies set k | 0 <= k < |tiles| :: tiles[k]
    ensures forall k :: 0 <= k < |tiles| ==> tiles[k].position == GridPosition(k)
    ensures forall k :: 0 <= k < |tiles| ==>
      tiles[k].texture == old(tiles[k].texture) && tiles[k].detail == old(tiles[k].detail)
  {
    var size := Size(MapWidth, MapHeight);
    for y := 0 to size.height
      invariant forall i :: 0 <= i < y * MapWidth ==> tiles[i].position == GridPosition(i)
      invariant forall i :: 0 <= i < |tiles| ==>
        tiles[i].texture == old(tiles[i].texture) && tiles[i].detail == old(tiles[i].detail)
    {
      for x := 0 to size.width
        invariant forall i :: 0 <= i < y * MapWidth + x ==> tiles[i].position == GridPosition(i)
        invariant forall i :: 0 <= i < |tiles| ==>
          tiles[i].texture == old(tiles[i].texture) && tiles[i].detail == old(tiles[i].detail)
      {
        var tile := tiles[y * size.width + x];
        tile.position := Vec2D(x as real, y as real);
        assert GridPosition(y * MapWidth + x) == tile.position;
      }
    }
  }

  /** `tileMap`: the tiles of the placeholder layout, each solid exactly
      where the layout holds 1 and placed at its own grid coordinates. Each
      tile is a new object, so placing one never moves another. */
  method BuildTileMap() returns (tileMap: TileMap)
    ensures tileMap.size == Size(MapWidth, MapHeight)
    ensures |tileMap.tiles| == |PlaceholderMap| == MapWidth * MapHeight
    ensures forall k :: 0 <= k < |tileMap.tiles| ==> fresh(tileMap.tiles[k])
    ensures forall i, j :: 0 <= i < j < |tileMap.tiles| ==> tileMap.tiles[i] != tileMap.tiles[j]
    ensures forall k :: 0 <= k < |tileMap.tiles| ==> tileMap.tiles[k].solid == (PlaceholderMap[k] == 1)
    ensures forall k :: 0 <= k < |tileMap.tiles| ==> tileMap.tiles[k].position == GridPosition(k)
    ensures forall k :: 0 <= k < |tileMap.tiles| ==>
      tileMap.tiles[k].texture == NoTextures && tileMap.tiles[k].detail == NoTextures
  {
    var tiles := CreateTiles(PlaceholderMap);
    PlaceTiles(tiles);
    tileMap := TileMap(Size(MapWidth, MapHeight), tiles);
  }
}
