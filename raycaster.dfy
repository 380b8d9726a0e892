/** The ray caster of `Game`: `isLocationSolid` looks a cell up in the tile
    map, and `castRay` walks the grid cell by cell along a ray (a DDA walk)
    until it enters a solid cell or gets 100 units away from the ray's
    origin, then works out which face of the cell was struck, where, and the
    horizontal texture coordinate there.

    `Math.sqrt` is not modelled: the per-axis step lengths `rayDelta` are an
    input, and the `mag() < 100` cutoff is compared on squared distances,
    which is the same test. The ray direction must have two non-zero
    components, otherwise the source divides by zero. */
module RayCaster {
  import opened Numerics
  import opened Vectors
  import opened Tiles
  import opened TileMaps

  /** The shape every tile map has: one tile per cell, row-major. */
  predicate ValidMap(grid: TileMap) {
    grid.size.width >= 0 && grid.size.height >= 0 &&
    |grid.tiles| == grid.size.width * grid.size.height
  }

  /** `isLocationSolid`: false off the map, otherwise the solidity of the
      tile stored at `y * width + x`. */
  function IsLocationSolid(grid: TileMap, x: int, y: int): (solid: bool)
    requires ValidMap(grid)
    ensures solid ==> 0 <= x < grid.size.width && 0 <= y < grid.size.height
    ensures solid ==> 0 <= y * grid.size.width + x < |grid.tiles|
  {
    if x < 0 || y < 0 then false
    else if x >= grid.size.width || y >= grid.size.height then false
    else
      RowMajorBound(grid.size.width, grid.size.height, x, y);
      grid.tiles[y * grid.size.width + x].solid
  }

  /** Inside the map a cell is solid exactly when its tile is, and every
      cell off the map counts as open. */
  lemma IsLocationSolidMeaning(grid: TileMap, x: int, y: int)
    requires ValidMap(grid)
    ensures !(0 <= x < grid.size.width && 0 <= y < grid.size.height) ==> !IsLocationSolid(grid, x, y)
    ensures 0 <= x < grid.size.width && 0 <= y < grid.size.height ==>
      0 <= y * grid.size.width + x < |grid.tiles| &&
      (IsLocationSolid(grid, x, y) <==> grid.tiles[y * grid.size.width + x].solid)
  {
    if 0 <= x < grid.size.width && 0 <= y < grid.size.height {
      RowMajorBound(grid.size.width, grid.size.height, x, y);
    }
  }

  /** On a map built from the placeholder layout, `isLocationSolid` answers
      what the layout says. */
  lemma PlaceholderLocationSolid(grid: TileMap, x: int, y: int)
    requires IsPlaceholderMap(grid)
    ensures ValidMap(grid)
    ensures IsLocationSolid(grid, x, y) <==>
      0 <= x < MapWidth && 0 <= y < MapHeight && PlaceholderSolid(x, y)
  {
  }

  /** The tile map `tileMap` builds: the placeholder layout, 10 x 10. */
  predicate IsPlaceholderMap(grid: TileMap) {
    grid.size == Size(MapWidth, MapHeight) &&
    |grid.tiles| == |PlaceholderMap| &&
    forall k :: 0 <= k < |grid.tiles| ==> grid.tiles[k].solid == (PlaceholderMap[k] == 1)
  }

  /** What `castRay` reports about the cell it stopped in. */
  datatype TileHit = TileHit(tile: Tile, side: Option<Side>, position: Vec2D, tx: Option<real>)

  /** A grid cell, as the integer coordinates `mapCheck` holds. */
  datatype Cell = Cell(x: int, y: int)

  /** State of the walk: the current cell and, per axis, the ray length at
      which the ray crosses the next cell boundary on that axis. */
  datatype Dda = Dda(cell: Cell, sideDistance: Vec2D)

  /** The per-axis cell step: -1 along a negative direction, else +1. */
  function StepOf(d: real): (step: int)
    ensures step == -1 || step == 1
    ensures step == -1 <==> d < 0.0
  {
    if d < 0.0 then -1 else 1
  }

  /** The cell containing `origin`. */
  function StartCell(origin: Vec2D): (c: Cell)
    ensures c.x as real <= origin.x < c.x as real + 1.0
    ensures c.y as real <= origin.y < c.y as real + 1.0
  {
    Cell(Floor(origin.x), Floor(origin.y))
  }

  /** A share in [0, 1] of a non-negative length is at most that length. */
  lemma ShareOfDelta(share: real, delta: real)
    ensures 0.0 <= share <= 1.0 && delta >= 0.0 ==> 0.0 <= share * delta <= delta
  {
  }

  /** The set-up before the loop: the start cell, and the ray length to the
      first boundary on each axis. */
  function StartDda(origin: Vec2D, direction: Vec2D, rayDelta: Vec2D): (d: Dda)
    ensures d.cell == StartCell(origin)
  {
    var cell := StartCell(origin);
    var sideX := if direction.x < 0.0 then (origin.x - cell.x as real) * rayDelta.x
                 else (cell.x as real + 1.0 - origin.x) * rayDelta.x;
    var sideY := if direction.y < 0.0 then (origin.y - cell.y as real) * rayDelta.y
                 else (cell.y as real + 1.0 - origin.y) * rayDelta.y;
    Dda(cell, Vec2D(sideX, sideY))
  }

  /** On one axis, walking backwards: a coordinate inside its cell is at
      most one cell from the cell's lower boundary, so the ray length to it
      is at most one cell's ray length. */
  lemma LowerBoundaryWithin(o: real, c: real, delta: real)
    requires c <= o < c + 1.0 && delta >= 0.0
    ensures 0.0 <= (o - c) * delta <= delta
  {
    ShareOfDelta(o - c, delta);
  }

  /** On one axis, walking forwards: the same for the cell's upper boundary. */
  lemma UpperBoundaryWithin(o: real, c: real, delta: real)
    requires c <= o < c + 1.0 && delta >= 0.0
    ensures 0.0 <= (c + 1.0 - o) * delta <= delta
  {
    ShareOfDelta(c + 1.0 - o, delta);
  }

  /** The origin lies inside its cell, so the first boundary on each axis
      is at most one cell's ray length away. */
  lemma StartDdaWithinDelta(origin: Vec2D, direction: Vec2D, rayDelta: Vec2D)
    ensures rayDelta.x >= 0.0 ==> 0.0 <= StartDda(origin, direction, rayDelta).sideDistance.x <= rayDelta.x
    ensures rayDelta.y >= 0.0 ==> 0.0 <= StartDda(origin, direction, rayDelta).sideDistance.y <= rayDelta.y
  {
    var cell := StartCell(origin);
    var d := StartDda(origin, direction, rayDelta);
    if rayDelta.x >= 0.0 {
      if direction.x < 0.0 {
        var share := origin.x - cell.x as real;
        assert d.sideDistance.x == share * rayDelta.x;
        LowerBoundaryWithin(origin.x, cell.x as real, rayDelta.x);
        assert 0.0 <= share * rayDelta.x <= rayDelta.x;
      } else {
        var share := cell.x as real + 1.0 - origin.x;
        assert d.sideDistance.x == share * rayDelta.x;
        UpperBoundaryWithin(origin.x, cell.x as real, rayDelta.x);
        assert 0.0 <= share * rayDelta.x <= rayDelta.x;
      }
      assert 0.0 <= d.sideDistance.x <= rayDelta.x;
    }
    if rayDelta.y >= 0.0 {
      if direction.y < 0.0 {
        var share := origin.y - cell.y as real;
        assert d.sideDistance.y == share * rayDelta.y;
        LowerBoundaryWithin(origin.y, cell.y as real, rayDelta.y);
        assert 0.0 <= share * rayDelta.y <= rayDelta.y;
      } else {
        var share := cell.y as real + 1.0 - origin.y;
        assert d.sideDistance.y == share * rayDelta.y;
        UpperBoundaryWithin(origin.y, cell.y as real, rayDelta.y);
        assert 0.0 <= share * rayDelta.y <= rayDelta.y;
      }
      assert 0.0 <= d.sideDistance.y <= rayDelta.y;
    }
  }

  /** One iteration of the loop: cross the nearer boundary. */
  function Advance(s: Dda, direction: Vec2D, rayDelta: Vec2D): (t: Dda)
    ensures Abs(t.cell.x - s.cell.x) + Abs(t.cell.y - s.cell.y) == 1
    ensures rayDelta.x >= 0.0 && rayDelta.y >= 0.0 ==>
      t.sideDistance.x >= s.sideDistance.x && t.sideDistance.y >= s.sideDistance.y
  {
    if s.sideDistance.x < s.sideDistance.y then
      Dda(Cell(s.cell.x + StepOf(direction.x), s.cell.y),
          Vec2D(s.sideDistance.x + rayDelta.x, s.sideDistance.y))
    else
      Dda(Cell(s.cell.x, s.cell.y + StepOf(direction.y)),
          Vec2D(s.sideDistance.x, s.sideDistance.y + rayDelta.y))
  }

  /** The state after `n` iterations. */
  function Walk(origin: Vec2D, direction: Vec2D, rayDelta: Vec2D, n: nat): (d: Dda)
    ensures rayDelta.x >= 0.0 && rayDelta.y >= 0.0 ==> 0.0 <= d.sideDistance.x && 0.0 <= d.sideDistance.y
  {
    if n == 0 then
      StartDdaWithinDelta(origin, direction, rayDelta);
      StartDda(origin, direction, rayDelta)
    else Advance(Walk(origin, direction, rayDelta, n - 1), direction, rayDelta)
  }

  /** The cell the walk is in after `n` iterations. */
  function WalkCell(origin: Vec2D, direction: Vec2D, rayDelta: Vec2D, n: nat): Cell {
    Walk(origin, direction, rayDelta, n).cell
  }

  /** Each iteration moves along exactly one axis, by that axis's step, and
      adds that axis's `rayDelta` to its boundary distance. */
  lemma AdvanceMovesOneAxis(s: Dda, direction: Vec2D, rayDelta: Vec2D)
    ensures var t := Advance(s, direction, rayDelta);
      (t.cell == Cell(s.cell.x + StepOf(direction.x), s.cell.y) &&
       t.sideDistance == Vec2D(s.sideDistance.x + rayDelta.x, s.sideDistance.y)) ||
      (t.cell == Cell(s.cell.x, s.cell.y + StepOf(direction.y)) &&
       t.sideDistance == Vec2D(s.sideDistance.x, s.sideDistance.y + rayDelta.y))
  {
  }

  function Abs(n: int): nat {
    if n < 0 then -n else n
  }

  /** Squared distance from `origin` to the corner `mapCheck` of a cell;
      `distance < 100` in the source is this being below 10000. */
  function DistSq(c: Cell, origin: Vec2D): real {
    (c.x as real - origin.x) * (c.x as real - origin.x) + (c.y as real - origin.y) * (c.y as real - origin.y)
  }

  /** After `n` iterations the walk is `n` cells away from its start cell,
      counting along the axes, and on each axis it has only moved in the
      direction of that axis's step. */
  lemma {:induction false} WalkDisplacement(origin: Vec2D, direction: Vec2D, rayDelta: Vec2D, n: nat)
    ensures var c := Walk(origin, direction, rayDelta, n).cell; var s := StartCell(origin);
      Abs(c.x - s.x) + Abs(c.y - s.y) == n &&
      (if direction.x < 0.0 then c.x <= s.x else c.x >= s.x) &&
      (if direction.y < 0.0 then c.y <= s.y else c.y >= s.y)
  {
    if n > 0 {
      WalkDisplacement(origin, direction, rayDelta, n - 1);
    }
  }

  /** The walk steps before it looks, and never turns back, so after at
      least one iteration it is never in the cell the ray started in. */
  lemma WalkLeavesStartCell(origin: Vec2D, direction: Vec2D, rayDelta: Vec2D, n: nat)
    requires n >= 1
    ensures Walk(origin, direction, rayDelta, n).cell != StartCell(origin)
  {
    WalkDisplacement(origin, direction, rayDelta, n);
  }

  /** A number at least 101 away from zero squares to at least 10201. */
  lemma SquareOfFar(a: real)
    ensures (a >= 101.0 || a <= -101.0) ==> a * a >= 10201.0
    ensures a * a >= 0.0
  {
    if a >= 101.0 {
      assert a * a >= 101.0 * a;
    } else if a <= -101.0 {
      assert a * a >= -101.0 * a;
    } else if a < 0.0 {
      assert a * a == (-a) * (-a);
    }
  }

  /** A cell within 100 units of the origin is at most 101 cells from the
      start cell along each axis. */
  lemma NearCellIsClose(c: Cell, origin: Vec2D)
    ensures DistSq(c, origin) < 10000.0 ==>
      Abs(c.x - StartCell(origin).x) <= 101 && Abs(c.y - StartCell(origin).y) <= 101
  {
    var dx, dy := c.x as real - origin.x, c.y as real - origin.y;
    SquareOfFar(dx);
    SquareOfFar(dy);
    assert c.x - StartCell(origin).x >= 102 ==> dx >= 101.0;
    assert c.x - StartCell(origin).x <= -102 ==> dx <= -101.0;
    assert c.y - StartCell(origin).y >= 102 ==> dy >= 101.0;
    assert c.y - StartCell(origin).y <= -102 ==> dy <= -101.0;
  }

  /** While the walk is within 100 units it has run at most 202 iterations,
      so the loop of `castRay` ends. */
  lemma WalkBoundedByCutoff(origin: Vec2D, direction: Vec2D, rayDelta: Vec2D, n: nat)
    ensures DistSq(Walk(origin, direction, rayDelta, n).cell, origin) < 10000.0 ==> n <= 202
  {
    NearCellIsClose(Walk(origin, direction, rayDelta, n).cell, origin);
    WalkDisplacement(origin, direction, rayDelta, n);
  }

  /** Where the ray meets the struck cell: the face, the point on it and the
      texture coordinate along it. A side of `None` is the source's `null`,
      left when none of the branches applies. */
  datatype Impact = Impact(side: Option<Side>, point: Vec2D, tx: Option<real>)

  /** Entering through the west face, the line `x = cell.x`. */
  function WestImpact(origin: Vec2D, m: real, c: Cell): Impact {
    var y := m * (c.x as real - origin.x) + origin.y;
    Impact(Some(West), Vec2D(c.x as real, y), Some(Frac(y)))
  }

  /** Entering through the east face, the line `x = cell.x + 1`. */
  function EastImpact(origin: Vec2D, m: real, c: Cell): Impact {
    var y := m * ((c.x as real + 1.0) - origin.x) + origin.y;
    Impact(Some(East), Vec2D(c.x as real + 1.0, y), Some(1.0 - Frac(y)))
  }

  /** Entering through the north face, the line `y = cell.y`. */
  function NorthImpact(origin: Vec2D, m: real, c: Cell): Impact
    requires m != 0.0
  {
    var x := (c.y as real - origin.y) / m + origin.x;
    Impact(Some(North), Vec2D(x, c.y as real), Some(1.0 - Frac(x)))
  }

  /** Entering through the south face, the line `y = cell.y + 1`. */
  function SouthImpact(origin: Vec2D, m: real, c: Cell): Impact
    requires m != 0.0
  {
    var x := ((c.y as real + 1.0) - origin.y) / m + origin.x;
    Impact(Some(South), Vec2D(x, c.y as real + 1.0), Some(Frac(x)))
  }

  /** The case analysis after a solid cell is found, with `m` the slope
      `direction.y / direction.x`. With the origin above the cell's top
      edge: west or east face when the origin is beside the cell, else the
      north face, and the north face anyway when the west/east point lies
      above the cell. Symmetrically below the bottom edge with the south
      face. Level with the cell only the west and east faces are tried. */
  function ResolveImpact(origin: Vec2D, m: real, c: Cell): (i: Impact)
    requires m != 0.0
    ensures i.side.Some? <==> i.tx.Some?
    ensures i.side != Some(Top) && i.side != Some(Bottom)
  {
    if origin.y <= c.y as real then
      var first :=
        if origin.x <= c.x as real then WestImpact(origin, m, c)
        else if origin.x >= c.x as real + 1.0 then EastImpact(origin, m, c)
        else NorthImpact(origin, m, c);
      if first.point.y < c.y as real then NorthImpact(origin, m, c) else first
    else if origin.y >= c.y as real + 1.0 then
      var first :=
        if origin.x <= c.x as real then WestImpact(origin, m, c)
        else if origin.x >= c.x as real + 1.0 then EastImpact(origin, m, c)
        else SouthImpact(origin, m, c);
      if first.point.y > c.y as real + 1.0 then SouthImpact(origin, m, c) else first
    else if origin.x <= c.x as real then WestImpact(origin, m, c)
    else if origin.x >= c.x as real + 1.0 then EastImpact(origin, m, c)
    else Impact(None, Origin, None)
  }

  /** A face is reported exactly when the origin is not strictly inside the
      cell, and then a texture coordinate comes with it. */
  lemma ImpactSideAssigned(origin: Vec2D, m: real, c: Cell)
    requires m != 0.0
    ensures ResolveImpact(origin, m, c).side.None? <==>
      c.x as real < origin.x < c.x as real + 1.0 && c.y as real < origin.y < c.y as real + 1.0
    ensures ResolveImpact(origin, m, c).side.Some? <==> ResolveImpact(origin, m, c).tx.Some?
  {
  }

  /** The reported point lies on the line of the reported face, including
      after the north and south corrections. */
  lemma ImpactOnFace(origin: Vec2D, m: real, c: Cell)
    requires m != 0.0
    ensures var i := ResolveImpact(origin, m, c);
      (i.side == Some(West) ==> i.point.x == c.x as real) &&
      (i.side == Some(East) ==> i.point.x == c.x as real + 1.0) &&
      (i.side == Some(North) ==> i.point.y == c.y as real) &&
      (i.side == Some(South) ==> i.point.y == c.y as real + 1.0)
  {
  }

  /** The point of an impact lies on the ray through `origin` with slope `m`. */
  predicate OnRay(i: Impact, origin: Vec2D, m: real) {
    i.point.y - origin.y == m * (i.point.x - origin.x)
  }

  /** The case analysis only ever yields one of the four face impacts, or
      no face at all. */
  lemma ImpactIsAFace(origin: Vec2D, m: real, c: Cell)
    requires m != 0.0
    ensures var i := ResolveImpact(origin, m, c);
      i == WestImpact(origin, m, c) || i == EastImpact(origin, m, c) ||
      i == NorthImpact(origin, m, c) || i == SouthImpact(origin, m, c) || i.side.None?
  {
  }

  /** The reported point lies on the ray: its offset from the origin has
      slope `m`. */
  lemma ImpactOnRay(origin: Vec2D, m: real, c: Cell)
    requires m != 0.0
    ensures ResolveImpact(origin, m, c).side.Some? ==> OnRay(ResolveImpact(origin, m, c), origin, m)
  {
    ImpactIsAFace(origin, m, c);
    FacesOnRay(origin, m, c);
  }

  /** Each of the four face points lies on the ray. */
  lemma FacesOnRay(origin: Vec2D, m: real, c: Cell)
    requires m != 0.0
    ensures OnRay(NorthImpact(origin, m, c), origin, m) && OnRay(SouthImpact(origin, m, c), origin, m)
    ensures OnRay(WestImpact(origin, m, c), origin, m) && OnRay(EastImpact(origin, m, c), origin, m)
  {
    var dn := c.y as real - origin.y;
    assert m * (dn / m) == dn;
    var ds := (c.y as real + 1.0) - origin.y;
    assert m * (ds / m) == ds;
  }

  /** The reported face is turned toward the origin: the origin lies on the
      outer side of that face's line. */
  lemma ImpactFacesOrigin(origin: Vec2D, m: real, c: Cell)
    requires m != 0.0
    ensures var i := ResolveImpact(origin, m, c);
      (i.side == Some(West) ==> origin.x <= c.x as real) &&
      (i.side == Some(East) ==> origin.x >= c.x as real + 1.0) &&
      (i.side == Some(North) ==> origin.y <= c.y as real) &&
      (i.side == Some(South) ==> origin.y >= c.y as real + 1.0)
    ensures ResolveImpact(origin, m, c).side != Some(Top) && ResolveImpact(origin, m, c).side != Some(Bottom)
  {
  }

  /** The texture coordinate lies in [0, 1]: in [0, 1) on the west and south
      faces, in (0, 1] on the east and north faces, where it runs the other
      way along the face. */
  lemma ImpactTexCoordRange(origin: Vec2D, m: real, c: Cell)
    requires m != 0.0
    ensures var i := ResolveImpact(origin, m, c);
      (i.side == Some(West) || i.side == Some(South) ==> i.tx.Some? && 0.0 <= i.tx.value < 1.0) &&
      (i.side == Some(East) || i.side == Some(North) ==> i.tx.Some? && 0.0 < i.tx.value <= 1.0)
  {
  }

  /** What `castRay` returns once it stops in solid cell `c`: the tile of
      that cell and the resolved face, point and texture coordinate. */
  function HitAt(grid: TileMap, origin: Vec2D, direction: Vec2D, c: Cell): (h: TileHit)
    requires ValidMap(grid) && IsLocationSolid(grid, c.x, c.y)
    requires direction.x != 0.0 && direction.y != 0.0
    ensures h.tile.solid
    ensures h.side.Some? <==> h.tx.Some?
  {
    var impact := ResolveImpact(origin, direction.y / direction.x, c);
    TileHit(grid.tiles[c.y * grid.size.width + c.x], impact.side, impact.point, impact.tx)
  }

  /** A hit reached by walking away from the origin always names a face,
      the solid tile of its cell, and a texture coordinate in [0, 1]. */
  lemma WalkedHitHasFace(grid: TileMap, origin: Vec2D, direction: Vec2D, rayDelta: Vec2D, n: nat)
    requires ValidMap(grid) && direction.x != 0.0 && direction.y != 0.0 && n >= 1
    requires var c := Walk(origin, direction, rayDelta, n).cell; IsLocationSolid(grid, c.x, c.y)
    ensures var h := HitAt(grid, origin, direction, Walk(origin, direction, rayDelta, n).cell);
      h.tile.solid && h.side.Some? && h.tx.Some? && 0.0 <= h.tx.value <= 1.0
  {
    var c := Walk(origin, direction, rayDelta, n).cell;
    var m := direction.y / direction.x;
    WalkLeavesStartCell(origin, direction, rayDelta, n);
    ImpactSideAssigned(origin, m, c);
    ImpactTexCoordRange(origin, m, c);
  }

  /** Cell `c` lets the walk go on: it is open and within 100 units. */
  predicate OpenAndNear(grid: TileMap, origin: Vec2D, c: Cell)
    requires ValidMap(grid)
  {
    !IsLocationSolid(grid, c.x, c.y) && DistSq(c, origin) < 10000.0
  }

  /** Iterations 1 .. n - 1 of the walk all ended in cells that let it go on. */
  predicate PassedOpen(grid: TileMap, origin: Vec2D, direction: Vec2D, rayDelta: Vec2D, n: nat)
    requires ValidMap(grid)
  {
    forall k :: 1 <= k < n ==> OpenAndNear(grid, origin, WalkCell(origin, direction, rayDelta, k))
  }

  /** One more open, near cell extends the open prefix by one. */
  lemma PassedOpenExtends(grid: TileMap, origin: Vec2D, direction: Vec2D, rayDelta: Vec2D, n: nat)
    requires ValidMap(grid) && PassedOpen(grid, origin, direction, rayDelta, n)
    requires n >= 1 ==> OpenAndNear(grid, origin, Walk(origin, direction, rayDelta, n).cell)
    ensures PassedOpen(grid, origin, direction, rayDelta, n + 1)
  {
  }

  /** The set-up of `castRay` before its loop: the start cell, the step on
      each axis, and the ray length to the first boundary on each axis. */
  method StartRay(origin: Vec2D, direction: Vec2D, rayDelta: Vec2D)
    returns (mapX: int, mapY: int, stepX: int, stepY: int, sideX: real, sideY: real)
    ensures Dda(Cell(mapX, mapY), Vec2D(sideX, sideY)) == StartDda(origin, direction, rayDelta)
    ensures stepX == StepOf(direction.x) && stepY == StepOf(direction.y)
  {
    var start := StartCell(origin);
    mapX, mapY := start.x, start.y;
    if direction.x < 0.0 {
      stepX := -1;
      sideX := (origin.x - mapX as real) * rayDelta.x;
    } else {
      stepX := 1;
      sideX := (mapX as real + 1.0 - origin.x) * rayDelta.x;
    }
    if direction.y < 0.0 {
      stepY := -1;
      sideY := (origin.y - mapY as real) * rayDelta.y;
    } else {
      stepY := 1;
      sideY := (mapY as real + 1.0 - origin.y) * rayDelta.y;
    }
  }

  /** `castRay`. Returns the hit, if any, and, as a ghost value, the
      number of iterations the loop ran. The loop runs at least once; every
      cell it passed before the last was open and within 100 units; it
      reports a hit exactly when the last cell is solid, and otherwise the
      last cell is 100 or more units away. */
  method CastRay(grid: TileMap, origin: Vec2D, direction: Vec2D, rayDelta: Vec2D)
    returns (hit: Option<TileHit>, ghost steps: nat)
    requires ValidMap(grid) && direction.x != 0.0 && direction.y != 0.0
    ensures steps >= 1
    ensures PassedOpen(grid, origin, direction, rayDelta, steps)
    ensures var c := Walk(origin, direction, rayDelta, steps).cell;
      (hit.Some? <==> IsLocationSolid(grid, c.x, c.y)) &&
      (hit.None? ==> DistSq(c, origin) >= 10000.0) &&
      (hit.Some? ==> hit.value == HitAt(grid, origin, direction, c))
    ensures hit.Some? ==> hit.value.tile.solid && hit.value.side.Some? && hit.value.tx.Some?
    ensures hit.Some? && hit.value.tx.Some? ==> 0.0 <= hit.value.tx.value <= 1.0
  {
    hit := None;
    var mapX, mapY, stepX, stepY, sideX, sideY := StartRay(origin, direction, rayDelta);
    var distanceSq := 0.0;
    var tileFound := false;
    steps := 0;
    while !tileFound && distanceSq < 10000.0
      invariant steps <= 203
      invariant Dda(Cell(mapX, mapY), Vec2D(sideX, sideY)) == Walk(origin, direction, rayDelta, steps)
      invariant steps == 0 ==> !tileFound && distanceSq == 0.0
      invariant steps >= 1 ==> distanceSq == DistSq(Cell(mapX, mapY), origin)
      invariant tileFound <==> steps >= 1 && IsLocationSolid(grid, mapX, mapY)
      invariant tileFound ==> hit == Some(HitAt(grid, origin, direction, Cell(mapX, mapY)))
      invariant !tileFound ==> hit.None?
      invariant PassedOpen(grid, origin, direction, rayDelta, steps)
      decreases 203 - steps
    {
      WalkBoundedByCutoff(origin, direction, rayDelta, steps);
      PassedOpenExtends(grid, origin, direction, rayDelta, steps);
      ghost var before := Dda(Cell(mapX, mapY), Vec2D(sideX, sideY));
      if sideX < sideY {
        sideX := sideX + rayDelta.x;
        mapX := mapX + stepX;
      } else {
        sideY := sideY + rayDelta.y;
        mapY := mapY + stepY;
      }
      assert Dda(Cell(mapX, mapY), Vec2D(sideX, sideY)) == Advance(before, direction, rayDelta);
      steps := steps + 1;
      assert Dda(Cell(mapX, mapY), Vec2D(sideX, sideY)) == Walk(origin, direction, rayDelta, steps);
      distanceSq := DistSq(Cell(mapX, mapY), origin);
      if IsLocationSolid(grid, mapX, mapY) {
        tileFound := true;
        hit := Some(HitAt(grid, origin, direction, Cell(mapX, mapY)));
      }
    }
    if tileFound {
      WalkedHitHasFace(grid, origin, direction, rayDelta, steps);
    }
  }

  /** On the placeholder map, a walk that starts in an open cell and has
      only passed open cells is still on the map: the closed border stops
      it first. */
  lemma {:induction false} EnclosedWalkStaysOnMap(grid: TileMap, origin: Vec2D, direction: Vec2D, rayDelta: Vec2D, n: nat)
    requires IsPlaceholderMap(grid)
    requires var s := StartCell(origin); 0 <= s.x < MapWidth && 0 <= s.y < MapHeight && !PlaceholderSolid(s.x, s.y)
    requires PassedOpen(grid, origin, direction, rayDelta, n)
    ensures var c := Walk(origin, direction, rayDelta, n).cell; 0 <= c.x < MapWidth && 0 <= c.y < MapHeight
  {
    if n > 0 {
      var p := WalkCell(origin, direction, rayDelta, n - 1);
      assert PassedOpen(grid, origin, direction, rayDelta, n - 1);
      EnclosedWalkStaysOnMap(grid, origin, direction, rayDelta, n - 1);
      PlaceholderLocationSolid(grid, p.x, p.y);
      if n - 1 >= 1 {
        assert OpenAndNear(grid, origin, p);
      }
      if p.x == 0 || p.x == MapWidth - 1 || p.y == 0 || p.y == MapHeight - 1 {
        PlaceholderBorderClosed(p.x, p.y);
      }
    }
  }

  /** A square below 100 for a number strictly between -10 and 10. */
  lemma SquareOfNear(a: real)
    requires -10.0 < a < 10.0
    ensures a * a < 100.0
  {
    if a >= 0.0 {
      assert a * a <= a * 10.0;
    } else {
      assert a * a == (-a) * (-a) <= (-a) * 10.0;
    }
  }

  /** Every cell of the 10 x 10 map is within 100 units of a point on it. */
  lemma OnMapIsNear(c: Cell, origin: Vec2D)
    requires 0 <= c.x < MapWidth && 0 <= c.y < MapHeight
    requires 0.0 <= origin.x < 10.0 && 0.0 <= origin.y < 10.0
    ensures DistSq(c, origin) < 10000.0
  {
    SquareOfNear(c.x as real - origin.x);
    SquareOfNear(c.y as real - origin.y);
  }

  /** On the placeholder map, a ray cast from any open cell always strikes
      a wall: the border is closed and lies well inside the 100-unit
      cutoff. */
  method CastRayInPlaceholder(grid: TileMap, origin: Vec2D, direction: Vec2D, rayDelta: Vec2D)
    returns (hit: TileHit)
    requires IsPlaceholderMap(grid) && direction.x != 0.0 && direction.y != 0.0
    requires var s := StartCell(origin); 0 <= s.x < MapWidth && 0 <= s.y < MapHeight && !PlaceholderSolid(s.x, s.y)
    ensures hit.tile.solid && hit.side.Some? && hit.tx.Some? && 0.0 <= hit.tx.value <= 1.0
  {
    var result, steps := CastRay(grid, origin, direction, rayDelta);
    EnclosedWalkStaysOnMap(grid, origin, direction, rayDelta, steps);
    OnMapIsNear(Walk(origin, direction, rayDelta, steps).cell, origin);
    WalkedHitHasFace(grid, origin, direction, rayDelta, steps);
    hit := result.value;
  }
}
