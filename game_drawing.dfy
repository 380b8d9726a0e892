/** The drawing half of `Game`: the skybox lookup, the split of every
    screen column into ceiling, wall and floor rows in `drawMap`, and the
    filter that decides which sprite pixels `drawSprites` hands to the
    depth buffer.

    Cosines, square roots and `atan2` are inputs. Colour shading, the tile
    lookups behind the ceiling and floor colours and the depth-buffered
    write are not part of this model: ceiling and floor colours are
    parameters, and the depth-buffered writes are returned as requests. */
module GameDrawing {
  import opened Numerics
  import opened Colors
  import opened Vectors
  import opened Angles
  import opened Textures
  import opened Renderers

  // ---------------------------------------------------------------------
  // Skybox

  /** Horizontal skybox coordinate of a ray: the ray angle in turns, its
      truncated remainder modulo 1 (`%` keeps the sign), moved into [0, 1)
      when negative. */
  function SkyboxU(rayAngle: real): (u: real)
    ensures 0.0 <= u < 1.0
  {
    var turns := rayAngle * (1.0 / (2.0 * Pi));
    var tx := turns - Trunc(turns) as real;
    if tx < 0.0 then 1.0 + tx else tx
  }

  /** The coordinate is the fractional part of the angle in turns, so it
      lies in [0, 1) and repeats every full turn. */
  lemma SkyboxUIsFraction(rayAngle: real)
    ensures SkyboxU(rayAngle) == Frac(rayAngle / (2.0 * Pi))
    ensures 0.0 <= SkyboxU(rayAngle) < 1.0
  {
    var turns := rayAngle * (1.0 / (2.0 * Pi));
    assert turns == rayAngle / (2.0 * Pi);
    var t := Trunc(turns);
    if turns >= 0.0 {
      assert Floor(turns) == t;
    } else if turns == t as real {
      assert Floor(turns) == t;
    } else {
      assert Floor(turns) == t - 1;
    }
  }

  /** One more turn leaves the coordinate where it was. */
  lemma SkyboxUPeriodic(rayAngle: real)
    ensures SkyboxU(rayAngle + 2.0 * Pi) == SkyboxU(rayAngle)
  {
    SkyboxUIsFraction(rayAngle);
    SkyboxUIsFraction(rayAngle + 2.0 * Pi);
    var a := rayAngle / (2.0 * Pi);
    assert (rayAngle + 2.0 * Pi) / (2.0 * Pi) == a + 1.0;
    assert Floor(a + 1.0) == Floor(a) + 1;
  }

  /** Vertical skybox coordinate of screen row `y`: `y / (height - 1)`. */
  function SkyboxV(y: int, height: int): (v: real)
    requires height >= 2
    ensures 0 <= y < height ==> 0.0 <= v <= 1.0
  {
    y as real / (height - 1) as real
  }

  /** Rows 0 .. height - 1 map onto [0, 1], the top row to 0 and the
      bottom row to 1. */
  lemma SkyboxVRange(y: int, height: int)
    requires height >= 2 && 0 <= y < height
    ensures 0.0 <= SkyboxV(y, height) <= 1.0
    ensures y == 0 ==> SkyboxV(y, height) == 0.0
    ensures y == height - 1 ==> SkyboxV(y, height) == 1.0
  {
  }

  /** `getSkyboxColor`: the skybox texture sampled at the ray's coordinates. */
  function SkyboxColor(skybox: Texture, rayAngle: real, y: int, height: int): (c: Color)
    reads skybox
    requires skybox.Valid() && skybox.width >= 1 && skybox.height >= 1
    requires height >= 2 && 0 <= y < height
    ensures c in skybox.data
  {
    SkyboxUIsFraction(rayAngle);
    SkyboxVRange(y, height);
    skybox.SampleInUnitSquare(SkyboxU(rayAngle), SkyboxV(y, height));
    skybox.SampleColor(SkyboxU(rayAngle), SkyboxV(y, height))
  }

  // ---------------------------------------------------------------------
  // Columns of `drawMap`

  /** Angle of the ray through screen column `x`: the left edge of the
      field of view plus the column's share of it. */
  function RayAngle(cameraAngle: real, fieldOfView: real, x: int, width: int): real
    requires width > 0
  {
    (cameraAngle - fieldOfView / 2.0) + (x as real / width as real) * fieldOfView
  }

  /** The columns sweep the field of view from its left edge up to, but not
      including, its right edge. */
  lemma RayAngleInView(cameraAngle: real, fieldOfView: real, x: int, width: int)
    requires width > 0 && 0 <= x < width && fieldOfView > 0.0
    ensures cameraAngle - fieldOfView / 2.0 <= RayAngle(cameraAngle, fieldOfView, x, width)
    ensures RayAngle(cameraAngle, fieldOfView, x, width) < cameraAngle + fieldOfView / 2.0
    ensures x == 0 ==> RayAngle(cameraAngle, fieldOfView, x, width) == cameraAngle - fieldOfView / 2.0
  {
    var share := x as real / width as real;
    assert 0.0 <= share < 1.0;
    assert share * fieldOfView < fieldOfView;
  }

  /** `fCeiling`: `height / 2 - height / rayLength`, where a column without a
      hit keeps `rayLength` at Infinity, which contributes nothing. */
  function CeilingEdge(height: int, rayLength: Option<real>): (f: real)
    requires rayLength.Some? ==> rayLength.value != 0.0
    ensures rayLength.None? ==> f == height as real / 2.0
    ensures height >= 0 && rayLength.Some? && rayLength.value > 0.0 ==> f <= height as real / 2.0
  {
    if rayLength.Some? then height as real / 2.0 - height as real / rayLength.value
    else height as real / 2.0
  }

  /** `fFloor`: the ceiling edge mirrored about the middle of the screen. */
  function FloorEdge(height: int, fCeiling: real): (f: real)
    ensures f - height as real / 2.0 == height as real / 2.0 - fCeiling
    ensures fCeiling <= height as real / 2.0 ==> fCeiling <= f
  {
    height as real - fCeiling
  }

  /** Which part of a column a row belongs to; a wall row carries its
      vertical texture coordinate `ty`. */
  datatype Region = CeilingRegion | WallRegion(ty: real) | FloorRegion

  /** A positive part of a positive whole is a share in (0, 1], and a
      proper part one in (0, 1). */
  lemma RatioInUnit(part: real, whole: real)
    requires whole > 0.0 && 0.0 < part <= whole
    ensures 0.0 < part / whole <= 1.0
    ensures part < whole ==> part / whole < 1.0
  {
  }

  /** A part in [0, whole) of a positive whole is a share in [0, 1). */
  lemma ProperShare(part: real, whole: real)
    requires 0.0 <= part < whole
    ensures 0.0 <= part / whole < 1.0
  {
  }

  /** A share in (0, 1) of a positive extent lies strictly inside it. */
  lemma ScaleWithin(share: real, extent: real)
    requires 0.0 < share < 1.0 && extent > 0.0
    ensures 0.0 < share * extent < extent
  {
  }

  /** A positive part of a positive whole is a positive share. */
  lemma PositiveShare(part: real, whole: real)
    ensures part > 0.0 && whole > 0.0 ==> part / whole > 0.0
  {
  }

  /** `Math.trunc` never decreases when its argument grows. */
  lemma TruncMonotone(a: real, b: real)
    ensures a <= b ==> Trunc(a) <= Trunc(b)
  {
  }

  /** The region of row `y`, decided as `drawMap` decides it: up to the truncated
      ceiling edge, then up to the truncated floor edge, then the rest. */
  function RowRegion(y: int, fCeiling: real, fFloor: real): (r: Region)
    ensures r.WallRegion? ==> fCeiling < y as real && fCeiling < fFloor && 0.0 < r.ty
  {
    if y <= Trunc(fCeiling) then CeilingRegion
    else if y <= Trunc(fFloor) then
      TruncMonotone(fFloor, fCeiling);
      PositiveShare(y as real - fCeiling, fFloor - fCeiling);
      WallRegion((y as real - fCeiling) / (fFloor - fCeiling))
    else FloorRegion
  }

  /** A column without a hit has no wall rows: its upper half is ceiling
      and its lower half floor, so the wall branch, which needs the hit,
      is never taken. */
  lemma NoHitNoWall(height: int, y: int)
    ensures !RowRegion(y, CeilingEdge(height, None), FloorEdge(height, CeilingEdge(height, None))).WallRegion?
    ensures RowRegion(y, CeilingEdge(height, None), FloorEdge(height, CeilingEdge(height, None))) == CeilingRegion
      <==> y <= Trunc(height as real / 2.0)
  {
  }

  /** On screen, with the floor edge mirroring the ceiling edge, a wall
      row's texture coordinate lies in (0, 1]. */
  lemma WallTexCoordRange(y: int, height: int, fCeiling: real)
    requires 0 <= y < height
    requires RowRegion(y, fCeiling, FloorEdge(height, fCeiling)).WallRegion?
    ensures 0.0 < RowRegion(y, fCeiling, FloorEdge(height, fCeiling)).ty <= 1.0
  {
    var fFloor := FloorEdge(height, fCeiling);
    TruncMonotone(fFloor, fCeiling);
    TruncMonotone(height as real, fCeiling);
    assert y as real > fCeiling;
    assert y as real <= fFloor;
    RatioInUnit(y as real - fCeiling, fFloor - fCeiling);
  }

  /** Ceiling rows form the top of the column and floor rows its bottom:
      a row above a ceiling row is ceiling, a row below a floor row is
      floor, and the wall rows lie between. */
  lemma RegionsOrdered(y1: int, y2: int, fCeiling: real, fFloor: real)
    requires y1 <= y2
    ensures RowRegion(y2, fCeiling, fFloor) == CeilingRegion ==> RowRegion(y1, fCeiling, fFloor) == CeilingRegion
    ensures RowRegion(y1, fCeiling, fFloor) == FloorRegion ==> RowRegion(y2, fCeiling, fFloor) == FloorRegion
    ensures RowRegion(y1, fCeiling, fFloor).WallRegion? ==> !RowRegion(y2, fCeiling, fFloor).CeilingRegion?
  {
  }

  /** A request for the depth-buffered write of wall row `y`. */
  datatype WallRow = WallRow(y: int, ty: real)

  /** The wall rows among the first `rows` rows of a column, top to bottom. */
  function WallRows(fCeiling: real, fFloor: real, rows: nat): seq<WallRow> {
    if rows == 0 then []
    else
      var y := rows - 1;
      WallRows(fCeiling, fFloor, y) +
        (match RowRegion(y, fCeiling, fFloor)
         case WallRegion(ty) => [WallRow(y, ty)]
         case _ => [])
  }

  /** The colour buffer after the first `rows` rows of column `x`: ceiling
      and floor rows take their colour, wall rows are left to the depth
      buffer. */
  function ColumnBuffer(s: seq<Byte>, width: nat, height: nat, x: int, fCeiling: real, fFloor: real,
                        ceiling: seq<Color>, floor: seq<Color>, rows: nat): (s': seq<Byte>)
    requires |s| == 4 * (width * height) && rows <= |ceiling| && rows <= |floor|
    ensures |s'| == |s|
  {
    if rows == 0 then s
    else
      var y := rows - 1;
      var before := ColumnBuffer(s, width, height, x, fCeiling, fFloor, ceiling, floor, y);
      match RowRegion(y, fCeiling, fFloor)
      case CeilingRegion => PixelWritten(before, width, height, x, y, ceiling[y])
      case FloorRegion => PixelWritten(before, width, height, x, y, floor[y])
      case WallRegion(_) => before
  }

  /** Colour the first `rows` rows of column `x` leave at pixel (px, py). */
  function ColumnPixel(s: seq<Byte>, width: nat, height: nat, x: int, fCeiling: real, fFloor: real,
                       ceiling: seq<Color>, floor: seq<Color>, rows: nat, px: int, py: int): Color
    requires |s| == 4 * (width * height) && OnScreen(width, height, px, py)
    requires py < |ceiling| && py < |floor|
  {
    RowMajorBound(width, height, px, py);
    if px == x && py < rows && RowRegion(py, fCeiling, fFloor) == CeilingRegion then ceiling[py]
    else if px == x && py < rows && RowRegion(py, fCeiling, fFloor) == FloorRegion then floor[py]
    else PixelAt(s, width, px, py)
  }

  /** After the column, every ceiling row of column `x` shows its ceiling
      colour, every floor row its floor colour, and every other pixel
      (wall rows and other columns) what it showed before. */
  lemma {:induction false} ColumnBufferAt(s: seq<Byte>, width: nat, height: nat, x: int, fCeiling: real, fFloor: real,
                                          ceiling: seq<Color>, floor: seq<Color>, rows: nat, px: int, py: int)
    requires |s| == 4 * (width * height) && rows <= |ceiling| && rows <= |floor|
    requires OnScreen(width, height, px, py) && py < |ceiling| && py < |floor|
    ensures 0 <= 4 * (py * width + px) && 4 * (py * width + px) + 3 < |s|
    ensures PixelAt(ColumnBuffer(s, width, height, x, fCeiling, fFloor, ceiling, floor, rows), width, px, py)
      == ColumnPixel(s, width, height, x, fCeiling, fFloor, ceiling, floor, rows, px, py)
    decreases rows
  {
    RowMajorBound(width, height, px, py);
    if rows > 0 {
      var y := rows - 1;
      var before := ColumnBuffer(s, width, height, x, fCeiling, fFloor, ceiling, floor, y);
      ColumnBufferAt(s, width, height, x, fCeiling, fFloor, ceiling, floor, y, px, py);
      match RowRegion(y, fCeiling, fFloor)
      case CeilingRegion => PixelWrittenAt(before, width, height, x, y, ceiling[y], px, py);
      case FloorRegion => PixelWrittenAt(before, width, height, x, y, floor[y], px, py);
      case WallRegion(_) =>
    }
  }

  /** The row loop of `drawMap` for screen column `x`: ceiling and floor rows
      are drawn with `drawPixel` in the colours given for them, and the wall
      rows, which go through the depth buffer, are returned in order with
      their texture coordinate. */
  method DrawMapColumn(renderer: Renderer, x: int, fCeiling: real, fFloor: real,
                       ceiling: seq<Color>, floor: seq<Color>) returns (walls: seq<WallRow>)
    requires renderer.Valid() && 0 <= x < renderer.resolution.width
    requires renderer.resolution.width < TwoTo31 && renderer.resolution.height < TwoTo31
    requires |ceiling| == |floor| == renderer.resolution.height
    modifies renderer.colorBuffer
    ensures renderer.colorBuffer[..] == ColumnBuffer(old(renderer.colorBuffer[..]), renderer.resolution.width,
      renderer.resolution.height, x, fCeiling, fFloor, ceiling, floor, renderer.resolution.height)
    ensures walls == WallRows(fCeiling, fFloor, renderer.resolution.height)
  {
    var width, height := renderer.resolution.width, renderer.resolution.height;
    ghost var original := renderer.colorBuffer[..];
    ToInt32IsTrunc(x as real);
    walls := [];
    for y := 0 to height
      invariant renderer.colorBuffer[..] == ColumnBuffer(original, width, height, x, fCeiling, fFloor, ceiling, floor, y)
      invariant walls == WallRows(fCeiling, fFloor, y)
    {
      ToInt32IsTrunc(y as real);
      if y <= Trunc(fCeiling) {
        renderer.DrawPixel(x as real, y as real, ceiling[y]);
      } else if y > Trunc(fCeiling) && y <= Trunc(fFloor) {
        walls := walls + [WallRow(y, RowRegion(y, fCeiling, fFloor).ty)];
      } else {
        renderer.DrawPixel(x as real, y as real, floor[y]);
      }
    }
  }

  // ---------------------------------------------------------------------
  // Sprites

  /** The approximation of pi `drawSprites` wraps angles with. */
  const SpritePi: real := 3.14159

  /** `objectAngle` after its two corrections: up a turn when below -pi,
      then down a turn when above pi. */
  function WrapObjectAngle(angle: real): (a: real)
    ensures a == angle || a == angle + 2.0 * SpritePi || a == angle - 2.0 * SpritePi
  {
    var a := if angle < -SpritePi then angle + 2.0 * SpritePi else angle;
    if a > SpritePi then a - 2.0 * SpritePi else a
  }

  /** At most one correction applies, so the result lies in [-pi, pi]
      exactly when the angle lay within a turn and a half of zero;
      angles already in range are kept. */
  lemma WrapObjectAngleRange(angle: real)
    ensures -SpritePi <= WrapObjectAngle(angle) <= SpritePi <==> -3.0 * SpritePi <= angle <= 3.0 * SpritePi
    ensures -SpritePi <= angle <= SpritePi ==> WrapObjectAngle(angle) == angle
  {
  }

  /** Whether a sprite is drawn at all: far enough away (at least 0.5) and
      within the field of view widened by `1 / distance`. For a distance
      below 0.5 the source's test is false whatever the angle, so the
      distance is compared first here. */
  predicate SpriteInView(objectAngle: real, distance: real, fieldOfView: real)
    ensures SpriteInView(objectAngle, distance, fieldOfView) ==> distance >= 0.5 && fieldOfView + 1.0 / distance > 0.0
  {
    distance >= 0.5 && (if objectAngle < 0.0 then -objectAngle else objectAngle) < (fieldOfView + 1.0 / distance) / 2.0
  }

  /** A sprite nearer than 0.5 is never drawn. At 0.5 or more it is drawn
      whenever it lies within half the field of view of the view
      direction, and never once it lies half a field of view plus
      `1 / distance` away. */
  lemma SpriteInViewBounds(objectAngle: real, distance: real, fieldOfView: real)
    ensures distance < 0.5 ==> !SpriteInView(objectAngle, distance, fieldOfView)
    ensures distance >= 0.5 && -fieldOfView / 2.0 < objectAngle < fieldOfView / 2.0
      ==> SpriteInView(objectAngle, distance, fieldOfView)
    ensures distance >= 0.5 && (objectAngle >= (fieldOfView + 1.0 / distance) / 2.0
      || objectAngle <= -(fieldOfView + 1.0 / distance) / 2.0)
      ==> !SpriteInView(objectAngle, distance, fieldOfView)
  {
    if distance >= 0.5 {
      assert 1.0 / distance > 0.0;
    }
  }

  /** Screen column of the point under a sprite seen at `objectAngle`. */
  function FloorPointX(objectAngle: real, fieldOfView: real, width: int): real
    requires fieldOfView != 0.0
  {
    (0.5 * (objectAngle / (fieldOfView * 0.5)) + 0.5) * width as real
  }

  /** A sprite within half the field of view of the view direction stands
      over a column on screen; one straight ahead stands in the middle. */
  lemma FloorPointOnScreen(objectAngle: real, fieldOfView: real, width: int)
    requires fieldOfView > 0.0 && width > 0
    requires -fieldOfView / 2.0 < objectAngle < fieldOfView / 2.0
    ensures 0.0 < FloorPointX(objectAngle, fieldOfView, width) < width as real
    ensures objectAngle == 0.0 ==> FloorPointX(objectAngle, fieldOfView, width) == width as real / 2.0
  {
    var share := 0.5 * (objectAngle / (fieldOfView * 0.5)) + 0.5;
    assert share == (objectAngle + fieldOfView / 2.0) / fieldOfView;
    RatioInUnit(objectAngle + fieldOfView / 2.0, fieldOfView);
    ScaleWithin(share, width as real);
  }

  /** How many iterations `for (k = 0; k < extent; k++)` makes. */
  function Steps(extent: real): (n: nat)
    ensures extent <= n as real && (n == 0 || ((n - 1) as real) < extent)
  {
    if extent <= 0.0 then 0 else -Floor(-extent)
  }

  /** A sprite pixel handed to the depth buffer. */
  datatype SpriteWrite = SpriteWrite(x: int, y: int, color: Color)

  /** Where pixel (x, y) of a sprite drawn from `topLeft` lands: both
      coordinates truncated toward zero. */
  function ScreenPos(topLeft: Vec2D, x: int, y: int): (int, int) {
    (Trunc(topLeft.x + x as real), Trunc(topLeft.y + y as real))
  }

  /** The filter of `drawSprites`: the pixel lands on screen and its colour
      is fully opaque. */
  predicate Accepted(pos: (int, int), color: Color, width: int, height: int) {
    0 <= pos.0 < width && 0 <= pos.1 < height && color.a == 255
  }

  /** Sample coordinates of sprite pixel (x, y): its share of the sprite's
      screen size. */
  function SampleAt(x: int, y: int, objectWidth: real, objectHeight: real): (real, real)
    requires objectWidth != 0.0 && objectHeight != 0.0
  {
    (x as real / objectWidth, y as real / objectHeight)
  }

  /** Every pixel the loops visit samples the sprite inside [0, 1) x [0, 1). */
  lemma SampleInUnitSquare(x: int, y: int, objectWidth: real, objectHeight: real)
    requires 0 <= x && (x as real) < objectWidth && 0 <= y && (y as real) < objectHeight
    ensures 0.0 <= SampleAt(x, y, objectWidth, objectHeight).0 < 1.0
    ensures 0.0 <= SampleAt(x, y, objectWidth, objectHeight).1 < 1.0
  {
    ProperShare(x as real, objectWidth);
    ProperShare(y as real, objectHeight);
  }

  /** What sprite pixel (x, y) contributes: its write when the filter lets
      it through, nothing otherwise. `sample` is the sprite's colour at a
      sample coordinate, already shaded. */
  function PixelWrite(topLeft: Vec2D, objectWidth: real, objectHeight: real, sample: (real, real) -> Color,
                      width: int, height: int, x: int, y: int): (w: seq<SpriteWrite>)
    requires objectWidth != 0.0 && objectHeight != 0.0
    ensures |w| <= 1
    ensures forall p :: p in w ==> 0 <= p.x < width && 0 <= p.y < height && p.color.a == 255
  {
    var uv := SampleAt(x, y, objectWidth, objectHeight);
    var color := sample(uv.0, uv.1);
    var pos := ScreenPos(topLeft, x, y);
    if Accepted(pos, color, width, height) then [SpriteWrite(pos.0, pos.1, color)] else []
  }

  /** The writes the first `cols` pixels of sprite row `y` produce, in order. */
  function RowWrites(topLeft: Vec2D, objectWidth: real, objectHeight: real, sample: (real, real) -> Color,
                     width: int, height: int, y: int, cols: nat): seq<SpriteWrite>
    requires cols == 0 || (objectWidth != 0.0 && objectHeight != 0.0)
  {
    if cols == 0 then []
    else
      RowWrites(topLeft, objectWidth, objectHeight, sample, width, height, y, cols - 1) +
        PixelWrite(topLeft, objectWidth, objectHeight, sample, width, height, cols - 1, y)
  }

  /** The writes of the first `rows` rows of a sprite. */
  function SpriteWrites(topLeft: Vec2D, objectWidth: real, objectHeight: real, sample: (real, real) -> Color,
                        width: int, height: int, rows: nat): seq<SpriteWrite>
    requires rows == 0 || objectHeight != 0.0
  {
    if rows == 0 then []
    else
      SpriteWrites(topLeft, objectWidth, objectHeight, sample, width, height, rows - 1) +
        RowWrites(topLeft, objectWidth, objectHeight, sample, width, height, rows - 1, Steps(objectWidth))
  }

  /** Every write of a sprite row is on screen and opaque, and comes from a
      visited pixel of that row at its truncated screen position. */
  lemma {:induction false} RowWritesSound(topLeft: Vec2D, objectWidth: real, objectHeight: real,
                                          sample: (real, real) -> Color, width: int, height: int, y: int, cols: nat)
    requires cols == 0 || (objectWidth != 0.0 && objectHeight != 0.0)
    ensures forall w :: w in RowWrites(topLeft, objectWidth, objectHeight, sample, width, height, y, cols) ==>
      0 <= w.x < width && 0 <= w.y < height && w.color.a == 255 &&
      exists x :: 0 <= x < cols && (w.x, w.y) == ScreenPos(topLeft, x, y)
        && w.color == sample(SampleAt(x, y, objectWidth, objectHeight).0, SampleAt(x, y, objectWidth, objectHeight).1)
    decreases cols
  {
    if cols > 0 {
      RowWritesSound(topLeft, objectWidth, objectHeight, sample, width, height, y, cols - 1);
    }
  }

  /** Conversely, every visited pixel of the row that lands on screen with
      an opaque colour is written. */
  lemma {:induction false} RowWritesComplete(topLeft: Vec2D, objectWidth: real, objectHeight: real,
                                             sample: (real, real) -> Color, width: int, height: int, y: int, cols: nat, x: int)
    requires objectWidth != 0.0 && objectHeight != 0.0 && 0 <= x < cols
    requires Accepted(ScreenPos(topLeft, x, y),
      sample(SampleAt(x, y, objectWidth, objectHeight).0, SampleAt(x, y, objectWidth, objectHeight).1), width, height)
    ensures SpriteWrite(ScreenPos(topLeft, x, y).0, ScreenPos(topLeft, x, y).1,
      sample(SampleAt(x, y, objectWidth, objectHeight).0, SampleAt(x, y, objectWidth, objectHeight).1))
      in RowWrites(topLeft, objectWidth, objectHeight, sample, width, height, y, cols)
    decreases cols
  {
    if x < cols - 1 {
      RowWritesComplete(topLeft, objectWidth, objectHeight, sample, width, height, y, cols - 1, x);
    }
  }

  /** A sprite with no width has no pixels in any row, so it draws nothing. */
  lemma {:induction false} NarrowSpriteWritesNothing(topLeft: Vec2D, objectWidth: real, objectHeight: real,
                                                     sample: (real, real) -> Color, width: int, height: int, rows: nat)
    requires rows == 0 || objectHeight != 0.0
    ensures objectWidth <= 0.0 ==> SpriteWrites(topLeft, objectWidth, objectHeight, sample, width, height, rows) == []
    decreases rows
  {
    if rows > 0 {
      NarrowSpriteWritesNothing(topLeft, objectWidth, objectHeight, sample, width, height, rows - 1);
    }
  }

  /** The inner pixel loop of `drawSprites` for sprite row `y`, one of the
      rows the outer loop visits: visits the row's pixels left to right and
      collects, in order, those the filter lets through. A row of a sprite
      with no width visits no pixel. */
  method DrawSpriteRow(topLeft: Vec2D, objectWidth: real, objectHeight: real, sample: (real, real) -> Color,
                       width: int, height: int, y: int) returns (writes: seq<SpriteWrite>)
    requires 0 <= y && (y as real) < objectHeight
    ensures writes == RowWrites(topLeft, objectWidth, objectHeight, sample, width, height, y, Steps(objectWidth))
  {
    writes := [];
    var x := 0;
    while (x as real) < objectWidth
      invariant 0 <= x <= Steps(objectWidth)
      invariant writes == RowWrites(topLeft, objectWidth, objectHeight, sample, width, height, y, x)
      decreases Steps(objectWidth) - x
    {
      var pixel := PixelWrite(topLeft, objectWidth, objectHeight, sample, width, height, x, y);
      writes := writes + pixel;
      x := x + 1;
    }
    assert x == Steps(objectWidth);
  }

  /** The pixel loops of `drawSprites` for one sprite of screen size
      `objectWidth` x `objectHeight` placed at `topLeft`: visits the pixels
      row by row and collects, in order, those the filter lets through. A
      sprite with no width or no height draws nothing. */
  method DrawSpritePixels(topLeft: Vec2D, objectWidth: real, objectHeight: real, sample: (real, real) -> Color,
                          width: int, height: int) returns (writes: seq<SpriteWrite>)
    ensures writes == SpriteWrites(topLeft, objectWidth, objectHeight, sample, width, height, Steps(objectHeight))
    ensures objectWidth <= 0.0 || objectHeight <= 0.0 ==> writes == []
  {
    writes := [];
    var y := 0;
    while (y as real) < objectHeight
      invariant 0 <= y <= Steps(objectHeight)
      invariant writes == SpriteWrites(topLeft, objectWidth, objectHeight, sample, width, height, y)
      decreases Steps(objectHeight) - y
    {
      var row := DrawSpriteRow(topLeft, objectWidth, objectHeight, sample, width, height, y);
      writes := writes + row;
      y := y + 1;
    }
    NarrowSpriteWritesNothing(topLeft, objectWidth, objectHeight, sample, width, height, y);
  }
}
