# Grid ray-casting renderer — a verified model of its engine core

The system is a small browser game engine in the style of Wolfenstein 3D.
The world is a grid of square tiles, some solid. For every screen column
the engine casts a ray from the camera through the grid with a DDA
(digital differential analyser) walk, stopping at the first solid tile.
It then splits that column into ceiling, textured wall and floor rows.
Sprites are drawn as textured rectangles whose pixels go through a
filter, and everything lands in a flat RGBA byte frame buffer. Around
that loop sit:

- textures, with nearest-neighbour sampling and generated test patterns
  with debug borders;
- sprite sheets cut into animation frames;
- the placeholder 10 × 10 map;
- tiles with default texture tables;
- a frame clock that reports frames per second and gates entity updates;
- small angle and vector helpers.

The model is written in Dafny, one module per source unit:

| module | file | source |
|---|---|---|
| `Numerics` | numerics.dfy | JavaScript number helpers: `Math.trunc`, `Math.floor`, `~~`, row-major indexing, decimal formatting |
| `Colors` | colors.dfy | the colour record and the named colours |
| `Vectors` | vectors.dfy | `VectorUtils.add` / `sub` |
| `Angles` | angles.dfy | `MathUtils` constants and `fixAngle` |
| `Textures` | texture.dfy | `Texture` |
| `Renderers` | renderer.dfy | `Renderer.clear` / `drawPixel` over the frame buffer |
| `Tiles` | tile.dfy | `Tile` |
| `TileMaps` | tile_map.dfy | the placeholder map, `tileMap` and the position loop |
| `RayCaster` | raycaster.dfy | `isLocationSolid` and `castRay` |
| `Sprites` | sprite.dfy | `Sprite` |
| `TextureUtils` | texture_utils.dfy | `make`, `makeTestTexture`, `drawDebugBorders`, the decoding and border parts of `loadTexture` |
| `Clocks` | clock.dfy | `Clock` |
| `GameDrawing` | game_drawing.dfy | `getSkyboxColor`, the row logic of `drawMap` and the pixel filter of `drawSprites` |

JavaScript numbers are modelled as `real`. Truncation, flooring and the
32-bit `~~` conversion are written out, the last with its wrap-around
modulo 2^32.

Objects whose fields the source updates in place are Dafny classes, and
their methods say exactly how the state changes: `Texture`, `Renderer`
(whose colour buffer is an `array`), `Tile`, `Sprite` and `Clock`. Each
such method is tied to a specification function, and the properties are
proved about those functions. Pure code is modelled as functions and
lemmas.

## Model

| member | source | states |
|---|---|---|
| Vectors.AddSubComponentwise | src/utils/Vector.utils.ts:5-13 | `add` and `sub` act component by component on x and y |
| Vectors.AddCommutes | src/utils/Vector.utils.ts:5-8 | adding two vectors does not depend on their order |
| Vectors.SubSelfIsOrigin | src/utils/Vector.utils.ts:10-13 | a vector minus itself is the zero vector |
| Vectors.SubUndoesAdd | src/utils/Vector.utils.ts:5-13 | subtracting `b` undoes adding `b`, and the reverse |
| Angles.ConstantsRelate | src/utils/Math.utils.ts:3-7 | 90°, 270°, 360° and 60° are the stated fractions and multiples of 180° |
| Angles.FixAngle | src/utils/Math.utils.ts:9-14 | the result differs from the input by zero or exactly one full turn |
| Angles.FixAngleBelowZero | src/utils/Math.utils.ts:11 | a negative angle gains one full turn |
| Angles.FixAngleAboveFullTurn | src/utils/Math.utils.ts:12 | an angle above a full turn loses one full turn |
| Angles.FixAngleIdentityInRange | src/utils/Math.utils.ts:13 | the function is the identity on [0, 2π], so it is idempotent there |
| Angles.FixAngleRange | src/utils/Math.utils.ts:9-14 | the result lies in [0, 2π] if and only if the input lies in [-2π, 4π] |
| Angles.FixAngleThreeTurns | src/utils/Math.utils.ts:12 | three full turns come back as two full turns, which is still out of range |
| Textures.SampleCoordInRange | src/core/Texture.ts:25-26 | for u in [0, 1] the sampled column lies in [0, extent); u = 1 clamps to the last column, and u < 1 truncates u·extent |
| Textures.Texture.constructor | src/core/Texture.ts:5-10 | keeps the name and size; with no data there are width·height entries, all the default colour |
| Textures.Texture.DrawPixel | src/core/Texture.ts:12-16 | only entry y·width+x changes, and reading that pixel back gives the colour written |
| Textures.Texture.GetPixelColor | src/core/Texture.ts:18-21 | the pixel read at (x, y) is one of the texture's colours |
| Textures.Texture.SampleColor | src/core/Texture.ts:23-28 | the sampled colour is one of the texture's colours |
| Textures.Texture.SampleInUnitSquare | src/core/Texture.ts:23-28 | for u, v in [0, 1] sampling is defined, both coordinates land inside the texture, and the colour is one of the texture's |
| Renderers.ClearedGroup | src/renderer/Renderer.ts:12-21 | after a clear every 4-byte group holds the colour's r, g, b, a |
| Renderers.PixelWrittenFrame | src/renderer/Renderer.ts:32-37 | an on-screen write puts the colour at bytes 4·(y·width+x) to +3 and leaves every other byte unchanged |
| Renderers.PixelWrittenAt | src/renderer/Renderer.ts:25-37 | a pixel read after a write is the written colour at the truncated target, and its old value everywhere else |
| Renderers.PixelWrittenLastWins | src/renderer/Renderer.ts:32-37 | of two writes to the same pixel the last one wins, and repeating a write changes nothing |
| Renderers.NegativeFractionLandsOnZero | src/renderer/Renderer.ts:25 | a coordinate in (-1, 0) truncates to 0, so it is drawn in row or column 0 |
| Renderers.Renderer.constructor | src/renderer/Renderer.ts:6-10 | keeps the resolution and a buffer of 4 bytes per pixel |
| Renderers.Renderer.Clear | src/renderer/Renderer.ts:12-21 | the buffer becomes the cleared buffer of the same length |
| Renderers.Renderer.DrawPixel | src/renderer/Renderer.ts:23-38 | the buffer becomes the old buffer with the pixel written; an off-screen target leaves it unchanged |
| Tiles.NoTexturesIsEmptyOnEverySide | src/core/Tile.ts:14-24 | the default table names all six sides and holds no texture for any of them |
| Tiles.Tile.constructor | src/core/Tile.ts:7-36 | keeps the position and solidity; a texture or detail table that is left out becomes the all-empty table, and a supplied one is kept |
| TileMaps.PlaceholderBorderClosed | src/core/Map.ts:6-17 | every cell in the outer rows and columns is solid |
| TileMaps.PlaceholderInnerWall | src/core/Map.ts:8-15 | column 4 is solid for rows 1 to 4 and open for rows 5 to 8 |
| TileMaps.PlaceholderOpenInside | src/core/Map.ts:7-16 | every inner cell off the wall segment is open |
| TileMaps.PlaceholderMatchesDescription | src/core/Map.ts:6-17 | the layout is solid exactly on the border and on the wall segment |
| TileMaps.CreateTiles | src/core/Map.ts:22 | one fresh, distinct tile per layout entry, solid exactly where the entry is 1 |
| TileMaps.PlaceTiles | src/core/Map.ts:25-30 | afterwards the tile at index y·10+x has position (x, y) |
| TileMaps.BuildTileMap | src/core/Map.ts:19-30 | a 10 × 10 map with 100 distinct fresh tiles; tile k is solid exactly when the layout says 1, and sits at its grid position |
| RayCaster.IsLocationSolid | src/game/Game.ts:234-240 | a solid answer implies the cell is on the map and its index is in range |
| RayCaster.IsLocationSolidMeaning | src/game/Game.ts:234-240 | off the map the answer is false; on it the answer is the solidity of tile y·w+x |
| RayCaster.PlaceholderLocationSolid | src/game/Game.ts:234-240 | on the placeholder map a cell is solid exactly when the layout marks it |
| RayCaster.StepOf | src/game/Game.ts:255-271 | the step is -1 exactly when the direction component is negative, and +1 otherwise |
| RayCaster.StartCell | src/game/Game.ts:251 | the start cell contains the origin: each coordinate lies in [cell, cell + 1) |
| RayCaster.StartDda | src/game/Game.ts:251-271 | the walk starts in the origin's cell |
| RayCaster.StartDdaWithinDelta | src/game/Game.ts:255-271 | the first boundary on each axis is at most one cell's ray length away, and never behind the origin |
| RayCaster.Advance | src/game/Game.ts:279-287 | one iteration moves to a neighbouring cell, one grid step away, and never shortens a side distance |
| RayCaster.Walk | src/game/Game.ts:251-287 | after any number of iterations both side distances are non-negative |
| RayCaster.AdvanceMovesOneAxis | src/game/Game.ts:279-287 | each iteration moves one axis by its step and adds that axis's ray delta to its side distance; the other axis is unchanged |
| RayCaster.WalkDisplacement | src/game/Game.ts:251-287 | after n iterations the cell is n grid steps from the start cell, and each axis has moved only in its step's direction |
| RayCaster.WalkLeavesStartCell | src/game/Game.ts:279-296 | after at least one iteration the walk is never in the starting cell |
| RayCaster.WalkBoundedByCutoff | src/game/Game.ts:275-294 | while the walk is within 100 units it has run at most 202 iterations, so the loop ends |
| RayCaster.ImpactSideAssigned | src/game/Game.ts:315-382 | a face is assigned exactly when the origin is not strictly inside the cell, and a texture coordinate comes with it |
| RayCaster.ImpactOnFace | src/game/Game.ts:315-382 | a west hit has x = cell x, east x = cell x + 1, north y = cell y and south y = cell y + 1, after the corrections too |
| RayCaster.ImpactIsAFace | src/game/Game.ts:315-382 | the result is one of the four face impacts, or no face |
| RayCaster.ImpactOnRay | src/game/Game.ts:310-384 | the reported hit point lies on the line through the origin with slope m |
| RayCaster.FacesOnRay | src/game/Game.ts:310-384 | each candidate face point lies on that line |
| RayCaster.ImpactFacesOrigin | src/game/Game.ts:315-382 | the reported face is turned toward the origin, and it is never the ceiling or the floor |
| RayCaster.ImpactTexCoordRange | src/game/Game.ts:320-380 | tx lies in [0, 1) on west and south faces and in (0, 1] on east and north faces |
| RayCaster.ResolveImpact | src/game/Game.ts:310-384 | a texture coordinate comes exactly with a face, and the face is never the ceiling or the floor |
| RayCaster.HitAt | src/game/Game.ts:296-304 | the reported tile is solid, and it has a texture coordinate exactly when it has a face |
| RayCaster.WalkedHitHasFace | src/game/Game.ts:296-388 | a hit reached by walking has a solid tile, a face and a tx in [0, 1] |
| RayCaster.PassedOpenExtends | src/game/Game.ts:279-305 | one more open, near cell extends the run of passed open cells |
| RayCaster.StartRay | src/game/Game.ts:251-271 | the loop starts in the origin's cell, with each axis's step the sign of its direction and its side distance the ray length to the first boundary |
| RayCaster.CastRay | src/game/Game.ts:242-389 | the loop runs at least once and every earlier cell was open and within 100 units; there is a hit exactly when the last cell is solid, and then it is that cell's tile, face and tx; with no hit the last cell is 100 or more units away; every hit has a solid tile, a face and a tx in [0, 1] |
| RayCaster.EnclosedWalkStaysOnMap | src/core/Map.ts:7-16 | from an open cell of the placeholder map, a walk through open cells never leaves the map |
| RayCaster.OnMapIsNear | src/game/Game.ts:275-277 | every cell of the 10 × 10 map is within 100 units of an origin on the map |
| RayCaster.CastRayInPlaceholder | src/game/Game.ts:242-389 | from any open cell of the placeholder map a ray always hits a solid tile, with a face and a tx in [0, 1] |
| Sprites.FrameRowGrows | src/core/Sprite.ts:44-47 | one more pushed column extends the frame row by that sheet pixel |
| Sprites.FrameDataAt | src/core/Sprite.ts:42-48 | pixel (x, y) of a cut frame is sheet pixel (startX + x, y) |
| Sprites.FrameNamesDistinct | src/core/Sprite.ts:40 | different frame numbers give different frame names |
| Sprites.SheetIndexInRange | src/core/Sprite.ts:39-46 | when the sheet covers every frame, each pixel a frame copies exists in the sheet |
| Sprites.NextCounterInRange | src/core/Sprite.ts:59-63 | from a counter in [0, frames) the next counter is in range and equals (counter + 1) mod frames |
| Sprites.AdvanceCounterIsModular | src/core/Sprite.ts:59-63 | n advances move the counter to (counter + n) mod frames |
| Sprites.AnimationCycles | src/core/Sprite.ts:59-63 | advancing `frames` times returns to the starting frame |
| Sprites.NoFramesNeverWraps | src/core/Sprite.ts:61 | with zero frames the wrap test never fires, so the counter just grows |
| Sprites.Sprite.constructor | src/core/Sprite.ts:12-25 | stores the fields, starts the counter at 0, cuts all frames fresh and leaves the sheet unchanged |
| Sprites.Sprite.CutFrame | src/core/Sprite.ts:37-50 | the new texture is named name-i, has the frame size, and copies the frame's pixels from the sheet |
| Sprites.Sprite.GenerateFrames | src/core/Sprite.ts:33-52 | afterwards there are `frames` frames, each the matching slice of the sheet, and the sheet is unchanged |
| Sprites.Sprite.CurrentFrame | src/core/Sprite.ts:27-31 | the current frame is one of the sprite's frames |
| Sprites.Sprite.GetFrame | src/core/Sprite.ts:54-57 | the requested frame is one of the sprite's frames |
| Sprites.Sprite.SampleColor | src/core/Sprite.ts:65-68 | the sampled colour is a pixel of the current frame |
| Sprites.Sprite.FramePixel | src/core/Sprite.ts:39-46 | pixel (x, y) of frame i is sheet pixel (i·frame width + x, y) |
| Sprites.Sprite.NextFrame | src/core/Sprite.ts:59-63 | the counter advances cyclically and nothing else changes |
| Sprites.Sprite.SampleColorReadsSheet | src/core/Sprite.ts:65-68 | sampling the sprite samples its current frame, which reads the matching sheet pixel |
| TextureUtils.Make | src/utils/Texture.utils.ts:6-10 | always 1024 entries of the given colour, whatever the width and height; valid only when width·height = 1024 |
| TextureUtils.TestPatternDataAt | src/utils/Texture.utils.ts:40 | pattern entry y·width+x is the colour of pixel (x, y) |
| TextureUtils.TestPatternBlack | src/utils/Texture.utils.ts:30-38 | the diagonal, the corners, (2, 1) and (1, 2) are black |
| TextureUtils.TestPatternEdges | src/utils/Texture.utils.ts:20-28 | otherwise the last matching rule wins: bottom orange, right blue, top green, left red, inside white |
| TextureUtils.BorderRule | src/utils/Texture.utils.ts:20-38 | no rule applies exactly off the edges and off the black pixels; a black pixel is black, and any rule gives black, orange, blue, green or red |
| TextureUtils.TestPattern | src/utils/Texture.utils.ts:20-38 | the pattern pixel is white exactly when no border rule applies |
| TextureUtils.DebugBordersAt | src/utils/Texture.utils.ts:125-152 | pixels that match a rule get that rule's colour; all others keep their colour |
| TextureUtils.DebugBordersIdempotent | src/utils/Texture.utils.ts:125-152 | drawing the borders twice is the same as drawing them once |
| TextureUtils.DebugBordersKeepTestPattern | src/utils/Texture.utils.ts:12-45 | drawing the borders on a test pattern changes nothing |
| TextureUtils.PatternColor | src/utils/Texture.utils.ts:20-38 | the pixel's pattern colour, which is not white exactly when a border rule applies |
| TextureUtils.MakeTestTexture | src/utils/Texture.utils.ts:12-45 | a fresh, valid texture holding the test pattern at every pixel |
| TextureUtils.DrawDebugBorders | src/utils/Texture.utils.ts:125-152 | the texture's data becomes the old data with the border rules applied |
| TextureUtils.PaintRules | src/utils/Texture.utils.ts:130-148 | only the entry at the pixel's index changes, and it becomes the old colour with the border rules applied |
| TextureUtils.Extension | src/utils/Texture.utils.ts:55 | the extension is the dot-free suffix after the last dot |
| TextureUtils.ExtensionAfterDot | src/utils/Texture.utils.ts:55 | the extension of stem.ext is ext |
| TextureUtils.ImageFileByExtension | src/utils/Texture.utils.ts:55-62 | a file is accepted exactly when its upper-cased extension is JPG or PNG |
| TextureUtils.DecodeEncode | src/utils/Texture.utils.ts:80-88 | decoding the byte encoding of colours gives the colours back |
| TextureUtils.EncodeDecode | src/utils/Texture.utils.ts:80-88 | encoding decoded bytes gives the bytes back, so colour k is bytes 4k to 4k+3 |
| TextureUtils.DecodeImage | src/utils/Texture.utils.ts:71-88 | fails with "Not 4-byte color" exactly when there are no pixels or not 4 bytes per pixel; otherwise a valid texture of the decoded colours |
| TextureUtils.BorderBlockAt | src/utils/Texture.utils.ts:93-109 | (w-2, h-2) is green, (1, 1) red unless green overrides it, the rest of the ring black, and every other pixel unchanged |
| TextureUtils.BorderBlockIdempotent | src/utils/Texture.utils.ts:93-109 | painting the border block twice is the same as painting it once |
| TextureUtils.DrawEdgeRows | src/utils/Texture.utils.ts:95-99 | the top and bottom rows become black and nothing else changes |
| TextureUtils.DrawEdgeColumns | src/utils/Texture.utils.ts:101-105 | the left and right columns become black and nothing else changes |
| TextureUtils.DrawBorderBlock | src/utils/Texture.utils.ts:93-109 | the texture's data becomes the old data with the border block painted |
| TextureUtils.LoadTexture | src/utils/Texture.utils.ts:46-123 | fails with the loading message exactly when the extension is wrong, the image is missing or it is not 4 bytes per pixel; otherwise a valid texture of the decoded colours, with the border block when asked |
| Clocks.RunKeepsSane | src/core/Clock.ts:19-42 | counters stay non-negative and the reported rate stays even over any run of ticks |
| Clocks.InitialClockSane | src/core/Clock.ts:3-12 | every run from a new clock keeps that invariant |
| Clocks.FpsCounterCountsTicks | src/core/Clock.ts:21-31 | while the window start stays put every tick is counted; when it moves, it moves by at least a window |
| Clocks.FpsReportsTicksInWindow | src/core/Clock.ts:26-31 | when a window closes, the rate is twice the ticks in it and the window restarts at that tick |
| Clocks.DeltasTelescope | src/core/Clock.ts:23-24 | the per-tick seconds add up to the time elapsed since the tick before the run |
| Clocks.UpdatesSpaced | src/core/Clock.ts:33-41 | entity updates are at least 50 ms apart, and the clock remembers the last one |
| Clocks.UpdateGate | src/core/Clock.ts:33-41 | a tick updates entities exactly when 50 ms have passed since the last update, and only then restarts the interval |
| Clocks.Step | src/core/Clock.ts:19-42 | a tick either counts one more frame or restarts the count, records its time, stamps an entity update with its time, and keeps the counters sane |
| Clocks.Clock.constructor | src/core/Clock.ts:3-12 | a new clock is all zero with no update pending |
| Clocks.Clock.Tick | src/core/Clock.ts:19-42 | the new state is one step of the clock from the old state at that time |
| Clocks.Clock.UpdateEntities | src/core/Clock.ts:14-17 | the getter reports the flag of the clock's current state |
| GameDrawing.SkyboxUIsFraction | src/game/Game.ts:78-79 | the horizontal coordinate is the fractional part of angle/2π, in [0, 1) after the negative wrap |
| GameDrawing.SkyboxUPeriodic | src/game/Game.ts:78-79 | a full turn more gives the same horizontal coordinate |
| GameDrawing.SkyboxU | src/game/Game.ts:78-79 | the horizontal texture coordinate lies in [0, 1) |
| GameDrawing.SkyboxV | src/game/Game.ts:80 | on a screen row the vertical texture coordinate lies in [0, 1] |
| GameDrawing.SkyboxVRange | src/game/Game.ts:80 | y/(h-1) lies in [0, 1], 0 on the top row and 1 on the bottom row |
| GameDrawing.SkyboxColor | src/game/Game.ts:76-82 | the colour is a pixel of the skybox |
| GameDrawing.RayAngleInView | src/game/Game.ts:88 | column rays lie within half the field of view of the camera angle, and column 0 is its left edge |
| GameDrawing.NoHitNoWall | src/game/Game.ts:91-132 | with no hit the ceiling and floor edges meet, so no row is a wall row |
| GameDrawing.CeilingEdge | src/game/Game.ts:105 | with no hit the ceiling edge is mid-screen; with a positive ray length it is at or above mid-screen |
| GameDrawing.FloorEdge | src/game/Game.ts:106 | the floor edge mirrors the ceiling edge about mid-screen, so it is at or below the ceiling edge when that is at or above mid-screen |
| GameDrawing.RowRegion | src/game/Game.ts:109-132 | a wall row lies below the ceiling edge, between edges that do not cross, with a positive ty |
| GameDrawing.WallTexCoordRange | src/game/Game.ts:130-132 | every wall row gets ty in (0, 1] |
| GameDrawing.RegionsOrdered | src/game/Game.ts:109-168 | down a column the rows go ceiling, then wall, then floor |
| GameDrawing.ColumnBufferAt | src/game/Game.ts:109-168 | after the column, each of its pixels holds its ceiling or floor colour, wall rows and other columns keep theirs |
| GameDrawing.DrawMapColumn | src/game/Game.ts:109-168 | the buffer becomes the column buffer, and the returned wall rows are exactly the column's wall rows and their ty |
| GameDrawing.WrapObjectAngleRange | src/game/Game.ts:184-186 | the wrapped angle lies in [-π, π] exactly when the input lies in [-3π, 3π], and an angle already in range is kept |
| GameDrawing.WrapObjectAngle | src/game/Game.ts:184-186 | the wrapped angle is the input, or it plus or minus one full turn |
| GameDrawing.SpriteInView | src/game/Game.ts:188-190 | a sprite in view is at least 0.5 away and its widened field of view is positive |
| GameDrawing.SpriteInViewBounds | src/game/Game.ts:188-190 | sprites nearer than 0.5 are never drawn; inside half the field of view they are, and well outside it they are not |
| GameDrawing.FloorPointOnScreen | src/game/Game.ts:192-195 | a sprite inside the field of view has its screen x strictly inside the screen, at its middle when straight ahead |
| GameDrawing.SampleInUnitSquare | src/game/Game.ts:213-214 | the texture coordinates of every sprite pixel lie in [0, 1) |
| GameDrawing.RowWritesSound | src/game/Game.ts:210-229 | every write a sprite row issues is on screen, not transparent, at its pixel and with its sampled colour |
| GameDrawing.RowWritesComplete | src/game/Game.ts:210-229 | every accepted pixel of the row is written |
| GameDrawing.PixelWrite | src/game/Game.ts:213-226 | a sprite pixel issues at most one write, on screen and fully opaque |
| GameDrawing.DrawSpriteRow | src/game/Game.ts:211-228 | for a row the outer loop visits, the row's writes are exactly the filtered writes of its columns; a sprite with no width gives none |
| GameDrawing.DrawSpritePixels | src/game/Game.ts:210-229 | the sprite's writes are exactly the filtered writes, row by row, for any sprite size; a sprite with no width or no height draws nothing |
| GameDrawing.NarrowSpriteWritesNothing | src/game/Game.ts:210-211 | a sprite with no width draws nothing in any number of rows, since its inner loop never runs |

## Left out

- Keyboard and mouse input, `main.ts`, the test scene, and the `Game` constructor and `run` loop are not part of this model. They are event, canvas and animation-frame glue. `Renderer.updateScreen` is not modelled for the same reason.
- `loadTexture`'s `fetch`, `createImageBitmap`, `OffscreenCanvas`, promise and `alert` are not modelled. The loaded image is an input: `None` stands for a load that throws, and a failure carries the message the source alerts.
- `Math.sin`, `Math.cos`, `Math.atan2` and `Math.sqrt` are not computed. Their results (the ray direction, `rayDelta`, the slope `m`, the object angle and distance) are inputs.
- JavaScript doubles are modelled as exact reals. Results such as "the hit point lies exactly on the face line" hold in the model, not always for doubles.
- Infinity and NaN are not modelled. Where the source divides by zero, the model requires a non-zero divisor:
  - `castRay` at src/game/Game.ts:247-248 and 310;
  - `drawMap`'s ceiling edge for a zero ray length.
- The `Color`, `Size`, `Side` and `Vec2D` classes are not part of this model. A colour is four bytes r, g, b, a with any alpha; the sprite filter keeps only alpha 255. `new Vec2D()` is (0, 0).
- The colour values are assumed, since `Color` is not shown: `new Color()` is opaque black, and the named colours are opaque with their usual values (orange is (255, 165, 0)). TextureUtils.PatternColor and TextureUtils.TestPattern say "white exactly when no border rule applies"; that holds because no border colour is white.
- `Renderer.depthDrawPixel`, `Color.shade`, `Map.getTile`, `VectorUtils.mul` and `Vec2D.mag` / `clone` are called but not shown, so they are not modelled:
  - wall and sprite pixels are returned as write requests instead of going through the depth buffer;
  - the per-row ceiling and floor colours are inputs;
  - the ray cutoff `mag() < 100` is compared as squared distance < 10000.
- `drawSprites` is modelled for one sprite whose place on screen is already known. The loop over the scene's objects and the `visible` / `instanceof` test are not modelled. The object size, the top-left corner and the vertical floor point are inputs, since the last needs `Math.cos`. The colour of a sprite pixel is an input function; it stands for `sampleColor` followed by `Color.shade`.
- The `Renderer` constructor shown takes a colour buffer, while `Game` calls it differently (src/game/Game.ts:37). The model follows the constructor shown.
- `VectorUtils.int` is not shown. RayCaster.StartCell takes it as floor, so the start cell contains the origin. If it truncates instead, the two differ for negative coordinates.
- Uint8ClampedArray clamping is not modelled: bytes are `0..255` by type. Writes past the end of the buffer, which the source ignores, are excluded by the frame buffer's length invariant.
- `Upper` folds ASCII letters only. `toUpperCase` on other characters is not modelled.
- TextureUtils.DrawDebugBorders requires a valid texture (`|data| == width·height`). A JavaScript array would instead grow when written past its end.
- TextureUtils.DrawBorderBlock and TextureUtils.LoadTexture require width and height of at least 2 when debug borders are drawn. With smaller images the source writes outside the row it means to, or past the end of the array.
- GameDrawing.SkyboxV requires a screen height of at least 2. With height 1 the source divides by zero.
- GameDrawing.DrawSpriteRow models the inner loop alone, so it requires its row to be one the outer loop visits (0 ≤ y < object height). Only such rows divide by the object height.
- GameDrawing.DrawMapColumn requires width and height below 2^31, so `~~` on the row index cannot wrap. It covers the ceiling and floor writes only; wall writes are returned.
- Sprites.Sprite.constructor, CutFrame and GenerateFrames require a non-negative frame size and a sheet that covers every frame. `getPixelColor` does not check bounds, and reading past the sheet gives `undefined` in the source.
- Sprites.NextCounterInRange requires at least one frame. With zero frames the counter grows without bound (Sprites.NoFramesNeverWraps).
- RayCaster.CastRay returns the number of loop iterations as a ghost value, so its contract can name the walk it performed. It requires non-zero direction components: the source's axis-parallel rays divide by zero.
- TileMaps.PlaceTiles is specialised to the placeholder map's 10 × 10 size.
- The test-pattern rules in TextureUtils.TestPatternEdges are stated for the cases where only one edge rule applies. Which rule wins in the other cases follows from the rule order in TextureUtils.BorderRule.
