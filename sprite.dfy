/** `Sprite`: an animated object cut from a sprite sheet. The sheet holds
    `frames` frames side by side, each `frameSize` large; the constructor
    copies each one into a texture of its own, and a counter selects the
    frame that is drawn, advanced by `nextFrame` and wrapped at `frames`. */
module Sprites {
  import opened Numerics
  import opened Colors
  import opened Vectors
  import opened Textures

  /** Colour of sheet entry `idx`; the default colour past the end of the
      data (where the copy never reads when the sheet is large enough). */
  function SheetPixel(sheet: seq<Color>, idx: int): Color {
    if 0 <= idx < |sheet| then sheet[idx] else DefaultColor
  }

  /** The first `len` pixels of row `row` of the frame that starts at
      column `startX` of a sheet `sheetWidth` pixels wide. */
  function FrameRow(sheet: seq<Color>, sheetWidth: int, startX: int, len: nat, row: int): (r: seq<Color>)
    ensures |r| == len
  {
    seq(len, k => SheetPixel(sheet, row * sheetWidth + startX + k))
  }

  /** A row grows by the next sheet pixel. */
  lemma FrameRowGrows(sheet: seq<Color>, sheetWidth: int, startX: int, len: nat, row: int)
    ensures FrameRow(sheet, sheetWidth, startX, len + 1, row)
      == FrameRow(sheet, sheetWidth, startX, len, row) + [SheetPixel(sheet, row * sheetWidth + startX + len)]
  {
  }

  /** The data of a frame `frameWidth` wide after its first `rows` rows
      have been copied, row by row, left to right. */
  function FrameData(sheet: seq<Color>, sheetWidth: int, startX: int, frameWidth: nat, rows: nat): (d: seq<Color>)
    ensures |d| == rows * frameWidth
  {
    if rows == 0 then []
    else FrameData(sheet, sheetWidth, startX, frameWidth, rows - 1) + FrameRow(sheet, sheetWidth, startX, frameWidth, rows - 1)
  }

  /** Pixel (x, y) of a copied frame is sheet pixel (startX + x, y). */
  lemma {:induction false} FrameDataAt(sheet: seq<Color>, sheetWidth: int, startX: int, frameWidth: nat, rows: nat, x: int, y: int)
    requires 0 <= x < frameWidth && 0 <= y < rows
    ensures 0 <= y * frameWidth + x < |FrameData(sheet, sheetWidth, startX, frameWidth, rows)|
    ensures FrameData(sheet, sheetWidth, startX, frameWidth, rows)[y * frameWidth + x]
      == SheetPixel(sheet, y * sheetWidth + startX + x)
  {
    RowMajorBound(frameWidth, rows, x, y);
    var prefix := FrameData(sheet, sheetWidth, startX, frameWidth, rows - 1);
    if y < rows - 1 {
      FrameDataAt(sheet, sheetWidth, startX, frameWidth, rows - 1, x, y);
    } else {
      assert |prefix| == y * frameWidth;
    }
  }

  /** The name of frame `i`: `${name}-${i}`. */
  function FrameName(name: string, i: nat): string {
    name + "-" + NatToString(i)
  }

  /** Distinct frames get distinct names. */
  lemma FrameNamesDistinct(name: string, i: nat, j: nat)
    requires i != j
    ensures FrameName(name, i) != FrameName(name, j)
  {
    if FrameName(name, i) == FrameName(name, j) {
      var n := |name| + 1;
      assert NatToString(i) == FrameName(name, i)[n..];
      assert NatToString(j) == FrameName(name, j)[n..];
      NatToStringInjective(i, j);
    }
  }

  /** The sheet reaches far enough for every frame: the last pixel of the
      last frame's last row, `(frames * frameWidth - 1, frameHeight - 1)`,
      is inside the sheet data. */
  predicate SheetCovers(sheetLength: int, sheetWidth: int, frameWidth: int, frameHeight: int, frames: int) {
    frames <= 0 || frameWidth == 0 || frameHeight == 0 ||
    (frameHeight - 1) * sheetWidth + frames * frameWidth <= sheetLength
  }

  /** Every pixel the copy of frame `i` reads lies inside the sheet. */
  lemma SheetIndexInRange(sheetLength: int, sheetWidth: nat, frameWidth: nat, frameHeight: nat, frames: int,
                          i: int, x: int, y: int)
    requires SheetCovers(sheetLength, sheetWidth, frameWidth, frameHeight, frames)
    requires 0 <= i < frames && i * frameWidth <= x < i * frameWidth + frameWidth && 0 <= y < frameHeight
    ensures 0 <= y * sheetWidth + x < sheetLength
  {
    RowsApart(i, frames, frameWidth);
    RowsApart(y, frameHeight - 1, sheetWidth);
    assert 0 <= i * frameWidth;
    assert 0 <= y * sheetWidth;
  }

  /** `nextFrame` on the counter: one on, and back to 0 when it reaches
      `frames`. */
  function NextCounter(counter: int, frames: int): int {
    if counter + 1 == frames then 0 else counter + 1
  }

  /** The counter after `n` calls of `nextFrame`. */
  function AdvanceCounter(counter: int, frames: int, n: nat): int {
    if n == 0 then counter else NextCounter(AdvanceCounter(counter, frames, n - 1), frames)
  }

  /** With at least one frame, a counter in range stays in range. */
  lemma NextCounterInRange(counter: int, frames: int)
    requires 0 <= counter < frames
    ensures 0 <= NextCounter(counter, frames) < frames
    ensures NextCounter(counter, frames) == (counter + 1) % frames
  {
  }

  /** With at least one frame, `n` calls of `nextFrame` move the counter `n`
      frames on, modulo `frames`. */
  lemma {:induction false} AdvanceCounterIsModular(counter: int, frames: int, n: nat)
    requires 0 <= counter < frames
    ensures AdvanceCounter(counter, frames, n) == (counter + n) % frames
  {
    if n == 0 {
      RowMajorDivMod(frames, counter, 0);
    } else {
      AdvanceCounterIsModular(counter, frames, n - 1);
      ModSucc(counter + n - 1, frames);
    }
  }

  /** Counting modulo `m`: the successor's remainder is the remainder plus
      one, wrapping to 0 at `m`. */
  lemma ModSucc(a: nat, m: int)
    requires m >= 1
    ensures (a + 1) % m == if a % m + 1 == m then 0 else a % m + 1
  {
    var q, r := a / m, a % m;
    assert a == q * m + r;
    if r + 1 < m {
      RowMajorDivMod(m, r + 1, q);
    } else {
      assert a + 1 == (q + 1) * m + 0;
      RowMajorDivMod(m, 0, q + 1);
    }
  }

  /** The animation is cyclic: `frames` calls of `nextFrame` come back to
      the frame they started from. */
  lemma AnimationCycles(counter: int, frames: int)
    requires 0 <= counter < frames
    ensures AdvanceCounter(counter, frames, frames) == counter
  {
    AdvanceCounterIsModular(counter, frames, frames);
    RowMajorDivMod(frames, counter, 1);
  }

  /** Without frames the `==` test never fires: the counter climbs for ever
      and leaves the (empty) frame list behind. */
  lemma {:induction false} NoFramesNeverWraps(n: nat)
    ensures AdvanceCounter(0, 0, n) == n
  {
    if n > 0 {
      NoFramesNeverWraps(n - 1);
    }
  }

  /** `frame` is frame `i` of `sheet` for a sprite called `name`: it has
      the frame's name, its size and its pixels. */
  ghost predicate IsFrameOf(frame: Texture, sheet: Texture, name: string, frameSize: Size, i: int)
    reads frame, sheet
    requires frameSize.width >= 0 && frameSize.height >= 0
  {
    frame.name == FrameName(name, if i < 0 then 0 else i) &&
    frame.width == frameSize.width && frame.height == frameSize.height &&
    frame.data == FrameData(sheet.data, sheet.width, i * frameSize.width, frameSize.width, frameSize.height)
  }

  class Sprite {
    const id: int
    const name: string
    var position: Vec2D
    var angle: real
    const size: Size
    var visible: bool
    /** The sprite sheet. */
    const texture: Texture
    const frameSize: Size
    const frames: int

    var framesTexture: seq<Texture>
    var currentFrameCounter: int

    /** The state the constructor leaves: one copied frame per sheet frame,
        all distinct from each other and from the sheet. */
    ghost predicate Valid()
      reads this, framesTexture, texture
    {
      frameSize.width >= 0 && frameSize.height >= 0 &&
      |framesTexture| == (if frames < 0 then 0 else frames) &&
      (forall i :: 0 <= i < |framesTexture| ==> IsFrameOf(framesTexture[i], texture, name, frameSize, i)) &&
      (forall i :: 0 <= i < |framesTexture| ==> framesTexture[i] != texture) &&
      (forall i, j :: 0 <= i < j < |framesTexture| ==> framesTexture[i] != framesTexture[j])
    }

    /** `new Sprite(...)`: stores its arguments, starts on frame 0 and cuts
        the sheet into frames. */
    constructor (id: int, name: string, position: Vec2D, angle: real, size: Size, visible: bool,
                 texture: Texture, frameSize: Size, frames: int)
      requires frameSize.width >= 0 && frameSize.height >= 0
      requires SheetCovers(|texture.data|, texture.width, frameSize.width, frameSize.height, frames)
      ensures this.id == id && this.name == name && this.position == position && this.angle == angle
      ensures this.size == size && this.visible == visible && this.texture == texture
      ensures this.frameSize == frameSize && this.frames == frames
      ensures currentFrameCounter == 0
      ensures Valid()
      ensures forall i :: 0 <= i < |framesTexture| ==> fresh(framesTexture[i])
      ensures unchanged(texture)
    {
      this.id := id;
      this.name := name;
      this.position := position;
      this.angle := angle;
      this.size := size;
      this.visible := visible;
      this.texture := texture;
      this.frameSize := frameSize;
      this.frames := frames;
      this.currentFrameCounter := 0;
      new;
      GenerateFrames();
    }

    /** One pass of `generateFrames`' outer loop: a new texture named
        `${name}-${i}` receives frame `i`'s pixels row by row from the
        sheet, which is only read. */
    method CutFrame(i: int) returns (frameTexture: Texture)
      requires frameSize.width >= 0 && frameSize.height >= 0 && 0 <= i < frames
      requires SheetCovers(|texture.data|, texture.width, frameSize.width, frameSize.height, frames)
      ensures fresh(frameTexture)
      ensures IsFrameOf(frameTexture, texture, name, frameSize, i)
    {
      var sheetWidth := texture.width;
      var frameWidth: nat, frameHeight: nat := frameSize.width, frameSize.height;
      var startX := i * frameWidth;
      frameTexture := new Texture(FrameName(name, i), frameWidth, frameHeight, Some([]));
      for y := 0 to frameHeight
        modifies frameTexture
        invariant frameTexture.data == FrameData(texture.data, sheetWidth, startX, frameWidth, y)
      {
        for x := startX to startX + frameWidth
          modifies frameTexture
          invariant frameTexture.data == FrameData(texture.data, sheetWidth, startX, frameWidth, y)
                                         + FrameRow(texture.data, sheetWidth, startX, x - startX, y)
        {
          SheetIndexInRange(|texture.data|, sheetWidth, frameWidth, frameHeight, frames, i, x, y);
          ghost var done := FrameData(texture.data, sheetWidth, startX, frameWidth, y);
          ghost var row := FrameRow(texture.data, sheetWidth, startX, x - startX, y);
          var color := texture.GetPixelColor(x, y);
          assert color == SheetPixel(texture.data, y * sheetWidth + startX + (x - startX));
          FrameRowGrows(texture.data, sheetWidth, startX, x - startX, y);
          frameTexture.data := frameTexture.data + [color];
          assert frameTexture.data == done + (row + [color]);
        }
        assert FrameData(texture.data, sheetWidth, startX, frameWidth, y + 1)
          == FrameData(texture.data, sheetWidth, startX, frameWidth, y)
             + FrameRow(texture.data, sheetWidth, startX, frameWidth, y);
      }
    }

    /** `generateFrames`: one copied frame per sheet frame, each a new
        texture. */
    method GenerateFrames()
      requires frameSize.width >= 0 && frameSize.height >= 0
      requires SheetCovers(|texture.data|, texture.width, frameSize.width, frameSize.height, frames)
      modifies this
      ensures Valid()
      ensures forall i :: 0 <= i < |framesTexture| ==> fresh(framesTexture[i])
      ensures currentFrameCounter == old(currentFrameCounter) && position == old(position)
      ensures angle == old(angle) && visible == old(visible)
    {
      var generated: seq<Texture> := [];
      var i := 0;
      while i < frames
        invariant 0 <= i && |generated| == i && (frames >= 0 ==> i <= frames) && (frames < 0 ==> i == 0)
        invariant forall k :: 0 <= k < i ==> fresh(generated[k])
        invariant forall k :: 0 <= k < i ==> IsFrameOf(generated[k], texture, name, frameSize, k)
        invariant forall k, l :: 0 <= k < l < i ==> generated[k] != generated[l]
        invariant currentFrameCounter == old(currentFrameCounter) && position == old(position)
        invariant angle == old(angle) && visible == old(visible)
      {
        var frameTexture := CutFrame(i);
        generated := generated + [frameTexture];
        i := i + 1;
      }
      framesTexture := generated;
    }

    /** The `currentFrame` getter. */
    function CurrentFrame(): (frame: Texture)
      reads this
      requires 0 <= currentFrameCounter < |framesTexture|
      ensures frame in framesTexture
    {
      framesTexture[currentFrameCounter]
    }

    /** `getFrame`. */
    function GetFrame(frame: int): (t: Texture)
      reads this
      requires 0 <= frame < |framesTexture|
      ensures t in framesTexture
    {
      framesTexture[frame]
    }

    /** Pixel (x, y) of frame `i` is sheet pixel (i * frameSize.width + x, y). */
    lemma FramePixel(i: int, x: int, y: int)
      requires Valid() && 0 <= i < |framesTexture|
      requires 0 <= x < frameSize.width && 0 <= y < frameSize.height
      requires SheetCovers(|texture.data|, texture.width, frameSize.width, frameSize.height, frames)
      ensures 0 <= PixelIndex(GetFrame(i).width, x, y) < |GetFrame(i).data|
      ensures 0 <= PixelIndex(texture.width, i * frameSize.width + x, y) < |texture.data|
      ensures GetFrame(i).GetPixelColor(x, y) == texture.GetPixelColor(i * frameSize.width + x, y)
    {
      FrameDataAt(texture.data, texture.width, i * frameSize.width, frameSize.width, frameSize.height, x, y);
      SheetIndexInRange(|texture.data|, texture.width, frameSize.width, frameSize.height, frames,
                        i, i * frameSize.width + x, y);
    }

    /** `nextFrame`. */
    method NextFrame()
      modifies this
      ensures currentFrameCounter == NextCounter(old(currentFrameCounter), frames)
      ensures framesTexture == old(framesTexture) && position == old(position)
      ensures angle == old(angle) && visible == old(visible)
      ensures old(Valid()) ==> Valid()
    {
      currentFrameCounter := currentFrameCounter + 1;
      if currentFrameCounter == frames {
        currentFrameCounter := 0;
      }
    }

    /** `sampleColor`: samples the current frame. */
    function SampleColor(x: real, y: real): (c: Color)
      reads this, framesTexture
      requires 0 <= currentFrameCounter < |framesTexture|
      requires CurrentFrame().CanSample(x, y)
      ensures c in CurrentFrame().data
    {
      CurrentFrame().SampleColor(x, y)
    }

    /** Sampling a sprite inside the unit square reads the sheet pixel at the
        sampled position of the current frame. */
    lemma SampleColorReadsSheet(x: real, y: real)
      requires Valid() && 0 <= currentFrameCounter < |framesTexture|
      requires SheetCovers(|texture.data|, texture.width, frameSize.width, frameSize.height, frames)
      requires frameSize.width >= 1 && frameSize.height >= 1
      requires 0.0 <= x <= 1.0 && 0.0 <= y <= 1.0
      ensures CurrentFrame().CanSample(x, y)
      ensures var sx, sy := SampleCoord(x, frameSize.width), SampleCoord(y, frameSize.height);
        0 <= sx < frameSize.width && 0 <= sy < frameSize.height &&
        0 <= PixelIndex(texture.width, currentFrameCounter * frameSize.width + sx, sy) < |texture.data| &&
        SampleColor(x, y) == texture.GetPixelColor(currentFrameCounter * frameSize.width + sx, sy)
    {
      var frame := CurrentFrame();
      assert IsFrameOf(frame, texture, name, frameSize, currentFrameCounter);
      assert frame.Valid();
      frame.SampleInUnitSquare(x, y);
      FramePixel(currentFrameCounter, SampleCoord(x, frameSize.width), SampleCoord(y, frameSize.height));
    }
  }
}
