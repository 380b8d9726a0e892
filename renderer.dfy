/** `Renderer`: a flat RGBA byte buffer of `resolution.width *
    resolution.height` pixels, four bytes per pixel in row-major order.
    `clear` paints every pixel; `drawPixel` converts its coordinates with
    `~~`, ignores pixels outside the screen and overwrites the four bytes of
    the pixel it hits. */
module Renderers {
  import opened Numerics
  import opened Colors
  import opened Vectors

  /** Byte `k` (0..3) of a pixel holding `c`: red, green, blue, alpha. */
  function Channel(c: Color, k: int): Byte {
    if k == 0 then c.r else if k == 1 then c.g else if k == 2 then c.b else c.a
  }

  /** A buffer of `n` bytes after `clear(c)`. */
  function Cleared(n: nat, c: Color): (s: seq<Byte>)
    ensures |s| == n
  {
    seq(n, i => Channel(c, i % 4))
  }

  /** Colour stored in the four bytes of pixel (x, y) of a buffer `width` pixels wide. */
  function PixelAt(s: seq<Byte>, width: int, x: int, y: int): Color
    requires 0 <= 4 * (y * width + x) && 4 * (y * width + x) + 3 < |s|
  {
    var i := 4 * (y * width + x);
    Color(s[i], s[i + 1], s[i + 2], s[i + 3])
  }

  predicate OnScreen(width: int, height: int, x: int, y: int) {
    0 <= x < width && 0 <= y < height
  }

  /** Buffer after writing `c` at integer pixel (x, y): unchanged when the
      pixel is off screen, otherwise its four bytes hold r, g, b, a. */
  function PixelWritten(s: seq<Byte>, width: nat, height: nat, x: int, y: int, c: Color): (s': seq<Byte>)
    requires |s| == 4 * (width * height)
    ensures |s'| == |s|
  {
    if !OnScreen(width, height, x, y) then s
    else
      RowMajorBound(width, height, x, y);
      var i := 4 * (y * width + x);
      s[i := c.r][i + 1 := c.g][i + 2 := c.b][i + 3 := c.a]
  }

  /** After `clear(c)` every complete group of four bytes holds c's red,
      green, blue and alpha, in that order. */
  lemma ClearedGroup(n: nat, c: Color, k: int)
    requires 0 <= k && 4 * k + 3 < n
    ensures Cleared(n, c)[4 * k] == c.r && Cleared(n, c)[4 * k + 1] == c.g
    ensures Cleared(n, c)[4 * k + 2] == c.b && Cleared(n, c)[4 * k + 3] == c.a
  {
  }

  /** A write on screen changes exactly the four bytes of its pixel, which
      then hold the colour; every other byte keeps its value. */
  lemma PixelWrittenFrame(s: seq<Byte>, width: nat, height: nat, x: int, y: int, c: Color)
    requires |s| == 4 * (width * height) && OnScreen(width, height, x, y)
    ensures 0 <= 4 * (y * width + x) && 4 * (y * width + x) + 3 < |s|
    ensures PixelAt(PixelWritten(s, width, height, x, y, c), width, x, y) == c
    ensures forall j :: 0 <= j < |s| && !(4 * (y * width + x) <= j < 4 * (y * width + x) + 4) ==>
      PixelWritten(s, width, height, x, y, c)[j] == s[j]
  {
    RowMajorBound(width, height, x, y);
  }

  /** At pixel granularity: the written pixel shows `c`, every other pixel
      shows what it showed before. */
  lemma PixelWrittenAt(s: seq<Byte>, width: nat, height: nat, x: int, y: int, c: Color, px: int, py: int)
    requires |s| == 4 * (width * height) && OnScreen(width, height, px, py)
    ensures 0 <= 4 * (py * width + px) && 4 * (py * width + px) + 3 < |s|
    ensures PixelAt(PixelWritten(s, width, height, x, y, c), width, px, py)
      == if x == px && y == py then c else PixelAt(s, width, px, py)
  {
    RowMajorBound(width, height, px, py);
    if OnScreen(width, height, x, y) && (x != px || y != py) {
      RowMajorBound(width, height, x, y);
      if py * width + px == y * width + x {
        RowMajorInjective(width, px, py, x, y);
      }
    }
  }

  /** Of two writes to the same pixel the last one wins, so repeating a
      write changes nothing. */
  lemma PixelWrittenLastWins(s: seq<Byte>, width: nat, height: nat, x: int, y: int, c1: Color, c2: Color)
    requires |s| == 4 * (width * height)
    ensures PixelWritten(PixelWritten(s, width, height, x, y, c1), width, height, x, y, c2)
      == PixelWritten(s, width, height, x, y, c2)
    ensures PixelWritten(PixelWritten(s, width, height, x, y, c2), width, height, x, y, c2)
      == PixelWritten(s, width, height, x, y, c2)
  {
    if OnScreen(width, height, x, y) {
      RowMajorBound(width, height, x, y);
    }
  }

  /** `drawPixel` truncates toward zero before its bounds test, so a
      coordinate in (-1, 0) lands on pixel 0 and is drawn. */
  lemma NegativeFractionLandsOnZero(x: real)
    requires -1.0 < x < 0.0
    ensures ToInt32(x) == 0
  {
    ToInt32IsTrunc(x);
  }

  class Renderer {
    const resolution: Size
    const colorBuffer: array<Byte>

    /** The buffer holds four bytes for every pixel of the resolution. */
    predicate Valid() {
      resolution.width >= 0 && resolution.height >= 0 &&
      colorBuffer.Length == 4 * (resolution.width * resolution.height)
    }

    /** The renderer over a buffer supplied by its owner; the drawing
        context and image data it also receives only serve `updateScreen`. */
    constructor (resolution: Size, colorBuffer: array<Byte>)
      requires resolution.width >= 0 && resolution.height >= 0
      requires colorBuffer.Length == 4 * (resolution.width * resolution.height)
      ensures Valid() && this.resolution == resolution && this.colorBuffer == colorBuffer
    {
      this.resolution := resolution;
      this.colorBuffer := colorBuffer;
    }

    /** `clear`: walks the buffer in steps of four and stores r, g, b, a.
        A typed array ignores stores past its end, so a trailing partial
        group is filled as far as it goes. The new buffer depends only on
        its length and the colour, not on what it held, so clearing twice
        with one colour leaves what clearing once does. */
    method Clear(color: Color)
      modifies colorBuffer
      ensures colorBuffer[..] == Cleared(colorBuffer.Length, color)
    {
      var index := 0;
      while index < colorBuffer.Length
        invariant 0 <= index && index % 4 == 0
        invariant forall i :: 0 <= i < index && i < colorBuffer.Length ==> colorBuffer[i] == Channel(color, i % 4)
      {
        colorBuffer[index] := color.r;
        if index + 1 < colorBuffer.Length { colorBuffer[index + 1] := color.g; }
        if index + 2 < colorBuffer.Length { colorBuffer[index + 2] := color.b; }
        if index + 3 < colorBuffer.Length { colorBuffer[index + 3] := color.a; }
        index := index + 4;
      }
    }

    /** `drawPixel`: the pixel `(~~x, ~~y)` takes colour `color` when it is
        on screen; otherwise nothing changes. */
    method DrawPixel(x: real, y: real, color: Color)
      requires Valid()
      modifies colorBuffer
      ensures colorBuffer[..] == PixelWritten(old(colorBuffer[..]), resolution.width, resolution.height,
                                              ToInt32(x), ToInt32(y), color)
    {
      var px, py := ToInt32(x), ToInt32(y);
      if px < 0 || py < 0 || px >= resolution.width || py >= resolution.height {
        return;
      }
      RowMajorBound(resolution.width, resolution.height, px, py);
      var index := 4 * (py * resolution.width + px);
      colorBuffer[index + 0] := color.r;
      colorBuffer[index + 1] := color.g;
      colorBuffer[index + 2] := color.b;
      colorBuffer[index + 3] := color.a;
    }
  }
}
