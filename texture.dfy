/** `Texture`: a named row-major grid of colours, origin top-left. Pixels are
    read and written by integer coordinate without any bounds check, and
    sampled by a normalised coordinate with nearest-neighbour lookup that
    clamps the far edge. */
module Textures {
  import opened Numerics
  import opened Colors

  /** Position of pixel (x, y) in row-major data `width` pixels wide. */
  function PixelIndex(width: int, x: int, y: int): int {
    y * width + x
  }

  /** Nearest-neighbour coordinate along one axis for a normalised
      coordinate `u`: `Math.min(Math.trunc(u * extent), extent - 1)`. */
  function SampleCoord(u: real, extent: int): int {
    Min(Trunc(u * extent as real), extent - 1)
  }

  /** For u in [0, 1] the coordinate is a valid pixel column, and u = 1 is
      clamped onto the last one. */
  lemma SampleCoordInRange(u: real, extent: int)
    requires 0.0 <= u <= 1.0 && extent >= 1
    ensures 0 <= SampleCoord(u, extent) < extent
    ensures u == 1.0 ==> SampleCoord(u, extent) == extent - 1
    ensures u < 1.0 ==> SampleCoord(u, extent) == Trunc(u * extent as real)
  {
    var e := extent as real;
    assert 0.0 <= u * e <= e by {
      assert e - u * e == (1.0 - u) * e;
    }
    if u < 1.0 {
      assert e - u * e == (1.0 - u) * e > 0.0;
    }
  }

  /** Data of a texture built without pixel data: `width * height` default colours. */
  function DefaultData(width: nat, height: nat): (data: seq<Color>)
    ensures |data| == width * height
  {
    seq(width * height, _ => DefaultColor)
  }

  class Texture {
    const name: string
    const width: nat
    const height: nat
    var data: seq<Color>

    /** The shape every complete texture has: one colour per pixel. */
    ghost predicate Valid()
      reads this
    {
      |data| == width * height
    }

    /** `new Texture(name, width, height, data?)`: without data, every one
        of the `width * height` pixels holds the default colour. */
    constructor (name: string, width: nat, height: nat, data: Option<seq<Color>>)
      ensures this.name == name && this.width == width && this.height == height
      ensures this.data == if data.Some? then data.value else DefaultData(width, height)
      ensures data.None? ==> Valid() && forall i :: 0 <= i < |this.data| ==> this.data[i] == DefaultColor
    {
      this.name := name;
      this.width := width;
      this.height := height;
      this.data := if data.Some? then data.value else DefaultData(width, height);
    }

    /** `drawPixel`: overwrites the one entry at `y * width + x`. The source
        does not check the coordinates; the caller keeps them inside the data. */
    method DrawPixel(x: int, y: int, color: Color)
      requires 0 <= PixelIndex(width, x, y) < |data|
      modifies this
      ensures data == old(data)[PixelIndex(width, x, y) := color]
      ensures GetPixelColor(x, y) == color
      ensures forall i :: 0 <= i < |data| && i != PixelIndex(width, x, y) ==> data[i] == old(data)[i]
    {
      var index := PixelIndex(width, x, y);
      data := data[index := color];
    }

    /** `getPixelColor`: the entry at `y * width + x`, unchecked like `drawPixel`. */
    function GetPixelColor(x: int, y: int): (c: Color)
      reads this
      requires 0 <= PixelIndex(width, x, y) < |data|
      ensures c in data
    {
      data[PixelIndex(width, x, y)]
    }

    /** The coordinates `sampleColor` reads for (u, v) address an existing entry. */
    predicate CanSample(u: real, v: real)
      reads this
    {
      0 <= PixelIndex(width, SampleCoord(u, width), SampleCoord(v, height)) < |data|
    }

    /** `sampleColor`: nearest-neighbour lookup of a normalised coordinate. */
    function SampleColor(u: real, v: real): (c: Color)
      reads this
      requires CanSample(u, v)
      ensures c in data
    {
      GetPixelColor(SampleCoord(u, width), SampleCoord(v, height))
    }

    /** A complete, non-empty texture can be sampled anywhere in [0, 1] x [0, 1],
        and the sample is the pixel at the clamped coordinates. */
    lemma SampleInUnitSquare(u: real, v: real)
      requires Valid() && width >= 1 && height >= 1
      requires 0.0 <= u <= 1.0 && 0.0 <= v <= 1.0
      ensures CanSample(u, v)
      ensures 0 <= SampleCoord(u, width) < width && 0 <= SampleCoord(v, height) < height
      ensures SampleColor(u, v) in data
    {
      SampleCoordInRange(u, width);
      SampleCoordInRange(v, height);
      RowMajorBound(width, height, SampleCoord(u, width), SampleCoord(v, height));
    }
  }
}
