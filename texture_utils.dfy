/** `TextureUtils`: textures filled with one colour, the test pattern, the
    debug-border painter, and the part of `loadTexture` that turns decoded
    RGBA bytes into a texture and optionally marks its edges.

    The pattern rules are applied in the source one after the other, each
    overwriting the colour chosen so far; `BorderRule` gives the rule that
    ends up deciding a pixel (the last one that matches). */
module TextureUtils {
  import opened Numerics
  import opened Colors
  import opened Textures
  import Renderers

  /** The side length of a `make` texture's data: 32 x 32 entries. */
  const MakeSide: nat := 32

  /** `make`: a new texture whose data is 32 * 32 copies of `color`, whatever
      `width` and `height` say. */
  method Make(name: string, width: nat, height: nat, color: Color) returns (t: Texture)
    ensures fresh(t) && t.name == name && t.width == width && t.height == height
    ensures |t.data| == MakeSide * MakeSide == 1024
    ensures forall i :: 0 <= i < |t.data| ==> t.data[i] == color
    ensures t.Valid() <==> width * height == 1024
  {
    var data := seq(MakeSide * MakeSide, _ => color);
    t := new Texture(name, width, height, Some(data));
  }

  /** Whether (x, y) is one of the black pixels of the pattern: a corner,
      the main diagonal, or (2, 1) / (1, 2). */
  predicate BlackRule(x: int, y: int, width: int, height: int) {
    (x == 0 && y == 0) || (x == width - 1 && y == 0) ||
    (x == 0 && y == height - 1) || (x == width - 1 && y == height - 1) ||
    x == y || (x == 2 && y == 1) || (x == 1 && y == 2)
  }

  /** The colour the last matching rule gives pixel (x, y), or `None` when no
      rule matches. The rules, first to last: left column (not the top row)
      red, top row (not the left column) green, right column (not the top
      row) blue, bottom row (not the left column) orange, then the black
      pixels. */
  function BorderRule(x: int, y: int, width: int, height: int): (r: Option<Color>)
    ensures r.None? <==> !BlackRule(x, y, width, height) && x != 0 && y != 0 && x != width - 1 && y != height - 1
    ensures BlackRule(x, y, width, height) ==> r == Some(Black)
    ensures r.Some? ==> r.value in {Black, Orange, Blue, Green, Red}
  {
    if BlackRule(x, y, width, height) then Some(Black)
    else if y == height - 1 && x != 0 then Some(Orange)
    else if x == width - 1 && y != 0 then Some(Blue)
    else if y == 0 && x != 0 then Some(Green)
    else if x == 0 && y != 0 then Some(Red)
    else None
  }

  /** Pixel (x, y) of the test pattern: the deciding rule's colour, white
      where none matches. */
  function TestPattern(x: int, y: int, width: int, height: int): (c: Color)
    ensures c != White <==> BorderRule(x, y, width, height).Some?
  {
    BorderRule(x, y, width, height).GetOr(White)
  }

  /** The test pattern as row-major data. */
  function TestPatternData(width: nat, height: nat): (d: seq<Color>)
    ensures |d| == width * height
  {
    if width == 0 then []
    else seq(width * height, j => TestPattern(j % width, j / width, width, height))
  }

  /** `drawDebugBorders` on one pixel: the deciding rule's colour, or the
      pixel's own colour where no rule matches. */
  function DebugPixel(x: int, y: int, width: int, height: int, c: Color): Color {
    BorderRule(x, y, width, height).GetOr(c)
  }

  /** The data after `drawDebugBorders`. */
  function DebugBordersApplied(data: seq<Color>, width: nat, height: nat): (d: seq<Color>)
    requires |data| == width * height
    ensures |d| == |data|
  {
    seq(|data|, j requires 0 <= j < |data| => DebugPixel(j % width, j / width, width, height, data[j]))
  }

  /** Entry `y * width + x` of the pattern data is pattern pixel (x, y). */
  lemma TestPatternDataAt(width: nat, height: nat, x: int, y: int)
    requires 0 <= x < width && 0 <= y < height
    ensures 0 <= y * width + x < |TestPatternData(width, height)|
    ensures TestPatternData(width, height)[y * width + x] == TestPattern(x, y, width, height)
  {
    RowMajorBound(width, height, x, y);
    RowMajorDivMod(width, x, y);
  }

  /** The diagonal, the four corners, (2, 1) and (1, 2) are black. */
  lemma TestPatternBlack(x: int, y: int, width: int, height: int)
    requires BlackRule(x, y, width, height)
    ensures TestPattern(x, y, width, height) == Black
  {
  }

  /** Off the black pixels, the edges take their colours, the bottom row
      over the right column over the top row over the left column, and
      everything inside the edges is white. */
  lemma TestPatternEdges(x: int, y: int, width: int, height: int)
    requires !BlackRule(x, y, width, height)
    ensures y == height - 1 && x != 0 ==> TestPattern(x, y, width, height) == Orange
    ensures x == width - 1 && y != 0 && y != height - 1 ==> TestPattern(x, y, width, height) == Blue
    ensures y == 0 && x != 0 && x != width - 1 && y != height - 1 ==> TestPattern(x, y, width, height) == Green
    ensures x == 0 && y != 0 && y != height - 1 && width != 1 ==> TestPattern(x, y, width, height) == Red
    ensures 0 < x < width - 1 && 0 < y < height - 1 ==> TestPattern(x, y, width, height) == White
  {
  }

  /** `drawDebugBorders` paints every pixel some rule matches with the
      pattern's colour and leaves the others as they were. */
  lemma DebugBordersAt(data: seq<Color>, width: nat, height: nat, x: int, y: int)
    requires |data| == width * height && 0 <= x < width && 0 <= y < height
    ensures 0 <= y * width + x < |data|
    ensures DebugBordersApplied(data, width, height)[y * width + x]
      == DebugPixel(x, y, width, height, data[y * width + x])
    ensures BorderRule(x, y, width, height).Some? ==>
      DebugBordersApplied(data, width, height)[y * width + x] == TestPattern(x, y, width, height)
    ensures BorderRule(x, y, width, height).None? ==>
      DebugBordersApplied(data, width, height)[y * width + x] == data[y * width + x]
  {
    RowMajorBound(width, height, x, y);
    RowMajorDivMod(width, x, y);
  }

  /** Painting the borders twice is painting them once. */
  lemma DebugBordersIdempotent(data: seq<Color>, width: nat, height: nat)
    requires |data| == width * height
    ensures DebugBordersApplied(DebugBordersApplied(data, width, height), width, height)
      == DebugBordersApplied(data, width, height)
  {
  }

  /** The test pattern already has its borders: painting them changes
      nothing. */
  lemma DebugBordersKeepTestPattern(width: nat, height: nat)
    ensures DebugBordersApplied(TestPatternData(width, height), width, height) == TestPatternData(width, height)
  {
  }

  /** The colour `makeTestTexture` picks for pixel (x, y): white, then each
      rule in turn overwrites it when it matches, so the last matching rule
      decides. */
  method PatternColor(x: int, y: int, width: int, height: int) returns (color: Color)
    ensures color == TestPattern(x, y, width, height)
    ensures color != White <==> BorderRule(x, y, width, height).Some?
  {
    color := White;
    if x == 0 && y != 0 { color := Red; }
    if y == 0 && x != 0 { color := Green; }
    if x == width - 1 && y != 0 { color := Blue; }
    if y == height - 1 && x != 0 { color := Orange; }
    if (x == 0 && y == 0)
      || (x == width - 1 && y == 0)
      || (x == 0 && y == height - 1)
      || (x == width - 1 && y == height - 1)
      || (x == y)
      || (x == 2 && y == 1)
      || (x == 1 && y == 2)
    {
      color := Black;
    }
  }

  /** The body of `drawDebugBorders` for pixel (x, y) stored at `index`:
      each matching rule overwrites the entry in turn. */
  method PaintRules(texture: Texture, x: int, y: int, index: int)
    requires 0 <= index < |texture.data|
    modifies texture
    ensures texture.data == old(texture.data)[index := DebugPixel(x, y, texture.width, texture.height, old(texture.data)[index])]
  {
    if x == 0 && y != 0 { texture.data := texture.data[index := Red]; }
    if y == 0 && x != 0 { texture.data := texture.data[index := Green]; }
    if x == texture.width - 1 && y != 0 { texture.data := texture.data[index := Blue]; }
    if y == texture.height - 1 && x != 0 { texture.data := texture.data[index := Orange]; }
    if (x == 0 && y == 0)
      || (x == texture.width - 1 && y == 0)
      || (x == 0 && y == texture.height - 1)
      || (x == texture.width - 1 && y == texture.height - 1)
      || (x == y)
      || (x == 2 && y == 1)
      || (x == 1 && y == 2)
    {
      texture.data := texture.data[index := Black];
    }
  }

  /** `makeTestTexture`: a new texture of `width * height` pixels, each set,
      row by row, to its test-pattern colour. */
  method MakeTestTexture(name: string, width: nat, height: nat) returns (texture: Texture)
    ensures fresh(texture) && texture.name == name && texture.width == width && texture.height == height
    ensures texture.data == TestPatternData(width, height)
    ensures texture.Valid()
  {
    texture := new Texture(name, width, height, None);
    ghost var target := TestPatternData(width, height);
    ghost var done := 0;
    for y := 0 to height
      modifies texture
      invariant |texture.data| == width * height
      invariant done == y * width <= width * height
      invariant forall j :: 0 <= j < done ==> texture.data[j] == target[j]
    {
      RowsApart(y, height, width);
      for x := 0 to width
        modifies texture
        invariant |texture.data| == width * height
        invariant done == y * width + x <= width * height
        invariant forall j :: 0 <= j < done ==> texture.data[j] == target[j]
      {
        var color := PatternColor(x, y, width, height);
        TestPatternDataAt(width, height, x, y);
        texture.data := texture.data[y * width + x := color];
        done := done + 1;
      }
      assert done == (y + 1) * width;
    }
    assert done == width * height;
    assert texture.data == target;
  }

  /** `drawDebugBorders`: visits every pixel row by row and repaints it with
      the colour of each rule that matches, in order. */
  method DrawDebugBorders(texture: Texture)
    requires texture.Valid()
    modifies texture
    ensures texture.data == DebugBordersApplied(old(texture.data), texture.width, texture.height)
  {
    ghost var original := texture.data;
    ghost var target := DebugBordersApplied(original, texture.width, texture.height);
    ghost var done := 0;
    var width, height := texture.width, texture.height;
    for y := 0 to height
      invariant |texture.data| == width * height
      invariant done == y * width <= width * height
      invariant forall j :: 0 <= j < done ==> texture.data[j] == target[j]
      invariant forall j :: done <= j < width * height ==> texture.data[j] == original[j]
    {
      RowsApart(y, height, width);
      for x := 0 to width
        invariant |texture.data| == width * height
        invariant done == y * width + x <= width * height
        invariant forall j :: 0 <= j < done ==> texture.data[j] == target[j]
        invariant forall j :: done <= j < width * height ==> texture.data[j] == original[j]
      {
        DebugBordersAt(original, width, height, x, y);
        PaintRules(texture, x, y, y * width + x);
        done := done + 1;
      }
      assert done == (y + 1) * width;
    }
    assert done == width * height;
    assert texture.data == target;
  }

  // ---------------------------------------------------------------------
  // Loading an image file

  /** What the browser hands back for a decoded image: its size and its
      RGBA bytes, row by row. */
  datatype ImageData = ImageData(width: nat, height: nat, data: seq<Byte>)

  /** Upper-case of an ASCII letter; every other character is kept. */
  function UpperChar(c: char): char {
    if 'a' <= c <= 'z' then (c as int - 32) as char else c
  }

  function Upper(s: string): (u: string)
    ensures |u| == |s|
  {
    seq(|s|, i requires 0 <= i < |s| => UpperChar(s[i]))
  }

  /** `filename.split('.').pop()`: the text after the last dot, or the whole
      name when it has none. */
  function Extension(name: string): (ext: string)
    ensures '.' !in ext && |ext| <= |name| && ext == name[|name| - |ext|..]
    ensures |ext| < |name| ==> name[|name| - |ext| - 1] == '.'
  {
    if |name| == 0 || name[|name| - 1] == '.' then ""
    else Extension(name[..|name| - 1]) + [name[|name| - 1]]
  }

  /** Only files whose extension reads JPG or PNG, in any case, are decoded. */
  predicate IsImageFile(name: string) {
    Upper(Extension(name)) == "JPG" || Upper(Extension(name)) == "PNG"
  }

  /** Whatever precedes the last dot, the extension is what follows it. */
  lemma {:induction false} ExtensionAfterDot(stem: string, ext: string)
    requires '.' !in ext
    ensures Extension(stem + "." + ext) == ext
    decreases |ext|
  {
    var name := stem + "." + ext;
    if |ext| == 0 {
      assert name[|name| - 1] == '.';
    } else {
      var shorter := ext[..|ext| - 1];
      assert name[..|name| - 1] == stem + "." + shorter;
      assert '.' !in shorter by {
        forall i | 0 <= i < |shorter| ensures shorter[i] != '.' {
          assert shorter[i] == ext[i];
        }
      }
      ExtensionAfterDot(stem, shorter);
      assert ext == shorter + [ext[|ext| - 1]];
    }
  }

  /** So `photo.png`, `a.b.JPG` and `x.Png` are image files, and the stem
      plays no part in the decision. */
  lemma ImageFileByExtension(stem: string, ext: string)
    requires '.' !in ext
    ensures IsImageFile(stem + "." + ext) <==> Upper(ext) == "JPG" || Upper(ext) == "PNG"
  {
    ExtensionAfterDot(stem, ext);
  }

  /** The RGBA bytes of `colors`, four per colour. */
  function EncodeColors(colors: seq<Color>): (bytes: seq<Byte>)
    ensures |bytes| == 4 * |colors|
  {
    seq(4 * |colors|, i requires 0 <= i < 4 * |colors| => Renderers.Channel(colors[i / 4], i % 4))
  }

  /** One colour for every group of four bytes: red, green, blue, alpha. */
  function DecodeColors(bytes: seq<Byte>): (colors: seq<Color>)
    requires |bytes| % 4 == 0
    ensures 4 * |colors| == |bytes|
  {
    seq(|bytes| / 4, k requires 0 <= k < |bytes| / 4 =>
      Color(bytes[4 * k], bytes[4 * k + 1], bytes[4 * k + 2], bytes[4 * k + 3]))
  }

  /** Decoding the bytes of a colour list gives the list back. */
  lemma DecodeEncode(colors: seq<Color>)
    ensures DecodeColors(EncodeColors(colors)) == colors
  {
    var bytes := EncodeColors(colors);
    forall k | 0 <= k < |colors|
      ensures DecodeColors(bytes)[k] == colors[k]
    {
      assert (4 * k) / 4 == k && (4 * k + 1) / 4 == k && (4 * k + 2) / 4 == k && (4 * k + 3) / 4 == k;
    }
  }

  /** Encoding decoded bytes gives the bytes back: no byte is lost. */
  lemma EncodeDecode(bytes: seq<Byte>)
    requires |bytes| % 4 == 0
    ensures EncodeColors(DecodeColors(bytes)) == bytes
  {
    var colors := DecodeColors(bytes);
    forall i | 0 <= i < |bytes|
      ensures EncodeColors(colors)[i] == bytes[i]
    {
      assert i == 4 * (i / 4) + i % 4;
    }
  }

  /** `colorBytes != 4`: the bytes per pixel, `length / (width * height)`, is
      not exactly four. An empty image divides by zero, giving NaN or
      Infinity, which is not four either. */
  predicate NotFourByteColor(image: ImageData) {
    image.width * image.height == 0 || |image.data| != 4 * (image.width * image.height)
  }

  /** The PNG/JPG branch of `loadTexture`: a texture named after the file,
      of the image's size, holding one colour per four bytes. */
  method DecodeImage(filename: string, image: ImageData) returns (r: Result<Texture, string>)
    ensures r.Failure? <==> NotFourByteColor(image)
    ensures r.Failure? ==> r.error == "Not 4-byte color"
    ensures r.Success? ==> (fresh(r.value) && r.value.name == filename
      && r.value.width == image.width && r.value.height == image.height)
    ensures r.Success? ==> |image.data| % 4 == 0 && r.value.data == DecodeColors(image.data)
    ensures r.Success? ==> r.value.Valid()
  {
    var texture := new Texture(filename, image.width, image.height, None);
    texture.data := [];
    if NotFourByteColor(image) {
      return Failure("Not 4-byte color");
    }
    var length := |image.data|;
    var index := 0;
    while index < length
      invariant 0 <= index <= length && index % 4 == 0
      invariant 4 * |texture.data| == index
      invariant forall k :: 0 <= k < |texture.data| ==>
        texture.data[k] == Color(image.data[4 * k], image.data[4 * k + 1], image.data[4 * k + 2], image.data[4 * k + 3])
    {
      texture.data := texture.data + [Color(image.data[index + 0], image.data[index + 1],
                                            image.data[index + 2], image.data[index + 3])];
      index := index + 4;
    }
    assert texture.data == DecodeColors(image.data);
    r := Success(texture);
  }

  /** Colour of pixel (x, y), holding `c`, after `loadTexture` marks the
      borders of an image at least 2 x 2: green at (width - 2, height - 2),
      else red at (1, 1), else black on the outer ring, else unchanged. */
  function BorderBlockPixel(c: Color, x: int, y: int, width: int, height: int): Color {
    if x == width - 2 && y == height - 2 then Green
    else if x == 1 && y == 1 then Red
    else if x == 0 || x == width - 1 || y == 0 || y == height - 1 then Black
    else c
  }

  /** Row-major data after the border marks. */
  function BorderBlockData(data: seq<Color>, width: nat, height: nat): (d: seq<Color>)
    requires |data| == width * height
    ensures |d| == |data|
  {
    if width == 0 then data
    else seq(|data|, j requires 0 <= j < |data| => BorderBlockPixel(data[j], j % width, j / width, width, height))
  }

  /** The marks at pixel (x, y): the ring is black, (1, 1) red and
      (width - 2, height - 2) green, the later write winning where two
      marks fall on one pixel (a 3 x 3 image shows green at its centre,
      and a 2-wide one green on its left column); inside the ring nothing
      changes. */
  lemma BorderBlockAt(data: seq<Color>, width: nat, height: nat, x: int, y: int)
    requires |data| == width * height && width >= 2 && height >= 2
    requires 0 <= x < width && 0 <= y < height
    ensures 0 <= y * width + x < |data|
    ensures x == width - 2 && y == height - 2 ==> BorderBlockData(data, width, height)[y * width + x] == Green
    ensures (x, y) == (1, 1) && (width, height) != (3, 3) ==> BorderBlockData(data, width, height)[y * width + x] == Red
    ensures ((x == 0 || x == width - 1 || y == 0 || y == height - 1) && (x, y) != (width - 2, height - 2)
             && (x, y) != (1, 1)) ==> BorderBlockData(data, width, height)[y * width + x] == Black
    ensures 0 < x < width - 1 && 0 < y < height - 1 && (x, y) != (width - 2, height - 2) && (x, y) != (1, 1)
      ==> BorderBlockData(data, width, height)[y * width + x] == data[y * width + x]
  {
    RowMajorBound(width, height, x, y);
    RowMajorDivMod(width, x, y);
  }

  /** Marking the borders a second time changes nothing. */
  lemma BorderBlockIdempotent(data: seq<Color>, width: nat, height: nat)
    requires |data| == width * height
    ensures BorderBlockData(BorderBlockData(data, width, height), width, height) == BorderBlockData(data, width, height)
  {
  }

  /** Entry `j` of row-major data `width` pixels wide lies in the top or the
      bottom row. */
  predicate InEdgeRow(j: int, width: int, height: int)
    requires width > 0
  {
    j / width == 0 || j / width == height - 1
  }

  /** Entry `j` lies in the left or the right column. */
  predicate InEdgeColumn(j: int, width: int)
    requires width > 0
  {
    j % width == 0 || j % width == width - 1
  }

  /** Blackening column `x` of the top and bottom rows extends the black
      part of those rows by one column. */
  lemma EdgeRowsStep(data: seq<Color>, original: seq<Color>, width: nat, height: nat, x: int)
    requires width >= 2 && height >= 2 && 0 <= x < width
    requires |data| == |original| == width * height
    requires forall j :: 0 <= j < width * height ==>
      data[j] == if InEdgeRow(j, width, height) && j % width < x then Black else original[j]
    ensures 0 <= PixelIndex(width, x, 0) < |data| && 0 <= PixelIndex(width, x, height - 1) < |data|
    ensures forall j :: 0 <= j < width * height ==>
      data[PixelIndex(width, x, 0) := Black][PixelIndex(width, x, height - 1) := Black][j]
      == if InEdgeRow(j, width, height) && j % width < x + 1 then Black else original[j]
  {
    RowMajorBound(width, height, x, 0);
    RowMajorBound(width, height, x, height - 1);
    RowMajorDivMod(width, x, 0);
    RowMajorDivMod(width, x, height - 1);
    forall j | 0 <= j < width * height
      ensures data[PixelIndex(width, x, 0) := Black][PixelIndex(width, x, height - 1) := Black][j]
        == if InEdgeRow(j, width, height) && j % width < x + 1 then Black else original[j]
    {
      RowMajorSplit(width, height, j);
    }
  }

  /** Blackening row `y` of the left and right columns extends the black
      part of those columns by one row. */
  lemma EdgeColumnsStep(data: seq<Color>, original: seq<Color>, width: nat, height: nat, y: int)
    requires width >= 2 && height >= 2 && 0 <= y < height
    requires |data| == |original| == width * height
    requires forall j :: 0 <= j < width * height ==>
      data[j] == if InEdgeColumn(j, width) && j / width < y then Black else original[j]
    ensures 0 <= PixelIndex(width, 0, y) < |data| && 0 <= PixelIndex(width, width - 1, y) < |data|
    ensures forall j :: 0 <= j < width * height ==>
      data[PixelIndex(width, 0, y) := Black][PixelIndex(width, width - 1, y) := Black][j]
      == if InEdgeColumn(j, width) && j / width < y + 1 then Black else original[j]
  {
    RowMajorBound(width, height, 0, y);
    RowMajorBound(width, height, width - 1, y);
    RowMajorDivMod(width, 0, y);
    RowMajorDivMod(width, width - 1, y);
    forall j | 0 <= j < width * height
      ensures data[PixelIndex(width, 0, y) := Black][PixelIndex(width, width - 1, y) := Black][j]
        == if InEdgeColumn(j, width) && j / width < y + 1 then Black else original[j]
    {
      RowMajorSplit(width, height, j);
    }
  }

  /** The first loop of the border block: black along the top and bottom
      rows, one column at a time. */
  method DrawEdgeRows(texture: Texture)
    requires texture.Valid() && texture.width >= 2 && texture.height >= 2
    modifies texture
    ensures texture.Valid()
    ensures forall j :: 0 <= j < |texture.data| ==>
      texture.data[j] == if InEdgeRow(j, texture.width, texture.height) then Black else old(texture.data)[j]
  {
    ghost var original := texture.data;
    var width, height := texture.width, texture.height;
    for x := 0 to width
      invariant |texture.data| == width * height
      invariant forall j :: 0 <= j < width * height ==>
        texture.data[j] == if InEdgeRow(j, width, height) && j % width < x then Black else original[j]
    {
      EdgeRowsStep(texture.data, original, width, height, x);
      texture.DrawPixel(x, 0, Black);
      texture.DrawPixel(x, height - 1, Black);
    }
  }

  /** The second loop of the border block: black down the left and right
      columns, one row at a time. */
  method DrawEdgeColumns(texture: Texture)
    requires texture.Valid() && texture.width >= 2 && texture.height >= 2
    modifies texture
    ensures texture.Valid()
    ensures forall j :: 0 <= j < |texture.data| ==>
      texture.data[j] == if InEdgeColumn(j, texture.width) then Black else old(texture.data)[j]
  {
    ghost var original := texture.data;
    var width, height := texture.width, texture.height;
    for y := 0 to height
      invariant |texture.data| == width * height
      invariant forall j :: 0 <= j < width * height ==>
        texture.data[j] == if InEdgeColumn(j, width) && j / width < y then Black else original[j]
    {
      EdgeColumnsStep(texture.data, original, width, height, y);
      texture.DrawPixel(0, y, Black);
      texture.DrawPixel(width - 1, y, Black);
    }
    forall j | 0 <= j < width * height
      ensures j / width < height
    {
      RowMajorSplit(width, height, j);
    }
  }

  /** The debug-border block of `loadTexture`: black along the top and bottom
      rows, then along the left and right columns, then red at (1, 1), then
      green at (width - 2, height - 2), each through `drawPixel`. */
  method DrawBorderBlock(texture: Texture)
    requires texture.Valid() && texture.width >= 2 && texture.height >= 2
    modifies texture
    ensures texture.data == BorderBlockData(old(texture.data), texture.width, texture.height)
  {
    ghost var original := texture.data;
    var width, height := texture.width, texture.height;
    DrawEdgeRows(texture);
    DrawEdgeColumns(texture);
    ghost var ringed := texture.data;
    RowMajorBound(width, height, 1, 1);
    texture.DrawPixel(1, 1, Red);
    RowMajorBound(width, height, width - 2, height - 2);
    texture.DrawPixel(width - 2, height - 2, Green);
    forall j | 0 <= j < width * height
      ensures texture.data[j] == BorderBlockData(original, width, height)[j]
    {
      RowMajorSplit(width, height, j);
      RowMajorDivMod(width, 1, 1);
      RowMajorDivMod(width, width - 2, height - 2);
    }
  }

  /** The message shown when a texture cannot be loaded. */
  function LoadError(filename: string): string {
    "Error loading texture: " + filename + "."
  }

  /** `loadTexture` once the fetch has settled: `image` is the decoded bitmap,
      or `None` when fetching or decoding the file failed. A file that is
      not a PNG or JPG, a failed fetch and an image whose bytes are not four
      per pixel all end in the same rejection. */
  method LoadTexture(filename: string, image: Option<ImageData>, debugBorders: bool) returns (r: Result<Texture, string>)
    requires debugBorders && image.Some? ==> image.value.width >= 2 && image.value.height >= 2
    ensures r.Failure? <==> !IsImageFile(filename) || image.None? || NotFourByteColor(image.value)
    ensures r.Failure? ==> r.error == LoadError(filename)
    ensures r.Success? ==> fresh(r.value) && r.value.name == filename && r.value.Valid()
    ensures r.Success? ==> r.value.width == image.value.width && r.value.height == image.value.height
    ensures r.Success? ==> |image.value.data| % 4 == 0
    ensures r.Success? && !debugBorders ==> r.value.data == DecodeColors(image.value.data)
    ensures r.Success? && debugBorders ==>
      r.value.data == BorderBlockData(DecodeColors(image.value.data), image.value.width, image.value.height)
  {
    if image.None? || !IsImageFile(filename) {
      return Failure(LoadError(filename));
    }
    var decoded := DecodeImage(filename, image.value);
    if decoded.Failure? {
      return Failure(LoadError(filename));
    }
    var texture := decoded.value;
    if debugBorders {
      DrawBorderBlock(texture);
    }
    r := Success(texture);
  }
}
