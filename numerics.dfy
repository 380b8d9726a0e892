/** Numeric helpers shared by the whole model: JavaScript's rounding
    operations on numbers (`Math.floor`, `Math.trunc`, `~~`), `Math.min`,
    row-major index arithmetic and decimal rendering of integers (used by
    template strings such as `${name}-${i}`). */
module Numerics {

  datatype Option<+T> = None | Some(value: T) {
    function GetOr(default: T): T {
      match this
      case Some(v) => v
      case None => default
    }
  }

  datatype Result<+T, +E> = Success(value: T) | Failure(error: E)

  /** `Math.min` on integers. */
  function Min(a: int, b: int): int {
    if a < b then a else b
  }

  /** `Math.floor`. */
  function Floor(r: real): int {
    r.Floor
  }

  /** Fractional part `r - Math.floor(r)`. */
  function Frac(r: real): (f: real)
    ensures 0.0 <= f < 1.0
    ensures r - f == Floor(r) as real
  {
    r - Floor(r) as real
  }

  /** `Math.trunc`: drops the fractional part, rounding toward zero. */
  function Trunc(r: real): (t: int)
    ensures 0.0 <= r ==> 0 <= t && t as real <= r < t as real + 1.0
    ensures r < 0.0 ==> t <= 0 && t as real - 1.0 < r <= t as real
  {
    if r >= 0.0 then r.Floor else -((-r).Floor)
  }

  const TwoTo31: int := 0x8000_0000
  const TwoTo32: int := 0x1_0000_0000

  /** The ECMAScript ToInt32 conversion that `~~x` performs: truncate toward
      zero, then wrap modulo 2^32 into the signed 32-bit range. */
  function ToInt32(r: real): (i: int)
    ensures -TwoTo31 <= i < TwoTo31
    ensures (i - Trunc(r)) % TwoTo32 == 0
  {
    var m := Trunc(r) % TwoTo32;
    if m >= TwoTo31 then m - TwoTo32 else m
  }

  /** On numbers whose truncation fits in 32 bits, `~~x` is `Math.trunc(x)`. */
  lemma ToInt32IsTrunc(r: real)
    requires -TwoTo31 <= Trunc(r) < TwoTo31
    ensures ToInt32(r) == Trunc(r)
  {
    var t := Trunc(r);
    if t < 0 {
      assert (t + TwoTo32) % TwoTo32 == t + TwoTo32;
      assert t % TwoTo32 == t + TwoTo32;
    } else {
      assert t % TwoTo32 == t;
    }
  }

  /** Beyond 32 bits `~~x` wraps around: 2^32 + 5 becomes 5. */
  lemma ToInt32Wraps()
    ensures ToInt32(TwoTo32 as real + 5.0) == 5
  {
    assert Trunc(TwoTo32 as real + 5.0) == TwoTo32 + 5;
    assert (TwoTo32 + 5) % TwoTo32 == 5;
  }

  /** Pixel (x, y) of a row-major buffer `width` cells wide lies below `width * height`. */
  lemma RowMajorBound(width: int, height: int, x: int, y: int)
    requires 0 <= x < width && 0 <= y < height
    ensures 0 <= y * width + x < width * height
  {
    assert y * width + x < (y + 1) * width;
    assert (y + 1) * width <= height * width;
  }

  /** Distinct in-range cells have distinct row-major indices. */
  lemma RowMajorInjective(width: int, x1: int, y1: int, x2: int, y2: int)
    requires 0 <= x1 < width && 0 <= x2 < width && 0 <= y1 && 0 <= y2
    requires y1 * width + x1 == y2 * width + x2
    ensures x1 == x2 && y1 == y2
  {
    RowsApart(y1, y2, width);
    RowsApart(y2, y1, width);
  }

  /** A later row starts at least one full row further on. */
  lemma RowsApart(a: int, b: int, width: int)
    requires 0 <= width
    ensures a < b ==> a * width + width <= b * width
    decreases if a < b then b - a else 0
  {
    if a < b - 1 {
      RowsApart(a, b - 1, width);
      assert (b - 1) * width + width == b * width;
    } else {
      assert a < b ==> a + 1 == b;
    }
  }

  /** Row-major index `y * width + x` decodes back to (x, y). */
  lemma RowMajorDivMod(width: int, x: int, y: int)
    requires 0 <= x < width && 0 <= y
    ensures (y * width + x) / width == y && (y * width + x) % width == x
  {
    var k := y * width + x;
    var q, r := k / width, k % width;
    assert k == q * width + r;
    RowMajorInjective(width, r, q, x, y);
  }

  /** Every index below `width * height` splits into a column below `width`
      and a row below `height`. */
  lemma RowMajorSplit(width: int, height: int, j: int)
    requires width >= 1 && 0 <= j < width * height
    ensures 0 <= j % width < width && 0 <= j / width < height
    ensures j == (j / width) * width + j % width
  {
    var q, r := j / width, j % width;
    assert j == q * width + r;
    RowsApart(height - 1, q, width);
    assert (height - 1) * width + width == height * width;
  }

  function DigitChar(d: int): (c: char)
    requires 0 <= d < 10
    ensures '0' <= c <= '9'
  {
    "0123456789"[d]
  }

  function DigitValue(c: char): int {
    c as int - '0' as int
  }

  /** Decimal rendering of a non-negative integer, as a template string prints it. */
  function NatToString(n: nat): (s: string)
    ensures |s| >= 1
    ensures forall i :: 0 <= i < |s| ==> '0' <= s[i] <= '9'
    decreases n
  {
    if n < 10 then [DigitChar(n)] else NatToString(n / 10) + [DigitChar(n % 10)]
  }

  /** Reads a string of decimal digits back as a number. */
  function ParseDigits(s: string): int {
    if |s| == 0 then 0 else ParseDigits(s[..|s| - 1]) * 10 + DigitValue(s[|s| - 1])
  }

  /** Decimal rendering is lossless: parsing it gives the number back. */
  lemma {:induction false} ParseNatToString(n: nat)
    ensures ParseDigits(NatToString(n)) == n
    decreases n
  {
    var s := NatToString(n);
    if n < 10 {
      assert s[..|s| - 1] == [];
    } else {
      assert s[..|s| - 1] == NatToString(n / 10);
      ParseNatToString(n / 10);
      assert DigitValue(s[|s| - 1]) == n % 10;
    }
  }

  /** Different numbers render as different strings. */
  lemma NatToStringInjective(i: nat, j: nat)
    requires NatToString(i) == NatToString(j)
    ensures i == j
  {
    ParseNatToString(i);
    ParseNatToString(j);
  }
}
