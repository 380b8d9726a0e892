/** RGBA colours. The colour class itself is not part of this model: a colour
    is four bytes, and the named palette colours below are the values the
    texture painters refer to by name. */
module Colors {

  /** One channel of a colour, and one cell of a byte buffer. */
  type Byte = x: int | 0 <= x < 256

  datatype Color = Color(r: Byte, g: Byte, b: Byte, a: Byte)

  /** Alpha value that marks a colour as fully opaque. */
  const Opaque: Byte := 255

  /** A colour given by its three channels, fully opaque. */
  function Rgb(r: Byte, g: Byte, b: Byte): (c: Color)
    ensures c.a == Opaque
  {
    Color(r, g, b, Opaque)
  }

  /** The colour a texture is filled with when no pixel data is supplied. */
  const DefaultColor: Color := Rgb(0, 0, 0)

  const White: Color := Rgb(255, 255, 255)
  const Black: Color := Rgb(0, 0, 0)
  const Red: Color := Rgb(255, 0, 0)
  const Green: Color := Rgb(0, 255, 0)
  const Blue: Color := Rgb(0, 0, 255)
  const Orange: Color := Rgb(255, 165, 0)
}
