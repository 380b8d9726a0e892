/** Two-dimensional points and directions (`Vec2D`), integer extents
    (`Size`) and the `VectorUtils` arithmetic over them. Vectors are values:
    `add` and `sub` build a new vector and never change their arguments. */
module Vectors {

  datatype Vec2D = Vec2D(x: real, y: real)

  /** The vector `new Vec2D()` builds. */
  const Origin: Vec2D := Vec2D(0.0, 0.0)

  datatype Size = Size(width: int, height: int)

  /** `VectorUtils.add`. */
  function Add(v1: Vec2D, v2: Vec2D): Vec2D {
    Vec2D(v1.x + v2.x, v1.y + v2.y)
  }

  /** `VectorUtils.sub`. */
  function Sub(v1: Vec2D, v2: Vec2D): Vec2D {
    Vec2D(v1.x - v2.x, v1.y - v2.y)
  }

  /** Both operations work component by component. */
  lemma AddSubComponentwise(v1: Vec2D, v2: Vec2D)
    ensures Add(v1, v2).x == v1.x + v2.x && Add(v1, v2).y == v1.y + v2.y
    ensures Sub(v1, v2).x == v1.x - v2.x && Sub(v1, v2).y == v1.y - v2.y
  {
  }

  lemma AddCommutes(a: Vec2D, b: Vec2D)
    ensures Add(a, b) == Add(b, a)
  {
  }

  lemma SubSelfIsOrigin(v: Vec2D)
    ensures Sub(v, v) == Origin
  {
  }

  /** Subtracting what was added gives the original vector back. */
  lemma SubUndoesAdd(a: Vec2D, b: Vec2D)
    ensures Sub(Add(a, b), b) == a
    ensures Add(Sub(a, b), b) == a
  {
  }
}
