/** `MathUtils`: the angle constants in radians and `fixAngle`, which brings
    an angle that has left [0, 2*pi] by at most one turn back into it. */
module Angles {

  /** `Math.PI`, the double nearest to pi. */
  const Pi: real := 3.141592653589793

  const Rad60: real := Pi / 3.0
  const Rad90: real := Pi / 2.0
  const Rad180: real := Pi
  const Rad270: real := Pi * 3.0 / 2.0
  const Rad360: real := Pi * 2.0

  /** The constants are fractions of a half turn. */
  lemma ConstantsRelate()
    ensures Rad90 == Rad180 / 2.0 && Rad270 == 3.0 * Rad180 / 2.0
    ensures Rad360 == 2.0 * Rad180 && Rad60 == Rad180 / 3.0
  {
  }

  /** `MathUtils.fixAngle`: applies at most one correction of a full turn. */
  function FixAngle(angle: real): (fixed: real)
    ensures fixed == angle || fixed == angle + Rad360 || fixed == angle - Rad360
  {
    if angle < 0.0 then Rad360 + angle
    else if angle > Rad360 then angle - Rad360
    else angle
  }

  lemma FixAngleBelowZero(angle: real)
    requires angle < 0.0
    ensures FixAngle(angle) == Rad360 + angle
  {
  }

  lemma FixAngleAboveFullTurn(angle: real)
    requires angle > Rad360
    ensures FixAngle(angle) == angle - Rad360
  {
  }

  /** On [0, 2*pi] the function changes nothing, so applying it twice there
      is the same as applying it once. */
  lemma FixAngleIdentityInRange(angle: real)
    requires 0.0 <= angle <= Rad360
    ensures FixAngle(angle) == angle
    ensures FixAngle(FixAngle(angle)) == FixAngle(angle)
  {
  }

  /** The result lands in [0, 2*pi] exactly when the input lies in
      [-2*pi, 4*pi]: one correction is not enough further out. */
  lemma FixAngleRange(angle: real)
    ensures 0.0 <= FixAngle(angle) <= Rad360 <==> -Rad360 <= angle <= 2.0 * Rad360
  {
  }

  /** A concrete angle the single correction leaves out of range. */
  lemma FixAngleThreeTurns()
    ensures FixAngle(3.0 * Rad360) == 2.0 * Rad360 > Rad360
  {
  }
}
