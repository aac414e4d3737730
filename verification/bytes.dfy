/** Byte values and the numeric conversions that JavaScript applies when a number
    is stored into a typed byte array or passed through Math.round / Math.max /
    Math.min. Numbers are modelled as exact reals; see README for what that omits. */
module Bytes {

  /** One channel value, as held by Uint8ClampedArray and Uint8Array. */
  type Byte = x: int | 0 <= x < 256

  function MaxReal(a: real, b: real): real { if a >= b then a else b }
  function MinReal(a: real, b: real): real { if a <= b then a else b }

  /** Math.max(0, Math.min(255, x)) */
  function Clamp255(x: real): (r: real)
    ensures 0.0 <= r <= 255.0
    ensures 0.0 <= x <= 255.0 ==> r == x
  {
    MaxReal(0.0, MinReal(255.0, x))
  }

  /** Math.round: nearest integer, halves rounded towards +infinity. */
  function MathRound(x: real): (n: int)
    ensures -0.5 <= x - n as real < 0.5
  {
    (x + 0.5).Floor
  }

  /** ToUint8Clamp (ECMA-262, section 7.1.12), the conversion applied by every store
      into a Uint8ClampedArray: clamp to [0, 255], then round to nearest with ties
      to even. (NaN, which stores 0, does not arise in this model.) */
  function ToUint8Clamp(x: real): (b: Byte)
    ensures x <= 0.0 ==> b == 0
    ensures x >= 255.0 ==> b == 255
    ensures 0.0 <= x <= 255.0 ==> -0.5 <= b as real - x <= 0.5
  {
    if x <= 0.0 then 0
    else if x >= 255.0 then 255
    else
      var f := x.Floor;
      if f as real + 0.5 < x then f + 1
      else if x < f as real + 0.5 then f
      else if f % 2 == 1 then f + 1
      else f
  }

  /** ToUint8 (ECMA-262, section 7.1.11), the conversion applied by every store into
      a Uint8Array: truncate towards zero, then reduce modulo 2^8. */
  function ToUint8(x: real): (b: Byte)
    ensures 0.0 <= x < 256.0 ==> b == x.Floor
  {
    var t := if x >= 0.0 then x.Floor else -((-x).Floor);
    t % 256
  }

  /** A store of a value that is already a whole byte leaves it unchanged. */
  lemma ToUint8ClampOfByte(v: int)
    requires 0 <= v < 256
    ensures ToUint8Clamp(v as real) == v
  {
    assert (v as real).Floor == v;
  }

  /** Storing a whole number clamps it to the byte range. */
  lemma ToUint8ClampOfInt(v: int)
    ensures ToUint8Clamp(v as real) == if v < 0 then 0 else if v > 255 then 255 else v
  {
    if 0 <= v < 256 { ToUint8ClampOfByte(v); }
  }

  /** ToUint8Clamp is monotone. */
  lemma {:induction false} ToUint8ClampMonotone(x: real, y: real)
    requires x <= y
    ensures ToUint8Clamp(x) <= ToUint8Clamp(y)
  {
    if x <= 0.0 || y >= 255.0 {
    } else {
      var fx, fy := x.Floor, y.Floor;
      assert fx <= fy;
      if fx < fy {
        assert ToUint8Clamp(x) <= fx + 1 <= fy <= ToUint8Clamp(y);
      }
    }
  }

  /** A store of a value no larger than the byte v is at most v. */
  lemma ToUint8ClampAtMost(x: real, v: Byte)
    requires x <= v as real
    ensures ToUint8Clamp(x) <= v
  {
    ToUint8ClampMonotone(x, v as real);
    ToUint8ClampOfByte(v);
  }

  /** Math.max(0, Math.min(255, x)) is monotone. */
  lemma Clamp255Monotone(x: real, y: real)
    requires x <= y
    ensures Clamp255(x) <= Clamp255(y)
  {}
}
