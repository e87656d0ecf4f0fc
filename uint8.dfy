/** The store into a `Uint8Array` element: ECMA-262 section 7.1.11 (ToUint8). */
module Uint8 {

  /** One element of a `Uint8Array`. */
  newtype byte = v: int | 0 <= v < 256

  /** Truncation toward zero of a finite number (the "truncate" step of ToUint8). */
  function Truncate(v: real): (t: int)
    ensures v >= 0.0 ==> t as real <= v < t as real + 1.0
    ensures v < 0.0 ==> t as real - 1.0 < v <= t as real
  {
    if v >= 0.0 then v.Floor else -((-v).Floor)
  }

  /**
   * ToUint8 of a finite number: truncate toward zero, then reduce modulo 2^8
   * (the mathematical modulo, whose result is never negative).
   * A value already in [0, 256) is stored as its floor, without wrap-around.
   */
  function ToUint8(v: real): (b: byte)
    ensures 0.0 <= v < 256.0 ==> b as real <= v < b as real + 1.0
    ensures v < 0.0 && v > -1.0 ==> b == 0
    ensures (b as int - Truncate(v)) % 256 == 0
  {
    var t := Truncate(v);
    assert 0 <= t < 256 ==> t % 256 == t;
    (t % 256) as byte
  }
}
