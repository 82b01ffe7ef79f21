/** Floor numbers and the distance between them, shared by the car and the dispatcher. */
module Floors {

  /** `INT_MAX` of a 32-bit C++ `int`. */
  const IntMax: int := 0x7fff_ffff

  /** The values a 32-bit C++ `int` holds. */
  type Int32 = x: int | -0x8000_0000 <= x <= IntMax

  /** `abs(a - b)` on unbounded integers: how many floors lie between `a` and `b`. */
  function Dist(a: int, b: int): (d: nat)
    ensures d == 0 <==> a == b
    ensures a + d == b || a - d == b
  {
    if a < b then b - a else a - b
  }

  /** `x` lies on the closed interval between `a` and `b`, whichever is lower. */
  predicate Between(x: int, a: int, b: int)
  {
    (a <= x <= b) || (b <= x <= a)
  }

  /** A floor the building has: the request and destination checks `1 <= f <= floors`. */
  predicate IsFloor(f: int, floors: int)
  {
    1 <= f <= floors
  }

  /**
   * Proof helper: the highest floor the car can be on. The floor count is read without validation,
   * so for a count below one the car simply stays on floor 1, where it starts.
   */
  function Top(floors: int): (t: int)
    ensures t >= 1
    ensures floors >= 1 ==> t == floors
    ensures forall f :: IsFloor(f, floors) ==> 1 <= f <= t
  {
    if floors < 1 then 1 else floors
  }
}
