/** Small shared vocabulary: optional values, two-motor arrays, saturation and rounding. */
module Basics {

  datatype Option<+T> = None | Some(value: T)

  /** `std::array<T, 2>` held by value: entry 0 is the left motor, entry 1 the right one. */
  datatype Pair<T> = Pair(left: T, right: T) {
    function At(i: nat): T
      requires i < 2
    {
      if i == 0 then left else right
    }

    function With(i: nat, value: T): Pair<T>
      requires i < 2
    {
      if i == 0 then Pair(value, right) else Pair(left, value)
    }
  }

  type Positive = n: int | 0 < n witness 1

  const NS_PER_MS: int := 1_000_000
  const TWO_PI: real := 6.28318530717958647692

  function Clamp(x: real, lo: real, hi: real): real {
    if x < lo then lo else if x > hi then hi else x
  }

  function ClampInt(x: int, lo: int, hi: int): int {
    if x < lo then lo else if x > hi then hi else x
  }

  function Abs(x: real): real {
    if x < 0.0 then -x else x
  }

  function Max(x: real, y: real): real {
    if x < y then y else x
  }

  /** `std::round` and `std::llround`: nearest integer, halves away from zero. */
  function Round(x: real): int {
    if x >= 0.0 then (x + 0.5).Floor else -((0.5 - x).Floor)
  }

  /** An encoder count as an angle. */
  function Radians(count: int, countsPerRev: Positive): real {
    count as real * TWO_PI / countsPerRev as real
  }

  /** Rounding moves a value by at most one half, keeps integer bounds and fixes integers. */
  lemma RoundIsNearest(x: real, lo: int, hi: int)
    ensures Abs(Round(x) as real - x) <= 0.5
    ensures lo as real <= x <= hi as real ==> lo <= Round(x) <= hi
    ensures x == x.Floor as real ==> Round(x) == x.Floor
  {
    var n := Round(x);
    assert Abs(n as real - x) <= 0.5;
  }

  /** Halves are rounded away from zero: upwards for positive values, and symmetrically for negative ones. */
  lemma HalvesAwayFromZero(x: real)
    ensures x >= 0.0 ==> Round(x) as real <= x + 0.5 < Round(x) as real + 1.0
    ensures Round(-x) == -Round(x)
  {
  }
}
