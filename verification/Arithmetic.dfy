/** Smaller, larger and scaled numbers. */
module Arithmetic {

  function Min(a: int, b: int): (m: int)
    ensures m <= a && m <= b && (m == a || m == b)
  {
    if a < b then a else b
  }

  function Max(a: int, b: int): (m: int)
    ensures m >= a && m >= b && (m == a || m == b)
  {
    if a < b then b else a
  }

  function Clamp(x: int, low: int, high: int): int {
    Max(low, Min(x, high))
  }

  function RealMax(a: real, b: real): real {
    if a < b then b else a
  }

  /** One sample, scaled. */
  function Scale(x: real, gain: real): real {
    x * gain
  }

  lemma ScaleIsLinear(x: real, y: real, gain: real)
    ensures Scale(1.0, gain) == gain && Scale(x, 1.0) == x
    ensures Scale(x + y, gain) == Scale(x, gain) + Scale(y, gain)
    ensures Scale(y * x, gain) == y * Scale(x, gain)
  {
    assert y * x * gain == y * (x * gain);
  }
}
