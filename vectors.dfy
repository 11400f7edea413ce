/** The System.Numerics vector values the core works on, with real
    coordinates in place of single-precision floats. */
module Vectors {
  datatype Vector2 = Vector2(x: real, y: real)
  datatype Vector3 = Vector3(x: real, y: real, z: real)

  /** The value of `default(Vector3)`. */
  const Zero3 := Vector3(0.0, 0.0, 0.0)

  /** `Enumerable.Reverse` followed by `ToArray`. */
  function Reverse<T>(s: seq<T>): (r: seq<T>)
    ensures |r| == |s|
    ensures forall i {:trigger r[i]} :: 0 <= i < |s| ==> r[i] == s[|s| - 1 - i]
  {
    seq(|s|, i requires 0 <= i < |s| => s[|s| - 1 - i])
  }
}
