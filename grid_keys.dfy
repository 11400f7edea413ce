/** Cache keys (`GetKey`) and the order the cache keeps them in
    (`Vector2Comparer`). */
module GridKeys {
  import opened Vectors

  /** A cache key: the horizontal position (X, Z) of a point with each axis
      rounded to one decimal place, held as a whole number of tenths, so
      `Key(123, -40)` is the `Vector2(12.3, -4.0)` of the source. */
  datatype Key = Key(x: int, y: int)

  /** `(int)(t / 10)` in C#: the cast truncates toward zero, where Dafny's
      `/` rounds toward negative infinity for negative `t`. */
  function Trunc(t: int): (r: int)
    ensures 0 <= t ==> 0 <= 10 * r <= t < 10 * r + 10
    ensures t < 0 ==> 10 * r - 10 < t <= 10 * r <= 0
  {
    if t >= 0 then t / 10 else -((-t) / 10)
  }

  /** `int.CompareTo` and `float.CompareTo` on non-NaN values. */
  function CompareTo(a: int, b: int): (c: int)
    ensures -1 <= c <= 1
    ensures c < 0 <==> a < b
    ensures c == 0 <==> a == b
  {
    if a < b then -1 else if a > b then 1 else 0
  }

  /** `Vector2Comparer.Compare`: first the truncated X, then the truncated
      Y, then the exact X, then the exact Y. */
  function Compare(a: Key, b: Key): (c: int)
    ensures -1 <= c <= 1
    ensures c == 0 <==> a == b
  {
    var com := CompareTo(Trunc(a.x), Trunc(b.x));
    if com != 0 then com else
    var com := CompareTo(Trunc(a.y), Trunc(b.y));
    if com != 0 then com else
    var com := CompareTo(a.x, b.x);
    if com != 0 then com else
    CompareTo(a.y, b.y)
  }

  predicate Less(a: Key, b: Key) {
    Compare(a, b) < 0
  }

  /** The comparer is a strict total order, which `Array.BinarySearch` and
      `SortedList` rely on. */
  lemma CompareIsStrictTotalOrder(a: Key, b: Key, c: Key)
    ensures Compare(a, b) == -Compare(b, a)
    ensures !Less(a, a)
    ensures a != b ==> Less(a, b) || Less(b, a)
    ensures Less(a, b) && Less(b, c) ==> Less(a, c)
  {
  }

  /** The order groups keys by whole-unit cells before it looks at the exact
      coordinates: 1.5 sorts before 1.0 when its truncated Y is smaller. */
  lemma CompareGroupsByUnitCell()
    ensures Less(Key(15, 30), Key(10, 50))
    ensures Less(Key(10, 50), Key(15, 50))
  {
  }

  /** `float.Round(v, 1)` in tenths: the nearest whole number of tenths,
      ties going to the even one (`MidpointRounding.ToEven`). */
  function RoundTenths(v: real): (r: int)
    ensures -0.5 <= 10.0 * v - r as real <= 0.5
    ensures (10.0 * v - r as real == 0.5 || 10.0 * v - r as real == -0.5) ==> r % 2 == 0
  {
    var t := 10.0 * v;
    var f := t.Floor;
    var frac := t - f as real;
    if frac < 0.5 then f
    else if frac > 0.5 then f + 1
    else if f % 2 == 0 then f
    else f + 1
  }

  /** `GetKey`: the rounded horizontal coordinates X and Z of a point. */
  function GetKey(p: Vector3): Key {
    Key(RoundTenths(p.x), RoundTenths(p.z))
  }

  /** The point's height takes no part in its key. */
  lemma GetKeyIgnoresHeight(p: Vector3, y: real)
    ensures GetKey(p.(y := y)) == GetKey(p)
  {
  }

  /** Squared distance in tenths squared; `Vector2.Distance(a, b) > 3`
      holds exactly when `Dist2(a, b) > 900`. */
  function Dist2(a: Key, b: Key): (d: int)
    ensures d >= 0
    ensures d == 0 <==> a == b
  {
    (a.x - b.x) * (a.x - b.x) + (a.y - b.y) * (a.y - b.y)
  }

  /** The proximity threshold of `GetHeight`: three units. */
  const MaxProbeDist2: int := 900
}
