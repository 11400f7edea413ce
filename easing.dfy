/** The easing curves of `DrawingHelper`: the ease-out family
    (`FindOutFuction`) after the easings.net / Penner equations, and
    `EaseFuncRemap`, which builds an in-out curve from an ease-in and an
    ease-out kind. The curves work on doubles in the source and on reals
    here. */
module Easing {
  datatype EaseFuncType = None | Sine | Quad | Cubic | Quart | Quint | Expo | Circ | Back | Elastic | Bounce

  /** `Math.Sin`, `Math.Sqrt`, `Math.Pow` with a real exponent and
      `Math.PI`, which the model leaves uninterpreted. */
  datatype Transcendentals = Transcendentals(sin: real -> real, sqrt: real -> real, pow: (real, real) -> real, pi: real)

  const c1: real := 1.70158
  const c3: real := c1 + 1.0
  const n1: real := 7.5625
  const d1: real := 2.75

  /** `Math.Pow(b, n)` for a whole exponent, which is exact. */
  function Pow(b: real, n: nat): real {
    if n == 0 then 1.0 else b * Pow(b, n - 1)
  }

  /** One arc of the bounce curve: `n1 * (x -= shift) * x + top`. C#
      evaluates the assignment before the second factor reads `x`, so both
      factors are the shifted value. */
  function BounceArc(x: real, shift: real, top: real): real {
    n1 * (x - shift) * (x - shift) + top
  }

  function BounceOut(x: real): real {
    if x < 1.0 / d1 then n1 * x * x
    else if x < 2.0 / d1 then BounceArc(x, 1.5 / d1, 0.75)
    else if x < 2.5 / d1 then BounceArc(x, 2.25 / d1, 0.9375)
    else BounceArc(x, 2.625 / d1, 0.984375)
  }

  /** `FindOutFuction(kind)(x)`: the ease-out curve of each kind; `None`
      takes the default arm, the identity. */
  function Out(kind: EaseFuncType, m: Transcendentals, x: real): real {
    match kind
    case Sine => m.sin(x * m.pi / 2.0)
    case Quad => 1.0 - (1.0 - x) * (1.0 - x)
    case Cubic => 1.0 - Pow(1.0 - x, 3)
    case Quart => 1.0 - Pow(1.0 - x, 4)
    case Quint => 1.0 - Pow(1.0 - x, 5)
    case Expo => if x == 1.0 then 1.0 else 1.0 - m.pow(2.0, -10.0 * x)
    case Circ => m.sqrt(1.0 - Pow(x - 1.0, 2))
    case Back => 1.0 + c3 * Pow(x - 1.0, 3) + c1 * Pow(x - 1.0, 2)
    case Elastic =>
      if x == 0.0 then 0.0
      else if x == 1.0 then 1.0
      else m.pow(2.0, -10.0 * x) * m.sin((x * 10.0 - 0.75) * (2.0 * m.pi / 3.0)) + 1.0
    case Bounce => BounceOut(x)
    case None => x
  }

  /** `EaseFuncRemap(inType, outType)(x)`: the ease-out alone, the ease-in
      alone (an ease-out mirrored through the centre), or the ease-in on
      the first half and the ease-out on the second, each squeezed into its
      half. */
  function Remap(inType: EaseFuncType, outType: EaseFuncType, m: Transcendentals, x: real): real {
    if inType == None then
      if outType == None then x else Out(outType, m, x)
    else if outType == None then 1.0 - Out(inType, m, 1.0 - x)
    else if x < 0.5 then (1.0 - Out(inType, m, 1.0 - 2.0 * x)) / 2.0
    else (1.0 + Out(outType, m, 2.0 * x - 1.0)) / 2.0
  }

  /** The kinds whose curve is a polynomial, or piecewise polynomial. */
  predicate Polynomial(kind: EaseFuncType) {
    kind in {None, Quad, Cubic, Quart, Quint, Back, Bounce}
  }

  /** The bounce curve's arcs meet: at each break point both neighbouring
      arcs reach exactly 1, and so does the last arc at 1. */
  lemma BounceArcsMeet()
    ensures n1 * (1.0 / d1) * (1.0 / d1) == 1.0 && BounceArc(1.0 / d1, 1.5 / d1, 0.75) == 1.0
    ensures BounceArc(2.0 / d1, 1.5 / d1, 0.75) == 1.0 && BounceArc(2.0 / d1, 2.25 / d1, 0.9375) == 1.0
    ensures BounceArc(2.5 / d1, 2.25 / d1, 0.9375) == 1.0 && BounceArc(2.5 / d1, 2.625 / d1, 0.984375) == 1.0
    ensures BounceArc(1.0, 2.625 / d1, 0.984375) == 1.0
  {
  }

  /** Every polynomial ease-out starts at 0 and ends at 1. */
  lemma PolynomialEndpoints(kind: EaseFuncType, m: Transcendentals)
    requires Polynomial(kind)
    ensures Out(kind, m, 0.0) == 0.0 && Out(kind, m, 1.0) == 1.0
  {
    assert Pow(-1.0, 3) == -1.0 && Pow(-1.0, 2) == 1.0;
    assert Pow(0.0, 3) == 0.0 && Pow(0.0, 2) == 0.0 && Pow(0.0, 4) == 0.0 && Pow(0.0, 5) == 0.0;
    assert Pow(1.0, 3) == 1.0 && Pow(1.0, 4) == 1.0 && Pow(1.0, 5) == 1.0;
    BounceArcsMeet();
  }

  /** Expo and Elastic hard-code their ends; Expo's start is 0 only when
      `pow(2, 0)` is 1. */
  lemma HardCodedEndpoints(m: Transcendentals)
    ensures Out(Expo, m, 1.0) == 1.0
    ensures Out(Expo, m, 0.0) == 1.0 - m.pow(2.0, 0.0)
    ensures Out(Elastic, m, 0.0) == 0.0 && Out(Elastic, m, 1.0) == 1.0
  {
  }

  lemma {:induction false} PowUnit(b: real, n: nat)
    requires 0.0 <= b <= 1.0
    ensures 0.0 <= Pow(b, n) <= 1.0
  {
    if n > 0 {
      PowUnit(b, n - 1);
      ScaleDown(b, Pow(b, n - 1));
    }
  }

  lemma ScaleDown(b: real, p: real)
    requires 0.0 <= b <= 1.0 && 0.0 <= p
    ensures 0.0 <= b * p <= p
  {
    assert (1.0 - b) * p >= 0.0;
  }

  /** The power ease-outs stay within `[0, 1]` on `[0, 1]`. */
  lemma PowerCurvesInUnitRange(kind: EaseFuncType, m: Transcendentals, x: real)
    requires kind in {Quad, Cubic, Quart, Quint}
    requires 0.0 <= x <= 1.0
    ensures 0.0 <= Out(kind, m, x) <= 1.0
  {
    PowUnit(1.0 - x, 3);
    PowUnit(1.0 - x, 4);
    PowUnit(1.0 - x, 5);
    ScaleDown(1.0 - x, 1.0 - x);
  }

  /** With no ease-in and no ease-out the curve is the identity. */
  lemma RemapIdentity(m: Transcendentals, x: real)
    ensures Remap(None, None, m, x) == x
  {
  }

  /** An in-out curve passes through the midpoint when the ease-out starts
      at 0, and its two halves meet there when the ease-in starts at 0 too. */
  lemma RemapMidpoint(inType: EaseFuncType, outType: EaseFuncType, m: Transcendentals)
    requires inType != None && outType != None
    requires Out(outType, m, 0.0) == 0.0
    ensures Remap(inType, outType, m, 0.5) == 0.5
    ensures Out(inType, m, 0.0) == 0.0 ==> (1.0 - Out(inType, m, 1.0 - 2.0 * 0.5)) / 2.0 == Remap(inType, outType, m, 0.5)
  {
  }

  /** Built from polynomial kinds, every remapped curve runs from 0 to 1. */
  lemma RemapEndpoints(inType: EaseFuncType, outType: EaseFuncType, m: Transcendentals)
    requires Polynomial(inType) && Polynomial(outType)
    ensures Remap(inType, outType, m, 0.0) == 0.0 && Remap(inType, outType, m, 1.0) == 1.0
  {
    PolynomialEndpoints(inType, m);
    PolynomialEndpoints(outType, m);
  }

  /** An ease-in alone is its ease-out turned half a turn about the centre
      of the unit square. */
  lemma RemapInMirrorsOut(kind: EaseFuncType, m: Transcendentals, x: real)
    requires kind != None
    ensures Remap(kind, None, m, x) == 1.0 - Remap(None, kind, m, 1.0 - x)
  {
  }

  /** An in-out curve built from one kind is symmetric about the centre:
      away from the midpoint always, and at the midpoint when the curve
      starts at 0. */
  lemma RemapPointSymmetric(kind: EaseFuncType, m: Transcendentals, x: real)
    requires kind != None
    requires x != 0.5 || Out(kind, m, 0.0) == 0.0
    ensures Remap(kind, kind, m, x) + Remap(kind, kind, m, 1.0 - x) == 1.0
  {
  }
}
