/** `ConvexPoints` / `ConvexPointsOrdered` of `DrawingHelper`: split a
    polygon, given as its vertices in order, into pieces by cutting at a
    reflex vertex towards the vertex it lines up with best, recursively.

    The two tests of the splitting that need normalised vectors are taken
    as parameters (`Turns`): whether the turn at a vertex exceeds 0.1
    (`PointCross(pts, i) > 0.1f`), and the alignment of a candidate partner
    with the cutting direction (the dot product of the normalised vectors),
    absent when that dot product is NaN. */
module Convex {
  import opened Wrappers
  import opened Vectors

  datatype Turns = Turns(
    reflex: (seq<Vector2>, int) -> bool,
    align: (seq<Vector2>, int, int) -> Option<real>)

  /** The outcome of a decomposition: the pieces, the exception `ConvexPoints`
      raises, or the unbounded recursion `ConvexPointsOrdered` falls into
      when it finds no usable partner vertex. */
  datatype Decomposition = Pieces(pieces: seq<seq<Vector2>>) | Throws | Diverges

  function Abs(x: int): nat {
    if x < 0 then -x else x
  }

  /** The three `continue` tests of the partner loop: candidate `i` lies too
      close to the break index `b`. */
  predicate Skipped(n: int, i: int, b: int) {
    Abs(i - b) < 2 || Abs(i + n - b) < 2 || Abs(i - n - b) < 2
  }

  /** `i` is `b` or one of its two neighbours around the polygon. */
  predicate CyclicNeighbour(n: int, i: int, b: int) {
    i == b || i == b + 1 || i == b - 1 || (i == 0 && b == n - 1) || (i == n - 1 && b == 0)
  }

  /** On valid indices the skip tests say exactly that `i` is `b` or a
      neighbour of `b`. */
  lemma SkippedIsCyclicNeighbour(n: int, i: int, b: int)
    requires 0 <= i < n && 0 <= b < n
    ensures Skipped(n, i, b) <==> CyclicNeighbour(n, i, b)
  {
  }

  /** The break index: the first vertex, from `i` on, whose turn exceeds
      the threshold. */
  function FirstReflexFrom(g: Turns, pts: seq<Vector2>, i: nat): (r: Option<nat>)
    requires i <= |pts|
    ensures r.Some? ==> i <= r.value < |pts| && g.reflex(pts, r.value)
    ensures r.Some? ==> forall j :: i <= j < r.value ==> !g.reflex(pts, j)
    ensures r.None? <==> forall j :: i <= j < |pts| ==> !g.reflex(pts, j)
    decreases |pts| - i
  {
    if i == |pts| then None
    else if g.reflex(pts, i) then Some(i)
    else FirstReflexFrom(g, pts, i + 1)
  }

  /** `angle > maxValue` with `maxValue` starting at `double.MinValue`: a
      NaN alignment never wins, and the first real one always does. */
  predicate Beats(angle: Option<real>, best: Option<real>) {
    angle.Some? && (best.None? || angle.value > best.value)
  }

  /** Vertex `j` is a partner candidate for `b` that has an alignment. */
  predicate Candidate(g: Turns, pts: seq<Vector2>, b: int, j: int) {
    !Skipped(|pts|, j, b) && g.align(pts, b, j).Some?
  }

  /** The partner loop after the candidates `0 .. m-1`: the chosen index
      (0 until one is chosen) and the best alignment seen. */
  function PartnerScan(g: Turns, pts: seq<Vector2>, b: int, m: nat): (r: (nat, Option<real>))
    requires m <= |pts|
    ensures r.1.None? ==> r.0 == 0
    ensures r.1.None? ==> forall j :: 0 <= j < m && !Skipped(|pts|, j, b) ==> g.align(pts, b, j).None?
    ensures r.1.Some? ==> r.0 < m && !Skipped(|pts|, r.0, b) && g.align(pts, b, r.0) == r.1
    ensures r.1.Some? ==> forall j :: 0 <= j < m && Candidate(g, pts, b, j) ==> g.align(pts, b, j).value <= r.1.value
    ensures r.1.Some? ==> forall j :: 0 <= j < r.0 && Candidate(g, pts, b, j) ==> g.align(pts, b, j).value < r.1.value
  {
    if m == 0 then (0, None)
    else
      var prev := PartnerScan(g, pts, b, m - 1);
      var i := m - 1;
      if Skipped(|pts|, i, b) then prev
      else if Beats(g.align(pts, b, i), prev.1) then (i, g.align(pts, b, i))
      else prev
  }

  /** The partner of the break vertex `b`: the first candidate with the best
      alignment, or vertex 0 when no candidate has one. */
  function Partner(g: Turns, pts: seq<Vector2>, b: int): nat
    requires |pts| > 0
  {
    PartnerScan(g, pts, b, |pts|).0
  }

  /** The partner lies at least two steps from `b` both ways round as soon
      as a single candidate has an alignment. */
  lemma PartnerNotNeighbour(g: Turns, pts: seq<Vector2>, b: int, j: nat)
    requires j < |pts| && Candidate(g, pts, b, j)
    ensures Partner(g, pts, b) < |pts| && !Skipped(|pts|, Partner(g, pts, b), b)
  {
  }

  function Min(a: int, b: int): int { if a <= b then a else b }
  function Max(a: int, b: int): int { if a >= b then a else b }

  /** `list1`: the vertices up to the first split vertex and from the second
      one on, each vertex once even when the two split vertices coincide or
      are adjacent. */
  function Outer(pts: seq<Vector2>, lo: nat, hi: nat): seq<Vector2>
    requires lo <= hi < |pts|
  {
    pts[..lo + 1] + pts[Max(hi, lo + 1)..]
  }

  /** `list2`: the vertices from the first split vertex to the second. */
  function Inner(pts: seq<Vector2>, lo: nat, hi: nat): seq<Vector2>
    requires lo <= hi < |pts|
  {
    pts[lo..hi + 1]
  }

  /** Cutting between two vertices at least two steps apart both ways round
      gives two polygons that share the cut, each smaller than the whole and
      each with at least three vertices. */
  lemma SplitSizes(pts: seq<Vector2>, lo: nat, hi: nat)
    requires lo < hi < |pts| && !Skipped(|pts|, lo, hi)
    ensures |Outer(pts, lo, hi)| + |Inner(pts, lo, hi)| == |pts| + 2
    ensures 3 <= |Outer(pts, lo, hi)| < |pts| && 3 <= |Inner(pts, lo, hi)| < |pts|
    ensures pts[lo] in Outer(pts, lo, hi) && pts[hi] in Outer(pts, lo, hi)
    ensures Inner(pts, lo, hi)[0] == pts[lo] && Inner(pts, lo, hi)[hi - lo] == pts[hi]
    ensures forall v :: v in Outer(pts, lo, hi) || v in Inner(pts, lo, hi) ==> v in pts
  {
    assert Outer(pts, lo, hi)[lo] == pts[lo];
    assert Outer(pts, lo, hi)[lo + 1] == pts[hi];
  }

  /** `Where(l => l.Count() > 2)`. */
  function LongPieces(ps: seq<seq<Vector2>>): (r: seq<seq<Vector2>>)
    ensures forall q :: q in r <==> q in ps && |q| > 2
    ensures (forall q :: q in ps ==> |q| > 2) ==> r == ps
  {
    if |ps| == 0 then []
    else (if |ps[0]| > 2 then [ps[0]] else []) + LongPieces(ps[1..])
  }

  /** The number of vertices over all pieces. */
  function TotalSize(ps: seq<seq<Vector2>>): nat {
    if |ps| == 0 then 0 else |ps[0]| + TotalSize(ps[1..])
  }

  lemma {:induction false} TotalSizeAppend(a: seq<seq<Vector2>>, b: seq<seq<Vector2>>)
    ensures TotalSize(a + b) == TotalSize(a) + TotalSize(b)
    decreases |a|
  {
    if |a| == 0 {
      assert a + b == b;
    } else {
      assert (a + b)[0] == a[0];
      assert (a + b)[1..] == a[1..] + b;
      TotalSizeAppend(a[1..], b);
    }
  }

  /** The split branch's result from the two recursive results: `Union`
      over distinct arrays keeps every piece of both, in order, and the
      filter then drops pieces of two points or fewer. */
  function Join(r1: Decomposition, r2: Decomposition): Decomposition {
    if !r1.Pieces? then r1
    else if !r2.Pieces? then r2
    else Pieces(LongPieces(r1.pieces + r2.pieces))
  }

  /** What a decomposition of `pts` promises: it never throws, and when it
      ends it gives at least one piece, built from vertices of `pts`, of at
      least three vertices each when `pts` has three, and all the pieces
      together hold each vertex once plus both ends of every cut. */
  predicate Sound(pts: seq<Vector2>, r: Decomposition) {
    && !r.Throws?
    && (r.Pieces? ==> |r.pieces| >= 1)
    && (r.Pieces? ==> forall q, v :: q in r.pieces && v in q ==> v in pts)
    && (r.Pieces? && |pts| >= 3 ==> forall q :: q in r.pieces ==> |q| >= 3)
    && (r.Pieces? ==> TotalSize(r.pieces) + 2 == |pts| + 2 * |r.pieces|)
  }

  /** Joining sound decompositions of the two sides of a cut gives a sound
      decomposition of the whole. */
  lemma JoinSound(pts: seq<Vector2>, lo: nat, hi: nat, r1: Decomposition, r2: Decomposition)
    requires lo < hi < |pts| && !Skipped(|pts|, lo, hi)
    requires Sound(Outer(pts, lo, hi), r1) && Sound(Inner(pts, lo, hi), r2)
    ensures Sound(pts, Join(r1, r2))
  {
    SplitSizes(pts, lo, hi);
    if r1.Pieces? && r2.Pieces? {
      TotalSizeAppend(r1.pieces, r2.pieces);
      assert LongPieces(r1.pieces + r2.pieces) == r1.pieces + r2.pieces;
    }
  }

  /** No vertex of `q` turns by more than the threshold: `q` is convex as
      far as the turn test can tell. */
  predicate NoReflex(g: Turns, q: seq<Vector2>) {
    forall j :: 0 <= j < |q| ==> !g.reflex(q, j)
  }

  /** Pieces of four or more vertices are convex under the turn test. */
  predicate ConvexPieces(g: Turns, ps: seq<seq<Vector2>>) {
    forall q :: q in ps && |q| >= 4 ==> NoReflex(g, q)
  }

  /** Joining two decompositions whose larger pieces are convex keeps them
      convex: the join only concatenates and filters. */
  lemma JoinConvex(g: Turns, r1: Decomposition, r2: Decomposition)
    requires r1.Pieces? ==> ConvexPieces(g, r1.pieces)
    requires r2.Pieces? ==> ConvexPieces(g, r2.pieces)
    ensures Join(r1, r2).Pieces? ==> ConvexPieces(g, Join(r1, r2).pieces)
  {
  }

  /** `ConvexPointsOrdered(points)`. Every piece of four or more vertices
      that it returns has no vertex whose turn exceeds the threshold. */
  function Decompose(g: Turns, pts: seq<Vector2>): (r: Decomposition)
    ensures !r.Throws?
    ensures r.Pieces? ==> |r.pieces| >= 1
    ensures r.Pieces? ==> forall q, v :: q in r.pieces && v in q ==> v in pts
    ensures r.Pieces? && |pts| >= 3 ==> forall q :: q in r.pieces ==> |q| >= 3
    ensures r.Pieces? ==> TotalSize(r.pieces) + 2 == |pts| + 2 * |r.pieces|
    ensures r.Pieces? ==> ConvexPieces(g, r.pieces)
    decreases |pts|
  {
    if |pts| < 4 then Pieces([pts])
    else
      match FirstReflexFrom(g, pts, 0)
      case None => Pieces([pts])
      case Some(b) =>
        var p := Partner(g, pts, b);
        if Skipped(|pts|, p, b) then Diverges
        else
          var lo, hi := Min(b, p), Max(b, p);
          SplitSizes(pts, lo, hi);
          var r1, r2 := Decompose(g, Outer(pts, lo, hi)), Decompose(g, Inner(pts, lo, hi));
          JoinSound(pts, lo, hi, r1, r2);
          JoinConvex(g, r1, r2);
          Join(r1, r2)
  }

  /** A polygon of fewer than four vertices, or one with no turn above the
      threshold, comes back as the single piece it is. */
  lemma DecomposeBaseCases(g: Turns, pts: seq<Vector2>)
    ensures |pts| < 4 ==> Decompose(g, pts) == Pieces([pts])
    ensures (forall j :: 0 <= j < |pts| ==> !g.reflex(pts, j)) ==> Decompose(g, pts) == Pieces([pts])
  {
    if forall j :: 0 <= j < |pts| ==> !g.reflex(pts, j) {
      assert FirstReflexFrom(g, pts, 0).None?;
    }
  }

  /** With no alignment at all the partner stays vertex 0, and when that
      vertex is the break vertex or one of its neighbours, one of the two
      sub-polygons the copy loop builds is the whole polygon again: the
      source then calls itself on the same input without end, which the
      model reports as `Diverges`. */
  lemma {:induction false} SkippedPartnerRepeats(g: Turns, pts: seq<Vector2>)
    requires |pts| >= 4 && FirstReflexFrom(g, pts, 0).Some?
    requires Skipped(|pts|, Partner(g, pts, FirstReflexFrom(g, pts, 0).value), FirstReflexFrom(g, pts, 0).value)
    ensures Partner(g, pts, FirstReflexFrom(g, pts, 0).value) == 0
    ensures var b := FirstReflexFrom(g, pts, 0).value;
      Outer(pts, 0, b) == pts || Inner(pts, 0, b) == pts
    ensures Decompose(g, pts) == Diverges
  {
    var n, b := |pts|, FirstReflexFrom(g, pts, 0).value;
    if b == n - 1 {
      assert Inner(pts, 0, b) == pts;
    } else {
      assert b <= 1;
      assert Outer(pts, 0, b) == pts[..1] + pts[1..];
    }
  }

  /** When every alignment is a number the recursion always ends. */
  lemma {:induction false} DecomposeTerminates(g: Turns, pts: seq<Vector2>)
    requires forall s, b, i :: g.align(s, b, i).Some?
    ensures !Decompose(g, pts).Diverges?
    decreases |pts|
  {
    var n := |pts|;
    if n >= 4 && FirstReflexFrom(g, pts, 0).Some? {
      var b := FirstReflexFrom(g, pts, 0).value;
      var j := if b + 2 < n then b + 2 else b + 2 - n;
      assert Candidate(g, pts, b, j);
      PartnerNotNeighbour(g, pts, b, j);
      var p := Partner(g, pts, b);
      var lo, hi := Min(b, p), Max(b, p);
      SplitSizes(pts, lo, hi);
      DecomposeTerminates(g, Outer(pts, lo, hi));
      DecomposeTerminates(g, Inner(pts, lo, hi));
    }
  }

  /** With no alignment at all the partner stays vertex 0; for a break
      vertex at 0 the first sub-polygon is the whole polygon again, and the
      recursion does not end. */
  lemma DecomposeCanDiverge()
    ensures var g := Turns((s: seq<Vector2>, i: int) => i == 0, (s: seq<Vector2>, b: int, i: int) => None);
      Decompose(g, [Vector2(0.0, 0.0), Vector2(1.0, 0.0), Vector2(1.0, 1.0), Vector2(0.0, 1.0)]) == Diverges
  {
    var g := Turns((s: seq<Vector2>, i: int) => i == 0, (s: seq<Vector2>, b: int, i: int) => None);
    var pts := [Vector2(0.0, 0.0), Vector2(1.0, 0.0), Vector2(1.0, 1.0), Vector2(0.0, 1.0)];
    assert FirstReflexFrom(g, pts, 0) == Some(0);
    assert Partner(g, pts, 0) == 0;
  }

  /** The break-index loop of `ConvexPointsOrdered`: the first vertex whose
      turn exceeds the threshold, or -1. */
  method FindBreak(g: Turns, points: seq<Vector2>) returns (breakIndex: int)
    ensures breakIndex == match FirstReflexFrom(g, points, 0) case None => -1 case Some(b) => b
  {
    breakIndex := -1;
    var i := 0;
    while i < |points|
      invariant 0 <= i <= |points|
      invariant FirstReflexFrom(g, points, i) == FirstReflexFrom(g, points, 0)
    {
      if g.reflex(points, i) {
        return i;
      }
      i := i + 1;
    }
  }

  /** The partner loop of `ConvexPointsOrdered`: skip the break vertex and
      its neighbours, keep the first best alignment. */
  method FindPartner(g: Turns, points: seq<Vector2>, breakIndex: int) returns (index: int)
    requires |points| > 0
    ensures index == Partner(g, points, breakIndex)
  {
    var n := |points|;
    index := 0;
    var maxValue: Option<real> := None;
    for i := 0 to n
      invariant (index, maxValue) == PartnerScan(g, points, breakIndex, i)
    {
      if Abs(i - breakIndex) < 2 {
        continue;
      }
      if Abs(i + n - breakIndex) < 2 {
        continue;
      }
      if Abs(i - n - breakIndex) < 2 {
        continue;
      }
      var angle := g.align(points, breakIndex, i);
      if Beats(angle, maxValue) {
        maxValue := angle;
        index := i;
      }
    }
  }

  /** `list1` after the copy loop has looked at vertices `0 .. i-1`. */
  function OuterUpTo(pts: seq<Vector2>, lo: nat, hi: nat, i: nat): seq<Vector2>
    requires lo <= hi < |pts| && i <= |pts|
  {
    pts[..Min(i, lo + 1)] + pts[Min(Max(hi, lo + 1), i)..i]
  }

  /** `list2` after the copy loop has looked at vertices `0 .. i-1`. */
  function InnerUpTo(pts: seq<Vector2>, lo: nat, hi: nat, i: nat): seq<Vector2>
    requires lo <= hi < |pts| && i <= |pts|
  {
    pts[Min(lo, i)..Min(i, hi + 1)]
  }

  lemma OuterStep(pts: seq<Vector2>, lo: nat, hi: nat, i: nat)
    requires lo <= hi < |pts| && i < |pts|
    ensures OuterUpTo(pts, lo, hi, i + 1)
      == OuterUpTo(pts, lo, hi, i) + if i <= lo || i >= hi then [pts[i]] else []
  {
    var from := Max(hi, lo + 1);
    if i <= lo {
      assert pts[..i + 1] == pts[..i] + [pts[i]];
    } else if i >= from {
      assert pts[from..i + 1] == pts[from..i] + [pts[i]];
    }
  }

  lemma InnerStep(pts: seq<Vector2>, lo: nat, hi: nat, i: nat)
    requires lo <= hi < |pts| && i < |pts|
    ensures InnerUpTo(pts, lo, hi, i + 1)
      == InnerUpTo(pts, lo, hi, i) + if lo <= i <= hi then [pts[i]] else []
  {
    if lo <= i <= hi {
      assert pts[lo..i + 1] == pts[lo..i] + [pts[i]];
    }
  }

  /** The copy loop of `ConvexPointsOrdered`: `list1` takes the vertices at
      or before `minIndex` and at or after `maxIndex`, `list2` those in
      between, both ends included. */
  method SplitAt(points: seq<Vector2>, minIndex: nat, maxIndex: nat) returns (list1: seq<Vector2>, list2: seq<Vector2>)
    requires minIndex <= maxIndex < |points|
    ensures list1 == Outer(points, minIndex, maxIndex)
    ensures list2 == Inner(points, minIndex, maxIndex)
  {
    list1, list2 := [], [];
    for i := 0 to |points|
      invariant list1 == OuterUpTo(points, minIndex, maxIndex, i)
      invariant list2 == InnerUpTo(points, minIndex, maxIndex, i)
    {
      OuterStep(points, minIndex, maxIndex, i);
      InnerStep(points, minIndex, maxIndex, i);
      if i <= minIndex || i >= maxIndex {
        list1 := list1 + [points[i]];
      }
      if i >= minIndex && i <= maxIndex {
        list2 := list2 + [points[i]];
      }
    }
  }

  /** `ConvexPointsOrdered(points)`: find the first reflex vertex, scan for
      its partner, copy the two sub-polygons out and recurse on both. */
  method ConvexPointsOrdered(g: Turns, points: seq<Vector2>) returns (r: Decomposition)
    ensures r == Decompose(g, points)
    decreases |points|
  {
    var n := |points|;
    if n < 4 {
      return Pieces([points]);
    }
    var breakIndex := FindBreak(g, points);
    if breakIndex < 0 {
      return Pieces([points]);
    }
    var index := FindPartner(g, points, breakIndex);
    var minIndex, maxIndex := Min(breakIndex, index), Max(breakIndex, index);
    var list1, list2 := SplitAt(points, minIndex, maxIndex);
    if Skipped(n, index, breakIndex) {
      return Diverges;
    }
    SplitSizes(points, minIndex, maxIndex);
    var r1 := ConvexPointsOrdered(g, list1);
    var r2 := ConvexPointsOrdered(g, list2);
    r := Join(r1, r2);
  }

  /** `value < leftBottom` with `leftBottom` starting at `float.MaxValue`,
      above every vertex. */
  predicate Below(value: real, best: Option<real>) {
    best.None? || value < best.value
  }

  /** The left-bottom loop of `ConvexPoints` after vertices `0 .. m-1`: the
      index of the first vertex with the least `X + Y`, and that sum. */
  function LeftBottomScan(pts: seq<Vector2>, m: nat): (r: (nat, Option<real>))
    requires m <= |pts|
    ensures m == 0 ==> r == (0, None)
    ensures m > 0 ==> r.0 < m && r.1 == Some(pts[r.0].x + pts[r.0].y)
    ensures m > 0 ==> forall j :: 0 <= j < m ==> pts[r.0].x + pts[r.0].y <= pts[j].x + pts[j].y
    ensures m > 0 ==> forall j :: 0 <= j < r.0 ==> pts[r.0].x + pts[r.0].y < pts[j].x + pts[j].y
  {
    if m == 0 then (0, None)
    else
      var prev := LeftBottomScan(pts, m - 1);
      var value := pts[m - 1].x + pts[m - 1].y;
      if Below(value, prev.1) then (m - 1, Some(value)) else prev
  }

  /** `ConvexPoints(points)`: orient the polygon by the turn at its
      left-bottom vertex, then decompose it. An empty polygon makes
      `PointCross` divide by zero. */
  function Split(g: Turns, points: seq<Vector2>): (r: Decomposition)
    ensures r.Throws? <==> |points| == 0
    ensures r.Pieces? ==> forall q, v :: q in r.pieces && v in q ==> v in points
    ensures r.Pieces? && |points| >= 3 ==> forall q :: q in r.pieces ==> |q| >= 3
    ensures r.Pieces? ==> TotalSize(r.pieces) + 2 == |points| + 2 * |r.pieces|
    ensures r.Pieces? ==> forall q :: q in r.pieces && |q| >= 4 ==> forall j :: 0 <= j < |q| ==> !g.reflex(q, j)
  {
    if |points| == 0 then Throws
    else
      var index := LeftBottomScan(points, |points|).0;
      var ordered := if g.reflex(points, index) then Reverse(points) else points;
      ReverseMembers(points);
      Decompose(g, ordered)
  }

  lemma ReverseMembers(s: seq<Vector2>)
    ensures forall v :: v in Reverse(s) ==> v in s
  {
    forall v | v in Reverse(s)
      ensures v in s
    {
      var i :| 0 <= i < |s| && Reverse(s)[i] == v;
      assert s[|s| - 1 - i] == v;
    }
  }

  /** The orientation step: the polygon goes to `ConvexPointsOrdered`
      reversed exactly when the turn at its first left-bottom vertex exceeds
      the threshold. */
  lemma SplitOrientation(g: Turns, points: seq<Vector2>)
    requires |points| > 0
    ensures var i := LeftBottomScan(points, |points|).0;
      Split(g, points) == Decompose(g, if g.reflex(points, i) then Reverse(points) else points)
  {
  }

  /** `ConvexPoints(points)`. */
  method ConvexPoints(g: Turns, points: seq<Vector2>) returns (r: Decomposition)
    ensures r == Split(g, points)
  {
    var index := 0;
    var leftBottom: Option<real> := None;
    for i := 0 to |points|
      invariant (index, leftBottom) == LeftBottomScan(points, i)
    {
      var pt := points[i];
      var value := pt.x + pt.y;
      if Below(value, leftBottom) {
        index := i;
        leftBottom := Some(value);
      }
    }
    if |points| == 0 {
      return Throws;
    }
    var ordered := points;
    if g.reflex(points, index) {
      ordered := Reverse(points);
    }
    r := ConvexPointsOrdered(g, ordered);
  }

  /** The turn at vertex `i` as the cross product of the two unnormalised
      edge vectors; it equals `PointCross` wherever both edges have unit
      length. */
  function RawCross(s: seq<Vector2>, i: int): real {
    if 0 <= i < |s| then
      var pre, mid, next := s[(i - 1 + |s|) % |s|], s[i], s[(i + 1) % |s|];
      (mid.x - pre.x) * (next.y - mid.y) - (mid.y - pre.y) * (next.x - mid.x)
    else 0.0
  }

  /** Turn tests that agree with the source on polygons whose edges all have
      unit length: the turn threshold on `RawCross`, and no alignment (NaN)
      for a candidate that coincides with the break vertex. */
  const UnitEdgeTurns := Turns(
    (s: seq<Vector2>, i: int) => RawCross(s, i) > 0.1,
    (s: seq<Vector2>, b: int, i: int) =>
      if 0 <= b < |s| && 0 <= i < |s| && s[i] == s[b] then None else Some(0.0))

  /** The scan of `ConvexPoints` on a quadrilateral that visits the origin
      twice: the first origin is its left-bottom vertex, and it turns there,
      so the polygon is reversed. */
  lemma SelfTouchingScan()
    ensures var pts := [Vector2(0.0, 0.0), Vector2(1.0, 0.0), Vector2(0.0, 0.0), Vector2(0.0, 1.0)];
      && LeftBottomScan(pts, 4).0 == 0 && UnitEdgeTurns.reflex(pts, 0)
      && Reverse(pts) == [Vector2(0.0, 1.0), Vector2(0.0, 0.0), Vector2(1.0, 0.0), Vector2(0.0, 0.0)]
  {
    var pts := [Vector2(0.0, 0.0), Vector2(1.0, 0.0), Vector2(0.0, 0.0), Vector2(0.0, 1.0)];
    assert LeftBottomScan(pts, 4).0 == 0;
    assert RawCross(pts, 0) == 1.0;
    assert Reverse(pts) == [Vector2(0.0, 1.0), Vector2(0.0, 0.0), Vector2(1.0, 0.0), Vector2(0.0, 0.0)];
  }

  /** The scans of `ConvexPointsOrdered` on the reversed quadrilateral: the
      first reflex vertex is the origin at index 1, and its only candidate
      partner is the other copy of the origin, so the partner stays 0. */
  lemma SelfTouchingPartner()
    ensures var rev := [Vector2(0.0, 1.0), Vector2(0.0, 0.0), Vector2(1.0, 0.0), Vector2(0.0, 0.0)];
      FirstReflexFrom(UnitEdgeTurns, rev, 0) == Some(1) && Partner(UnitEdgeTurns, rev, 1) == 0
  {
    var g := UnitEdgeTurns;
    var rev := [Vector2(0.0, 1.0), Vector2(0.0, 0.0), Vector2(1.0, 0.0), Vector2(0.0, 0.0)];
    assert RawCross(rev, 0) == 0.0;
    assert RawCross(rev, 1) == 1.0;
    assert FirstReflexFrom(g, rev, 0) == Some(1);
    assert g.align(rev, 1, 3) == None;
    assert PartnerScan(g, rev, 1, 4) == (0, None);
  }

  /** A self-touching quadrilateral that visits the origin twice: it is
      reversed, its first reflex vertex is the origin at index 1, the only
      candidate partner is the other copy of the origin, whose alignment is
      NaN, so the partner stays at index 0 next to the break vertex and the
      decomposition never ends. */
  lemma SelfTouchingDiverges()
    ensures Split(UnitEdgeTurns, [Vector2(0.0, 0.0), Vector2(1.0, 0.0), Vector2(0.0, 0.0), Vector2(0.0, 1.0)]) == Diverges
  {
    SelfTouchingScan();
    SelfTouchingPartner();
  }

  /** The decomposition with the fallback the source evidently intends for a
      degenerate polygon: when no partner vertex can be chosen, the piece
      comes back whole instead of being split again without end. */
  function DecomposeGuarded(g: Turns, pts: seq<Vector2>): (r: Decomposition)
    ensures r.Pieces?
    ensures Sound(pts, r)
    decreases |pts|
  {
    if |pts| < 4 then Pieces([pts])
    else
      match FirstReflexFrom(g, pts, 0)
      case None => Pieces([pts])
      case Some(b) =>
        var p := Partner(g, pts, b);
        if Skipped(|pts|, p, b) then Pieces([pts])
        else
          var lo, hi := Min(b, p), Max(b, p);
          SplitSizes(pts, lo, hi);
          var r1, r2 := DecomposeGuarded(g, Outer(pts, lo, hi)), DecomposeGuarded(g, Inner(pts, lo, hi));
          JoinSound(pts, lo, hi, r1, r2);
          Join(r1, r2)
  }

  /** The guard changes nothing wherever the source's recursion ends. */
  lemma {:induction false} GuardedAgrees(g: Turns, pts: seq<Vector2>)
    ensures !Decompose(g, pts).Diverges? ==> DecomposeGuarded(g, pts) == Decompose(g, pts)
    decreases |pts|
  {
    if |pts| >= 4 && FirstReflexFrom(g, pts, 0).Some? {
      var b := FirstReflexFrom(g, pts, 0).value;
      var p := Partner(g, pts, b);
      if !Skipped(|pts|, p, b) {
        var lo, hi := Min(b, p), Max(b, p);
        SplitSizes(pts, lo, hi);
        GuardedAgrees(g, Outer(pts, lo, hi));
        GuardedAgrees(g, Inner(pts, lo, hi));
      }
    }
  }

  /** `ConvexPoints` over the guarded decomposition: every non-empty polygon
      is decomposed into pieces. */
  function SplitGuarded(g: Turns, points: seq<Vector2>): (r: Decomposition)
    ensures r.Throws? <==> |points| == 0
    ensures |points| > 0 ==> r.Pieces?
    ensures |points| > 0 ==> !Split(g, points).Diverges? ==> r == Split(g, points)
  {
    if |points| == 0 then Throws
    else
      var index := LeftBottomScan(points, |points|).0;
      var ordered := if g.reflex(points, index) then Reverse(points) else points;
      GuardedAgrees(g, ordered);
      DecomposeGuarded(g, ordered)
  }

  /** The guarded decomposition of the self-touching quadrilateral is the
      quadrilateral itself, as one piece. */
  lemma SelfTouchingGuarded()
    ensures SplitGuarded(UnitEdgeTurns, [Vector2(0.0, 0.0), Vector2(1.0, 0.0), Vector2(0.0, 0.0), Vector2(0.0, 1.0)])
      == Pieces([[Vector2(0.0, 1.0), Vector2(0.0, 0.0), Vector2(1.0, 0.0), Vector2(0.0, 0.0)]])
  {
    SelfTouchingScan();
    SelfTouchingPartner();
  }
}
