/** The even-odd point-in-polygon test of `DrawingHelper`: a horizontal ray
    from the point, in the X-Z plane, crosses the rings' edges an odd
    number of times exactly when the point is inside. */
module Polygon {
  import opened Vectors

  /** `InLine(pt1, pt2, pt)`: the edge from `pt1` to `pt2` strictly
      straddles the line `Z = pt.Z`, and meets it to the right of `pt`.
      The division is reached only when the straddle test holds, so the
      edge is then never horizontal. */
  predicate InLine(pt1: Vector3, pt2: Vector3, pt: Vector3) {
    (pt.z < pt1.z) != (pt.z < pt2.z)
    && pt.x < pt1.x + (pt.z - pt1.z) / (pt2.z - pt1.z) * (pt2.x - pt1.x)
  }

  /** An edge with both ends at the same depth never counts, whatever the
      point. */
  lemma HorizontalEdgeNeverCounts(pt1: Vector3, pt2: Vector3, pt: Vector3)
    requires pt1.z == pt2.z
    ensures !InLine(pt1, pt2, pt)
  {
  }

  /** Over the reals the test does not depend on the edge's direction. */
  lemma InLineSymmetric(a: Vector3, b: Vector3, pt: Vector3)
    ensures InLine(a, b, pt) == InLine(b, a, pt)
  {
    if (pt.z < a.z) != (pt.z < b.z) {
      var d := b.z - a.z;
      var t := (pt.z - a.z) / d;
      var u := (pt.z - b.z) / (a.z - b.z);
      assert t * d == pt.z - a.z;
      assert u * d == b.z - pt.z;
      assert (u + t - 1.0) * d == u * d + t * d - d;
      ZeroFactor(u + t - 1.0, d);
      assert b.x + u * (a.x - b.x) == a.x + t * (b.x - a.x);
    }
  }

  lemma ZeroFactor(x: real, d: real)
    requires d != 0.0 && x * d == 0.0
    ensures x == 0.0
  {
    assert x == x * d / d;
  }

  function Count(bs: seq<bool>): (n: nat)
    ensures n <= |bs|
  {
    if |bs| == 0 then 0 else Count(bs[..|bs| - 1]) + (if bs[|bs| - 1] then 1 else 0)
  }

  /** Whether each edge between consecutive points of a ring counts. */
  function EdgeFlags(ring: seq<Vector3>, pt: Vector3): (r: seq<bool>)
    ensures |ring| > 0 ==> |r| == |ring| - 1
    ensures |ring| == 0 ==> r == []
    ensures forall i {:trigger r[i]} :: 0 <= i < |r| ==> r[i] == InLine(ring[i], ring[i + 1], pt)
  {
    if |ring| == 0 then [] else seq(|ring| - 1, i requires 0 <= i < |ring| - 1 => InLine(ring[i], ring[i + 1], pt))
  }

  /** The crossings of one ring: its consecutive edges, then the closing
      edge from the last point back to the first. An empty ring has none. */
  function RingCrossings(ring: seq<Vector3>, pt: Vector3): nat {
    if |ring| == 0 then 0
    else Count(EdgeFlags(ring, pt)) + if InLine(ring[|ring| - 1], ring[0], pt) then 1 else 0
  }

  /** The crossings of all rings together. */
  function TotalCrossings(rings: seq<seq<Vector3>>, pt: Vector3): nat {
    if |rings| == 0 then 0
    else TotalCrossings(rings[..|rings| - 1], pt) + RingCrossings(rings[|rings| - 1], pt)
  }

  /** `IsPointInside(pt, pts)`: count, ring by ring, the edges the ray from
      `pt` crosses, and answer whether the total is odd. */
  method IsPointInside(pt: Vector3, rings: seq<seq<Vector3>>) returns (inside: bool)
    ensures inside <==> TotalCrossings(rings, pt) % 2 == 1
  {
    var count := 0;
    var k := 0;
    while k < |rings|
      invariant 0 <= k <= |rings|
      invariant count == TotalCrossings(rings[..k], pt)
    {
      TotalPrefix(rings, k, pt);
      var part := rings[k];
      if |part| == 0 {
        k := k + 1;
        continue;
      }
      var crossings := RingCount(pt, part);
      count := count + crossings;
      k := k + 1;
    }
    assert rings[..k] == rings;
    inside := count % 2 == 1;
  }

  /** The inner loop of `IsPointInside` over one non-empty ring: each edge
      from the previous point to the current one, then the closing edge. */
  method RingCount(pt: Vector3, part: seq<Vector3>) returns (count: nat)
    requires |part| > 0
    ensures count == RingCrossings(part, pt)
  {
    ghost var flags := EdgeFlags(part, pt);
    count := 0;
    var prePt := Zero3;
    var isFirst := true;
    var j := 0;
    while j < |part|
      invariant 0 <= j <= |part|
      invariant isFirst <==> j == 0
      invariant j > 0 ==> prePt == part[j - 1]
      invariant count == if j == 0 then 0 else Count(flags[..j - 1])
    {
      var rightPt := part[j];
      if isFirst {
        isFirst := false;
        prePt := rightPt;
        j := j + 1;
        continue;
      }
      CountPrefix(flags, j - 1);
      if InLine(prePt, rightPt, pt) {
        count := count + 1;
      }
      prePt := rightPt;
      j := j + 1;
    }
    assert flags[..j - 1] == flags;
    if InLine(prePt, part[0], pt) {
      count := count + 1;
    }
  }

  lemma CountPrefix(bs: seq<bool>, i: nat)
    requires i < |bs|
    ensures Count(bs[..i + 1]) == Count(bs[..i]) + if bs[i] then 1 else 0
  {
    assert bs[..i + 1][..i] == bs[..i];
  }

  lemma TotalPrefix(rings: seq<seq<Vector3>>, k: nat, pt: Vector3)
    requires k < |rings|
    ensures TotalCrossings(rings[..k + 1], pt) == TotalCrossings(rings[..k], pt) + RingCrossings(rings[k], pt)
  {
    assert rings[..k + 1][..k] == rings[..k];
  }

  /** A ring of one point never counts: its only edge is horizontal. */
  lemma SinglePointRingNeverCounts(p: Vector3, pt: Vector3)
    ensures RingCrossings([p], pt) == 0
  {
    assert EdgeFlags([p], pt) == [];
  }

  /** Empty rings are skipped: appending one leaves the total unchanged. */
  lemma EmptyRingIsSkipped(rings: seq<seq<Vector3>>, pt: Vector3)
    ensures TotalCrossings(rings + [[]], pt) == TotalCrossings(rings, pt)
  {
    assert (rings + [[]])[..|rings|] == rings;
  }

  lemma {:induction false} CountAppend(a: seq<bool>, b: seq<bool>)
    ensures Count(a + b) == Count(a) + Count(b)
    decreases |b|
  {
    if |b| == 0 {
      assert a + b == a;
    } else {
      assert (a + b)[..|a + b| - 1] == a + b[..|b| - 1];
      CountAppend(a, b[..|b| - 1]);
    }
  }

  lemma {:induction false} CountReverse(bs: seq<bool>)
    ensures Count(Reverse(bs)) == Count(bs)
    decreases |bs|
  {
    if |bs| > 0 {
      var front := bs[..|bs| - 1];
      assert Reverse(bs) == [bs[|bs| - 1]] + Reverse(front);
      CountAppend([bs[|bs| - 1]], Reverse(front));
      assert Count([bs[|bs| - 1]]) == if bs[|bs| - 1] then 1 else 0 by {
        assert [bs[|bs| - 1]][..0] == [];
      }
      CountReverse(front);
    }
  }

  /** The consecutive edges of a reversed ring are the original edges in
      reverse order, each walked backwards. */
  lemma EdgeFlagsReverse(ring: seq<Vector3>, pt: Vector3)
    requires |ring| > 0
    ensures EdgeFlags(Reverse(ring), pt) == Reverse(EdgeFlags(ring, pt))
  {
    var fr, rf := EdgeFlags(Reverse(ring), pt), Reverse(EdgeFlags(ring, pt));
    assert |fr| == |rf| == |ring| - 1;
    forall i | 0 <= i < |ring| - 1
      ensures fr[i] == rf[i]
    {
      EdgeFlagReversedAt(ring, pt, i);
    }
  }

  lemma EdgeFlagReversedAt(ring: seq<Vector3>, pt: Vector3, i: nat)
    requires i < |ring| - 1
    ensures EdgeFlags(Reverse(ring), pt)[i] == Reverse(EdgeFlags(ring, pt))[i]
  {
    var n := |ring|;
    ReversedRingEdge(ring, pt, i);
    ReversedFlag(ring, pt, i);
    InLineSymmetric(ring[n - 1 - i], ring[n - 2 - i], pt);
  }

  lemma ReversedRingEdge(ring: seq<Vector3>, pt: Vector3, i: nat)
    requires i < |ring| - 1
    ensures EdgeFlags(Reverse(ring), pt)[i] == InLine(ring[|ring| - 1 - i], ring[|ring| - 2 - i], pt)
  {
    var r := Reverse(ring);
    assert r[i] == ring[|ring| - 1 - i] && r[i + 1] == ring[|ring| - 2 - i];
  }

  lemma ReversedFlag(ring: seq<Vector3>, pt: Vector3, i: nat)
    requires i < |ring| - 1
    ensures Reverse(EdgeFlags(ring, pt))[i] == InLine(ring[|ring| - 2 - i], ring[|ring| - 1 - i], pt)
  {
    var f := EdgeFlags(ring, pt);
    assert Reverse(f)[i] == f[|ring| - 2 - i];
  }

  /** Reversing a ring's orientation does not change its crossing count. */
  lemma RingCrossingsReverse(ring: seq<Vector3>, pt: Vector3)
    ensures RingCrossings(Reverse(ring), pt) == RingCrossings(ring, pt)
  {
    var n := |ring|;
    if n > 0 {
      EdgeFlagsReverse(ring, pt);
      CountReverse(EdgeFlags(ring, pt));
      InLineSymmetric(ring[0], ring[n - 1], pt);
    }
  }

  /** The crossings of a four-point ring, edge by edge. */
  lemma QuadCrossings(ring: seq<Vector3>, pt: Vector3)
    requires |ring| == 4
    ensures RingCrossings(ring, pt)
      == (if InLine(ring[0], ring[1], pt) then 1 else 0) + (if InLine(ring[1], ring[2], pt) then 1 else 0)
       + (if InLine(ring[2], ring[3], pt) then 1 else 0) + (if InLine(ring[3], ring[0], pt) then 1 else 0)
  {
    var f := EdgeFlags(ring, pt);
    assert f[..2][..1] == f[..1];
    assert Count(f[..1]) == if f[0] then 1 else 0 by {
      assert f[..1][..0] == [];
    }
    assert Count(f[..2]) == Count(f[..1]) + if f[1] then 1 else 0;
    assert Count(f) == Count(f[..2]) + if f[2] then 1 else 0;
  }

  /** The unit square: its centre is inside, a point beyond its corner is
      not. */
  lemma UnitSquare()
    ensures var square := [Vector3(0.0, 0.0, 0.0), Vector3(1.0, 0.0, 0.0), Vector3(1.0, 0.0, 1.0), Vector3(0.0, 0.0, 1.0)];
      && TotalCrossings([square], Vector3(0.5, 0.0, 0.5)) == 1
      && TotalCrossings([square], Vector3(2.0, 0.0, 2.0)) == 0
  {
    var square := [Vector3(0.0, 0.0, 0.0), Vector3(1.0, 0.0, 0.0), Vector3(1.0, 0.0, 1.0), Vector3(0.0, 0.0, 1.0)];
    assert [square][..0] == [];
    QuadCrossings(square, Vector3(0.5, 0.0, 0.5));
    QuadCrossings(square, Vector3(2.0, 0.0, 2.0));
  }

  /** A square with a square hole: a point in the band between them is
      inside, a point in the hole is not. */
  lemma SquareWithHole()
    ensures var outer := [Vector3(0.0, 0.0, 0.0), Vector3(4.0, 0.0, 0.0), Vector3(4.0, 0.0, 4.0), Vector3(0.0, 0.0, 4.0)];
      var hole := [Vector3(1.0, 0.0, 1.0), Vector3(3.0, 0.0, 1.0), Vector3(3.0, 0.0, 3.0), Vector3(1.0, 0.0, 3.0)];
      && TotalCrossings([outer, hole], Vector3(0.5, 0.0, 2.0)) == 3
      && TotalCrossings([outer, hole], Vector3(2.0, 0.0, 2.0)) == 2
  {
    var outer := [Vector3(0.0, 0.0, 0.0), Vector3(4.0, 0.0, 0.0), Vector3(4.0, 0.0, 4.0), Vector3(0.0, 0.0, 4.0)];
    var hole := [Vector3(1.0, 0.0, 1.0), Vector3(3.0, 0.0, 1.0), Vector3(3.0, 0.0, 3.0), Vector3(1.0, 0.0, 3.0)];
    assert [outer, hole][..1] == [outer];
    assert [outer][..0] == [];
    var p, q := Vector3(0.5, 0.0, 2.0), Vector3(2.0, 0.0, 2.0);
    QuadCrossings(outer, p);
    QuadCrossings(hole, p);
    QuadCrossings(outer, q);
    QuadCrossings(hole, q);
    assert RingCrossings(outer, p) == 1;
    assert RingCrossings(hole, p) == 2;
    assert RingCrossings(outer, q) == 1;
    assert RingCrossings(hole, q) == 1;
    assert TotalCrossings([outer], p) == 1;
    assert TotalCrossings([outer], q) == 1;
  }
}
