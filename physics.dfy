/** Plane vectors over the reals, standing for the two-element numpy arrays `[x, y]`. */
module Geometry {

  datatype Vec = Vec(x: real, y: real)

  function Add(u: Vec, v: Vec): Vec { Vec(u.x + v.x, u.y + v.y) }

  function Sub(u: Vec, v: Vec): Vec { Vec(u.x - v.x, u.y - v.y) }

  function Scale(t: real, v: Vec): Vec { Vec(t * v.x, t * v.y) }

  /** `np.dot(u, v)`. */
  function Dot(u: Vec, v: Vec): real { u.x * v.x + u.y * v.y }

  /** A product kept as a function application, so that facts about its sign are stated on
      the application rather than on a bare square. */
  function Mul(a: real, b: real): real { a * b }

  lemma MulPos(a: real, b: real)
    requires (a > 0.0 && b > 0.0) || (a < 0.0 && b < 0.0)
    ensures Mul(a, b) > 0.0
  {
    if a > 0.0 {
      assert a * b > 0.0;
    } else {
      assert a * b == (-a) * (-b);
      assert (-a) * (-b) > 0.0;
    }
  }

  /** `x**2`: never negative, and zero only at zero. */
  function Sq(x: real): (r: real)
    ensures r >= 0.0
    ensures x != 0.0 ==> r > 0.0
  {
    if x != 0.0 then MulPos(x, x); Mul(x, x) else Mul(x, x)
  }

  /** Squared Euclidean length, `np.sum(v**2)`; zero exactly for the zero vector. */
  function NormSq(v: Vec): (r: real)
    ensures r >= 0.0
    ensures r == 0.0 <==> v == Vec(0.0, 0.0)
  {
    assert v == Vec(v.x, v.y);
    Sq(v.x) + Sq(v.y)
  }

  /** `np.clip(t, 0, 1)`. */
  function Clamp01(t: real): (r: real)
    ensures 0.0 <= r <= 1.0
    ensures 0.0 <= t <= 1.0 ==> r == t
    ensures t < 0.0 ==> r == 0.0
    ensures t > 1.0 ==> r == 1.0
  {
    if t < 0.0 then 0.0 else if t > 1.0 then 1.0 else t
  }

  /** The point of segment `[a, b]` at parameter `s` (`a + s * (b - a)`). */
  function SegmentPoint(a: Vec, b: Vec, s: real): Vec {
    Add(a, Scale(s, Sub(b, a)))
  }

  lemma ZeroLength(v: Vec)
    requires NormSq(v) == 0.0
    ensures v == Vec(0.0, 0.0)
  {
  }

  lemma SubZero(a: Vec, b: Vec)
    requires Sub(b, a) == Vec(0.0, 0.0)
    ensures a == b
  {
  }

  lemma DotZero(u: Vec, v: Vec)
    requires v == Vec(0.0, 0.0)
    ensures Dot(u, v) == 0.0
  {
  }

  lemma DotSelf(v: Vec)
    ensures Dot(v, v) == NormSq(v)
  {
  }

  lemma DotScaleLeft(s: real, u: Vec, v: Vec)
    ensures Dot(Scale(s, u), v) == s * Dot(u, v)
  {
    assert (s * u.x) * v.x + (s * u.y) * v.y == s * (u.x * v.x + u.y * v.y);
  }

  /** `(u - s w)^2 = u^2 - 2 s u w + s^2 w^2`. */
  lemma SqDiff(u: real, s: real, w: real)
    ensures Sq(u - s * w) == Sq(u) - 2.0 * s * (u * w) + s * s * Sq(w)
  {
    assert (u - s * w) * (u - s * w) == u * u - 2.0 * s * (u * w) + s * s * (w * w);
  }

  /** `|u - s w|^2` as a quadratic in `s`. */
  lemma Expansion(u: Vec, w: Vec, s: real)
    ensures NormSq(Sub(u, Scale(s, w))) == NormSq(u) - 2.0 * s * Dot(u, w) + s * s * NormSq(w)
  {
    SqDiff(u.x, s, w.x);
    SqDiff(u.y, s, w.y);
    assert s * s * NormSq(w) == s * s * Sq(w.x) + s * s * Sq(w.y);
    assert 2.0 * s * Dot(u, w) == 2.0 * s * (u.x * w.x) + 2.0 * s * (u.y * w.y);
  }

  /** The same point, read from the other end of the segment. */
  lemma SegmentPointReversed(a: Vec, b: Vec, s: real)
    ensures SegmentPoint(a, b, s) == SegmentPoint(b, a, 1.0 - s)
  {
    assert a.x + s * (b.x - a.x) == b.x + (1.0 - s) * (a.x - b.x);
    assert a.y + s * (b.y - a.y) == b.y + (1.0 - s) * (a.y - b.y);
  }

  // ---------------------------------------------------------------------------------------
  // Scalar facts, each over its own parameters
  // ---------------------------------------------------------------------------------------

  /** Dividing by a positive `l` keeps the position of `d` relative to `0` and to `l`. */
  lemma QuotientSign(d: real, l: real)
    requires l > 0.0
    ensures d / l < 0.0 <==> d < 0.0
    ensures d / l > 1.0 <==> d > l
    ensures d == l ==> d / l == 1.0
    ensures (d / l) * l == d
  {
    var q := d / l;
    assert q * l == d;
    if q < 0.0 {
      MulPos(-q, l);
    } else {
      ProductNonNeg(q, l);
    }
    if q > 1.0 {
      MulPos(q - 1.0, l);
    } else {
      ProductNonNeg(1.0 - q, l);
    }
    if d == l {
      assert l / l == 1.0;
    }
  }

  lemma QuotientOfProduct(s: real, l: real)
    requires l != 0.0
    ensures (s * l) / l == s
  {
  }

  lemma ProductNonNeg(a: real, b: real)
    requires (a >= 0.0 && b >= 0.0) || (a <= 0.0 && b <= 0.0)
    ensures a * b >= 0.0
  {
    if a <= 0.0 && b <= 0.0 {
      assert a * b == (-a) * (-b);
    }
  }

  lemma ProductMonotone(a: real, b: real, c: real)
    requires a >= 0.0 && b <= c
    ensures a * b <= a * c
  {
    ProductNonNeg(a, c - b);
    assert a * (c - b) == a * c - a * b;
  }

  /** For non-negative reals, comparing squares decides comparing the numbers. */
  lemma SquareMonotone(u: real, w: real)
    requires u >= 0.0 && w >= 0.0
    ensures u < w <==> u * u < w * w
  {
    if u < w {
      ProductMonotone(u, u, w);
      MulPos(w - u, w);
      assert (w - u) * w == w * w - u * w;
    } else {
      ProductMonotone(w, w, u);
      ProductMonotone(u, w, u);
    }
  }
}

/** PhysicsEngine: the geometry of passes and interceptions. Distances are kept squared,
    since the simulator only ever compares them with a radius. */
module Physics {
  import opened Wrappers
  import opened Geometry
  import opened Entities

  /** Default interception radius of `check_interception`, in metres. */
  const INTERCEPTION_RADIUS: real := 2.0

  /** `get_distance_point_to_segment`, squared. A degenerate segment is measured to `a`;
      otherwise `p` is projected onto the line through `a` and `b`, the projection parameter
      is clamped to `[0, 1]`, and the distance to that point of the segment is taken. */
  function DistanceSqToSegment(p: Vec, a: Vec, b: Vec): (d: real)
    ensures d >= 0.0
  {
    var ab := Sub(b, a);
    var ap := Sub(p, a);
    var lenSq := NormSq(ab);
    if lenSq == 0.0 then NormSq(Sub(p, a))
    else
      var t := Clamp01(Dot(ap, ab) / lenSq);
      var closest := SegmentPoint(a, b, t);
      NormSq(Sub(p, closest))
  }

  /** The segment parameter of the point the distance is measured to. */
  function ClosestParameter(p: Vec, a: Vec, b: Vec): (t: real)
    ensures 0.0 <= t <= 1.0
  {
    var lenSq := NormSq(Sub(b, a));
    if lenSq == 0.0 then 0.0 else Clamp01(Dot(Sub(p, a), Sub(b, a)) / lenSq)
  }


  // ---------------------------------------------------------------------------------------
  // Distance lemmas
  // ---------------------------------------------------------------------------------------

  lemma SegmentStart(a: Vec, b: Vec)
    ensures SegmentPoint(a, b, 0.0) == a
  {
    assert Scale(0.0, Sub(b, a)) == Vec(0.0, 0.0);
  }

  lemma SegmentEnd(a: Vec, b: Vec)
    ensures SegmentPoint(a, b, 1.0) == b
  {
    assert Scale(1.0, Sub(b, a)) == Sub(b, a);
  }

  lemma DegenerateEnds(a: Vec, b: Vec)
    requires NormSq(Sub(b, a)) == 0.0
    ensures a == b
  {
    ZeroLength(Sub(b, a));
    SubZero(a, b);
  }

  lemma DegenerateCase(p: Vec, a: Vec, b: Vec)
    requires NormSq(Sub(b, a)) == 0.0
    ensures ClosestParameter(p, a, b) == 0.0
    ensures DistanceSqToSegment(p, a, b) == NormSq(Sub(p, a))
  {
    DegenerateParameter(p, a, b);
    DegenerateDistance(p, a, b);
  }

  lemma DegenerateParameter(p: Vec, a: Vec, b: Vec)
    requires NormSq(Sub(b, a)) == 0.0
    ensures ClosestParameter(p, a, b) == 0.0
  {
  }

  lemma DegenerateDistance(p: Vec, a: Vec, b: Vec)
    requires NormSq(Sub(b, a)) == 0.0
    ensures DistanceSqToSegment(p, a, b) == NormSq(Sub(p, a))
  {
  }

  lemma ProperCase(p: Vec, a: Vec, b: Vec)
    requires NormSq(Sub(b, a)) != 0.0
    ensures ClosestParameter(p, a, b) == Clamp01(Dot(Sub(p, a), Sub(b, a)) / NormSq(Sub(b, a)))
    ensures DistanceSqToSegment(p, a, b) == NormSq(Sub(p, SegmentPoint(a, b, ClosestParameter(p, a, b))))
  {
  }

  /** The distance is attained at a point of the segment. */
  lemma DistanceAttained(p: Vec, a: Vec, b: Vec)
    ensures DistanceSqToSegment(p, a, b) == NormSq(Sub(p, SegmentPoint(a, b, ClosestParameter(p, a, b))))
  {
    if NormSq(Sub(b, a)) == 0.0 {
      DegenerateCase(p, a, b);
      SegmentStart(a, b);
    } else {
      ProperCase(p, a, b);
    }
  }

  /** A degenerate segment measures the distance to its single point. */
  lemma DegenerateSegment(p: Vec, a: Vec)
    ensures DistanceSqToSegment(p, a, a) == NormSq(Sub(p, a))
  {
    assert Sub(a, a) == Vec(0.0, 0.0);
    DegenerateCase(p, a, a);
  }

  lemma OffsetOfSegmentPoint(a: Vec, b: Vec, s: real)
    ensures Sub(SegmentPoint(a, b, s), a) == Scale(s, Sub(b, a))
  {
  }

  lemma ProjectionOfSegmentPoint(a: Vec, b: Vec, s: real)
    requires NormSq(Sub(b, a)) != 0.0
    ensures Dot(Sub(SegmentPoint(a, b, s), a), Sub(b, a)) / NormSq(Sub(b, a)) == s
  {
    var ab := Sub(b, a);
    OffsetOfSegmentPoint(a, b, s);
    DotScaleLeft(s, ab, ab);
    DotSelf(ab);
    QuotientOfProduct(s, NormSq(ab));
  }

  lemma DegeneratePoint(a: Vec, s: real)
    ensures SegmentPoint(a, a, s) == a
  {
    assert Scale(s, Sub(a, a)) == Vec(0.0, 0.0);
  }

  lemma SelfDistance(p: Vec)
    ensures NormSq(Sub(p, p)) == 0.0
  {
    assert Sub(p, p) == Vec(0.0, 0.0);
  }

  /** A point on the segment is at distance zero. */
  lemma PointOnSegment(a: Vec, b: Vec, s: real)
    requires 0.0 <= s <= 1.0
    ensures DistanceSqToSegment(SegmentPoint(a, b, s), a, b) == 0.0
  {
    var p := SegmentPoint(a, b, s);
    if NormSq(Sub(b, a)) != 0.0 {
      ProperCase(p, a, b);
      ProjectionOfSegmentPoint(a, b, s);
      assert ClosestParameter(p, a, b) == s;
    } else {
      DegenerateCase(p, a, b);
      DegenerateEnds(a, b);
      DegeneratePoint(a, s);
    }
    SelfDistance(p);
  }

  /** A point whose projection falls before `a` is measured to `a`. */
  lemma BeyondStart(p: Vec, a: Vec, b: Vec)
    requires Dot(Sub(p, a), Sub(b, a)) <= 0.0
    ensures DistanceSqToSegment(p, a, b) == NormSq(Sub(p, a))
  {
    var lenSq := NormSq(Sub(b, a));
    if lenSq != 0.0 {
      ProperCase(p, a, b);
      QuotientSign(Dot(Sub(p, a), Sub(b, a)), lenSq);
      assert ClosestParameter(p, a, b) == 0.0;
      SegmentStart(a, b);
    } else {
      DegenerateCase(p, a, b);
    }
  }

  /** A point whose projection falls beyond `b` is measured to `b`. */
  lemma BeyondEnd(p: Vec, a: Vec, b: Vec)
    requires Dot(Sub(p, a), Sub(b, a)) >= NormSq(Sub(b, a))
    ensures DistanceSqToSegment(p, a, b) == NormSq(Sub(p, b))
  {
    var lenSq := NormSq(Sub(b, a));
    if lenSq != 0.0 {
      ProperCase(p, a, b);
      QuotientSign(Dot(Sub(p, a), Sub(b, a)), lenSq);
      assert ClosestParameter(p, a, b) == 1.0;
      SegmentEnd(a, b);
    } else {
      DegenerateCase(p, a, b);
      DegenerateEnds(a, b);
    }
  }

  /** With `f(x) = A - 2 x D + x^2 L`, `L >= 0` and `c` the clamped minimiser `D / L`, no
      parameter in `[0, 1]` does better than `c`. */
  lemma QuadraticGap(A: real, D: real, L: real, s: real, c: real)
    requires L >= 0.0 && 0.0 <= s <= 1.0
    requires L == 0.0 ==> D == 0.0
    requires c == (if L == 0.0 then 0.0 else Clamp01(D / L))
    ensures A - 2.0 * c * D + c * c * L <= A - 2.0 * s * D + s * s * L
  {
    var gap := (A - 2.0 * s * D + s * s * L) - (A - 2.0 * c * D + c * c * L);
    assert gap == (s - c) * ((s + c) * L - 2.0 * D);
    if L != 0.0 {
      QuotientSign(D, L);
      if D < 0.0 {
        ProductNonNeg(s, L);
        ProductNonNeg(s, s * L - 2.0 * D);
      } else if D > L {
        ProductMonotone(L, s + 1.0, 2.0);
        ProductNonNeg(s - 1.0, (s + 1.0) * L - 2.0 * D);
      } else {
        assert c * L == D;
        assert gap == ((s - c) * (s - c)) * L;
        ProductNonNeg(s - c, s - c);
        ProductNonNeg((s - c) * (s - c), L);
      }
    }
  }

  lemma OffsetFromSegmentPoint(p: Vec, a: Vec, b: Vec, s: real)
    ensures Sub(p, SegmentPoint(a, b, s)) == Sub(Sub(p, a), Scale(s, Sub(b, a)))
  {
  }

  /** The squared distance from `p` to the point at `s`, as a quadratic in `s`. */
  lemma DistanceToSegmentPoint(p: Vec, a: Vec, b: Vec, s: real)
    ensures NormSq(Sub(p, SegmentPoint(a, b, s)))
         == NormSq(Sub(p, a)) - 2.0 * s * Dot(Sub(p, a), Sub(b, a)) + s * s * NormSq(Sub(b, a))
  {
    OffsetFromSegmentPoint(p, a, b, s);
    Expansion(Sub(p, a), Sub(b, a), s);
  }

  lemma DegenerateDot(p: Vec, a: Vec, b: Vec)
    requires NormSq(Sub(b, a)) == 0.0
    ensures Dot(Sub(p, a), Sub(b, a)) == 0.0
  {
    ZeroLength(Sub(b, a));
    DotZero(Sub(p, a), Sub(b, a));
  }

  /** The closest parameter is the clamped minimiser `D / L` of the quadratic. */
  lemma ClosestParameterFormula(p: Vec, a: Vec, b: Vec)
    ensures var D, L := Dot(Sub(p, a), Sub(b, a)), NormSq(Sub(b, a));
            && (L == 0.0 ==> D == 0.0)
            && ClosestParameter(p, a, b) == (if L == 0.0 then 0.0 else Clamp01(D / L))
  {
    if NormSq(Sub(b, a)) == 0.0 {
      DegenerateDot(p, a, b);
    }
  }

  /** The quadratic of `DistanceToSegmentPoint` is smallest at the closest parameter. */
  lemma ClosestParameterMinimises(p: Vec, a: Vec, b: Vec, s: real)
    requires 0.0 <= s <= 1.0
    ensures var c, A, D, L := ClosestParameter(p, a, b), NormSq(Sub(p, a)), Dot(Sub(p, a), Sub(b, a)), NormSq(Sub(b, a));
            A - 2.0 * c * D + c * c * L <= A - 2.0 * s * D + s * s * L
  {
    ClosestParameterFormula(p, a, b);
    QuadraticGap(NormSq(Sub(p, a)), Dot(Sub(p, a), Sub(b, a)), NormSq(Sub(b, a)), s, ClosestParameter(p, a, b));
  }

  /** The distance is the quadratic evaluated at the closest parameter. */
  lemma DistanceAsQuadratic(p: Vec, a: Vec, b: Vec)
    ensures var c, A, D, L := ClosestParameter(p, a, b), NormSq(Sub(p, a)), Dot(Sub(p, a), Sub(b, a)), NormSq(Sub(b, a));
            DistanceSqToSegment(p, a, b) == A - 2.0 * c * D + c * c * L
  {
    DistanceAttained(p, a, b);
    DistanceToSegmentPoint(p, a, b, ClosestParameter(p, a, b));
  }

  lemma DistanceBelowQuadratic(p: Vec, a: Vec, b: Vec, s: real)
    requires 0.0 <= s <= 1.0
    ensures var A, D, L := NormSq(Sub(p, a)), Dot(Sub(p, a), Sub(b, a)), NormSq(Sub(b, a));
            DistanceSqToSegment(p, a, b) <= A - 2.0 * s * D + s * s * L
  {
    DistanceAsQuadratic(p, a, b);
    ClosestParameterMinimises(p, a, b, s);
  }

  /** The clamped projection gives the shortest distance from `p` to any point of the segment. */
  lemma DistanceIsMinimal(p: Vec, a: Vec, b: Vec, s: real)
    requires 0.0 <= s <= 1.0
    ensures DistanceSqToSegment(p, a, b) <= NormSq(Sub(p, SegmentPoint(a, b, s)))
  {
    DistanceBelowQuadratic(p, a, b, s);
    DistanceToSegmentPoint(p, a, b, s);
  }

  /** Reversing the segment does not change the distance. */
  lemma DistanceSymmetric(p: Vec, a: Vec, b: Vec)
    ensures DistanceSqToSegment(p, a, b) == DistanceSqToSegment(p, b, a)
  {
    var c := ClosestParameter(p, a, b);
    var c' := ClosestParameter(p, b, a);
    DistanceAttained(p, a, b);
    DistanceAttained(p, b, a);
    SegmentPointReversed(a, b, c);
    SegmentPointReversed(b, a, c');
    DistanceIsMinimal(p, b, a, 1.0 - c);
    DistanceIsMinimal(p, a, b, 1.0 - c');
    assert 1.0 - (1.0 - c') == c';
  }

  // ---------------------------------------------------------------------------------------
  // Interception
  // ---------------------------------------------------------------------------------------

  /** `dist < interception_radius`, with `dist` the square root of `DistanceSqToSegment`. */
  predicate InLane(p: Vec, start: Vec, end: Vec, radius: real) {
    0.0 < radius && DistanceSqToSegment(p, start, end) < radius * radius
  }

  /** Comparing squares decides the source's comparison of square roots: for any `dist >= 0`
      whose square is the squared distance, `dist < radius` holds exactly when `InLane` does. */
  lemma {:induction false} InLaneMatchesRootComparison(p: Vec, start: Vec, end: Vec, radius: real, dist: real)
    requires dist >= 0.0 && dist * dist == DistanceSqToSegment(p, start, end)
    ensures dist < radius <==> InLane(p, start, end, radius)
  {
    if 0.0 < radius {
      SquareMonotone(dist, radius);
    }
  }

  /** Index of the first defender, from `from` on, whose distance to the lane is below the radius. */
  function FirstInterceptorFrom(start: Vec, end: Vec, defenders: seq<Player>, radius: real, from: nat): (r: Option<nat>)
    requires from <= |defenders|
    ensures r.Some? ==> from <= r.value < |defenders| && InLane(defenders[r.value].position, start, end, radius)
    ensures r.Some? ==> forall j :: from <= j < r.value ==> !InLane(defenders[j].position, start, end, radius)
    ensures r.None? ==> forall j :: from <= j < |defenders| ==> !InLane(defenders[j].position, start, end, radius)
    decreases |defenders| - from
  {
    if from == |defenders| then None
    else if InLane(defenders[from].position, start, end, radius) then Some(from)
    else FirstInterceptorFrom(start, end, defenders, radius, from + 1)
  }

  /** What `check_interception` answers: whether the pass is intercepted, and by whom. */
  function Interception(start: Vec, end: Vec, defenders: seq<Player>, radius: real): (r: (bool, Option<Player>))
    ensures r.0 <==> r.1.Some?
    ensures r.0 <==> exists j :: 0 <= j < |defenders| && InLane(defenders[j].position, start, end, radius)
    ensures r.0 ==> exists i :: 0 <= i < |defenders| && r.1.value == defenders[i]
                        && InLane(defenders[i].position, start, end, radius)
                        && forall j :: 0 <= j < i ==> !InLane(defenders[j].position, start, end, radius)
  {
    match FirstInterceptorFrom(start, end, defenders, radius, 0)
    case Some(i) => (true, Some(defenders[i]))
    case None => (false, None)
  }

  /** `check_interception`: scans the defenders in roster order and stops at the first one
      whose distance to the passing lane is below the radius. */
  method CheckInterception(start: Vec, end: Vec, defenders: seq<Player>, radius: real)
    returns (intercepted: bool, defender: Option<Player>)
    ensures (intercepted, defender) == Interception(start, end, defenders, radius)
  {
    var i := 0;
    while i < |defenders|
      invariant 0 <= i <= |defenders|
      invariant FirstInterceptorFrom(start, end, defenders, radius, i) == FirstInterceptorFrom(start, end, defenders, radius, 0)
    {
      if InLane(defenders[i].position, start, end, radius) {
        return true, Some(defenders[i]);
      }
      i := i + 1;
    }
    return false, None;
  }

  /** An interceptor, if any, is the first one in roster order; no defender at or beyond the
      radius intercepts, and an empty roster never does. */
  lemma {:induction false} InterceptionIsFirstInLane(start: Vec, end: Vec, defenders: seq<Player>, radius: real, i: nat)
    requires i < |defenders| && InLane(defenders[i].position, start, end, radius)
    requires forall j :: 0 <= j < i ==> !InLane(defenders[j].position, start, end, radius)
    ensures Interception(start, end, defenders, radius) == (true, Some(defenders[i]))
  {
    var r := FirstInterceptorFrom(start, end, defenders, radius, 0);
    assert r.Some?;
    assert r.value == i;
  }
}
