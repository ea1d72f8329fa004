/** The even-odd rule over a closed outline, and the painter's-order rasterisation built on it. */
module PointInPolygon {
  import opened Plane
  import opened RealMath
  import opened Wrappers

  type Polygon = seq<Point>

  /** The edge has one end strictly above the point's height and one end not. */
  predicate Crosses(a: Point, b: Point, p: Point) {
    (a.y > p.y) != (b.y > p.y)
  }

  function Along(start: real, run: real, up: real, rise: real): real
    requires rise != 0.0
  {
    run * up / rise + start
  }

  function Intercept(a: Point, b: Point, p: Point): real {
    var rise := b.y - a.y;
    var denominator := if rise == 0.0 then 1.0 / 1_000_000_000_000_000_000_000_000_000_000.0 else rise;
    Along(a.x, b.x - a.x, p.y - a.y, denominator)
  }

  /** The edge crosses the point's height to the right of the point. */
  predicate Hit(a: Point, b: Point, p: Point) {
    Crosses(a, b, p) && p.x < Intercept(a, b, p)
  }

  /** Strictly left of the directed line from `a` to `b`, which rises: the turn from `a` to `b` to the
      point is to the left. */
  predicate LeftOf(a: Point, b: Point, p: Point) {
    (b.x - a.x) * (p.y - a.y) > (b.y - a.y) * (p.x - a.x)
  }

  /** An edge is hit if and only if the point is at or above its lower end and below its upper one, and
      strictly to the left of it.  No division, and either end may be first. */
  lemma HitExactly(a: Point, b: Point, p: Point)
    ensures Hit(a, b, p) <==>
            || (a.y <= p.y < b.y && LeftOf(a, b, p))
            || (b.y <= p.y < a.y && LeftOf(b, a, p))
  {
    if Crosses(a, b, p) {
      var run, up, rise := b.x - a.x, p.y - a.y, b.y - a.y;
      assert rise != 0.0;
      LeftOfIntercept(run * up, rise, p.x - a.x);
      assert Intercept(a, b, p) == run * up / rise + a.x;
      assert (a.x - b.x) * (p.y - b.y) - (a.y - b.y) * (p.x - b.x) == rise * (p.x - a.x) - run * up by {
        Swapped(run, up, rise, p.x - a.x);
      }
    }
  }

  lemma Swapped(run: real, up: real, rise: real, x: real)
    ensures -run * (up - rise) - -rise * (x - run) == rise * x - run * up
  {
  }

  lemma LeftOfIntercept(product: real, rise: real, x: real)
    requires rise != 0.0
    ensures rise > 0.0 ==> (x < product / rise <==> product > rise * x)
    ensures rise < 0.0 ==> (x < product / rise <==> product < rise * x)
  {
    var q := product / rise;
    assert q * rise == product;
    assert product - rise * x == (q - x) * rise;
    if rise > 0.0 {
      SignOfProduct(q - x, rise);
    } else {
      SignOfProduct(q - x, -rise);
      assert (q - x) * -rise == -((q - x) * rise);
    }
  }

  lemma SignOfProduct(d: real, positive: real)
    requires positive > 0.0
    ensures d * positive > 0.0 <==> d > 0.0
  {
    if d > 0.0 {
      MulPositive(d, positive);
    } else if d < 0.0 {
      MulPositive(-d, positive);
      assert -d * positive == -(d * positive);
    }
  }

  /** How many edges from each vertex to its predecessor, vertex 0 apart, are hit. */
  function PathHits(path: Polygon, p: Point): nat
    decreases |path|
  {
    if |path| < 2 then 0
    else PathHits(path[..|path| - 1], p) + if Hit(path[|path| - 1], path[|path| - 2], p) then 1 else 0
  }

  /** How many edges of the closed outline are hit. */
  function Hits(polygon: Polygon, p: Point): nat {
    if polygon == [] then 0
    else PathHits(polygon, p) + if Hit(polygon[0], polygon[|polygon| - 1], p) then 1 else 0
  }

  predicate Inside(polygon: Polygon, p: Point) {
    Hits(polygon, p) % 2 == 1
  }

  /** All points at once, edge by edge. */
  method PointsInPolygon(points: seq<Point>, polygon: Polygon) returns (inside: array<bool>)
    ensures inside.Length == |points|
    ensures forall k :: 0 <= k < |points| ==> inside[k] == Inside(polygon, points[k])
  {
    inside := new bool[|points|](_ => false);
    var j := |polygon| - 1;
    for i := 0 to |polygon|
      invariant j == if i == 0 then |polygon| - 1 else i - 1
      invariant forall k :: 0 <= k < |points| ==> inside[k] == (HitsUpTo(polygon, points[k], i) % 2 == 1)
    {
      for k := 0 to |points|
        invariant forall m :: 0 <= m < |points| ==>
                    inside[m] == (HitsUpTo(polygon, points[m], if m < k then i + 1 else i) % 2 == 1)
      {
        inside[k] := inside[k] != Hit(polygon[i], polygon[j], points[k]);
      }
      j := i;
    }
    forall k | 0 <= k < |points|
      ensures HitsUpTo(polygon, points[k], |polygon|) == Hits(polygon, points[k])
    {
      AllHits(polygon, points[k], |polygon|);
      assert polygon[..|polygon|] == polygon;
    }
  }

  /** The edges at vertices 0 to n - 1, the closing one first. */
  function HitsUpTo(polygon: Polygon, p: Point, n: nat): nat
    requires n <= |polygon|
  {
    if n == 0 then 0
    else
      var j := if n == 1 then |polygon| - 1 else n - 2;
      HitsUpTo(polygon, p, n - 1) + if Hit(polygon[n - 1], polygon[j], p) then 1 else 0
  }

  lemma {:induction false} AllHits(polygon: Polygon, p: Point, n: nat)
    requires n <= |polygon|
    ensures HitsUpTo(polygon, p, n)
            == if n == 0 then 0
               else PathHits(polygon[..n], p) + if Hit(polygon[0], polygon[|polygon| - 1], p) then 1 else 0
  {
    if n > 1 {
      AllHits(polygon, p, n - 1);
      assert polygon[..n][..n - 1] == polygon[..n - 1];
    }
  }

  // ----------------------------------------------------------- a closed outline crosses evenly

  function PathCrossings(path: Polygon, p: Point): nat
    decreases |path|
  {
    if |path| < 2 then 0
    else PathCrossings(path[..|path| - 1], p) + if Crosses(path[|path| - 1], path[|path| - 2], p) then 1 else 0
  }

  function Crossings(polygon: Polygon, p: Point): nat {
    if polygon == [] then 0
    else PathCrossings(polygon, p) + if Crosses(polygon[0], polygon[|polygon| - 1], p) then 1 else 0
  }

  lemma {:induction false} PathParity(path: Polygon, p: Point)
    requires path != []
    ensures PathCrossings(path, p) % 2 == if Crosses(path[0], path[|path| - 1], p) then 1 else 0
    decreases |path|
  {
    if |path| > 1 {
      var before := path[..|path| - 1];
      PathParity(before, p);
      assert before[|before| - 1] == path[|path| - 2];
    }
  }

  /** Any horizontal line makes an even number of crossings round a closed outline. */
  lemma CrossingsAreEven(polygon: Polygon, p: Point)
    ensures Crossings(polygon, p) % 2 == 0
  {
    if polygon != [] {
      PathParity(polygon, p);
    }
  }

  // -------------------------------------------------------------- outside the bounding box

  ghost predicate Within(polygon: Polygon, xmin: real, ymin: real, xmax: real, ymax: real) {
    forall i :: 0 <= i < |polygon| ==> xmin <= polygon[i].x <= xmax && ymin <= polygon[i].y <= ymax
  }

  lemma AlongIsBetween(start: real, run: real, up: real, rise: real, lo: real, hi: real)
    requires (0.0 <= up <= rise && rise > 0.0) || (rise <= up <= 0.0 && rise < 0.0)
    requires lo <= start <= hi && lo <= start + run <= hi
    ensures lo <= Along(start, run, up, rise) <= hi
  {
    PartOverDivisor(run, up, rise);
  }

  lemma PartOverDivisor(d: real, num: real, den: real)
    requires (0.0 <= num <= den && den > 0.0) || (den <= num <= 0.0 && den < 0.0)
    ensures if d >= 0.0 then 0.0 <= d * num / den <= d else d <= d * num / den <= 0.0
  {
    ShareIsUnit(num, den);
    ProductOverDivisor(d, num, den);
    PartOf(d, num / den);
  }

  lemma PartOf(d: real, t: real)
    requires 0.0 <= t <= 1.0
    ensures if d >= 0.0 then 0.0 <= d * t <= d else d <= d * t <= 0.0
  {
    if d >= 0.0 {
      MulLe(0.0, t, d);
      MulLe(t, 1.0, d);
    } else {
      MulLe(0.0, t, -d);
      MulLe(t, 1.0, -d);
      assert (-d) * t == -(d * t);
    }
  }

  lemma ShareIsUnit(num: real, den: real)
    requires (0.0 <= num <= den && den > 0.0) || (den <= num <= 0.0 && den < 0.0)
    ensures 0.0 <= num / den <= 1.0
  {
    var t := num / den;
    assert t * den == num;
    if den > 0.0 {
      if t < 0.0 { MulLt(t, 0.0, den); }
      if t > 1.0 { MulLt(1.0, t, den); }
    } else {
      if t < 0.0 { MulLt(t, 0.0, -den); }
      if t > 1.0 { MulLt(1.0, t, -den); }
    }
  }

  lemma ProductOverDivisor(a: real, num: real, den: real)
    requires den != 0.0
    ensures a * num / den == a * (num / den)
  {
    var t := num / den;
    assert t * den == num;
    MulAssoc(a, t, den);
    assert (a * t) * den / den == a * t;
  }

  lemma InterceptIsBetween(a: Point, b: Point, p: Point, lo: real, hi: real)
    requires Crosses(a, b, p) && lo <= a.x <= hi && lo <= b.x <= hi
    ensures lo <= Intercept(a, b, p) <= hi
  {
    AlongIsBetween(a.x, b.x - a.x, p.y - a.y, b.y - a.y, lo, hi);
  }

  lemma {:induction false} NoPathHits(path: Polygon, p: Point, xmin: real, ymin: real, xmax: real, ymax: real)
    requires Within(path, xmin, ymin, xmax, ymax)
    requires p.x >= xmax || p.y >= ymax || p.y < ymin
    ensures PathHits(path, p) == 0
    decreases |path|
  {
    if |path| > 1 {
      NoPathHits(path[..|path| - 1], p, xmin, ymin, xmax, ymax);
      NoHit(path[|path| - 1], path[|path| - 2], p, xmin, ymin, xmax, ymax);
    }
  }

  lemma NoHit(a: Point, b: Point, p: Point, xmin: real, ymin: real, xmax: real, ymax: real)
    requires xmin <= a.x <= xmax && ymin <= a.y <= ymax && xmin <= b.x <= xmax && ymin <= b.y <= ymax
    requires p.x >= xmax || p.y >= ymax || p.y < ymin
    ensures !Hit(a, b, p)
  {
    if Crosses(a, b, p) {
      InterceptIsBetween(a, b, p, xmin, xmax);
    }
  }

  lemma {:induction false} AllPathCrossingsHit(path: Polygon, p: Point, xmin: real, ymin: real, xmax: real, ymax: real)
    requires Within(path, xmin, ymin, xmax, ymax) && p.x < xmin
    ensures PathHits(path, p) == PathCrossings(path, p)
    decreases |path|
  {
    if |path| > 1 {
      AllPathCrossingsHit(path[..|path| - 1], p, xmin, ymin, xmax, ymax);
      if Crosses(path[|path| - 1], path[|path| - 2], p) {
        InterceptIsBetween(path[|path| - 1], path[|path| - 2], p, xmin, xmax);
      }
    }
  }

  /** Nothing outside the bounding box, or on its right or upper side, is inside. */
  lemma OutsideTheBoxIsOutside(polygon: Polygon, p: Point, xmin: real, ymin: real, xmax: real, ymax: real)
    requires Within(polygon, xmin, ymin, xmax, ymax)
    requires p.x < xmin || p.x >= xmax || p.y < ymin || p.y >= ymax
    ensures !Inside(polygon, p)
  {
    if polygon != [] {
      var first, last := polygon[0], polygon[|polygon| - 1];
      if p.x < xmin {
        AllPathCrossingsHit(polygon, p, xmin, ymin, xmax, ymax);
        if Crosses(first, last, p) {
          InterceptIsBetween(first, last, p, xmin, xmax);
        }
        assert Hits(polygon, p) == Crossings(polygon, p);
        CrossingsAreEven(polygon, p);
      } else {
        NoPathHits(polygon, p, xmin, ymin, xmax, ymax);
        NoHit(first, last, p, xmin, ymin, xmax, ymax);
      }
    }
  }

  // --------------------------------------------------- the answer is a property of the outline

  lemma HitIsSymmetric(a: Point, b: Point, p: Point)
    ensures Hit(a, b, p) == Hit(b, a, p)
  {
    hide Along;
    if Crosses(a, b, p) {
      AlongBothWays(a.x, a.y, b.x, b.y, p.y);
    }
  }

  lemma AlongShare(start: real, run: real, up: real, rise: real, share: real)
    requires rise != 0.0 && up / rise == share
    ensures Along(start, run, up, rise) == run * share + start
  {
    ProductOverDivisor(run, up, rise);
  }

  lemma ShareFromTheOtherEnd(u: real, v: real, t: real)
    ensures (v - u) * t + u == (u - v) * (1.0 - t) + v
  {
  }

  lemma AlongBothWays(ax: real, ay: real, bx: real, by0: real, y: real)
    requires ay != by0
    ensures Along(ax, bx - ax, y - ay, by0 - ay) == Along(bx, ax - bx, y - by0, ay - by0)
  {
    hide Along;
    var t := (y - ay) / (by0 - ay);
    ComplementaryShares(ay, by0, y);
    AlongShare(ax, bx - ax, y - ay, by0 - ay, t);
    AlongShare(bx, ax - bx, y - by0, ay - by0, 1.0 - t);
    ShareFromTheOtherEnd(ax, bx, t);
  }

  lemma ComplementaryShares(u: real, v: real, y: real)
    requires u != v
    ensures (y - v) / (u - v) == 1.0 - (y - u) / (v - u)
  {
    var d := v - u;
    var t := (y - u) / d;
    assert t * d == y - u;
    assert (1.0 - t) * (u - v) == -d + t * d;
    QuotientIs(y - v, u - v, 1.0 - t);
  }

  lemma QuotientIs(x: real, den: real, q: real)
    requires den != 0.0 && q * den == x
    ensures x / den == q
  {
    assert q * den / den == q;
  }

  lemma {:induction false} PathHitsOfConcat(s: Polygon, t: Polygon, p: Point)
    requires s != [] && t != []
    ensures PathHits(s + t, p)
            == PathHits(s, p) + (if Hit(t[0], s[|s| - 1], p) then 1 else 0) + PathHits(t, p)
    decreases |t|
  {
    var whole, n := s + t, |s| + |t|;
    assert whole[..n - 1] == s + t[..|t| - 1];
    if |t| == 1 {
      assert s + t[..0] == s;
    } else {
      PathHitsOfConcat(s, t[..|t| - 1], p);
    }
  }

  /** Starting the list at another vertex changes nothing. */
  lemma RotationChangesNothing(polygon: Polygon, k: nat, p: Point)
    requires k <= |polygon|
    ensures Hits(polygon[k..] + polygon[..k], p) == Hits(polygon, p)
    ensures Inside(polygon[k..] + polygon[..k], p) == Inside(polygon, p)
  {
    var s, t := polygon[..k], polygon[k..];
    assert polygon == s + t;
    if s == [] || t == [] {
      assert t + s == polygon;
    } else {
      PathHitsOfConcat(s, t, p);
      PathHitsOfConcat(t, s, p);
    }
  }

  function Reversed(path: Polygon): (r: Polygon)
    ensures |r| == |path|
    ensures path != [] ==> r[0] == path[|path| - 1] && r[|r| - 1] == path[0]
    decreases |path|
  {
    if path == [] then [] else [path[|path| - 1]] + Reversed(path[..|path| - 1])
  }

  lemma {:induction false} ReversedPathHits(path: Polygon, p: Point)
    ensures PathHits(Reversed(path), p) == PathHits(path, p)
    decreases |path|
  {
    if |path| > 1 {
      var before, last := path[..|path| - 1], path[|path| - 1];
      ReversedPathHits(before, p);
      PathHitsOfConcat([last], Reversed(before), p);
      HitIsSymmetric(last, path[|path| - 2], p);
    }
  }

  /** Neither does going round the other way. */
  lemma ReversalChangesNothing(polygon: Polygon, p: Point)
    ensures Hits(Reversed(polygon), p) == Hits(polygon, p)
    ensures Inside(Reversed(polygon), p) == Inside(polygon, p)
  {
    if polygon != [] {
      ReversedPathHits(polygon, p);
      HitIsSymmetric(polygon[0], polygon[|polygon| - 1], p);
    }
  }

  /** A chord from the last vertex of `s` to its first cuts the outline in two; a point is inside
      the whole exactly when it is inside one part and not the other. */
  lemma ChordSplitsTheOutline(s: Polygon, t: Polygon, p: Point)
    requires s != [] && t != []
    ensures Inside(s + t, p) <==> Inside(s, p) != Inside([s[|s| - 1]] + t + [s[0]], p)
  {
    hide Hit, PathHits;
    var first, last := s[0], s[|s| - 1];
    var cap := [last] + t;
    var rest := cap + [first];
    PathHitsOfConcat(s, t, p);
    PathHitsOfConcat([last], t, p);
    PathHitsOfConcat(cap, [first], p);
    OneVertex(last, p);
    OneVertex(first, p);
    HitIsSymmetric(first, t[|t| - 1], p);
    HitIsSymmetric(first, last, p);
    HitIsSymmetric(t[0], last, p);
    assert (s + t)[0] == first && (s + t)[|s + t| - 1] == t[|t| - 1];
    assert rest[0] == last && rest[|rest| - 1] == first && cap[|cap| - 1] == t[|t| - 1];
  }

  lemma OneVertex(q: Point, p: Point)
    ensures PathHits([q], p) == 0
  {
  }

  /** An axis-aligned rectangle holds exactly its half-open box. */
  lemma RectangleIsHalfOpen(x0: real, y0: real, x1: real, y1: real, p: Point)
    requires x0 < x1 && y0 < y1
    ensures Inside([Point(x0, y0), Point(x1, y0), Point(x1, y1), Point(x0, y1)], p)
            <==> x0 <= p.x < x1 && y0 <= p.y < y1
  {
    var a, b, c, d := Point(x0, y0), Point(x1, y0), Point(x1, y1), Point(x0, y1);
    VerticalEdge(x1, y0, y1, p);
    VerticalEdge(x0, y0, y1, p);
    HitIsSymmetric(a, d, p);
    assert !Hit(b, a, p) && !Hit(d, c, p);
    FourHits(a, b, c, d, p);
  }

  lemma VerticalEdge(x: real, y0: real, y1: real, p: Point)
    requires y0 < y1
    ensures Hit(Point(x, y1), Point(x, y0), p) <==> y0 <= p.y < y1 && p.x < x
  {
  }

  lemma FourHits(a: Point, b: Point, c: Point, d: Point, p: Point)
    ensures Hits([a, b, c, d], p)
            == (if Hit(b, a, p) then 1 else 0) + (if Hit(c, b, p) then 1 else 0)
               + (if Hit(d, c, p) then 1 else 0) + (if Hit(a, d, p) then 1 else 0)
  {
    hide Hit;
    var all := [a, b, c, d];
    assert all[..3] == [a, b, c] && all[..3][..2] == [a, b] && all[..3][..2][..1] == [a];
    assert PathHits([a], p) == 0;
    assert PathHits([a, b], p) == if Hit(b, a, p) then 1 else 0;
    assert PathHits([a, b, c], p) == PathHits([a, b], p) + if Hit(c, b, p) then 1 else 0;
  }

  // -------------------------------------------------------------------------- rasterisation

  datatype Region = Region(shape: Polygon, material: map<string, real>)

  function Property(material: map<string, real>, key: string, otherwise: real): real {
    if key in material then material[key] else otherwise
  }

  /** The last of the first `n` regions that covers the point. */
  ghost predicate IsTopmost(regions: seq<Region>, n: nat, p: Point, top: Option<nat>)
    requires n <= |regions|
  {
    match top
    case None => forall r :: 0 <= r < n ==> !Inside(regions[r].shape, p)
    case Some(k) => k < n && Inside(regions[k].shape, p) && forall r :: k < r < n ==> !Inside(regions[r].shape, p)
  }

  function Topmost(regions: seq<Region>, n: nat, p: Point): (top: Option<nat>)
    requires n <= |regions|
    ensures IsTopmost(regions, n, p, top)
  {
    if n == 0 then None
    else if Inside(regions[n - 1].shape, p) then Some(n - 1)
    else Topmost(regions, n - 1, p)
  }

  function MaterialUpTo(
    background: map<string, real>, regions: seq<Region>, n: nat, key: string, otherwise: real, p: Point): real
    requires n <= |regions|
  {
    match Topmost(regions, n, p)
    case None => Property(background, key, otherwise)
    case Some(k) => Property(regions[k].material, key, otherwise)
  }

  /** What the region list says at a point: the topmost region's material, and the default where
      that material does not know the property, not the region below. */
  function MaterialAt(
    background: map<string, real>, regions: seq<Region>, key: string, otherwise: real, p: Point): real
  {
    MaterialUpTo(background, regions, |regions|, key, otherwise, p)
  }

  lemma PaintedOver(
    background: map<string, real>, regions: seq<Region>, n: nat, key: string, otherwise: real, p: Point)
    requires n < |regions|
    ensures MaterialUpTo(background, regions, n + 1, key, otherwise, p)
            == if Inside(regions[n].shape, p) then Property(regions[n].material, key, otherwise)
               else MaterialUpTo(background, regions, n, key, otherwise, p)
  {
  }

  /** Region by region, later ones over earlier ones. */
  method RasterizeRegions(
    background: map<string, real>, regions: seq<Region>, points: seq<Point>, key: string, otherwise: real)
    returns (out: array<real>)
    ensures out.Length == |points|
    ensures forall k :: 0 <= k < |points| ==> out[k] == MaterialAt(background, regions, key, otherwise, points[k])
    ensures forall k :: 0 <= k < |points| ==>
              && ((forall r :: 0 <= r < |regions| ==> !Inside(regions[r].shape, points[k])) ==>
                    out[k] == if key in background then background[key] else otherwise)
              && (forall r :: 0 <= r < |regions| && IsTopmost(regions, |regions|, points[k], Some(r)) ==>
                    out[k] == if key in regions[r].material then regions[r].material[key] else otherwise)
  {
    hide Inside;
    out := new real[|points|](_ => Property(background, key, otherwise));
    for r := 0 to |regions|
      invariant forall k :: 0 <= k < |points| ==>
                  out[k] == MaterialUpTo(background, regions, r, key, otherwise, points[k])
    {
      var covered := PointsInPolygon(points, regions[r].shape);
      var mask := covered[..];
      for k := 0 to |points|
        invariant forall m :: 0 <= m < |points| ==>
                    out[m] == MaterialUpTo(background, regions, if m < k then r + 1 else r, key, otherwise, points[m])
      {
        PaintedOver(background, regions, r, key, otherwise, points[k]);
        if mask[k] {
          out[k] := Property(regions[r].material, key, otherwise);
        }
      }
    }
  }
}
