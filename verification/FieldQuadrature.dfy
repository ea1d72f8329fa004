/** Field queries: integrals and means over a triangulation, integrals over a lattice, and extrema.
    Each is computed one way and shown equal to what it stands for computed another. */
module FieldQuadrature {
  import opened Plane
  import opened RealMath
  import opened Sums
  import opened Wrappers

  // --------------------------------------------------------------------------- triangulations

  type Corners = s: seq<nat> | |s| == 3 witness [0, 0, 0]

  datatype Mesh = Mesh(points: seq<Point>, triangles: seq<Corners>)

  /** A well-formed result: corners are nodes, and there is one value for each node. */
  predicate Fits(mesh: Mesh, values: seq<real>) {
    && |values| == |mesh.points|
    && forall t, c :: 0 <= t < |mesh.triangles| && 0 <= c < 3 ==> mesh.triangles[t][c] < |mesh.points|
  }

  function TriangleArea(mesh: Mesh, t: nat): (area: real)
    requires t < |mesh.triangles|
    requires forall c :: 0 <= c < 3 ==> mesh.triangles[t][c] < |mesh.points|
    ensures area >= 0.0
  {
    var corners := mesh.triangles[t];
    AreaOf(mesh.points[corners[0]], mesh.points[corners[1]], mesh.points[corners[2]])
  }

  function AreaOf(p: Point, q: Point, r: Point): (area: real)
    ensures area >= 0.0
  {
    Spanned(q.x - p.x, q.y - p.y, r.x - p.x, r.y - p.y)
  }

  function Spanned(ux: real, uy: real, vx: real, vy: real): (area: real)
    ensures area >= 0.0
  {
    0.5 * Abs(ux * vy - uy * vx)
  }

  // Four laws that only the area has: it does not depend on the order of the corners or on where the
  // triangle lies, a base along an axis times the height is twice it, and a cut from a corner to the
  // opposite side splits it in two.

  lemma AreaIgnoresOrder(p: Point, q: Point, r: Point)
    ensures AreaOf(p, q, r) == AreaOf(q, r, p) == AreaOf(q, p, r)
  {
    var cross := (q.x - p.x) * (r.y - p.y) - (q.y - p.y) * (r.x - p.x);
    assert (r.x - q.x) * (p.y - q.y) - (r.y - q.y) * (p.x - q.x) == cross;
    assert (p.x - q.x) * (r.y - q.y) - (p.y - q.y) * (r.x - q.x) == -cross;
  }

  lemma AreaMovesAlong(p: Point, q: Point, r: Point, dx: real, dy: real)
    ensures AreaOf(Point(p.x + dx, p.y + dy), Point(q.x + dx, q.y + dy), Point(r.x + dx, r.y + dy)) == AreaOf(p, q, r)
  {
    hide Spanned;
    assert (q.x + dx) - (p.x + dx) == q.x - p.x && (r.y + dy) - (p.y + dy) == r.y - p.y;
    assert (q.y + dy) - (p.y + dy) == q.y - p.y && (r.x + dx) - (p.x + dx) == r.x - p.x;
  }

  lemma AreaIsHalfBaseTimesHeight(x0: real, x1: real, apex: Point, y: real)
    requires x0 <= x1
    ensures 2.0 * AreaOf(Point(x0, y), Point(x1, y), apex) == (x1 - x0) * if apex.y >= y then apex.y - y else y - apex.y
  {
    SpannedByBase(x1 - x0, apex.x - x0, apex.y - y);
    hide Spanned;
    assert y - y == 0.0;
  }

  lemma SpannedByBase(base: real, vx: real, vy: real)
    requires base >= 0.0
    ensures 2.0 * Spanned(base, 0.0, vx, vy) == base * if vy >= 0.0 then vy else -vy
  {
    AbsScales(base, vy);
  }

  lemma NonNegative(a: real, b: real)
    requires a >= 0.0 && b >= 0.0
    ensures a * b >= 0.0
  {
  }

  lemma AreaSplits(p: Point, q: Point, r: Point, t: real)
    requires 0.0 <= t <= 1.0
    ensures var s := Point(q.x + t * (r.x - q.x), q.y + t * (r.y - q.y));
            AreaOf(p, q, s) + AreaOf(p, s, r) == AreaOf(p, q, r)
  {
    var s := Point(q.x + t * (r.x - q.x), q.y + t * (r.y - q.y));
    var ux, uy, vx, vy := q.x - p.x, q.y - p.y, r.x - p.x, r.y - p.y;
    assert vx - ux == r.x - q.x && vy - uy == r.y - q.y;
    assert s.x - p.x == ux + t * (vx - ux) && s.y - p.y == uy + t * (vy - uy);
    SpannedSplits(ux, uy, vx, vy, t, s.x - p.x, s.y - p.y);
    hide Spanned;
  }

  lemma SpannedSplits(ux: real, uy: real, vx: real, vy: real, t: real, sx: real, sy: real)
    requires 0.0 <= t <= 1.0
    requires sx == ux + t * (vx - ux) && sy == uy + t * (vy - uy)
    ensures Spanned(ux, uy, sx, sy) + Spanned(sx, sy, vx, vy) == Spanned(ux, uy, vx, vy)
  {
    CrossOfSplit(ux, uy, vx, vy, t, sx, sy);
    var cross := ux * vy - uy * vx;
    AbsSplits(t, cross);
    hide Abs;
    assert ux * sy - uy * sx == t * cross;
    assert sx * vy - sy * vx == (1.0 - t) * cross;
  }

  lemma AbsSplits(t: real, x: real)
    requires 0.0 <= t <= 1.0
    ensures Abs(t * x) + Abs((1.0 - t) * x) == Abs(x)
  {
    AbsScales(t, x);
    AbsScales(1.0 - t, x);
  }

  lemma CrossOfSplit(ux: real, uy: real, vx: real, vy: real, t: real, sx: real, sy: real)
    requires sx == ux + t * (vx - ux) && sy == uy + t * (vy - uy)
    ensures ux * sy - uy * sx == t * (ux * vy - uy * vx)
    ensures sx * vy - sy * vx == (1.0 - t) * (ux * vy - uy * vx)
  {
    assert ux * sy == ux * uy + t * (ux * vy) - t * (ux * uy);
    assert uy * sx == uy * ux + t * (uy * vx) - t * (uy * ux);
    assert sx * vy == ux * vy + t * (vx * vy) - t * (ux * vy);
    assert sy * vx == uy * vx + t * (vy * vx) - t * (uy * vx);
  }

  lemma AbsScales(t: real, x: real)
    requires t >= 0.0
    ensures Abs(t * x) == t * Abs(x)
  {
    NonNegative(t, Abs(x));
    if x < 0.0 {
      assert t * x == -(t * Abs(x));
    }
  }

  function Total(weights: seq<real>): real
    decreases |weights|
  {
    if weights == [] then 0.0 else Total(weights[..|weights| - 1]) + weights[|weights| - 1]
  }

  function Dot(values: seq<real>, weights: seq<real>): real
    requires |values| == |weights|
    decreases |values|
  {
    if values == [] then 0.0
    else
      var n := |values| - 1;
      Dot(values[..n], weights[..n]) + values[n] * weights[n]
  }

  /** The weights once corner `c` of the first `n` triangles has had its third of each area. */
  function Scattered(mesh: Mesh, weights: seq<real>, c: nat, n: nat): (after: seq<real>)
    requires Fits(mesh, weights) && c < 3 && n <= |mesh.triangles|
    ensures |after| == |weights|
  {
    if n == 0 then weights
    else
      var before := Scattered(mesh, weights, c, n - 1);
      var node := mesh.triangles[n - 1][c];
      before[node := before[node] + TriangleArea(mesh, n - 1) / 3.0]
  }

  function Zeros(n: nat): seq<real> {
    seq(n, _ => 0.0)
  }

  /** Dual areas: each triangle gives a third of itself to each of its corners. */
  function NodalWeights(mesh: Mesh): (weights: seq<real>)
    requires Fits(mesh, Zeros(|mesh.points|))
    ensures |weights| == |mesh.points|
  {
    var n := |mesh.triangles|;
    Scattered(mesh, Scattered(mesh, Scattered(mesh, Zeros(|mesh.points|), 0, n), 1, n), 2, n)
  }

  method ComputeNodalWeights(mesh: Mesh) returns (weights: array<real>)
    requires Fits(mesh, Zeros(|mesh.points|))
    ensures weights[..] == NodalWeights(mesh)
  {
    weights := new real[|mesh.points|](_ => 0.0);
    assert weights[..] == Zeros(|mesh.points|);
    var n := |mesh.triangles|;
    ghost var start := weights[..];
    ScatterCorner(mesh, weights, 0);
    ScatterCorner(mesh, weights, 1);
    ScatterCorner(mesh, weights, 2);
  }

  /** One unbuffered scatter-add over all triangles. */
  method ScatterCorner(mesh: Mesh, weights: array<real>, c: nat)
    requires Fits(mesh, weights[..]) && c < 3
    modifies weights
    ensures weights[..] == Scattered(mesh, old(weights[..]), c, |mesh.triangles|)
  {
    for t := 0 to |mesh.triangles|
      invariant weights[..] == Scattered(mesh, old(weights[..]), c, t)
    {
      var node := mesh.triangles[t][c];
      weights[node] := weights[node] + TriangleArea(mesh, t) / 3.0;
    }
  }

  /** The sum over the first `n` triangles of area times the mean of the corner values. */
  function MeshIntegral(mesh: Mesh, values: seq<real>, n: nat): real
    requires Fits(mesh, values) && n <= |mesh.triangles|
  {
    if n == 0 then 0.0
    else
      var k := mesh.triangles[n - 1];
      MeshIntegral(mesh, values, n - 1)
      + (values[k[0]] + values[k[1]] + values[k[2]]) / 3.0 * TriangleArea(mesh, n - 1)
  }

  function MeshArea(mesh: Mesh, n: nat): (area: real)
    requires Fits(mesh, Zeros(|mesh.points|)) && n <= |mesh.triangles|
    ensures area >= 0.0
  {
    if n == 0 then 0.0 else MeshArea(mesh, n - 1) + TriangleArea(mesh, n - 1)
  }

  /** A rectangle cut along a diagonal has the rectangle's area, and a field affine in the position
      integrates to that area times its value at the centre. */
  lemma RectangleOfTwoTriangles(
    mesh: Mesh, values: seq<real>, x: real, y: real, w: real, h: real, a: real, b: real, c: real)
    requires w >= 0.0 && h >= 0.0
    requires mesh == Mesh([Point(x, y), Point(x + w, y), Point(x + w, y + h), Point(x, y + h)], [[0, 1, 2], [0, 2, 3]])
    requires values == [c, c + a, c + a + b, c + b]
    ensures Fits(mesh, values)
    ensures MeshArea(mesh, 2) == w * h
    ensures MeshIntegral(mesh, values, 2) == w * h * (c + (a + b) / 2.0)
  {
    assert TriangleArea(mesh, 0) == 0.5 * (w * h) by {
      SpannedByBase(w, w, h);
    }
    assert TriangleArea(mesh, 1) == 0.5 * (w * h) by {
      HalfRectangle(w, h);
    }
    hide TriangleArea;
    assert MeshArea(mesh, 1) == MeshArea(mesh, 0) + TriangleArea(mesh, 0);
    assert MeshIntegral(mesh, values, 1) == (c + (c + a) + (c + a + b)) / 3.0 * TriangleArea(mesh, 0);
    assert MeshIntegral(mesh, values, 2)
        == MeshIntegral(mesh, values, 1) + (c + (c + a + b) + (c + b)) / 3.0 * TriangleArea(mesh, 1);
    AtTheCentre(w * h, a, b, c);
  }

  lemma HalfRectangle(w: real, h: real)
    requires w >= 0.0 && h >= 0.0
    ensures Spanned(w, h, 0.0, h) == 0.5 * (w * h)
  {
    NonNegative(w, h);
  }

  lemma AtTheCentre(area: real, a: real, b: real, c: real)
    ensures (c + (c + a) + (c + a + b)) / 3.0 * (0.5 * area) + (c + (c + a + b) + (c + b)) / 3.0 * (0.5 * area)
            == area * (c + (a + b) / 2.0)
  {
  }

  /** One corner's share of the integral. */
  function CornerSum(mesh: Mesh, values: seq<real>, c: nat, n: nat): real
    requires Fits(mesh, values) && c < 3 && n <= |mesh.triangles|
  {
    if n == 0 then 0.0
    else CornerSum(mesh, values, c, n - 1)
         + values[mesh.triangles[n - 1][c]] * (TriangleArea(mesh, n - 1) / 3.0)
  }

  lemma {:induction false} DotUpdated(values: seq<real>, weights: seq<real>, i: nat, x: real)
    requires |values| == |weights| && i < |weights|
    ensures Dot(values, weights[i := weights[i] + x]) == Dot(values, weights) + values[i] * x
    decreases |values|
  {
    var n := |values| - 1;
    var after := weights[i := weights[i] + x];
    if i == n {
      assert after[..n] == weights[..n];
      Distributes(values[i], weights[i], x);
    } else {
      assert after[..n] == weights[..n][i := weights[..n][i] + x];
      DotUpdated(values[..n], weights[..n], i, x);
    }
  }

  lemma {:induction false} DotScattered(mesh: Mesh, values: seq<real>, weights: seq<real>, c: nat, n: nat)
    requires Fits(mesh, values) && Fits(mesh, weights) && c < 3 && n <= |mesh.triangles|
    ensures Dot(values, Scattered(mesh, weights, c, n)) == Dot(values, weights) + CornerSum(mesh, values, c, n)
  {
    hide Dot, TriangleArea;
    if n > 0 {
      DotScattered(mesh, values, weights, c, n - 1);
      DotUpdated(values, Scattered(mesh, weights, c, n - 1), mesh.triangles[n - 1][c],
                 TriangleArea(mesh, n - 1) / 3.0);
    }
  }

  lemma {:induction false} DotZeros(values: seq<real>)
    ensures Dot(values, Zeros(|values|)) == 0.0
    decreases |values|
  {
    if values != [] {
      var n := |values| - 1;
      assert Zeros(|values|)[..n] == Zeros(n);
      DotZeros(values[..n]);
    }
  }

  lemma MeanOfCorners(u: real, v: real, w: real, area: real)
    ensures (u + v + w) / 3.0 * area == u * (area / 3.0) + v * (area / 3.0) + w * (area / 3.0)
  {
  }

  lemma {:induction false} CornersMakeIntegral(mesh: Mesh, values: seq<real>, n: nat)
    requires Fits(mesh, values) && n <= |mesh.triangles|
    ensures MeshIntegral(mesh, values, n)
            == CornerSum(mesh, values, 0, n) + CornerSum(mesh, values, 1, n) + CornerSum(mesh, values, 2, n)
  {
    hide TriangleArea;
    if n > 0 {
      CornersMakeIntegral(mesh, values, n - 1);
      var k := mesh.triangles[n - 1];
      MeanOfCorners(values[k[0]], values[k[1]], values[k[2]], TriangleArea(mesh, n - 1));
    }
  }

  /** Summing triangle by triangle is summing node by node with dual-area weights. */
  lemma IntegralIsWeightedSum(mesh: Mesh, values: seq<real>)
    requires Fits(mesh, values)
    ensures MeshIntegral(mesh, values, |mesh.triangles|) == Dot(values, NodalWeights(mesh))
  {
    hide Dot, TriangleArea, CornerSum, MeshIntegral;
    var n, w0 := |mesh.triangles|, Zeros(|mesh.points|);
    var w1 := Scattered(mesh, w0, 0, n);
    var w2 := Scattered(mesh, w1, 1, n);
    DotZeros(values);
    DotScattered(mesh, values, w0, 0, n);
    DotScattered(mesh, values, w1, 1, n);
    DotScattered(mesh, values, w2, 2, n);
    CornersMakeIntegral(mesh, values, n);
  }

  function Ones(n: nat): seq<real> {
    seq(n, _ => 1.0)
  }

  lemma {:induction false} DotOnes(weights: seq<real>)
    ensures Dot(Ones(|weights|), weights) == Total(weights)
    decreases |weights|
  {
    if weights != [] {
      var n := |weights| - 1;
      assert Ones(|weights|)[..n] == Ones(n);
      DotOnes(weights[..n]);
    }
  }

  lemma {:induction false} IntegralOfOneIsArea(mesh: Mesh, n: nat)
    requires Fits(mesh, Ones(|mesh.points|)) && n <= |mesh.triangles|
    ensures MeshIntegral(mesh, Ones(|mesh.points|), n) == MeshArea(mesh, n)
  {
    hide TriangleArea;
    if n > 0 {
      IntegralOfOneIsArea(mesh, n - 1);
    }
  }

  /** The dual areas add up to the area of the mesh. */
  lemma WeightsSumToArea(mesh: Mesh)
    requires Fits(mesh, Ones(|mesh.points|))
    ensures Total(NodalWeights(mesh)) == MeshArea(mesh, |mesh.triangles|)
  {
    IntegralIsWeightedSum(mesh, Ones(|mesh.points|));
    IntegralOfOneIsArea(mesh, |mesh.triangles|);
    DotOnes(NodalWeights(mesh));
  }

  /** None when the mesh has no area: nothing to average over. */
  function MeshMean(mesh: Mesh, values: seq<real>): Option<real>
    requires Fits(mesh, values)
  {
    var total := Total(NodalWeights(mesh));
    if total <= 0.0 then None else Some(Dot(values, NodalWeights(mesh)) / total)
  }

  lemma {:induction false} ScatteredIsNonNegative(mesh: Mesh, weights: seq<real>, c: nat, n: nat)
    requires Fits(mesh, weights) && c < 3 && n <= |mesh.triangles|
    requires forall i :: 0 <= i < |weights| ==> weights[i] >= 0.0
    ensures forall i :: 0 <= i < |weights| ==> Scattered(mesh, weights, c, n)[i] >= 0.0
  {
    if n > 0 {
      ScatteredIsNonNegative(mesh, weights, c, n - 1);
    }
  }

  /** The sum lies between what the extreme values would give for the same total weight. */
  predicate Between(lo: real, hi: real, total: real, sum: real) {
    lo * total <= sum <= hi * total
  }

  lemma OneMoreTerm(lo: real, hi: real, total: real, sum: real, value: real, weight: real)
    requires Between(lo, hi, total, sum) && lo <= value <= hi && weight >= 0.0
    ensures Between(lo, hi, total + weight, sum + value * weight)
  {
    MulLe(lo, value, weight);
    MulLe(value, hi, weight);
    Distributes(lo, total, weight);
    Distributes(hi, total, weight);
  }

  lemma {:induction false} DotIsBetween(values: seq<real>, weights: seq<real>, lo: real, hi: real)
    requires |values| == |weights|
    requires forall i :: 0 <= i < |values| ==> lo <= values[i] <= hi && weights[i] >= 0.0
    ensures Between(lo, hi, Total(weights), Dot(values, weights))
    decreases |values|
  {
    if values != [] {
      hide Between;
      var n := |values| - 1;
      DotIsBetween(values[..n], weights[..n], lo, hi);
      OneMoreTerm(lo, hi, Total(weights[..n]), Dot(values[..n], weights[..n]), values[n], weights[n]);
    }
  }

  lemma WeightsAreNonNegative(mesh: Mesh)
    requires Fits(mesh, Zeros(|mesh.points|))
    ensures forall i :: 0 <= i < |NodalWeights(mesh)| ==> NodalWeights(mesh)[i] >= 0.0
  {
    var n, w0 := |mesh.triangles|, Zeros(|mesh.points|);
    var w1 := Scattered(mesh, w0, 0, n);
    ScatteredIsNonNegative(mesh, w0, 0, n);
    ScatteredIsNonNegative(mesh, w1, 1, n);
    ScatteredIsNonNegative(mesh, Scattered(mesh, w1, 1, n), 2, n);
  }

  lemma QuotientBetween(lo: real, sum: real, hi: real, total: real)
    requires total > 0.0 && Between(lo, hi, total, sum)
    ensures lo <= sum / total <= hi && sum / total * total == sum
  {
    var q := sum / total;
    assert q * total == sum;
    if q < lo {
      MulLt(q, lo, total);
    }
    if q > hi {
      MulLt(hi, q, total);
    }
  }

  /** Where the extremum query finds its value: the first index nothing exceeds. */
  predicate IsExtremum(values: seq<real>, valid: seq<bool>, pick: nat, minimum: bool)
    requires |valid| == |values|
  {
    && pick < |values| && valid[pick]
    && forall i :: 0 <= i < |values| && valid[i] ==>
         if minimum then values[pick] < values[i] || (values[pick] == values[i] && pick <= i)
         else values[pick] > values[i] || (values[pick] == values[i] && pick <= i)
  }

  /** The mean exists exactly when the mesh has area; then mean times area is the integral, and
      the mean lies between the two extrema. */
  lemma MeanTimesAreaIsIntegral(mesh: Mesh, values: seq<real>, least: nat, greatest: nat)
    requires Fits(mesh, values)
    requires var valid := seq(|values|, _ => true);
             IsExtremum(values, valid, least, true) && IsExtremum(values, valid, greatest, false)
    ensures MeshMean(mesh, values).Some? <==> MeshArea(mesh, |mesh.triangles|) > 0.0
    ensures MeshMean(mesh, values).Some? ==>
              var mean := MeshMean(mesh, values).value;
              && mean * MeshArea(mesh, |mesh.triangles|) == MeshIntegral(mesh, values, |mesh.triangles|)
              && values[least] <= mean <= values[greatest]
  {
    var lo, hi := values[least], values[greatest];
    assert forall i :: 0 <= i < |values| ==> lo <= values[i] <= hi by {
      var valid := seq(|values|, _ => true);
      assert forall i :: 0 <= i < |values| ==> valid[i];
    }
    hide *;
    MeanIsBetween(mesh, values, lo, hi);
  }

  lemma MeanIsBetween(mesh: Mesh, values: seq<real>, lo: real, hi: real)
    requires Fits(mesh, values) && forall i :: 0 <= i < |values| ==> lo <= values[i] <= hi
    ensures MeshMean(mesh, values).Some? <==> MeshArea(mesh, |mesh.triangles|) > 0.0
    ensures MeshMean(mesh, values).Some? ==>
              var mean := MeshMean(mesh, values).value;
              && mean * MeshArea(mesh, |mesh.triangles|) == MeshIntegral(mesh, values, |mesh.triangles|)
              && lo <= mean <= hi
  {
    hide TriangleArea, MeshIntegral, MeshArea, Scattered, NodalWeights, Dot, Total;
    WeightsSumToArea(mesh);
    IntegralIsWeightedSum(mesh, values);
    WeightsAreNonNegative(mesh);
    var weights := NodalWeights(mesh);
    DotIsBetween(values, weights, lo, hi);
    if Total(weights) > 0.0 {
      QuotientBetween(lo, Dot(values, weights), hi, Total(weights));
    }
  }

  /** The extremum query: None when no point is inside the solved domain. */
  method Extremum(values: seq<real>, valid: seq<bool>, minimum: bool) returns (pick: Option<nat>)
    requires |valid| == |values|
    ensures match pick
            case None => forall i :: 0 <= i < |values| ==> !valid[i]
            case Some(i) => IsExtremum(values, valid, i, minimum)
    ensures pick.Some? ==>
              && pick.value < |values| && valid[pick.value]
              && forall j :: 0 <= j < |values| && valid[j] ==>
                   && (minimum ==> values[pick.value] <= values[j])
                   && (!minimum ==> values[pick.value] >= values[j])
                   && (j < pick.value ==> values[pick.value] != values[j])
  {
    pick := None;
    for i := 0 to |values|
      invariant match pick
                case None => forall j :: 0 <= j < i ==> !valid[j]
                case Some(p) => p < i && IsExtremum(values[..i], valid[..i], p, minimum)
    {
      if valid[i]
         && (pick.None? || if minimum then values[i] < values[pick.value] else values[i] > values[pick.value]) {
        pick := Some(i);
      }
    }
    assert values[..|values|] == values && valid[..|values|] == valid;
  }

  // --------------------------------------------------------------------------------- lattices

  /** Values at the ny by nx points of a uniform lattice over the bounds. */
  datatype Lattice = Lattice(ny: nat, nx: nat, xmin: real, ymin: real, xmax: real, ymax: real)

  function AxisWeight(n: nat, i: int): real {
    if n > 1 && (i == 0 || i == n - 1) then 0.5 else 1.0
  }

  method AxisWeights(n: nat) returns (w: array<real>)
    requires n > 0
    ensures w.Length == n && forall i :: 0 <= i < n ==> w[i] == AxisWeight(n, i)
    ensures n == 1 ==> w[0] == 1.0
    ensures n > 1 ==> w[0] == 0.5 && w[n - 1] == 0.5
    ensures forall i :: 0 < i < n - 1 ==> w[i] == 1.0
  {
    w := new real[n](_ => 1.0);
    if n > 1 {
      w[0], w[n - 1] := 0.5, 0.5;
    }
  }

  function WeightedAt(g: Lattice, values: Term, i: int, j: int): real {
    values(i, j) * (AxisWeight(g.ny, i) * AxisWeight(g.nx, j))
  }

  /** The sum over all lattice points of value times quadrature weight. */
  function WeightedSum(g: Lattice, values: Term): real {
    GridSum((i: int, j: int) => WeightedAt(g, values, i, j), 0, g.ny, 0, g.nx)
  }

  /** None below a 2 by 2 lattice: an integral needs a cell. */
  function CellArea(g: Lattice): Option<real> {
    if g.nx < 2 || g.ny < 2 then None
    else Some(((g.xmax - g.xmin) / (g.nx - 1) as real) * ((g.ymax - g.ymin) / (g.ny - 1) as real))
  }

  /** Points outside the solved domain weigh nothing. */
  function LiveAt(values: Term, valid: (int, int) -> bool, i: int, j: int): real {
    if valid(i, j) then values(i, j) else 0.0
  }

  const One: Term := (i: int, j: int) => 1.0

  function LiveSum(g: Lattice, values: Term, valid: (int, int) -> bool): real {
    WeightedSum(g, (i: int, j: int) => LiveAt(values, valid, i, j))
  }

  /** The integral query's value and area. */
  function GridIntegral(g: Lattice, values: Term, valid: (int, int) -> bool): Option<(real, real)> {
    match CellArea(g)
    case None => None
    case Some(cell) =>
      Some((Times(LiveSum(g, values, valid), cell), Times(LiveSum(g, One, valid), cell)))
  }

  /** With a mask the value is that of the field that is the given one inside the solved domain and
      nothing outside, and the area that of the field that is one inside. */
  lemma MaskedIntegralIsOfLive(g: Lattice, values: Term, valid: (int, int) -> bool, live: Term, inside: Term)
    requires forall i, j :: 0 <= i < g.ny && 0 <= j < g.nx ==> live(i, j) == if valid(i, j) then values(i, j) else 0.0
    requires forall i, j :: 0 <= i < g.ny && 0 <= j < g.nx ==> inside(i, j) == if valid(i, j) then 1.0 else 0.0
    ensures var everywhere := (i: int, j: int) => true;
            var masked := GridIntegral(g, values, valid);
            && (masked.Some? <==> g.nx >= 2 && g.ny >= 2)
            && (masked.Some? ==>
                  && GridIntegral(g, live, everywhere).Some? && GridIntegral(g, inside, everywhere).Some?
                  && masked.value.0 == GridIntegral(g, live, everywhere).value.0
                  && masked.value.1 == GridIntegral(g, inside, everywhere).value.0)
  {
    var everywhere := (i: int, j: int) => true;
    SameLiveSum(g, values, valid, live, everywhere);
    SameLiveSum(g, One, valid, inside, everywhere);
    hide LiveSum, Times;
  }

  lemma SameLiveSum(g: Lattice, left: Term, valid: (int, int) -> bool, right: Term, other: (int, int) -> bool)
    requires forall i, j :: 0 <= i < g.ny && 0 <= j < g.nx ==> LiveAt(left, valid, i, j) == LiveAt(right, other, i, j)
    ensures LiveSum(g, left, valid) == LiveSum(g, right, other)
  {
    var f, h: Term := (i: int, j: int) => LiveAt(left, valid, i, j), (i: int, j: int) => LiveAt(right, other, i, j);
    forall i, j | 0 <= i < g.ny && 0 <= j < g.nx
      ensures WeightedAt(g, f, i, j) == WeightedAt(g, h, i, j)
    {
    }
    GridSumEqual((i: int, j: int) => WeightedAt(g, f, i, j), (i: int, j: int) => WeightedAt(g, h, i, j),
                0, g.ny, 0, g.nx);
  }

  function CornerAverage(values: Term, i: int, j: int): real {
    (values(i, j) + values(i, j + 1) + values(i + 1, j) + values(i + 1, j + 1)) / 4.0
  }

  /** The sum over all cells of the average of their four corners. */
  function CellSum(g: Lattice, values: Term): real {
    GridSum((i: int, j: int) => CornerAverage(values, i, j), 0, g.ny - 1, 0, g.nx - 1)
  }

  // One axis: half weights at the ends are the trapezoidal rule.

  function HalfAt(f: Term, i: int, j: int): real {
    f(i, j) * (if j == 0 then 0.5 else 1.0)
  }

  function MidAt(f: Term, i: int, j: int): real {
    (f(i, j) + f(i, j + 1)) / 2.0
  }

  function AxisWeightedAt(n: nat, f: Term, i: int, j: int): real {
    f(i, j) * AxisWeight(n, j)
  }

  lemma {:induction false} HalvesAreMids(f: Term, i: int, n: nat)
    requires n >= 1
    ensures RowSum((i: int, j: int) => HalfAt(f, i, j), i, 0, n)
            == RowSum((i: int, j: int) => MidAt(f, i, j), i, 0, n - 1) + f(i, n - 1) / 2.0
  {
    if n > 1 {
      HalvesAreMids(f, i, n - 1);
    }
  }

  lemma TrapezoidalRow(f: Term, i: int, n: nat)
    requires n >= 2
    ensures RowSum((i: int, j: int) => AxisWeightedAt(n, f, i, j), i, 0, n)
            == RowSum((i: int, j: int) => MidAt(f, i, j), i, 0, n - 1)
  {
    HalvesAreMids(f, i, n - 1);
    RowSumEqual((i: int, j: int) => AxisWeightedAt(n, f, i, j), (i: int, j: int) => HalfAt(f, i, j), i, i, 0, n - 1);
  }

  // Two axes: weigh each row, then weigh the rows.

  lemma {:induction false} GridAsRows(f: Term, r: Term, n: nat, lo: int, hi: int)
    requires forall i :: 0 <= i < n ==> RowSum(f, i, lo, hi) == r(0, i)
    ensures GridSum(f, 0, n, lo, hi) == RowSum(r, 0, 0, n)
  {
    if n > 0 {
      GridAsRows(f, r, n - 1, lo, hi);
    }
  }

  function RowMid(g: Lattice, values: Term, i: int): real {
    RowSum((i: int, j: int) => MidAt(values, i, j), i, 0, g.nx - 1)
  }

  function RowMidAt(g: Lattice, values: Term, z: int, i: int): real {
    RowMid(g, values, i)
  }

  /** The sum over pairs of neighbouring rows of the mean of their trapezoidal sums. */
  function MidOfRows(g: Lattice, values: Term): real {
    var rows: Term := (z: int, i: int) => RowMidAt(g, values, z, i);
    RowSum((z: int, i: int) => MidAt(rows, z, i), 0, 0, g.ny - 1)
  }

  lemma WeightedRow(g: Lattice, values: Term, i: int)
    requires g.nx >= 2
    ensures RowSum((i: int, j: int) => WeightedAt(g, values, i, j), i, 0, g.nx)
            == RowMid(g, values, i) * AxisWeight(g.ny, i)
  {
    var row: Term := (i: int, j: int) => AxisWeightedAt(g.nx, values, i, j);
    RowSumScales((i: int, j: int) => WeightedAt(g, values, i, j), row, AxisWeight(g.ny, i), i, 0, g.nx);
    TrapezoidalRow(values, i, g.nx);
  }

  lemma PointsWeighRows(g: Lattice, values: Term)
    requires g.nx >= 2 && g.ny >= 2
    ensures WeightedSum(g, values) == MidOfRows(g, values)
  {
    var rows: Term := (z: int, i: int) => RowMidAt(g, values, z, i);
    var weighted: Term := (z: int, i: int) => AxisWeightedAt(g.ny, rows, z, i);
    forall i | 0 <= i < g.ny
      ensures RowSum((i: int, j: int) => WeightedAt(g, values, i, j), i, 0, g.nx) == weighted(0, i)
    {
      WeightedRow(g, values, i);
    }
    GridAsRows((i: int, j: int) => WeightedAt(g, values, i, j), weighted, g.ny, 0, g.nx);
    TrapezoidalRow(rows, 0, g.ny);
  }

  lemma CellRow(g: Lattice, values: Term, i: int)
    ensures RowSum((i: int, j: int) => CornerAverage(values, i, j), i, 0, g.nx - 1)
            == (RowMid(g, values, i) + RowMid(g, values, i + 1)) / 2.0
  {
    var mids: Term := (i: int, j: int) => MidAt(values, i, j);
    var next: Term := (i: int, j: int) => MidAt(values, i + 1, j);
    RowSumLinear((i: int, j: int) => CornerAverage(values, i, j), mids, next, 0.5, 0.5, i, 0, g.nx - 1);
    RowSumEqual(next, mids, i, i + 1, 0, g.nx - 1);
  }

  /** For arbitrary values: weighing points is averaging the corners of cells. */
  lemma PointsAreCells(g: Lattice, values: Term)
    requires g.nx >= 2 && g.ny >= 2
    ensures WeightedSum(g, values) == CellSum(g, values)
  {
    PointsWeighRows(g, values);
    var rows: Term := (z: int, i: int) => RowMidAt(g, values, z, i);
    var mids: Term := (z: int, i: int) => MidAt(rows, z, i);
    forall i | 0 <= i < g.ny - 1
      ensures RowSum((i: int, j: int) => CornerAverage(values, i, j), i, 0, g.nx - 1) == mids(0, i)
    {
      CellRow(g, values, i);
    }
    GridAsRows((i: int, j: int) => CornerAverage(values, i, j), mids, g.ny - 1, 0, g.nx - 1);
  }

  // A field linear along an axis is integrated exactly: its trapezoids telescope.

  function Spacing(n: nat, lo: real, hi: real): real
    requires n >= 2
  {
    (hi - lo) / (n - 1) as real
  }

  /** The lattice's coordinates, evenly spaced with both ends included. */
  function Coordinate(n: nat, lo: real, hi: real, j: int): real
    requires n >= 2
  {
    lo + j as real * Spacing(n, lo, hi)
  }

  function Slab(p: real, q: real, x0: real, x1: real): real {
    p * (x1 - x0) + q * ((x1 * x1 - x0 * x0) / 2.0)
  }

  lemma OneTrapezoid(p: real, q: real, x0: real, x1: real, x2: real)
    ensures Slab(p, q, x0, x1) + ((p + q * x1) + (p + q * x2)) / 2.0 * (x2 - x1) == Slab(p, q, x0, x2)
  {
    TrapezoidArea(p, q, x1, x2);
    Distributes(p, x1 - x0, x2 - x1);
    Distributes(q, (x1 * x1 - x0 * x0) / 2.0, (x2 * x2 - x1 * x1) / 2.0);
  }

  lemma TrapezoidArea(p: real, q: real, x1: real, x2: real)
    ensures ((p + q * x1) + (p + q * x2)) / 2.0 * (x2 - x1) == p * (x2 - x1) + q * ((x2 * x2 - x1 * x1) / 2.0)
  {
    var d := x2 - x1;
    assert x2 * x2 - x1 * x1 == (x1 + x2) * d;
    assert (p + q * x1) + (p + q * x2) == 2.0 * p + q * (x1 + x2);
    MulAssoc(q, (x1 + x2) / 2.0, d);
  }

  /** `f` is p + q x along the axis. */
  ghost predicate IsLinear(f: Term, i: int, n: nat, lo: real, hi: real, p: real, q: real)
    requires n >= 2
  {
    forall j :: 0 <= j < n ==> f(i, j) == p + q * Coordinate(n, lo, hi, j)
  }

  lemma {:induction false} LinearAxisPart(
    f: Term, i: int, n: nat, lo: real, hi: real, p: real, q: real, k: nat)
    requires n >= 2 && k < n && IsLinear(f, i, n, lo, hi, p, q)
    ensures RowSum((i: int, j: int) => MidAt(f, i, j), i, 0, k) * Spacing(n, lo, hi)
            == Slab(p, q, Coordinate(n, lo, hi, 0), Coordinate(n, lo, hi, k))
  {
    hide Spacing;
    if k > 0 {
      LinearAxisPart(f, i, n, lo, hi, p, q, k - 1);
      var d := Spacing(n, lo, hi);
      var x0, x1, x2 := Coordinate(n, lo, hi, 0), Coordinate(n, lo, hi, k - 1), Coordinate(n, lo, hi, k);
      assert x2 - x1 == d by {
        NextCoordinate(n, lo, hi, k);
      }
      assert MidAt(f, i, k - 1) == ((p + q * x1) + (p + q * x2)) / 2.0;
      var before := RowSum((i: int, j: int) => MidAt(f, i, j), i, 0, k - 1);
      OneTrapezoid(p, q, x0, x1, x2);
      Distributes(d, before, MidAt(f, i, k - 1));
    }
  }

  lemma NextCoordinate(n: nat, lo: real, hi: real, k: nat)
    requires n >= 2 && k > 0
    ensures Coordinate(n, lo, hi, k) - Coordinate(n, lo, hi, k - 1) == Spacing(n, lo, hi)
  {
    Distributes(Spacing(n, lo, hi), (k - 1) as real, 1.0);
  }

  lemma EndCoordinates(n: nat, lo: real, hi: real)
    requires n >= 2
    ensures Coordinate(n, lo, hi, 0) == lo && Coordinate(n, lo, hi, n - 1) == hi
  {
  }

  lemma LinearAxis(f: Term, i: int, n: nat, lo: real, hi: real, p: real, q: real)
    requires n >= 2 && IsLinear(f, i, n, lo, hi, p, q)
    ensures RowSum((i: int, j: int) => MidAt(f, i, j), i, 0, n - 1) * Spacing(n, lo, hi) == Slab(p, q, lo, hi)
  {
    LinearAxisPart(f, i, n, lo, hi, p, q, n - 1);
    EndCoordinates(n, lo, hi);
  }

  function Bilinear(a: real, b: real, c: real, d: real, x: real, y: real): real {
    a + b * x + c * y + d * (x * y)
  }

  ghost predicate IsBilinear(g: Lattice, values: Term, a: real, b: real, c: real, d: real)
    requires g.nx >= 2 && g.ny >= 2
  {
    forall i, j :: 0 <= i < g.ny && 0 <= j < g.nx ==>
      values(i, j) == Bilinear(a, b, c, d, Coordinate(g.nx, g.xmin, g.xmax, j), Coordinate(g.ny, g.ymin, g.ymax, i))
  }

  /** The integral of a + b x + c y + d x y over the bounds, from its antiderivative. */
  function ExactIntegral(g: Lattice, a: real, b: real, c: real, d: real): real {
    var w, h := g.xmax - g.xmin, g.ymax - g.ymin;
    var mx, my := (g.xmax * g.xmax - g.xmin * g.xmin) / 2.0, (g.ymax * g.ymax - g.ymin * g.ymin) / 2.0;
    a * (w * h) + b * (mx * h) + c * (w * my) + d * (mx * my)
  }

  lemma BilinearAlongRow(a: real, b: real, c: real, d: real, x: real, y: real)
    ensures Bilinear(a, b, c, d, x, y) == (a + c * y) + (b + d * y) * x
  {
    MulAssoc(d, y, x);
    Distributes(x, b, d * y);
  }

  lemma SlabAlongColumn(a: real, b: real, c: real, d: real, w: real, mx: real, y: real)
    ensures (a + c * y) * w + (b + d * y) * mx == (a * w + b * mx) + (c * w + d * mx) * y
  {
    Distributes(w, a, c * y);
    Distributes(mx, b, d * y);
    Distributes(y, c * w, d * mx);
    MulAssoc(c, y, w);
    MulAssoc(c, w, y);
    MulAssoc(d, y, mx);
    MulAssoc(d, mx, y);
  }

  lemma SlabOfSlab(a: real, b: real, c: real, d: real, w: real, mx: real, h: real, my: real)
    ensures (a * w + b * mx) * h + (c * w + d * mx) * my
            == a * (w * h) + b * (mx * h) + c * (w * my) + d * (mx * my)
  {
    Distributes(h, a * w, b * mx);
    Distributes(my, c * w, d * mx);
    MulAssoc(a, w, h);
    MulAssoc(b, mx, h);
    MulAssoc(c, w, my);
    MulAssoc(d, mx, my);
  }

  function ScaledRowAt(g: Lattice, values: Term, dx: real, z: int, i: int): real {
    RowMid(g, values, i) * dx
  }

  /** The integral of a row's bilinear values along x is this much, and this much for each y. */
  function RowBase(g: Lattice, a: real, b: real): real {
    a * (g.xmax - g.xmin) + b * ((g.xmax * g.xmax - g.xmin * g.xmin) / 2.0)
  }

  lemma RowSlab(g: Lattice, a: real, b: real, c: real, d: real, y: real)
    ensures Slab(a + c * y, b + d * y, g.xmin, g.xmax) == RowBase(g, a, b) + RowBase(g, c, d) * y
  {
    SlabAlongColumn(a, b, c, d, g.xmax - g.xmin, (g.xmax * g.xmax - g.xmin * g.xmin) / 2.0, y);
  }

  lemma RowIsLinear(g: Lattice, values: Term, a: real, b: real, c: real, d: real, i: int, p: real, q: real)
    requires g.nx >= 2 && g.ny >= 2 && IsBilinear(g, values, a, b, c, d) && 0 <= i < g.ny
    requires p == a + c * Coordinate(g.ny, g.ymin, g.ymax, i)
    requires q == b + d * Coordinate(g.ny, g.ymin, g.ymax, i)
    ensures IsLinear(values, i, g.nx, g.xmin, g.xmax, p, q)
  {
    hide Spacing, Coordinate, Bilinear;
    forall j | 0 <= j < g.nx
      ensures values(i, j) == p + q * Coordinate(g.nx, g.xmin, g.xmax, j)
    {
      BilinearAlongRow(a, b, c, d, Coordinate(g.nx, g.xmin, g.xmax, j), Coordinate(g.ny, g.ymin, g.ymax, i));
    }
  }

  lemma BilinearRow(g: Lattice, values: Term, a: real, b: real, c: real, d: real, i: int)
    requires g.nx >= 2 && g.ny >= 2 && IsBilinear(g, values, a, b, c, d) && 0 <= i < g.ny
    ensures RowMid(g, values, i) * Spacing(g.nx, g.xmin, g.xmax)
            == RowBase(g, a, b) + RowBase(g, c, d) * Coordinate(g.ny, g.ymin, g.ymax, i)
  {
    hide Spacing, Coordinate, IsBilinear, IsLinear, Slab, RowBase, MidAt, RowSum;
    var y := Coordinate(g.ny, g.ymin, g.ymax, i);
    RowIsLinear(g, values, a, b, c, d, i, a + c * y, b + d * y);
    LinearAxis(values, i, g.nx, g.xmin, g.xmax, a + c * y, b + d * y);
    RowSlab(g, a, b, c, d, y);
  }

  lemma ScaledMids(g: Lattice, values: Term, dx: real)
    ensures var scaled: Term := (z: int, i: int) => ScaledRowAt(g, values, dx, z, i);
            RowSum((z: int, i: int) => MidAt(scaled, z, i), 0, 0, g.ny - 1) == dx * MidOfRows(g, values)
  {
    hide RowMid;
    var rows: Term := (z: int, i: int) => RowMidAt(g, values, z, i);
    var scaled: Term := (z: int, i: int) => ScaledRowAt(g, values, dx, z, i);
    forall i | 0 <= i < g.ny - 1
      ensures MidAt(scaled, 0, i) == dx * MidAt(rows, 0, i)
    {
      ScaledMid(RowMid(g, values, i), RowMid(g, values, i + 1), dx);
    }
    RowSumScales((z: int, i: int) => MidAt(scaled, z, i), (z: int, i: int) => MidAt(rows, z, i), dx, 0, 0, g.ny - 1);
  }

  lemma ScaledRow(g: Lattice, values: Term, a: real, b: real, c: real, d: real, i: int)
    requires g.nx >= 2 && g.ny >= 2 && IsBilinear(g, values, a, b, c, d) && 0 <= i < g.ny
    ensures ScaledRowAt(g, values, Spacing(g.nx, g.xmin, g.xmax), 0, i)
            == RowBase(g, a, b) + RowBase(g, c, d) * Coordinate(g.ny, g.ymin, g.ymax, i)
  {
    hide Spacing, Coordinate, IsBilinear, RowMid;
    BilinearRow(g, values, a, b, c, d, i);
  }

  lemma ScaledRowsSlab(g: Lattice, values: Term, a: real, b: real, c: real, d: real)
    requires g.nx >= 2 && g.ny >= 2 && IsBilinear(g, values, a, b, c, d)
    ensures var dx := Spacing(g.nx, g.xmin, g.xmax);
            var scaled: Term := (z: int, i: int) => ScaledRowAt(g, values, dx, z, i);
            RowSum((z: int, i: int) => MidAt(scaled, z, i), 0, 0, g.ny - 1) * Spacing(g.ny, g.ymin, g.ymax)
            == Slab(RowBase(g, a, b), RowBase(g, c, d), g.ymin, g.ymax)
  {
    hide Spacing, Coordinate, IsBilinear, RowMid, RowBase, Slab, ScaledRowAt, RowSum;
    var dx := Spacing(g.nx, g.xmin, g.xmax);
    var scaled: Term := (z: int, i: int) => ScaledRowAt(g, values, dx, z, i);
    forall i | 0 <= i < g.ny
      ensures scaled(0, i) == RowBase(g, a, b) + RowBase(g, c, d) * Coordinate(g.ny, g.ymin, g.ymax, i)
    {
      ScaledRow(g, values, a, b, c, d, i);
    }
    LinearAxis(scaled, 0, g.ny, g.ymin, g.ymax, RowBase(g, a, b), RowBase(g, c, d));
  }

  lemma SlabIsExact(g: Lattice, a: real, b: real, c: real, d: real)
    ensures Slab(RowBase(g, a, b), RowBase(g, c, d), g.ymin, g.ymax) == ExactIntegral(g, a, b, c, d)
  {
    var mx, my := (g.xmax * g.xmax - g.xmin * g.xmin) / 2.0, (g.ymax * g.ymax - g.ymin * g.ymin) / 2.0;
    SlabOfSlab(a, b, c, d, g.xmax - g.xmin, mx, g.ymax - g.ymin, my);
  }

  lemma BilinearMids(g: Lattice, values: Term, a: real, b: real, c: real, d: real)
    requires g.nx >= 2 && g.ny >= 2 && IsBilinear(g, values, a, b, c, d)
    ensures MidOfRows(g, values) * Spacing(g.nx, g.xmin, g.xmax) * Spacing(g.ny, g.ymin, g.ymax)
            == ExactIntegral(g, a, b, c, d)
  {
    hide *;
    ScaledMids(g, values, Spacing(g.nx, g.xmin, g.xmax));
    ScaledRowsSlab(g, values, a, b, c, d);
    SlabIsExact(g, a, b, c, d);
  }

  lemma ScaledMid(u: real, v: real, d: real)
    ensures (u * d + v * d) / 2.0 == d * ((u + v) / 2.0)
  {
  }

  lemma LiveIsAll(g: Lattice, values: Term, valid: (int, int) -> bool)
    requires forall i, j :: 0 <= i < g.ny && 0 <= j < g.nx ==> valid(i, j)
    ensures LiveSum(g, values, valid) == WeightedSum(g, values)
  {
    var live: Term := (i: int, j: int) => LiveAt(values, valid, i, j);
    GridSumEqual((i: int, j: int) => WeightedAt(g, live, i, j), (i: int, j: int) => WeightedAt(g, values, i, j),
                 0, g.ny, 0, g.nx);
  }

  lemma IntegralIsExactWhenBilinear(
    g: Lattice, values: Term, valid: (int, int) -> bool, a: real, b: real, c: real, d: real)
    requires g.nx >= 2 && g.ny >= 2 && IsBilinear(g, values, a, b, c, d)
    requires forall i, j :: 0 <= i < g.ny && 0 <= j < g.nx ==> valid(i, j)
    ensures LiveSum(g, values, valid) * CellArea(g).value == ExactIntegral(g, a, b, c, d)
  {
    hide LiveSum, WeightedSum, MidOfRows, ExactIntegral;
    LiveIsAll(g, values, valid);
    PointsWeighRows(g, values);
    BilinearMids(g, values, a, b, c, d);
    MulAssoc(MidOfRows(g, values), Spacing(g.nx, g.xmin, g.xmax), Spacing(g.ny, g.ymin, g.ymax));
  }

  /** On an unmasked lattice of at least 2 by 2 points the integral query returns the sum over
      cells of corner average times cell area for any values at all, exactly the bounds' area, and
      for a field bilinear in x and y its integral. */
  lemma GridIntegralIsExact(
    g: Lattice, values: Term, valid: (int, int) -> bool, a: real, b: real, c: real, d: real)
    requires forall i, j :: 0 <= i < g.ny && 0 <= j < g.nx ==> valid(i, j)
    ensures GridIntegral(g, values, valid).Some? <==> g.nx >= 2 && g.ny >= 2
    ensures g.nx >= 2 && g.ny >= 2 ==>
              var (value, area) := GridIntegral(g, values, valid).value;
              && value == CellSum(g, values) * CellArea(g).value
              && area == (g.xmax - g.xmin) * (g.ymax - g.ymin)
              && (IsBilinear(g, values, a, b, c, d) ==> value == ExactIntegral(g, a, b, c, d))
  {
    if g.nx >= 2 && g.ny >= 2 {
      hide LiveSum, WeightedSum, CellSum, ExactIntegral, CellArea, IsBilinear;
      LiveIsAll(g, values, valid);
      PointsAreCells(g, values);
      UnitArea(g, valid);
      assert CellArea(g).Some? by {
        HasCells(g);
      }
      var cell := CellArea(g).value;
      assert GridIntegral(g, values, valid)
             == Some((Times(LiveSum(g, values, valid), cell), Times(LiveSum(g, One, valid), cell)));
      hide GridIntegral;
      if IsBilinear(g, values, a, b, c, d) {
        IntegralIsExactWhenBilinear(g, values, valid, a, b, c, d);
        assert Times(LiveSum(g, values, valid), cell) == ExactIntegral(g, a, b, c, d);
      }
    }
  }

  lemma HasCells(g: Lattice)
    requires g.nx >= 2 && g.ny >= 2
    ensures CellArea(g).Some?
  {
  }

  lemma UnitArea(g: Lattice, valid: (int, int) -> bool)
    requires g.nx >= 2 && g.ny >= 2
    requires forall i, j :: 0 <= i < g.ny && 0 <= j < g.nx ==> valid(i, j)
    ensures LiveSum(g, One, valid) * CellArea(g).value == (g.xmax - g.xmin) * (g.ymax - g.ymin)
  {
    hide LiveSum, WeightedSum, CellArea, Coordinate;
    assert IsBilinear(g, One, 1.0, 0.0, 0.0, 0.0);
    IntegralIsExactWhenBilinear(g, One, valid, 1.0, 0.0, 0.0, 0.0);
  }
}
