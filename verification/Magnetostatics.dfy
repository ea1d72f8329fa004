/** The Jacobi sweep of the magnetostatics solver: vector potential on a Cartesian grid with
    harmonic-mean face coefficients and A = 0 on the outer boundary.  Exact reals. */
module Magnetostatics {
  import opened RealMath
  import opened Sums

  type Grid = seq<seq<real>>

  /** A discretised cross-section: reluctivity and current per node, and the two spacings.
      `tiny` is the floor under the harmonic mean's denominator. */
  datatype Problem = Problem(
    ny: nat, nx: nat, dx: real, dy: real, nu: Grid, current: Grid, tiny: real)

  predicate Shaped(g: Grid, ny: nat, nx: nat) {
    |g| == ny && forall i :: 0 <= i < ny ==> |g[i]| == nx
  }

  ghost predicate Valid(p: Problem) {
    && p.ny >= 3 && p.nx >= 3
    && p.dx > 0.0 && p.dy > 0.0 && p.tiny > 0.0
    && Shaped(p.nu, p.ny, p.nx) && Shaped(p.current, p.ny, p.nx)
    && forall i, j :: 0 <= i < p.ny && 0 <= j < p.nx ==> p.nu[i][j] > 0.0
  }

  predicate Interior(p: Problem, i: int, j: int) {
    1 <= i < p.ny - 1 && 1 <= j < p.nx - 1
  }

  // ------------------------------------------------------------------------ coefficients

  function Max(a: real, b: real): real {
    if a < b then b else a
  }

  /** Reluctivity of a material: positive whatever relative permeability the geometry names. */
  function Reluctivity(mu0: real, muR: real, floor: real): (nu: real)
    requires mu0 > 0.0 && floor > 0.0
    ensures nu > 0.0
    ensures nu * (mu0 * if muR >= floor then muR else floor) == 1.0
  {
    MulPositive(mu0, Max(muR, floor));
    1.0 / (mu0 * Max(muR, floor))
  }

  function HarmonicMean(a: real, b: real, tiny: real): real
    requires tiny > 0.0
  {
    2.0 * a * b / Max(a + b, tiny)
  }

  lemma HarmonicMeanFacts(a: real, b: real, tiny: real)
    requires a > 0.0 && b > 0.0 && tiny > 0.0
    ensures HarmonicMean(a, b, tiny) > 0.0
    ensures HarmonicMean(a, b, tiny) == HarmonicMean(b, a, tiny)
  {
    MulPositive(a, b);
    assert 2.0 * a * b == 2.0 * (a * b) == 2.0 * b * a;
    QuotientPositive(2.0 * a * b, Max(a + b, tiny));
  }

  lemma QuotientPositive(a: real, b: real)
    requires a > 0.0 && b > 0.0
    ensures a / b > 0.0
  {
  }

  /** A face's share of a node's equation: the harmonic mean across it over the squared spacing. */
  function Face(a: real, b: real, tiny: real, spacing: real): real
    requires tiny > 0.0 && spacing > 0.0
  {
    HarmonicMean(a, b, tiny) / Squared(spacing)
  }

  lemma FaceFacts(a: real, b: real, tiny: real, spacing: real)
    requires a > 0.0 && b > 0.0 && tiny > 0.0 && spacing > 0.0
    ensures Face(a, b, tiny, spacing) > 0.0
    ensures Face(a, b, tiny, spacing) == Face(b, a, tiny, spacing)
  {
    hide HarmonicMean;
    hide Squared;
    var mean, square := HarmonicMean(a, b, tiny), Squared(spacing);
    HarmonicMeanFacts(a, b, tiny);
    QuotientPositive(mean, square);
  }

  function East(p: Problem, i: int, j: int): real
    requires Valid(p) && 0 <= i < p.ny && 0 <= j < p.nx - 1
  {
    Face(p.nu[i][j], p.nu[i][j + 1], p.tiny, p.dx)
  }

  function West(p: Problem, i: int, j: int): real
    requires Valid(p) && 0 <= i < p.ny && 1 <= j < p.nx
  {
    Face(p.nu[i][j], p.nu[i][j - 1], p.tiny, p.dx)
  }

  function North(p: Problem, i: int, j: int): real
    requires Valid(p) && 0 <= i < p.ny - 1 && 0 <= j < p.nx
  {
    Face(p.nu[i][j], p.nu[i + 1][j], p.tiny, p.dy)
  }

  function South(p: Problem, i: int, j: int): real
    requires Valid(p) && 1 <= i < p.ny && 0 <= j < p.nx
  {
    Face(p.nu[i][j], p.nu[i - 1][j], p.tiny, p.dy)
  }

  function Diag(p: Problem, i: int, j: int): real
    requires Valid(p) && Interior(p, i, j)
  {
    East(p, i, j) + West(p, i, j) + North(p, i, j) + South(p, i, j)
  }

  lemma FacesArePositive(p: Problem, i: int, j: int)
    requires Valid(p) && Interior(p, i, j)
    ensures East(p, i, j) > 0.0 && West(p, i, j) > 0.0
    ensures North(p, i, j) > 0.0 && South(p, i, j) > 0.0
    ensures Diag(p, i, j) > 0.0
  {
    hide Face;
    FaceFacts(p.nu[i][j], p.nu[i][j + 1], p.tiny, p.dx);
    FaceFacts(p.nu[i][j], p.nu[i][j - 1], p.tiny, p.dx);
    FaceFacts(p.nu[i][j], p.nu[i + 1][j], p.tiny, p.dy);
    FaceFacts(p.nu[i][j], p.nu[i - 1][j], p.tiny, p.dy);
  }

  /** A face has one coefficient, whichever of its two cells computes it. */
  lemma FacesAreShared(p: Problem, i: int, j: int)
    requires Valid(p) && 0 <= i < p.ny && 0 <= j < p.nx
    ensures j >= 1 ==> West(p, i, j) == East(p, i, j - 1)
    ensures i >= 1 ==> South(p, i, j) == North(p, i - 1, j)
  {
    hide Face;
    if j >= 1 {
      FaceFacts(p.nu[i][j], p.nu[i][j - 1], p.tiny, p.dx);
    }
    if i >= 1 {
      FaceFacts(p.nu[i][j], p.nu[i - 1][j], p.tiny, p.dy);
    }
  }

  /** What a face is for: between two nodes lie two half cells in series, and at the interface value at
      which both carry the same flux, that is the flux the face carries. */
  lemma FaceIsSeries(a: real, b: real, tiny: real, spacing: real, u: real, m: real, v: real)
    requires a > 0.0 && b > 0.0 && tiny > 0.0 && spacing > 0.0 && a + b >= tiny
    requires a * (m - u) == b * (v - m)
    ensures Face(a, b, tiny, spacing) * (v - u) == 2.0 * a * (m - u) / (spacing * spacing)
    ensures Face(a, b, tiny, spacing) * (v - u) == 2.0 * b * (v - m) / (spacing * spacing)
  {
    var x, y, mean := m - u, v - m, HarmonicMean(a, b, tiny);
    assert 2.0 * a * b * (x + y) == 2.0 * a * x * (a + b) by {
      SeriesAddUp(a, b, x, y);
    }
    assert mean == 2.0 * a * b / (a + b);
    QuotientOfProduct(2.0 * a * b, a + b, x + y, 2.0 * a * x);
    hide HarmonicMean;
    assert mean * (x + y) == 2.0 * a * x;
    MulPositive(spacing, spacing);
    assert Squared(spacing) == spacing * spacing;
    hide Squared;
    ScaledQuotient(mean, spacing * spacing, x + y, 2.0 * a * x);
  }

  lemma SeriesAddUp(a: real, b: real, x: real, y: real)
    requires a * x == b * y
    ensures 2.0 * a * b * (x + y) == 2.0 * a * x * (a + b)
  {
    assert a * b * y == a * (b * y) == a * (a * x);
    assert a * b * (x + y) == a * b * x + a * b * y;
    assert a * x * (a + b) == a * (a * x) + a * b * x;
  }

  lemma QuotientOfProduct(n: real, d: real, z: real, w: real)
    requires d > 0.0 && n * z == w * d
    ensures n / d * z == w
  {
    var q := n / d;
    assert q * d == n;
    assert (q * z) * d == w * d;
    assert (q * z - w) * d == 0.0;
  }

  lemma ScaledQuotient(n: real, d: real, z: real, w: real)
    requires d > 0.0 && n * z == w
    ensures n / d * z == w / d
  {
    var q := n / d;
    assert q * d == n;
    assert q * z * d == w;
  }

  /** With this coefficient a face carries what two half cells of reluctivities `a` and `b` in series
      carry: the same flux from `u` to the interface value `m` as from there to `v`. */
  ghost predicate CarriesSeries(
    face: real, a: real, b: real, tiny: real, spacing: real, u: real, m: real, v: real)
    requires spacing > 0.0
  {
    a + b >= tiny && a * (m - u) == b * (v - m) ==>
      && face * (v - u) == 2.0 * a * (m - u) / (spacing * spacing)
      && face * (v - u) == 2.0 * b * (v - m) / (spacing * spacing)
  }

  lemma FaceCarriesSeries(a: real, b: real, tiny: real, spacing: real, u: real, m: real, v: real)
    requires a > 0.0 && b > 0.0 && tiny > 0.0 && spacing > 0.0
    ensures CarriesSeries(Face(a, b, tiny, spacing), a, b, tiny, spacing, u, m, v)
  {
    hide Face;
    if a + b >= tiny && a * (m - u) == b * (v - m) {
      FaceIsSeries(a, b, tiny, spacing, u, m, v);
    }
  }

  /** Each of a node's four faces does, with its own neighbour and its own spacing. */
  lemma FacesCarrySeriesFlux(p: Problem, i: int, j: int, u: real, m: real, v: real)
    requires Valid(p) && Interior(p, i, j)
    ensures CarriesSeries(East(p, i, j), p.nu[i][j], p.nu[i][j + 1], p.tiny, p.dx, u, m, v)
    ensures CarriesSeries(West(p, i, j), p.nu[i][j], p.nu[i][j - 1], p.tiny, p.dx, u, m, v)
    ensures CarriesSeries(North(p, i, j), p.nu[i][j], p.nu[i + 1][j], p.tiny, p.dy, u, m, v)
    ensures CarriesSeries(South(p, i, j), p.nu[i][j], p.nu[i - 1][j], p.tiny, p.dy, u, m, v)
  {
    hide Face, CarriesSeries;
    FaceCarriesSeries(p.nu[i][j], p.nu[i][j + 1], p.tiny, p.dx, u, m, v);
    FaceCarriesSeries(p.nu[i][j], p.nu[i][j - 1], p.tiny, p.dx, u, m, v);
    FaceCarriesSeries(p.nu[i][j], p.nu[i + 1][j], p.tiny, p.dy, u, m, v);
    FaceCarriesSeries(p.nu[i][j], p.nu[i - 1][j], p.tiny, p.dy, u, m, v);
  }

  /** Below the floor under the denominator the face carries less than that. */
  lemma FaceUnderTheFloor(a: real, b: real, tiny: real, spacing: real)
    requires a > 0.0 && b > 0.0 && tiny > 0.0 && spacing > 0.0 && a + b < tiny
    ensures Face(a, b, tiny, spacing) * (spacing * spacing) * tiny == 2.0 * a * b
  {
    MulPositive(spacing, spacing);
    var mean := HarmonicMean(a, b, tiny);
    assert mean * tiny == 2.0 * a * b;
    assert Squared(spacing) == spacing * spacing;
    hide HarmonicMean, Squared;
    assert Face(a, b, tiny, spacing) * (spacing * spacing) == mean;
  }

  // -------------------------------------------------------------------------- one sweep

  /** What a sweep writes at an interior node, from the values at its four neighbours. */
  function Relaxed(p: Problem, i: int, j: int, east: real, west: real, north: real, south: real): real
    requires Valid(p) && Interior(p, i, j)
  {
    FacesArePositive(p, i, j);
    (East(p, i, j) * east + West(p, i, j) * west + North(p, i, j) * north + South(p, i, j) * south
     + p.current[i][j]) / Diag(p, i, j)
  }

  function Stencil(p: Problem, u: Grid, i: int, j: int): real
    requires Valid(p) && Shaped(u, p.ny, p.nx) && Interior(p, i, j)
  {
    Relaxed(p, i, j, u[i][j + 1], u[i][j - 1], u[i + 1][j], u[i - 1][j])
  }

  /** The whole grid after one sweep: the interior at once, the boundary untouched. */
  function Next(p: Problem, u: Grid): (v: Grid)
    requires Valid(p) && Shaped(u, p.ny, p.nx)
    ensures Shaped(v, p.ny, p.nx)
    ensures forall i, j :: 0 <= i < p.ny && 0 <= j < p.nx ==>
              v[i][j] == if Interior(p, i, j) then Stencil(p, u, i, j) else u[i][j]
  {
    seq(p.ny, i requires 0 <= i < p.ny =>
      seq(p.nx, j requires 0 <= j < p.nx =>
        if Interior(p, i, j) then Stencil(p, u, i, j) else u[i][j]))
  }

  /** The largest change a sweep makes at an interior node. */
  ghost predicate IsResidual(p: Problem, u: Grid, residual: real)
    requires Valid(p) && Shaped(u, p.ny, p.nx)
  {
    && (forall i, j :: Interior(p, i, j) ==> Abs(Stencil(p, u, i, j) - u[i][j]) <= residual)
    && (exists i, j :: Interior(p, i, j) && Abs(Stencil(p, u, i, j) - u[i][j]) == residual)
  }

  ghost predicate BoundaryIsZero(p: Problem, u: Grid)
    requires Shaped(u, p.ny, p.nx)
  {
    forall i, j :: 0 <= i < p.ny && 0 <= j < p.nx && !Interior(p, i, j) ==> u[i][j] == 0.0
  }

  /** The potential after n sweeps from zero. */
  function Iterate(p: Problem, n: nat): (u: Grid)
    requires Valid(p)
    ensures Shaped(u, p.ny, p.nx)
  {
    if n == 0 then seq(p.ny, i => seq(p.nx, j => 0.0)) else Next(p, Iterate(p, n - 1))
  }

  // ------------------------------------------------------------------ the in-place solver

  function Values(a: array2<real>): (u: Grid)
    reads a
    ensures Shaped(u, a.Length0, a.Length1)
    ensures forall i, j :: 0 <= i < a.Length0 && 0 <= j < a.Length1 ==> u[i][j] == a[i, j]
  {
    seq(a.Length0, i requires 0 <= i < a.Length0 reads a =>
      seq(a.Length1, j requires 0 <= j < a.Length1 reads a => a[i, j]))
  }

  lemma GridsEqual(u: Grid, v: Grid, ny: nat, nx: nat)
    requires Shaped(u, ny, nx) && Shaped(v, ny, nx)
    requires forall i, j :: 0 <= i < ny && 0 <= j < nx ==> u[i][j] == v[i][j]
    ensures u == v
  {
    forall i | 0 <= i < ny
      ensures u[i] == v[i]
    {
    }
  }

  ghost predicate Before(i: int, j: int, k: int, l: int) {
    i < k || (i == k && j < l)
  }

  /** The new interior, in full, before any of it is written back. */
  method RelaxInterior(p: Problem, a: array2<real>) returns (interior: array2<real>)
    requires Valid(p) && a.Length0 == p.ny && a.Length1 == p.nx
    ensures fresh(interior) && interior.Length0 == p.ny && interior.Length1 == p.nx
    ensures forall i, j :: Interior(p, i, j) ==> interior[i, j] == Stencil(p, Values(a), i, j)
  {
    hide Relaxed;
    ghost var u := Values(a);
    interior := new real[p.ny, p.nx];
    for i := 1 to p.ny - 1
      invariant forall k, l :: Interior(p, k, l) && k < i ==> interior[k, l] == Stencil(p, u, k, l)
    {
      for j := 1 to p.nx - 1
        invariant forall k, l :: Interior(p, k, l) && Before(k, l, i, j) ==>
                    interior[k, l] == Stencil(p, u, k, l)
      {
        interior[i, j] := Relaxed(p, i, j, a[i, j + 1], a[i, j - 1], a[i + 1, j], a[i - 1, j]);
      }
    }
  }

  /** The largest change the new interior makes. */
  method LargestChange(p: Problem, a: array2<real>, interior: array2<real>) returns (largest: real)
    requires p.ny >= 3 && p.nx >= 3
    requires a.Length0 == interior.Length0 == p.ny && a.Length1 == interior.Length1 == p.nx
    ensures forall i, j :: Interior(p, i, j) ==> Abs(interior[i, j] - a[i, j]) <= largest
    ensures exists i, j :: Interior(p, i, j) && Abs(interior[i, j] - a[i, j]) == largest
  {
    hide Abs;
    largest := Abs(interior[1, 1] - a[1, 1]);
    for i := 1 to p.ny - 1
      invariant forall k, l :: Interior(p, k, l) && k < i ==> Abs(interior[k, l] - a[k, l]) <= largest
      invariant exists k, l :: Interior(p, k, l) && Abs(interior[k, l] - a[k, l]) == largest
    {
      for j := 1 to p.nx - 1
        invariant forall k, l :: Interior(p, k, l) && Before(k, l, i, j) ==>
                    Abs(interior[k, l] - a[k, l]) <= largest
        invariant exists k, l :: Interior(p, k, l) && Abs(interior[k, l] - a[k, l]) == largest
      {
        if largest < Abs(interior[i, j] - a[i, j]) {
          largest := Abs(interior[i, j] - a[i, j]);
          assert Interior(p, i, j);
        }
      }
    }
  }

  method WriteInterior(p: Problem, a: array2<real>, interior: array2<real>)
    requires p.ny >= 3 && p.nx >= 3 && a != interior
    requires a.Length0 == interior.Length0 == p.ny && a.Length1 == interior.Length1 == p.nx
    modifies a
    ensures forall i, j :: 0 <= i < p.ny && 0 <= j < p.nx ==>
              a[i, j] == if Interior(p, i, j) then interior[i, j] else old(a[i, j])
  {
    for i := 1 to p.ny - 1
      invariant forall k, l :: 0 <= k < p.ny && 0 <= l < p.nx ==>
                  a[k, l] == if k < i && Interior(p, k, l) then interior[k, l] else old(a[k, l])
    {
      for j := 1 to p.nx - 1
        invariant forall k, l :: 0 <= k < p.ny && 0 <= l < p.nx ==>
                    a[k, l] == if (k < i || (k == i && l < j)) && Interior(p, k, l)
                               then interior[k, l] else old(a[k, l])
      {
        a[i, j] := interior[i, j];
      }
    }
  }

  /** One sweep in place: the interior is computed in full, measured, and then written back. */
  method Sweep(p: Problem, a: array2<real>) returns (residual: real)
    requires Valid(p) && a.Length0 == p.ny && a.Length1 == p.nx
    modifies a
    ensures Values(a) == Next(p, old(Values(a)))
    ensures IsResidual(p, old(Values(a)), residual)
  {
    hide Stencil;
    ghost var u := Values(a);
    var interior := RelaxInterior(p, a);
    residual := LargestChange(p, a, interior);
    LargestIsResidual(p, a, interior, residual);
    WriteInterior(p, a, interior);
    GridsEqual(Values(a), Next(p, u), p.ny, p.nx);
  }

  lemma LargestIsResidual(p: Problem, a: array2<real>, interior: array2<real>, largest: real)
    requires Valid(p) && a.Length0 == interior.Length0 == p.ny && a.Length1 == interior.Length1 == p.nx
    requires forall i, j :: Interior(p, i, j) ==> interior[i, j] == Stencil(p, Values(a), i, j)
    requires forall i, j :: Interior(p, i, j) ==> Abs(interior[i, j] - a[i, j]) <= largest
    requires exists i, j :: Interior(p, i, j) && Abs(interior[i, j] - a[i, j]) == largest
    ensures IsResidual(p, Values(a), largest)
  {
    hide Stencil, Abs, Valid;
    var u := Values(a);
    var i, j :| Interior(p, i, j) && Abs(interior[i, j] - a[i, j]) == largest;
    assert Abs(Stencil(p, u, i, j) - u[i][j]) == largest;
  }

  const CONVERGED := 1.0 / 100_000_000_000_000.0

  method AtRest(p: Problem) returns (a: array2<real>)
    requires Valid(p)
    ensures fresh(a) && a.Length0 == p.ny && a.Length1 == p.nx
    ensures Values(a) == Iterate(p, 0)
  {
    a := new real[p.ny, p.nx]((i, j) => 0.0);
    GridsEqual(Values(a), Iterate(p, 0), p.ny, p.nx);
  }

  lemma OneMoreIterate(p: Problem, n: nat)
    requires Valid(p)
    ensures Iterate(p, n + 1) == Next(p, Iterate(p, n))
  {
  }

  /** Sweeps until the cap or convergence.  The history of residuals never rises, and what the
      returned potential fails to conserve is bounded by the last residual. */
  method Solve(p: Problem, iterations: nat)
    returns (a: array2<real>, sweeps: nat, residual: real, ghost history: seq<real>)
    requires Valid(p) && iterations >= 1
    ensures fresh(a) && a.Length0 == p.ny && a.Length1 == p.nx
    ensures 1 <= sweeps <= iterations && |history| == sweeps && history[sweeps - 1] == residual
    ensures Values(a) == Iterate(p, sweeps)
    ensures forall k :: 0 <= k < sweeps ==> IsResidual(p, Iterate(p, k), history[k])
    ensures sweeps < iterations ==> residual < 1.0 / 100_000_000_000_000.0
    ensures forall k :: 0 <= k < sweeps - 1 ==> history[k] >= CONVERGED
    ensures forall k :: 0 <= k < sweeps - 1 ==> history[k + 1] <= history[k]
    ensures BoundaryIsZero(p, Values(a))
    ensures Abs(OverInterior(p, Currents(p)) - NetFluxOut(p, Values(a)))
            <= residual * OverInterior(p, Diags(p))
  {
    hide Next, IsResidual, Valid, OverInterior, NetFluxOut, Abs, BoundaryIsZero, Currents, Diags, Iterate;
    a := AtRest(p);
    residual := Sweep(p, a);
    OneMoreIterate(p, 0);
    sweeps := 1;
    history := [residual];
    while sweeps < iterations && residual >= CONVERGED
      invariant 1 <= sweeps <= iterations && |history| == sweeps && history[sweeps - 1] == residual
      invariant Values(a) == Iterate(p, sweeps)
      invariant forall k :: 0 <= k < sweeps ==> IsResidual(p, Iterate(p, k), history[k])
      invariant forall k :: 0 <= k < sweeps - 1 ==> history[k] >= CONVERGED
    {
      residual := Sweep(p, a);
      OneMoreIterate(p, sweeps);
      history := history + [residual];
      sweeps := sweeps + 1;
    }
    ResidualsFall(p, history);
    BoundaryStaysZero(p, sweeps);
    ReturnedPotentialConserves(p, sweeps, residual);
  }

  // --------------------------------------------------------- the residual never increases

  lemma StencilEquation(p: Problem, u: Grid, i: int, j: int)
    requires Valid(p) && Shaped(u, p.ny, p.nx) && Interior(p, i, j)
    ensures Diag(p, i, j) * Stencil(p, u, i, j)
            == East(p, i, j) * u[i][j + 1] + West(p, i, j) * u[i][j - 1]
               + North(p, i, j) * u[i + 1][j] + South(p, i, j) * u[i - 1][j] + p.current[i][j]
  {
    hide East, West, North, South, Diag;
    FacesArePositive(p, i, j);
    QuotientTimes(
      East(p, i, j) * u[i][j + 1] + West(p, i, j) * u[i][j - 1]
      + North(p, i, j) * u[i + 1][j] + South(p, i, j) * u[i - 1][j] + p.current[i][j],
      Diag(p, i, j));
  }

  /** The fluxes into a node at `v` through four faces, and its current, add up to nothing. */
  ghost predicate Balances(
    east: real, west: real, north: real, south: real, e: real, w: real, n: real, s: real, current: real, v: real)
  {
    east * (e - v) + west * (w - v) + north * (n - v) + south * (s - v) + current == 0.0
  }

  /** A sweep leaves each interior node where it balances against its neighbours' old values. */
  lemma SweptNodeBalances(p: Problem, u: Grid, i: int, j: int)
    requires Valid(p) && Shaped(u, p.ny, p.nx) && Interior(p, i, j)
    ensures Balances(East(p, i, j), West(p, i, j), North(p, i, j), South(p, i, j),
                     u[i][j + 1], u[i][j - 1], u[i + 1][j], u[i - 1][j], p.current[i][j], Next(p, u)[i][j])
  {
    hide East, West, North, South, Relaxed, Balances;
    StencilEquation(p, u, i, j);
    Balanced(East(p, i, j), West(p, i, j), North(p, i, j), South(p, i, j), Diag(p, i, j),
             u[i][j + 1], u[i][j - 1], u[i + 1][j], u[i - 1][j], p.current[i][j], Next(p, u)[i][j]);
  }

  lemma Balanced(
    east: real, west: real, north: real, south: real, diag: real,
    e: real, w: real, n: real, s: real, current: real, v: real)
    requires diag == east + west + north + south
    requires diag * v == east * e + west * w + north * n + south * s + current
    ensures Balances(east, west, north, south, e, w, n, s, current, v)
  {
    assert diag * v == east * v + west * v + north * v + south * v;
  }

  lemma QuotientTimes(a: real, d: real)
    requires d != 0.0
    ensures d * (a / d) == a
  {
  }

  lemma ScaledAbs(c: real, y: real, bound: real)
    requires c > 0.0 && Abs(y) <= bound
    ensures Abs(c * y) <= c * bound
  {
    MulLe(y, bound, c);
    MulLe(-bound, y, c);
    assert c * -bound == -(c * bound);
  }

  /** A weighted mean of four values is no larger than the largest of them. */
  lemma WeightedMeanBound(
    e: real, w: real, n: real, s: real, ye: real, yw: real, yn: real, ys: real,
    d: real, x: real, bound: real)
    requires e > 0.0 && w > 0.0 && n > 0.0 && s > 0.0 && d == e + w + n + s
    requires Abs(ye) <= bound && Abs(yw) <= bound && Abs(yn) <= bound && Abs(ys) <= bound
    requires d * x == e * ye + w * yw + n * yn + s * ys
    ensures Abs(x) <= bound
  {
    hide Abs;
    ScaledAbs(e, ye, bound);
    ScaledAbs(w, yw, bound);
    ScaledAbs(n, yn, bound);
    ScaledAbs(s, ys, bound);
    FourAbs(e * ye, w * yw, n * yn, s * ys, e * bound, w * bound, n * bound, s * bound);
    FourDistribute(e, w, n, s, bound);
    ScaledBounds(d, x, bound);
  }

  lemma FourAbs(a: real, b: real, c: real, d: real, a': real, b': real, c': real, d': real)
    requires Abs(a) <= a' && Abs(b) <= b' && Abs(c) <= c' && Abs(d) <= d'
    ensures Abs(a + b + c + d) <= a' + b' + c' + d'
  {
  }

  lemma FourDistribute(e: real, w: real, n: real, s: real, y: real)
    ensures (e + w + n + s) * y == e * y + w * y + n * y + s * y
  {
  }

  lemma ScaledBounds(d: real, x: real, bound: real)
    requires d > 0.0 && Abs(d * x) <= d * bound
    ensures Abs(x) <= bound
  {
    Cancel(d, x, bound);
    Cancel(d, -bound, x);
  }

  lemma Cancel(d: real, x: real, y: real)
    requires d > 0.0 && d * x <= d * y
    ensures x <= y
  {
    if x > y {
      MulPositive(d, x - y);
    }
  }

  lemma StencilDifference(p: Problem, u: Grid, v: Grid, i: int, j: int)
    requires Valid(p) && Shaped(u, p.ny, p.nx) && Shaped(v, p.ny, p.nx) && Interior(p, i, j)
    ensures Diag(p, i, j) * (Stencil(p, v, i, j) - Stencil(p, u, i, j))
            == East(p, i, j) * (v[i][j + 1] - u[i][j + 1]) + West(p, i, j) * (v[i][j - 1] - u[i][j - 1])
               + North(p, i, j) * (v[i + 1][j] - u[i + 1][j]) + South(p, i, j) * (v[i - 1][j] - u[i - 1][j])
  {
    hide East, West, North, South, Diag, Stencil;
    StencilEquation(p, u, i, j);
    StencilEquation(p, v, i, j);
  }

  /** Two grids that agree to within `bound` agree to within `bound` after a sweep of each. */
  lemma SweepContracts(p: Problem, u: Grid, v: Grid, bound: real)
    requires Valid(p) && Shaped(u, p.ny, p.nx) && Shaped(v, p.ny, p.nx)
    requires forall i, j :: 0 <= i < p.ny && 0 <= j < p.nx ==> Abs(v[i][j] - u[i][j]) <= bound
    ensures forall i, j :: 0 <= i < p.ny && 0 <= j < p.nx ==>
              Abs(Next(p, v)[i][j] - Next(p, u)[i][j]) <= bound
  {
    forall i, j | 0 <= i < p.ny && 0 <= j < p.nx
      ensures Abs(Next(p, v)[i][j] - Next(p, u)[i][j]) <= bound
    {
      if Interior(p, i, j) {
        StencilContracts(p, u, v, i, j, bound);
      }
    }
  }

  lemma StencilContracts(p: Problem, u: Grid, v: Grid, i: int, j: int, bound: real)
    requires Valid(p) && Shaped(u, p.ny, p.nx) && Shaped(v, p.ny, p.nx) && Interior(p, i, j)
    requires forall i, j :: 0 <= i < p.ny && 0 <= j < p.nx ==> Abs(v[i][j] - u[i][j]) <= bound
    ensures Abs(Stencil(p, v, i, j) - Stencil(p, u, i, j)) <= bound
  {
    hide East, West, North, South, Stencil, Abs;
    FacesArePositive(p, i, j);
    StencilDifference(p, u, v, i, j);
    WeightedMeanBound(
      East(p, i, j), West(p, i, j), North(p, i, j), South(p, i, j),
      v[i][j + 1] - u[i][j + 1], v[i][j - 1] - u[i][j - 1],
      v[i + 1][j] - u[i + 1][j], v[i - 1][j] - u[i - 1][j],
      Diag(p, i, j), Stencil(p, v, i, j) - Stencil(p, u, i, j), bound);
  }

  /** For any positive reluctivities and any currents, a sweep's residual is at most the one before. */
  lemma ResidualNeverIncreases(p: Problem, u: Grid, before: real, after: real)
    requires Valid(p) && Shaped(u, p.ny, p.nx)
    requires IsResidual(p, u, before) && IsResidual(p, Next(p, u), after)
    ensures 0.0 <= after <= before
  {
    hide Stencil;
    var v := Next(p, u);
    var i0, j0 :| Interior(p, i0, j0) && Abs(Stencil(p, u, i0, j0) - u[i0][j0]) == before;
    SweepContracts(p, u, v, before);
    var i, j :| Interior(p, i, j) && Abs(Stencil(p, v, i, j) - v[i][j]) == after;
    assert Next(p, v)[i][j] == Stencil(p, v, i, j);
  }

  /** Over a whole solve: the residuals of successive sweeps never rise. */
  lemma ResidualsFall(p: Problem, history: seq<real>)
    requires Valid(p)
    requires forall k :: 0 <= k < |history| ==> IsResidual(p, Iterate(p, k), history[k])
    ensures forall k :: 0 <= k < |history| - 1 ==> history[k + 1] <= history[k]
  {
    hide IsResidual, Next;
    forall k | 0 <= k < |history| - 1
      ensures history[k + 1] <= history[k]
    {
      assert Iterate(p, k + 1) == Next(p, Iterate(p, k));
      ResidualNeverIncreases(p, Iterate(p, k), history[k], history[k + 1]);
    }
  }

  lemma {:induction false} BoundaryStaysZero(p: Problem, n: nat)
    requires Valid(p)
    ensures BoundaryIsZero(p, Iterate(p, n))
  {
    if n > 0 {
      BoundaryStaysZero(p, n - 1);
    }
  }

  // ------------------------------------------------------------------- monotone iteration

  ghost predicate PointwiseLe(p: Problem, u: Grid, v: Grid)
    requires Shaped(u, p.ny, p.nx) && Shaped(v, p.ny, p.nx)
  {
    forall i, j :: 0 <= i < p.ny && 0 <= j < p.nx ==> u[i][j] <= v[i][j]
  }

  lemma StencilIsMonotone(p: Problem, u: Grid, v: Grid, i: int, j: int)
    requires Valid(p) && Shaped(u, p.ny, p.nx) && Shaped(v, p.ny, p.nx) && Interior(p, i, j)
    requires PointwiseLe(p, u, v)
    ensures Stencil(p, u, i, j) <= Stencil(p, v, i, j)
  {
    hide East, West, North, South, Diag, Stencil;
    FacesArePositive(p, i, j);
    StencilEquation(p, u, i, j);
    StencilEquation(p, v, i, j);
    MulLe(u[i][j + 1], v[i][j + 1], East(p, i, j));
    MulLe(u[i][j - 1], v[i][j - 1], West(p, i, j));
    MulLe(u[i + 1][j], v[i + 1][j], North(p, i, j));
    MulLe(u[i - 1][j], v[i - 1][j], South(p, i, j));
    Cancel(Diag(p, i, j), Stencil(p, u, i, j), Stencil(p, v, i, j));
  }

  lemma SweepIsMonotone(p: Problem, u: Grid, v: Grid)
    requires Valid(p) && Shaped(u, p.ny, p.nx) && Shaped(v, p.ny, p.nx)
    requires PointwiseLe(p, u, v)
    ensures PointwiseLe(p, Next(p, u), Next(p, v))
  {
    hide Stencil;
    forall i, j | 0 <= i < p.ny && 0 <= j < p.nx
      ensures Next(p, u)[i][j] <= Next(p, v)[i][j]
    {
      if Interior(p, i, j) {
        StencilIsMonotone(p, u, v, i, j);
      }
    }
  }

  /** With non-negative currents every sweep leaves the potential non-negative and pointwise
      no smaller than before. */
  lemma {:induction false} PotentialGrows(p: Problem, n: nat)
    requires Valid(p)
    requires forall i, j :: Interior(p, i, j) ==> p.current[i][j] >= 0.0
    ensures PointwiseLe(p, Iterate(p, 0), Iterate(p, n))
    ensures PointwiseLe(p, Iterate(p, n), Iterate(p, n + 1))
  {
    hide Stencil, Next;
    if n == 0 {
      FirstSweepRises(p);
    } else {
      PotentialGrows(p, n - 1);
      SweepIsMonotone(p, Iterate(p, n - 1), Iterate(p, n));
    }
  }

  lemma FirstSweepRises(p: Problem)
    requires Valid(p)
    requires forall i, j :: Interior(p, i, j) ==> p.current[i][j] >= 0.0
    ensures PointwiseLe(p, Iterate(p, 0), Iterate(p, 1))
  {
    hide Stencil;
    var zero := Iterate(p, 0);
    forall i, j | 0 <= i < p.ny && 0 <= j < p.nx
      ensures zero[i][j] <= Next(p, zero)[i][j]
    {
      if Interior(p, i, j) {
        FacesArePositive(p, i, j);
        StencilEquation(p, zero, i, j);
        Cancel(Diag(p, i, j), 0.0, Stencil(p, zero, i, j));
      }
    }
  }

  // ---------------------------------------------------------------------- flux conservation

  /** Flux through the face east of (i, j), and through the face north of it, with the sign of
      the potential difference across it. */
  function EastFlux(p: Problem, u: Grid, i: int, j: int): real
    requires Valid(p) && Shaped(u, p.ny, p.nx)
  {
    if 0 <= i < p.ny && 0 <= j < p.nx - 1 then East(p, i, j) * (u[i][j + 1] - u[i][j]) else 0.0
  }

  function NorthFlux(p: Problem, u: Grid, i: int, j: int): real
    requires Valid(p) && Shaped(u, p.ny, p.nx)
  {
    if 0 <= i < p.ny - 1 && 0 <= j < p.nx then North(p, i, j) * (u[i + 1][j] - u[i][j]) else 0.0
  }

  /** What the interior of row `i` exchanges through its two boundary faces. */
  function RowEnds(p: Problem, u: Grid): Term
    requires Valid(p) && Shaped(u, p.ny, p.nx)
  {
    (k: int, i: int) => EastFlux(p, u, i, p.nx - 2) - EastFlux(p, u, i, 0)
  }

  function EastFluxes(p: Problem, u: Grid): Term
    requires Valid(p) && Shaped(u, p.ny, p.nx)
  {
    (i: int, j: int) => EastFlux(p, u, i, j)
  }

  function NorthFluxes(p: Problem, u: Grid): Term
    requires Valid(p) && Shaped(u, p.ny, p.nx)
  {
    (i: int, j: int) => NorthFlux(p, u, i, j)
  }

  /** Net flux out of the interior block through its boundary faces. */
  function NetFluxOut(p: Problem, u: Grid): real
    requires Valid(p) && Shaped(u, p.ny, p.nx)
  {
    -RowSum(RowEnds(p, u), 0, 1, p.ny - 1)
    - (RowSum(NorthFluxes(p, u), p.ny - 2, 1, p.nx - 1) - RowSum(NorthFluxes(p, u), 0, 1, p.nx - 1))
  }

  function Currents(p: Problem): Term
    requires Valid(p)
  {
    (i: int, j: int) => if Interior(p, i, j) then p.current[i][j] else 0.0
  }

  function Diags(p: Problem): Term
    requires Valid(p)
  {
    (i: int, j: int) => if Interior(p, i, j) then Diag(p, i, j) else 0.0
  }

  function OverInterior(p: Problem, f: Term): real {
    GridSum(f, 1, p.ny - 1, 1, p.nx - 1)
  }

  function DiffX(p: Problem, u: Grid): Term
    requires Valid(p) && Shaped(u, p.ny, p.nx)
  {
    (i: int, j: int) => EastFlux(p, u, i, j) - EastFlux(p, u, i, j - 1)
  }

  function DiffY(p: Problem, u: Grid): Term
    requires Valid(p) && Shaped(u, p.ny, p.nx)
  {
    (i: int, j: int) => NorthFlux(p, u, i, j) - NorthFlux(p, u, i - 1, j)
  }

  function Divergence(p: Problem, u: Grid): Term
    requires Valid(p) && Shaped(u, p.ny, p.nx)
  {
    (i: int, j: int) => DiffX(p, u)(i, j) + DiffY(p, u)(i, j)
  }

  /** What the sweep would still change, weighted by the diagonal. */
  function Defect(p: Problem, u: Grid): Term
    requires Valid(p) && Shaped(u, p.ny, p.nx)
  {
    (i: int, j: int) =>
      if Interior(p, i, j) then Diag(p, i, j) * (Stencil(p, u, i, j) - u[i][j]) else 0.0
  }

  lemma CellBalance(p: Problem, u: Grid, i: int, j: int)
    requires Valid(p) && Shaped(u, p.ny, p.nx) && Interior(p, i, j)
    ensures Defect(p, u)(i, j) == Divergence(p, u)(i, j) + Currents(p)(i, j)
  {
    hide EastFlux, NorthFlux, Diag, Stencil;
    CellFluxes(p, u, i, j);
    assert Currents(p)(i, j) == p.current[i][j];
    assert Divergence(p, u)(i, j) == DiffX(p, u)(i, j) + DiffY(p, u)(i, j);
    assert DiffX(p, u)(i, j) == EastFlux(p, u, i, j) - EastFlux(p, u, i, j - 1);
    assert DiffY(p, u)(i, j) == NorthFlux(p, u, i, j) - NorthFlux(p, u, i - 1, j);
    assert Defect(p, u)(i, j) == Diag(p, i, j) * (Stencil(p, u, i, j) - u[i][j]);
  }

  lemma CellFluxes(p: Problem, u: Grid, i: int, j: int)
    requires Valid(p) && Shaped(u, p.ny, p.nx) && Interior(p, i, j)
    ensures Diag(p, i, j) * (Stencil(p, u, i, j) - u[i][j])
            == (EastFlux(p, u, i, j) - EastFlux(p, u, i, j - 1))
               + (NorthFlux(p, u, i, j) - NorthFlux(p, u, i - 1, j)) + p.current[i][j]
  {
    hide East, West, North, South, Stencil;
    StencilEquation(p, u, i, j);
    FacesAreShared(p, i, j);
    Balance(
      East(p, i, j), West(p, i, j), North(p, i, j), South(p, i, j),
      u[i][j + 1], u[i][j - 1], u[i + 1][j], u[i - 1][j],
      u[i][j], Stencil(p, u, i, j), p.current[i][j]);
  }

  lemma Balance(
    e: real, w: real, n: real, s: real, ye: real, yw: real, yn: real, ys: real,
    y: real, x: real, c: real)
    requires (e + w + n + s) * x == e * ye + w * yw + n * yn + s * ys + c
    ensures (e + w + n + s) * (x - y) == e * (ye - y) - w * (y - yw) + (n * (yn - y) - s * (y - ys)) + c
  {
  }

  /** Every interior face is crossed once in each direction, so only boundary faces remain. */
  lemma InteriorFluxesCancel(p: Problem, u: Grid)
    requires Valid(p) && Shaped(u, p.ny, p.nx)
    ensures OverInterior(p, Divergence(p, u)) == -NetFluxOut(p, u)
  {
    hide EastFlux, NorthFlux, RowSum, GridSum;
    GridSumAdds(Divergence(p, u), DiffX(p, u), DiffY(p, u), 1, p.ny - 1, 1, p.nx - 1);
    GridTelescopesAlongRows(DiffX(p, u), EastFluxes(p, u), RowEnds(p, u), 1, p.ny - 1, 1, p.nx - 1);
    GridTelescopesAcrossRows(DiffY(p, u), NorthFluxes(p, u), 1, p.ny - 1, 1, p.nx - 1);
  }

  /** The current the interior carries is what leaves through the boundary, up to the defect. */
  lemma CurrentBalance(p: Problem, u: Grid)
    requires Valid(p) && Shaped(u, p.ny, p.nx)
    ensures OverInterior(p, Currents(p)) - NetFluxOut(p, u) == OverInterior(p, Defect(p, u))
  {
    hide Divergence, Currents, Defect, NetFluxOut, RowSum, GridSum;
    forall i, j | 1 <= i < p.ny - 1 && 1 <= j < p.nx - 1
      ensures Defect(p, u)(i, j) == Divergence(p, u)(i, j) + Currents(p)(i, j)
    {
      CellBalance(p, u, i, j);
    }
    GridSumAdds(Defect(p, u), Divergence(p, u), Currents(p), 1, p.ny - 1, 1, p.nx - 1);
    InteriorFluxesCancel(p, u);
  }

  function ScaledDiags(p: Problem, residual: real): Term
    requires Valid(p)
  {
    (i: int, j: int) => residual * Diags(p)(i, j)
  }

  /** At every sweep the total interior current differs from the net flux out by at most the
      residual times the sum of the diagonal. */
  lemma FluxImbalanceBound(p: Problem, u: Grid, residual: real)
    requires Valid(p) && Shaped(u, p.ny, p.nx) && IsResidual(p, u, residual)
    ensures Abs(OverInterior(p, Currents(p)) - NetFluxOut(p, u))
            <= residual * OverInterior(p, Diags(p))
  {
    hide NetFluxOut, Currents, Diags, Defect, ScaledDiags, RowSum, GridSum, IsResidual;
    CurrentBalance(p, u);
    forall i, j | 1 <= i < p.ny - 1 && 1 <= j < p.nx - 1
      ensures Abs(Defect(p, u)(i, j)) <= ScaledDiags(p, residual)(i, j)
      ensures ScaledDiags(p, residual)(i, j) == residual * Diags(p)(i, j)
    {
      DefectBound(p, u, residual, i, j);
    }
    GridSumBound(Defect(p, u), ScaledDiags(p, residual), 1, p.ny - 1, 1, p.nx - 1);
    GridSumScales(ScaledDiags(p, residual), Diags(p), residual, 1, p.ny - 1, 1, p.nx - 1);
  }

  lemma DefectBound(p: Problem, u: Grid, residual: real, i: int, j: int)
    requires Valid(p) && Shaped(u, p.ny, p.nx) && IsResidual(p, u, residual) && Interior(p, i, j)
    ensures Abs(Defect(p, u)(i, j)) <= ScaledDiags(p, residual)(i, j)
    ensures ScaledDiags(p, residual)(i, j) == residual * Diags(p)(i, j)
  {
    hide Diag, Stencil, Abs, Valid;
    var d, change := Diag(p, i, j), Stencil(p, u, i, j) - u[i][j];
    FacesArePositive(p, i, j);
    ScaledAbs(d, change, residual);
    Commutes(d, residual);
    assert Defect(p, u)(i, j) == d * change;
    assert Diags(p)(i, j) == d;
  }

  lemma Commutes(a: real, b: real)
    ensures a * b == b * a
  {
  }

  /** The potential a solve returns conserves current to within its last residual: the bound
      carries over from the sweep that measured it to the sweep it produced. */
  lemma ReturnedPotentialConserves(p: Problem, sweeps: nat, residual: real)
    requires Valid(p) && sweeps >= 1 && IsResidual(p, Iterate(p, sweeps - 1), residual)
    ensures Abs(OverInterior(p, Currents(p)) - NetFluxOut(p, Iterate(p, sweeps)))
            <= residual * OverInterior(p, Diags(p))
  {
    hide IsResidual, Next, NetFluxOut, Currents, Diags, OverInterior;
    var u := Iterate(p, sweeps);
    var after := SomeResidual(p, u);
    ResidualNeverIncreases(p, Iterate(p, sweeps - 1), residual, after);
    FluxImbalanceBound(p, u, after);
    DiagSumIsNonNegative(p);
    MulLe(after, residual, OverInterior(p, Diags(p)));
  }

  lemma DiagSumIsNonNegative(p: Problem)
    requires Valid(p)
    ensures OverInterior(p, Diags(p)) >= 0.0
  {
    hide Diag;
    forall i, j | 1 <= i < p.ny - 1 && 1 <= j < p.nx - 1
      ensures Abs(Diags(p)(i, j)) <= Diags(p)(i, j)
    {
      FacesArePositive(p, i, j);
    }
    GridSumBound(Diags(p), Diags(p), 1, p.ny - 1, 1, p.nx - 1);
  }

  lemma SomeResidual(p: Problem, u: Grid) returns (residual: real)
    requires Valid(p) && Shaped(u, p.ny, p.nx)
    ensures IsResidual(p, u, residual)
  {
    hide Stencil;
    var i, j := 1, 1;
    var bi, bj := 1, 1;
    while i < p.ny - 1
      invariant 1 <= i <= p.ny - 1 && 1 <= j < p.nx - 1 && Interior(p, bi, bj)
      invariant forall k, l :: Interior(p, k, l) && (k < i || (k == i && l < j)) ==>
                  Abs(Stencil(p, u, k, l) - u[k][l]) <= Abs(Stencil(p, u, bi, bj) - u[bi][bj])
      decreases p.ny - i, p.nx - j
    {
      if Abs(Stencil(p, u, i, j) - u[i][j]) > Abs(Stencil(p, u, bi, bj) - u[bi][bj]) {
        bi, bj := i, j;
      }
      if j + 1 < p.nx - 1 {
        j := j + 1;
      } else {
        i, j := i + 1, 1;
      }
    }
    residual := Abs(Stencil(p, u, bi, bj) - u[bi][bj]);
  }
}
