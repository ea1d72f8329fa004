/** A parameter sweep: the full factorial in odometer order, and the response curves that draw its
    answers against the first axis. */
module Sweep {
  import opened Wrappers

  datatype Axis = Axis(parameter: string, values: seq<real>)

  type Combination = seq<real>

  const MAX_SWEEP_POINTS := 64
  const MAX_SERIES_TRACES := 32
  const MAX_SERIES_POINTS := 4096

  predicate Ascending(values: seq<real>) {
    forall i, j :: 0 <= i < j < |values| ==> values[i] < values[j]
  }

  predicate ValidAxis(axis: Axis) {
    axis.values != [] && Ascending(axis.values)
  }

  predicate DistinctNames(axes: seq<Axis>) {
    forall i, j :: 0 <= i < j < |axes| ==> axes[i].parameter != axes[j].parameter
  }

  /** How many points a grid has, counted and never enumerated. */
  function Size(axes: seq<Axis>): nat
    decreases |axes|
  {
    if axes == [] then 1 else |axes[0].values| * Size(axes[1..])
  }

  /** What the body's validator accepts as a grid. */
  predicate ValidGrid(axes: seq<Axis>) {
    && axes != [] && DistinctNames(axes)
    && (forall i :: 0 <= i < |axes| ==> ValidAxis(axes[i]))
    && |axes[0].values| >= 2
    && Size(axes) <= MAX_SWEEP_POINTS
  }

  // ------------------------------------------------------------------------- the enumeration

  function Prefixed(x: real, tails: seq<Combination>): (r: seq<Combination>)
    ensures |r| == |tails| && forall k :: 0 <= k < |r| ==> r[k] == [x] + tails[k]
  {
    seq(|tails|, k requires 0 <= k < |tails| => [x] + tails[k])
  }

  function Spread(values: seq<real>, tails: seq<Combination>): seq<Combination>
    decreases |values|
  {
    if values == [] then []
    else Spread(values[..|values| - 1], tails) + Prefixed(values[|values| - 1], tails)
  }

  /** `itertools.product`: for each value of the first axis in turn, every combination of the rest. */
  function Product(axes: seq<Axis>): seq<Combination>
    decreases |axes|
  {
    if axes == [] then [[]] else Spread(axes[0].values, Product(axes[1..]))
  }

  /** The digits of `k` in the mixed radix of the axis lengths, the last axis varying fastest. */
  function Digits(axes: seq<Axis>, k: nat): seq<nat>
    requires k < Size(axes)
    decreases |axes|
  {
    if axes == [] then []
    else
      SizeIsPositive(axes);
      Quotient(k, |axes[0].values|, Size(axes[1..]));
      [k / Size(axes[1..])] + Digits(axes[1..], k % Size(axes[1..]))
  }

  lemma SizeIsPositive(axes: seq<Axis>)
    requires axes != [] && Size(axes) > 0
    ensures |axes[0].values| > 0 && Size(axes[1..]) > 0
  {
    FactorsArePositive(|axes[0].values|, Size(axes[1..]));
  }

  lemma FactorsArePositive(n: nat, m: nat)
    requires n * m > 0
    ensures n > 0 && m > 0
  {
  }

  lemma Quotient(k: nat, n: nat, size: nat)
    requires size > 0 && k < n * size
    ensures 0 <= k / size < n && 0 <= k % size < size && k == k / size * size + k % size
  {
    if k / size >= n {
      MulGrows(n, k / size, size);
    }
  }

  lemma MulGrows(a: nat, b: nat, c: nat)
    requires a <= b
    ensures a * c <= b * c
  {
  }

  ghost predicate AreDigits(axes: seq<Axis>, digits: seq<nat>) {
    |digits| == |axes| && forall i :: 0 <= i < |axes| ==> digits[i] < |axes[i].values|
  }

  function Rank(axes: seq<Axis>, digits: seq<nat>): nat
    requires |digits| == |axes|
    decreases |axes|
  {
    if axes == [] then 0 else digits[0] * Size(axes[1..]) + Rank(axes[1..], digits[1..])
  }

  /** The values those digits select. */
  function Reading(axes: seq<Axis>, digits: seq<nat>): Combination
    requires AreDigits(axes, digits)
  {
    seq(|axes|, i requires 0 <= i < |axes| => axes[i].values[digits[i]])
  }

  lemma Advance(n: nat, m: nat)
    ensures (n + 1) * m == n * m + m
  {
  }

  lemma {:induction false} SpreadLength(values: seq<real>, tails: seq<Combination>)
    ensures |Spread(values, tails)| == |values| * |tails|
    decreases |values|
  {
    if values != [] {
      SpreadLength(values[..|values| - 1], tails);
      Advance(|values| - 1, |tails|);
    }
  }

  lemma PlaceInSpread(i: nat, r: nat, n: nat, m: nat)
    requires i < n && r < m
    ensures i * m + r < n * m
  {
    Advance(i, m);
    MulGrows(i + 1, n, m);
  }

  lemma {:induction false} SpreadAt(values: seq<real>, tails: seq<Combination>, i: nat, r: nat)
    requires i < |values| && r < |tails|
    ensures i * |tails| + r < |Spread(values, tails)|
    ensures Spread(values, tails)[i * |tails| + r] == [values[i]] + tails[r]
    decreases |values|
  {
    var n, m := |values| - 1, |tails|;
    SpreadLength(values, tails);
    SpreadLength(values[..n], tails);
    PlaceInSpread(i, r, |values|, m);
    if i < n {
      SpreadAt(values[..n], tails, i, r);
    }
  }

  lemma {:induction false} ProductLength(axes: seq<Axis>)
    ensures |Product(axes)| == Size(axes)
    decreases |axes|
  {
    if axes != [] {
      ProductLength(axes[1..]);
      SpreadLength(axes[0].values, Product(axes[1..]));
    }
  }

  lemma {:induction false} DigitsAreDigits(axes: seq<Axis>, k: nat)
    requires k < Size(axes)
    ensures AreDigits(axes, Digits(axes, k))
    decreases |axes|
  {
    if axes != [] {
      SizeIsPositive(axes);
      Quotient(k, |axes[0].values|, Size(axes[1..]));
      DigitsAreDigits(axes[1..], k % Size(axes[1..]));
    }
  }

  /** The k-th variation reads off the digits of k: the last axis varies fastest. */
  lemma {:induction false} ProductReadsDigits(axes: seq<Axis>, k: nat)
    requires k < Size(axes)
    ensures |Product(axes)| == Size(axes) && AreDigits(axes, Digits(axes, k))
    ensures Product(axes)[k] == Reading(axes, Digits(axes, k))
    decreases |axes|
  {
    ProductLength(axes);
    DigitsAreDigits(axes, k);
    if axes != [] {
      var rest := axes[1..];
      SizeIsPositive(axes);
      Quotient(k, |axes[0].values|, Size(rest));
      var q, r := k / Size(rest), k % Size(rest);
      ProductReadsDigits(rest, r);
      SpreadAt(axes[0].values, Product(rest), q, r);
      assert Reading(axes, Digits(axes, k)) == [axes[0].values[q]] + Reading(rest, Digits(rest, r));
    }
  }

  lemma QuotientOfPlace(q: nat, r: nat, size: nat)
    requires r < size
    ensures (q * size + r) / size == q && (q * size + r) % size == r
  {
    var k := q * size + r;
    if k / size > q {
      MulGrows(q + 1, k / size, size);
    } else if k / size < q {
      MulGrows(k / size + 1, q, size);
    }
  }

  /** Digits and ranks are inverse to each other, both ways: the variations are numbered by the
      mixed-radix numbers below the product of the axis lengths, each exactly once. */
  lemma {:induction false} RankOfDigits(axes: seq<Axis>, k: nat)
    requires k < Size(axes)
    ensures |Digits(axes, k)| == |axes| && Rank(axes, Digits(axes, k)) == k
    decreases |axes|
  {
    if axes != [] {
      var rest := axes[1..];
      SizeIsPositive(axes);
      Quotient(k, |axes[0].values|, Size(rest));
      RankOfDigits(rest, k % Size(rest));
      assert Digits(axes, k)[1..] == Digits(rest, k % Size(rest));
    }
  }

  lemma {:induction false} DigitsOfRank(axes: seq<Axis>, digits: seq<nat>)
    requires AreDigits(axes, digits)
    ensures Rank(axes, digits) < Size(axes) && Digits(axes, Rank(axes, digits)) == digits
    decreases |axes|
  {
    if axes != [] {
      var rest := axes[1..];
      DigitsOfRank(rest, digits[1..]);
      var r := Rank(rest, digits[1..]);
      PlaceInSpread(digits[0], r, |axes[0].values|, Size(rest));
      QuotientOfPlace(digits[0], r, Size(rest));
    }
  }

  lemma AscendingIsInjective(values: seq<real>, i: nat, j: nat)
    requires Ascending(values) && i < |values| && j < |values| && values[i] == values[j]
    ensures i == j
  {
  }

  /** Every combination of the axes' values is one variation, and no two variations agree. */
  lemma VariationsAreAllAndDistinct(axes: seq<Axis>, digits: seq<nat>, k: nat, m: nat)
    requires forall i :: 0 <= i < |axes| ==> ValidAxis(axes[i])
    requires AreDigits(axes, digits) && k < Size(axes) && m < Size(axes)
    ensures |Product(axes)| == Size(axes)
    ensures Rank(axes, digits) < Size(axes) && Product(axes)[Rank(axes, digits)] == Reading(axes, digits)
    ensures Product(axes)[k] == Product(axes)[m] <==> k == m
  {
    DigitsOfRank(axes, digits);
    ProductReadsDigits(axes, Rank(axes, digits));
    ProductReadsDigits(axes, k);
    ProductReadsDigits(axes, m);
    if Product(axes)[k] == Product(axes)[m] {
      var dk, dm := Digits(axes, k), Digits(axes, m);
      forall i | 0 <= i < |axes|
        ensures dk[i] == dm[i]
      {
        assert Reading(axes, dk)[i] == Reading(axes, dm)[i];
        AscendingIsInjective(axes[i].values, dk[i], dm[i]);
      }
      assert dk == dm;
      RankOfDigits(axes, k);
      RankOfDigits(axes, m);
    }
  }

  // ------------------------------------------------------------------------ the report's table

  /** One row: the parameters it set, and the metrics that came back, none until it is answered. */
  datatype SweepPoint = SweepPoint(values: map<string, real>, metrics: map<string, real>)

  /** A combination under its axes' names. */
  function Named(axes: seq<Axis>, combination: Combination): map<string, real>
    requires |combination| == |axes|
    decreases |axes|
  {
    if axes == [] then map[]
    else Named(axes[1..], combination[1..])[axes[0].parameter := combination[0]]
  }

  lemma {:induction false} NamedAt(axes: seq<Axis>, combination: Combination, i: nat)
    requires |combination| == |axes| && DistinctNames(axes) && i < |axes|
    ensures axes[i].parameter in Named(axes, combination)
    ensures Named(axes, combination)[axes[i].parameter] == combination[i]
    decreases |axes|
  {
    if i > 0 {
      NamedAt(axes[1..], combination[1..], i - 1);
      assert axes[1..][i - 1] == axes[i] && combination[1..][i - 1] == combination[i];
    }
  }

  /** One row for each variation, in order. */
  ghost predicate Tabulated(axes: seq<Axis>, points: seq<SweepPoint>) {
    && |points| == |Product(axes)|
    && forall i :: 0 <= i < |points| ==>
         |Product(axes)[i]| == |axes| && points[i].values == Named(axes, Product(axes)[i])
  }

  // --------------------------------------------------------------------------------- the curves

  datatype Trace = Trace(held: Combination, at: seq<real>, values: seq<real>)

  datatype Curves = Curves(metric: string, names: seq<string>, traces: seq<Trace>)

  /** The point lies where the other axes hold these values. */
  predicate OnLine(rest: seq<Axis>, held: Combination, point: SweepPoint) {
    |held| == |rest|
    && forall i :: 0 <= i < |rest| ==>
         rest[i].parameter in point.values && point.values[rest[i].parameter] == held[i]
  }

  predicate IsDrawn(axes: seq<Axis>, metric: string, held: Combination, point: SweepPoint)
    requires axes != []
  {
    metric in point.metrics && OnLine(axes[1..], held, point)
  }

  /** Which of the first `n` points one trace draws, in order. */
  function Drawn(axes: seq<Axis>, points: seq<SweepPoint>, metric: string, held: Combination, n: nat)
    : (drawn: seq<nat>)
    requires axes != [] && n <= |points|
    ensures forall k :: 0 <= k < |drawn| ==> drawn[k] < n && IsDrawn(axes, metric, held, points[drawn[k]])
  {
    if n == 0 then []
    else Drawn(axes, points, metric, held, n - 1)
         + if IsDrawn(axes, metric, held, points[n - 1]) then [n - 1] else []
  }

  predicate HasAbscissa(axes: seq<Axis>, points: seq<SweepPoint>) {
    axes != [] ==> forall i :: 0 <= i < |points| ==> axes[0].parameter in points[i].values
  }

  function TraceOf(axes: seq<Axis>, points: seq<SweepPoint>, metric: string, held: Combination, n: nat): Trace
    requires axes != [] && n <= |points| && HasAbscissa(axes, points)
  {
    var drawn := Drawn(axes, points, metric, held, n);
    Trace(held,
          seq(|drawn|, k requires 0 <= k < |drawn| => points[drawn[k]].values[axes[0].parameter]),
          seq(|drawn|, k requires 0 <= k < |drawn| => points[drawn[k]].metrics[metric]))
  }

  /** The traces of the first `n` combinations of the other axes; one that draws nothing is not. */
  function TracesOf(axes: seq<Axis>, points: seq<SweepPoint>, metric: string, n: nat): seq<Trace>
    requires axes != [] && n <= |Product(axes[1..])| && HasAbscissa(axes, points)
  {
    if n == 0 then []
    else
      var held := Product(axes[1..])[n - 1];
      TracesOf(axes, points, metric, n - 1)
      + if Drawn(axes, points, metric, held, |points|) == [] then []
        else [TraceOf(axes, points, metric, held, |points|)]
  }

  function AllTraces(axes: seq<Axis>, points: seq<SweepPoint>, metric: string): seq<Trace>
    requires axes != [] && HasAbscissa(axes, points)
  {
    TracesOf(axes, points, metric, |Product(axes[1..])|)
  }

  // Trace names: the metric, and where the other axes are held, each value as its label.

  /** How a held value is printed. */
  type Labels = real -> string

  function Printed(labels: Labels, value: real): string {
    labels(value)
  }

  function HeldAt(rest: seq<Axis>, held: Combination, labels: Labels): string
    requires |held| == |rest|
    decreases |rest|
  {
    if rest == [] then ""
    else
      rest[0].parameter + "=" + Printed(labels, held[0])
      + if |rest| == 1 then "" else ", " + HeldAt(rest[1..], held[1..], labels)
  }

  function TraceName(metric: string, rest: seq<Axis>, held: Combination, labels: Labels): string
    requires |held| == |rest|
  {
    if rest == [] then metric else metric + " @ " + HeldAt(rest, held, labels)
  }

  /** Every line holds one value for each of the other axes. */
  lemma {:induction false} ProductIsWide(axes: seq<Axis>, k: nat)
    requires k < |Product(axes)|
    ensures |Product(axes)[k]| == |axes|
    decreases |axes|
  {
    if axes != [] {
      SpreadIsWide(axes[0].values, Product(axes[1..]), |axes| - 1, k);
      forall r | 0 <= r < |Product(axes[1..])|
        ensures |Product(axes[1..])[r]| == |axes| - 1
      {
        ProductIsWide(axes[1..], r);
      }
    }
  }

  lemma {:induction false} SpreadIsWide(values: seq<real>, tails: seq<Combination>, n: nat, k: nat)
    requires k < |Spread(values, tails)|
    ensures (forall r :: 0 <= r < |tails| ==> |tails[r]| == n) ==> |Spread(values, tails)[k]| == n + 1
    decreases |values|
  {
    var before := Spread(values[..|values| - 1], tails);
    if k < |before| {
      SpreadIsWide(values[..|values| - 1], tails, n, k);
    }
  }

  function NamesOf(metric: string, rest: seq<Axis>, traces: seq<Trace>, labels: Labels): seq<string> {
    seq(|traces|, t requires 0 <= t < |traces| =>
      if |traces[t].held| == |rest| then TraceName(metric, rest, traces[t].held, labels) else metric)
  }

  predicate Distinct(names: seq<string>) {
    forall t, u :: 0 <= t < u < |names| ==> names[t] != names[u]
  }

  /** What the series model accepts: some traces and not too many, no name twice, and each trace
      against as many abscissae as it has values. */
  predicate Accepted(curves: Curves) {
    && curves.traces != [] && |curves.traces| <= MAX_SERIES_TRACES && Distinct(curves.names)
    && forall t :: 0 <= t < |curves.traces| ==>
         var trace := curves.traces[t];
         |trace.at| == |trace.values| && 0 < |trace.at| <= MAX_SERIES_POINTS
  }

  /** The first metric whose curves the series model refuses. */
  datatype Refused = Refused(metric: string)

  /** A metric nobody answered has no curves rather than an empty frame. */
  function CurvesOf(axes: seq<Axis>, points: seq<SweepPoint>, metrics: seq<string>, labels: Labels)
    : Result<seq<Curves>, Refused>
    requires axes != [] && HasAbscissa(axes, points)
    decreases |metrics|
  {
    if metrics == [] then Ok([])
    else
      var n := |metrics| - 1;
      var before := CurvesOf(axes, points, metrics[..n], labels);
      if before.Err? then before
      else
        var traces := AllTraces(axes, points, metrics[n]);
        var curves := Curves(metrics[n], NamesOf(metrics[n], axes[1..], traces, labels), traces);
        if traces == [] then before
        else if Accepted(curves) then Ok(before.value + [curves])
        else Err(Refused(metrics[n]))
  }

  method DrawTrace(axes: seq<Axis>, points: seq<SweepPoint>, metric: string, held: Combination)
    returns (trace: Trace)
    requires axes != [] && HasAbscissa(axes, points)
    ensures trace == TraceOf(axes, points, metric, held, |points|)
    ensures |trace.values| == |Drawn(axes, points, metric, held, |points|)|
  {
    trace := Trace(held, [], []);
    for i := 0 to |points|
      invariant trace == TraceOf(axes, points, metric, held, i)
    {
      if IsDrawn(axes, metric, held, points[i]) {
        trace := Trace(held, trace.at + [points[i].values[axes[0].parameter]],
                       trace.values + [points[i].metrics[metric]]);
      }
    }
  }

  method DrawMetric(axes: seq<Axis>, points: seq<SweepPoint>, metric: string) returns (traces: seq<Trace>)
    requires axes != [] && HasAbscissa(axes, points)
    ensures traces == AllTraces(axes, points, metric)
  {
    hide Product, HasAbscissa, Drawn, TraceOf, TracesOf;
    var combinations := Product(axes[1..]);
    traces := [];
    NoLineYet(axes, points, metric);
    for c := 0 to |combinations|
      invariant traces == TracesOf(axes, points, metric, c)
    {
      var trace := DrawTrace(axes, points, metric, combinations[c]);
      OneMoreLine(axes, points, metric, c);
      if trace.values != [] {
        traces := traces + [trace];
      }
    }
  }

  lemma NoLineYet(axes: seq<Axis>, points: seq<SweepPoint>, metric: string)
    requires axes != [] && HasAbscissa(axes, points)
    ensures TracesOf(axes, points, metric, 0) == [] && Samples(TracesOf(axes, points, metric, 0)) == 0
  {
  }

  lemma OneMoreLine(axes: seq<Axis>, points: seq<SweepPoint>, metric: string, c: nat)
    requires axes != [] && HasAbscissa(axes, points) && c < |Product(axes[1..])|
    ensures var trace := TraceOf(axes, points, metric, Product(axes[1..])[c], |points|);
            TracesOf(axes, points, metric, c + 1)
            == TracesOf(axes, points, metric, c) + if trace.values == [] then [] else [trace]
  {
    hide Product, HasAbscissa, IsDrawn;
  }

  /** An explicit list of points has no axis to draw against. */
  method ResponseCurves(axes: seq<Axis>, points: seq<SweepPoint>, metrics: seq<string>, labels: Labels)
    returns (curves: Result<seq<Curves>, Refused>)
    requires HasAbscissa(axes, points)
    ensures curves == if axes == [] then Ok([]) else CurvesOf(axes, points, metrics, labels)
  {
    hide AllTraces, HasAbscissa, Accepted, NamesOf;
    if axes == [] {
      return Ok([]);
    }
    var drawn: seq<Curves> := [];
    for m := 0 to |metrics|
      invariant CurvesOf(axes, points, metrics[..m], labels) == Ok(drawn)
    {
      assert metrics[..m + 1][..m] == metrics[..m];
      var traces := DrawMetric(axes, points, metrics[m]);
      if traces != [] {
        var lines := Curves(metrics[m], NamesOf(metrics[m], axes[1..], traces, labels), traces);
        if !Accepted(lines) {
          RefusalStays(axes, points, metrics, m + 1, labels);
          return Err(Refused(metrics[m]));
        }
        drawn := drawn + [lines];
      }
    }
    assert metrics[..|metrics|] == metrics;
    return Ok(drawn);
  }

  lemma {:induction false} RefusalStays(
    axes: seq<Axis>, points: seq<SweepPoint>, metrics: seq<string>, m: nat, labels: Labels)
    requires axes != [] && HasAbscissa(axes, points) && m <= |metrics|
    requires CurvesOf(axes, points, metrics[..m], labels).Err?
    ensures CurvesOf(axes, points, metrics, labels) == CurvesOf(axes, points, metrics[..m], labels)
    decreases |metrics|
  {
    hide AllTraces, HasAbscissa, Accepted, NamesOf;
    if m == |metrics| {
      assert metrics[..m] == metrics;
    } else {
      var before := metrics[..|metrics| - 1];
      assert before[..m] == metrics[..m];
      RefusalStays(axes, points, before, m, labels);
    }
  }

  // ------------------------------------------------------------------ the curves are a partition

  /** Point i is value i / R of the first axis on line i mod R, R lines in all. */
  lemma PointSplits(axes: seq<Axis>, i: nat)
    requires axes != [] && i < Size(axes)
    ensures |Product(axes)| == Size(axes) && |Product(axes[1..])| == Size(axes[1..]) > 0
    ensures var r := Size(axes[1..]);
            && 0 <= i / r < |axes[0].values| && 0 <= i % r < r
            && Product(axes)[i] == [axes[0].values[i / r]] + Product(axes[1..])[i % r]
  {
    var rest := axes[1..];
    ProductLength(axes);
    ProductLength(rest);
    SizeIsPositive(axes);
    Quotient(i, |axes[0].values|, Size(rest));
    SpreadAt(axes[0].values, Product(rest), i / Size(rest), i % Size(rest));
  }

  /** The line a point lies on. */
  function LineOf(axes: seq<Axis>, i: nat): nat
    requires axes != [] && Size(axes[1..]) > 0
  {
    i % Size(axes[1..])
  }

  /** A row is on the line of its own index and on no other. */
  lemma OnItsLineOnly(axes: seq<Axis>, points: seq<SweepPoint>, i: nat, c: nat)
    requires ValidGrid(axes) && Tabulated(axes, points) && i < |points|
    requires c < |Product(axes[1..])|
    ensures Size(axes[1..]) > 0
    ensures OnLine(axes[1..], Product(axes[1..])[c], points[i]) <==> LineOf(axes, i) == c
  {
    var rest := axes[1..];
    ProductLength(axes);
    PointSplits(axes, i);
    ProductReadsDigits(rest, c);
    var own := i % Size(rest);
    ProductReadsDigits(rest, own);
    forall j | 0 <= j < |rest|
      ensures rest[j].parameter in points[i].values
      ensures points[i].values[rest[j].parameter] == Product(rest)[own][j]
    {
      NamedAt(axes, Product(axes)[i], j + 1);
    }
    if OnLine(rest, Product(rest)[c], points[i]) {
      assert Product(rest)[c] == Product(rest)[own];
      VariationsAreAllAndDistinct(rest, Digits(rest, c), c, own);
    }
  }

  lemma {:induction false} DrawnIsWhatIsOnTheLine(
    axes: seq<Axis>, points: seq<SweepPoint>, metric: string, held: Combination, n: nat)
    requires axes != [] && n <= |points|
    ensures var drawn := Drawn(axes, points, metric, held, n);
            && (forall i :: 0 <= i < n ==> (i in drawn <==> IsDrawn(axes, metric, held, points[i])))
            && (forall k, m :: 0 <= k < m < |drawn| ==> drawn[k] < drawn[m])
  {
    if n > 0 {
      DrawnIsWhatIsOnTheLine(axes, points, metric, held, n - 1);
    }
  }

  /** Within a line the abscissa strictly increases. */
  lemma TraceAscends(axes: seq<Axis>, points: seq<SweepPoint>, metric: string, c: nat)
    requires ValidGrid(axes) && Tabulated(axes, points) && HasAbscissa(axes, points)
    requires c < |Product(axes[1..])|
    ensures Ascending(TraceOf(axes, points, metric, Product(axes[1..])[c], |points|).at)
  {
    var held := Product(axes[1..])[c];
    var drawn := Drawn(axes, points, metric, held, |points|);
    DrawnIsWhatIsOnTheLine(axes, points, metric, held, |points|);
    ProductLength(axes);
    forall k, m | 0 <= k < m < |drawn|
      ensures points[drawn[k]].values[axes[0].parameter] < points[drawn[m]].values[axes[0].parameter]
    {
      AbscissaAscends(axes, points, drawn[k], drawn[m], c);
    }
  }

  lemma AbscissaAscends(axes: seq<Axis>, points: seq<SweepPoint>, i: nat, j: nat, c: nat)
    requires ValidGrid(axes) && Tabulated(axes, points) && HasAbscissa(axes, points)
    requires i < j < |points| && c < |Product(axes[1..])|
    requires OnLine(axes[1..], Product(axes[1..])[c], points[i])
    requires OnLine(axes[1..], Product(axes[1..])[c], points[j])
    ensures points[i].values[axes[0].parameter] < points[j].values[axes[0].parameter]
  {
    var r := Size(axes[1..]);
    ProductLength(axes);
    OnItsLineOnly(axes, points, i, c);
    OnItsLineOnly(axes, points, j, c);
    PointSplits(axes, i);
    PointSplits(axes, j);
    Quotient(i, |axes[0].values|, r);
    Quotient(j, |axes[0].values|, r);
    NamedAt(axes, Product(axes)[i], 0);
    NamedAt(axes, Product(axes)[j], 0);
    if i / r >= j / r {
      MulGrows(j / r, i / r, r);
    }
  }

  function Answered(points: seq<SweepPoint>, metric: string, n: nat): nat
    requires n <= |points|
  {
    if n == 0 then 0 else Answered(points, metric, n - 1) + if metric in points[n - 1].metrics then 1 else 0
  }

  /** How many of the first `n` points the first `c` lines draw together. */
  function DrawnTogether(axes: seq<Axis>, points: seq<SweepPoint>, metric: string, c: nat, n: nat): nat
    requires axes != [] && c <= |Product(axes[1..])| && n <= |points|
  {
    if c == 0 then 0
    else DrawnTogether(axes, points, metric, c - 1, n)
         + |Drawn(axes, points, metric, Product(axes[1..])[c - 1], n)|
  }

  lemma OneMoreOnLine(axes: seq<Axis>, points: seq<SweepPoint>, metric: string, c: nat, n: nat)
    requires ValidGrid(axes) && Tabulated(axes, points)
    requires c < |Product(axes[1..])| && 0 < n <= |points| && Size(axes[1..]) > 0
    ensures |Drawn(axes, points, metric, Product(axes[1..])[c], n)|
            == |Drawn(axes, points, metric, Product(axes[1..])[c], n - 1)|
               + if metric in points[n - 1].metrics && LineOf(axes, n - 1) == c then 1 else 0
  {
    OnItsLineOnly(axes, points, n - 1, c);
    hide Product, Tabulated, ValidGrid, OnLine, Size, LineOf;
  }

  lemma {:induction false} OneMorePoint(axes: seq<Axis>, points: seq<SweepPoint>, metric: string, c: nat, n: nat)
    requires ValidGrid(axes) && Tabulated(axes, points)
    requires c <= |Product(axes[1..])| && 0 < n <= |points| && Size(axes[1..]) > 0
    ensures DrawnTogether(axes, points, metric, c, n)
            == DrawnTogether(axes, points, metric, c, n - 1)
               + if metric in points[n - 1].metrics && LineOf(axes, n - 1) < c then 1 else 0
    decreases c
  {
    hide Product, Tabulated, ValidGrid, OnLine, Size, LineOf, Drawn;
    if c > 0 {
      OneMorePoint(axes, points, metric, c - 1, n);
      OneMoreOnLine(axes, points, metric, c - 1, n);
    }
  }

  lemma LineOfPoint(axes: seq<Axis>, points: seq<SweepPoint>, i: nat)
    requires ValidGrid(axes) && Tabulated(axes, points) && i < |points|
    ensures axes != [] && Size(axes[1..]) > 0 && LineOf(axes, i) < |Product(axes[1..])|
  {
    ProductLength(axes);
    PointSplits(axes, i);
  }

  lemma {:induction false} EveryAnswerIsDrawnOnce(axes: seq<Axis>, points: seq<SweepPoint>, metric: string, n: nat)
    requires ValidGrid(axes) && Tabulated(axes, points) && n <= |points|
    ensures DrawnTogether(axes, points, metric, |Product(axes[1..])|, n) == Answered(points, metric, n)
    decreases n
  {
    hide Product, Drawn, DrawnTogether, Tabulated, Size, LineOf, Ascending, DistinctNames;
    assert axes != [];
    AnsweredLast(points, metric, n);
    hide *;
    if n == 0 {
      NothingDrawn(axes, points, metric, |Product(axes[1..])|);
    } else {
      EveryAnswerIsDrawnOnce(axes, points, metric, n - 1);
      LineOfPoint(axes, points, n - 1);
      OneMorePoint(axes, points, metric, |Product(axes[1..])|, n);
    }
  }

  lemma AnsweredLast(points: seq<SweepPoint>, metric: string, n: nat)
    requires n <= |points|
    ensures Answered(points, metric, n)
            == if n == 0 then 0
               else Answered(points, metric, n - 1) + if metric in points[n - 1].metrics then 1 else 0
  {
  }

  lemma {:induction false} NothingDrawn(axes: seq<Axis>, points: seq<SweepPoint>, metric: string, c: nat)
    requires axes != [] && c <= |Product(axes[1..])|
    ensures DrawnTogether(axes, points, metric, c, 0) == 0
  {
    if c > 0 {
      NothingDrawn(axes, points, metric, c - 1);
    }
  }

  function Samples(traces: seq<Trace>): nat
    decreases |traces|
  {
    if traces == [] then 0 else Samples(traces[..|traces| - 1]) + |traces[|traces| - 1].values|
  }

  predicate DrawsAny(axes: seq<Axis>, points: seq<SweepPoint>, metric: string, c: nat)
    requires axes != [] && c < |Product(axes[1..])|
  {
    Drawn(axes, points, metric, Product(axes[1..])[c], |points|) != []
  }

  /** Which of the first `n` lines draw anything. */
  function Lines(axes: seq<Axis>, points: seq<SweepPoint>, metric: string, n: nat): seq<nat>
    requires axes != [] && n <= |Product(axes[1..])|
  {
    if n == 0 then []
    else Lines(axes, points, metric, n - 1)
         + if DrawsAny(axes, points, metric, n - 1) then [n - 1] else []
  }

  lemma {:induction false} LinesAscend(axes: seq<Axis>, points: seq<SweepPoint>, metric: string, n: nat)
    requires axes != [] && n <= |Product(axes[1..])|
    ensures var lines := Lines(axes, points, metric, n);
            && |lines| <= n
            && (forall t :: 0 <= t < |lines| ==>
                  lines[t] < n && DrawsAny(axes, points, metric, lines[t]))
            && (forall t, u :: 0 <= t < u < |lines| ==> lines[t] < lines[u])
            && (forall c: nat :: c < n && DrawsAny(axes, points, metric, c) ==> c in lines)
  {
    hide DrawsAny, Product;
    if n > 0 {
      LinesAscend(axes, points, metric, n - 1);
    }
  }

  lemma {:induction false} TracesAreLines(axes: seq<Axis>, points: seq<SweepPoint>, metric: string, n: nat)
    requires axes != [] && HasAbscissa(axes, points) && n <= |Product(axes[1..])|
    ensures var traces, lines := TracesOf(axes, points, metric, n), Lines(axes, points, metric, n);
            && |traces| == |lines|
            && (forall t :: 0 <= t < |traces| ==>
                  lines[t] < n && traces[t] == TraceOf(axes, points, metric, Product(axes[1..])[lines[t]], |points|))
  {
    hide Drawn, Product, TraceOf, HasAbscissa, IsDrawn;
    if n > 0 {
      TracesAreLines(axes, points, metric, n - 1);
    }
  }

  lemma OneMoreLineOfSamples(axes: seq<Axis>, points: seq<SweepPoint>, metric: string, c: nat)
    requires axes != [] && HasAbscissa(axes, points) && c < |Product(axes[1..])|
    ensures Samples(TracesOf(axes, points, metric, c + 1))
            == Samples(TracesOf(axes, points, metric, c))
               + |Drawn(axes, points, metric, Product(axes[1..])[c], |points|)|
  {
    hide Product, HasAbscissa, Drawn, TraceOf, TracesOf, Samples;
    var before := TracesOf(axes, points, metric, c);
    var trace := TraceOf(axes, points, metric, Product(axes[1..])[c], |points|);
    OneMoreLine(axes, points, metric, c);
    TraceDrawsAll(axes, points, metric, Product(axes[1..])[c]);
    SamplesOfPushed(before, trace);
    assert before + [] == before;
  }

  lemma {:induction false} SamplesAreDrawn(axes: seq<Axis>, points: seq<SweepPoint>, metric: string, n: nat)
    requires axes != [] && HasAbscissa(axes, points) && n <= |Product(axes[1..])|
    ensures Samples(TracesOf(axes, points, metric, n)) == DrawnTogether(axes, points, metric, n, |points|)
  {
    hide Product, HasAbscissa, Drawn, TraceOf, TracesOf, Samples, IsDrawn, OnLine;
    if n == 0 {
      NoLineYet(axes, points, metric);
    } else {
      SamplesAreDrawn(axes, points, metric, n - 1);
      OneMoreLineOfSamples(axes, points, metric, n - 1);
    }
  }

  lemma TraceDrawsAll(axes: seq<Axis>, points: seq<SweepPoint>, metric: string, held: Combination)
    requires axes != [] && HasAbscissa(axes, points)
    ensures |TraceOf(axes, points, metric, held, |points|).values| == |Drawn(axes, points, metric, held, |points|)|
  {
  }

  lemma SamplesOfPushed(traces: seq<Trace>, trace: Trace)
    ensures Samples(traces + [trace]) == Samples(traces) + |trace.values|
  {
    assert (traces + [trace])[..|traces|] == traces;
  }

  lemma TabulatedHasAbscissa(axes: seq<Axis>, points: seq<SweepPoint>)
    requires ValidGrid(axes) && Tabulated(axes, points)
    ensures HasAbscissa(axes, points)
  {
    forall i | 0 <= i < |points|
      ensures axes[0].parameter in points[i].values
    {
      NamedAt(axes, Product(axes)[i], 0);
    }
  }

  /** A legal grid has at most half as many lines as points. */
  lemma FewLines(axes: seq<Axis>)
    requires ValidGrid(axes)
    ensures |Product(axes[1..])| == Size(axes[1..]) <= MAX_SERIES_TRACES
  {
    ProductLength(axes[1..]);
    MulGrows(2, |axes[0].values|, Size(axes[1..]));
  }

  /** For each metric: no more traces than a series may carry, none empty, no two for the same held
      values, each against a strictly increasing abscissa; and together they hold one sample for
      each answered point. */
  lemma CurvesPartitionTheAnswers(axes: seq<Axis>, points: seq<SweepPoint>, metric: string)
    requires ValidGrid(axes) && Tabulated(axes, points)
    ensures HasAbscissa(axes, points)
    ensures var traces := AllTraces(axes, points, metric);
            && |traces| <= MAX_SERIES_TRACES
            && Samples(traces) == Answered(points, metric, |points|)
            && (forall t :: 0 <= t < |traces| ==>
                  |traces[t].at| == |traces[t].values| > 0 && Ascending(traces[t].at))
            && (forall t, u :: 0 <= t < u < |traces| ==> traces[t].held != traces[u].held)
  {
    TabulatedHasAbscissa(axes, points);
    FewLines(axes);
    var n := |Product(axes[1..])|;
    EveryAnswerIsDrawnOnce(axes, points, metric, |points|);
    SamplesAreDrawn(axes, points, metric, n);
    TracesAreLines(axes, points, metric, n);
    LinesAscend(axes, points, metric, n);
    var traces, lines := AllTraces(axes, points, metric), Lines(axes, points, metric, n);
    forall t | 0 <= t < |traces|
      ensures |traces[t].at| == |traces[t].values| > 0 && Ascending(traces[t].at)
    {
      TraceAscends(axes, points, metric, lines[t]);
    }
    forall t, u | 0 <= t < u < |traces|
      ensures traces[t].held != traces[u].held
    {
      LinesDiffer(axes, lines[t], lines[u]);
    }
  }

  lemma LinesDiffer(axes: seq<Axis>, c: nat, d: nat)
    requires ValidGrid(axes) && c < d < |Product(axes[1..])|
    ensures Product(axes[1..])[c] != Product(axes[1..])[d]
  {
    var rest := axes[1..];
    ProductLength(rest);
    ProductReadsDigits(rest, c);
    VariationsAreAllAndDistinct(rest, Digits(rest, c), c, d);
  }

  lemma OwnLineDraws(axes: seq<Axis>, points: seq<SweepPoint>, metric: string, i: nat)
    requires ValidGrid(axes) && Tabulated(axes, points) && i < |points| && metric in points[i].metrics
    ensures axes != [] && Size(axes[1..]) > 0
    ensures var c := LineOf(axes, i);
            && c < |Product(axes[1..])| && DrawsAny(axes, points, metric, c)
            && i in Drawn(axes, points, metric, Product(axes[1..])[c], |points|)
            && OnLine(axes[1..], Product(axes[1..])[c], points[i])
  {
    LineOfPoint(axes, points, i);
    var c := LineOf(axes, i);
    OnItsLineOnly(axes, points, i, c);
    hide Product, Tabulated, ValidGrid, Size, LineOf, OnLine;
    DrawnIsWhatIsOnTheLine(axes, points, metric, Product(axes[1..])[c], |points|);
  }

  lemma SampleOf(axes: seq<Axis>, points: seq<SweepPoint>, metric: string, held: Combination, k: nat)
    requires axes != [] && HasAbscissa(axes, points)
    requires k < |Drawn(axes, points, metric, held, |points|)|
    ensures var trace := TraceOf(axes, points, metric, held, |points|);
            var i := Drawn(axes, points, metric, held, |points|)[k];
            && trace.held == held && k < |trace.at| == |trace.values|
            && trace.at[k] == points[i].values[axes[0].parameter]
            && metric in points[i].metrics && trace.values[k] == points[i].metrics[metric]
  {
  }

  /** An answered point is drawn on the trace of its own held values, at its own abscissa. */
  lemma EachAnswerIsOnItsTrace(axes: seq<Axis>, points: seq<SweepPoint>, metric: string, i: nat)
    returns (t: nat, k: nat)
    requires ValidGrid(axes) && Tabulated(axes, points) && i < |points| && metric in points[i].metrics
    ensures axes != [] && HasAbscissa(axes, points)
    ensures var traces := AllTraces(axes, points, metric);
            && t < |traces| && k < |traces[t].at| == |traces[t].values|
            && OnLine(axes[1..], traces[t].held, points[i])
            && axes[0].parameter in points[i].values
            && traces[t].at[k] == points[i].values[axes[0].parameter]
            && traces[t].values[k] == points[i].metrics[metric]
  {
    TabulatedHasAbscissa(axes, points);
    assert axes[0].parameter in points[i].values;
    OwnLineDraws(axes, points, metric, i);
    hide ValidGrid, Tabulated, Product, Drawn, DrawsAny, TraceOf, TracesOf, Lines, LineOf, Size, OnLine, HasAbscissa;
    var n, c := |Product(axes[1..])|, LineOf(axes, i);
    var drawn := Drawn(axes, points, metric, Product(axes[1..])[c], |points|);
    LinesAscend(axes, points, metric, n);
    TracesAreLines(axes, points, metric, n);
    t :| 0 <= t < |Lines(axes, points, metric, n)| && Lines(axes, points, metric, n)[t] == c;
    k :| 0 <= k < |drawn| && drawn[k] == i;
    SampleOf(axes, points, metric, Product(axes[1..])[c], k);
  }

  // ------------------------------------------------------------------- when a report is refused

  /** No printed value holds the comma that separates them. */
  ghost predicate Commaless(labels: Labels) {
    forall value: real :: ',' !in Printed(labels, value)
  }

  predicate SameLabels(left: Combination, right: Combination, labels: Labels) {
    |left| == |right| && forall i :: 0 <= i < |left| ==> Printed(labels, left[i]) == Printed(labels, right[i])
  }

  /** Where the first comma is, or the length. */
  function CommaAt(text: string): (k: nat)
  {
    if text == "" || text[0] == ',' then 0 else 1 + CommaAt(text[1..])
  }

  lemma {:induction false} CommaAfter(text: string, tail: string)
    requires ',' !in text && (tail == "" || tail[0] == ',')
    ensures CommaAt(text + tail) == |text|
    decreases |text|
  {
    if text == "" {
      assert text + tail == tail;
    } else {
      assert (text + tail)[1..] == text[1..] + tail && (text + tail)[0] == text[0];
      CommaAfter(text[1..], tail);
    }
  }

  lemma CutAtComma(left: string, right: string, leftTail: string, rightTail: string)
    requires ',' !in left && ',' !in right && left + leftTail == right + rightTail
    requires (leftTail == "" || leftTail[0] == ',') && (rightTail == "" || rightTail[0] == ',')
    ensures left == right && leftTail == rightTail
  {
    CommaAfter(left, leftTail);
    CommaAfter(right, rightTail);
    var whole, n := left + leftTail, |left|;
    assert left == whole[..n] && right == whole[..n];
    assert leftTail == whole[n..] && rightTail == whole[n..];
  }

  /** Two lines print alike if and only if all their held values do. */
  lemma {:induction false} PrintsAlike(rest: seq<Axis>, left: Combination, right: Combination, labels: Labels)
    requires |left| == |right| == |rest| && Commaless(labels)
    ensures HeldAt(rest, left, labels) == HeldAt(rest, right, labels) <==> SameLabels(left, right, labels)
    decreases |rest|
  {
    if rest != [] {
      var l, r := Printed(labels, left[0]), Printed(labels, right[0]);
      var lt := if |rest| == 1 then "" else ", " + HeldAt(rest[1..], left[1..], labels);
      var rt := if |rest| == 1 then "" else ", " + HeldAt(rest[1..], right[1..], labels);
      var head := rest[0].parameter + "=";
      assert HeldAt(rest, left, labels) == head + (l + lt) && HeldAt(rest, right, labels) == head + (r + rt);
      if HeldAt(rest, left, labels) == HeldAt(rest, right, labels) {
        assert l + lt == (head + (l + lt))[|head|..] && r + rt == (head + (r + rt))[|head|..];
        assert ',' !in Printed(labels, left[0]) && ',' !in Printed(labels, right[0]);
        CutAtComma(l, r, lt, rt);
        if |rest| > 1 {
          assert HeldAt(rest[1..], left[1..], labels) == lt[2..] && HeldAt(rest[1..], right[1..], labels) == rt[2..];
        }
      }
      PrintsAlike(rest[1..], left[1..], right[1..], labels);
      assert SameLabels(left, right, labels) <==> l == r && SameLabels(left[1..], right[1..], labels) by {
        assert forall i :: 0 < i < |left| ==> left[i] == left[1..][i - 1] && right[i] == right[1..][i - 1];
      }
    }
  }

  lemma NamesAgree(metric: string, rest: seq<Axis>, left: Combination, right: Combination, labels: Labels)
    requires |left| == |right| == |rest| && Commaless(labels)
    ensures TraceName(metric, rest, left, labels) == TraceName(metric, rest, right, labels)
            <==> SameLabels(left, right, labels)
  {
    PrintsAlike(rest, left, right, labels);
    if rest != [] {
      var head := metric + " @ ";
      var l, r := HeldAt(rest, left, labels), HeldAt(rest, right, labels);
      assert (head + l)[|head|..] == l && (head + r)[|head|..] == r;
    }
  }

  /** Two lines that both draw the metric print alike. */
  ghost predicate Clash(axes: seq<Axis>, points: seq<SweepPoint>, metric: string, labels: Labels)
    requires axes != []
  {
    exists c, d :: 0 <= c < d < |Product(axes[1..])|
      && DrawsAny(axes, points, metric, c) && DrawsAny(axes, points, metric, d)
      && SameLabels(Product(axes[1..])[c], Product(axes[1..])[d], labels)
  }

  lemma NameOfTrace(axes: seq<Axis>, points: seq<SweepPoint>, metric: string, labels: Labels, t: nat)
    requires axes != [] && HasAbscissa(axes, points)
    requires t < |AllTraces(axes, points, metric)|
    ensures var lines := Lines(axes, points, metric, |Product(axes[1..])|);
            && t < |lines| && lines[t] < |Product(axes[1..])| && DrawsAny(axes, points, metric, lines[t])
            && |Product(axes[1..])[lines[t]]| == |axes[1..]|
            && NamesOf(metric, axes[1..], AllTraces(axes, points, metric), labels)[t]
               == TraceName(metric, axes[1..], Product(axes[1..])[lines[t]], labels)
  {
    var n := |Product(axes[1..])|;
    TracesAreLines(axes, points, metric, n);
    LinesAscend(axes, points, metric, n);
    ProductIsWide(axes[1..], Lines(axes, points, metric, n)[t]);
    hide Product, Drawn, HasAbscissa, DrawsAny, TraceName, Lines, TracesOf;
  }

  lemma TwoNames(axes: seq<Axis>, points: seq<SweepPoint>, metric: string, labels: Labels, t: nat, u: nat)
    requires axes != [] && HasAbscissa(axes, points) && Commaless(labels)
    requires t < u < |AllTraces(axes, points, metric)|
    ensures var lines := Lines(axes, points, metric, |Product(axes[1..])|);
            var names := NamesOf(metric, axes[1..], AllTraces(axes, points, metric), labels);
            && u < |lines| && u < |names| && lines[t] < lines[u] < |Product(axes[1..])|
            && DrawsAny(axes, points, metric, lines[t]) && DrawsAny(axes, points, metric, lines[u])
            && (names[t] == names[u]
                <==> SameLabels(Product(axes[1..])[lines[t]], Product(axes[1..])[lines[u]], labels))
  {
    LinesAscend(axes, points, metric, |Product(axes[1..])|);
    NameOfTrace(axes, points, metric, labels, t);
    NameOfTrace(axes, points, metric, labels, u);
    NamesForAll(metric, axes[1..], AllTraces(axes, points, metric), labels);
    hide *;
    var lines := Lines(axes, points, metric, |Product(axes[1..])|);
    NamesAgree(metric, axes[1..], Product(axes[1..])[lines[t]], Product(axes[1..])[lines[u]], labels);
  }

  /** Two lines that clash are two traces with one name. */
  lemma ClashingTraces(axes: seq<Axis>, points: seq<SweepPoint>, metric: string, labels: Labels)
    returns (t: nat, u: nat)
    requires axes != [] && HasAbscissa(axes, points) && Clash(axes, points, metric, labels)
    ensures t < u < |AllTraces(axes, points, metric)|
    ensures var lines := Lines(axes, points, metric, |Product(axes[1..])|);
            && u < |lines| && lines[t] < |Product(axes[1..])| && lines[u] < |Product(axes[1..])|
            && SameLabels(Product(axes[1..])[lines[t]], Product(axes[1..])[lines[u]], labels)
  {
    hide Product, DrawsAny, SameLabels, Lines, AllTraces, HasAbscissa;
    var n := |Product(axes[1..])|;
    var lines := Lines(axes, points, metric, n);
    var c, d :| 0 <= c < d < n && DrawsAny(axes, points, metric, c) && DrawsAny(axes, points, metric, d)
      && SameLabels(Product(axes[1..])[c], Product(axes[1..])[d], labels);
    t := PlaceOfLine(axes, points, metric, c);
    u := PlaceOfLine(axes, points, metric, d);
    AllTracesAreLines(axes, points, metric);
    assert t < u by {
      LinesAscend(axes, points, metric, n);
    }
  }

  lemma PlaceOfLine(axes: seq<Axis>, points: seq<SweepPoint>, metric: string, c: nat) returns (t: nat)
    requires axes != [] && c < |Product(axes[1..])| && DrawsAny(axes, points, metric, c)
    ensures var lines := Lines(axes, points, metric, |Product(axes[1..])|); t < |lines| && lines[t] == c
  {
    hide Product, DrawsAny, Lines;
    LinesAscend(axes, points, metric, |Product(axes[1..])|);
    t :| 0 <= t < |Lines(axes, points, metric, |Product(axes[1..])|)|
      && Lines(axes, points, metric, |Product(axes[1..])|)[t] == c;
  }

  /** The names of a metric's traces are distinct if and only if no two of its lines print alike. */
  lemma NamesAreDistinctExactly(axes: seq<Axis>, points: seq<SweepPoint>, metric: string, labels: Labels)
    requires axes != [] && HasAbscissa(axes, points) && Commaless(labels)
    ensures Distinct(NamesOf(metric, axes[1..], AllTraces(axes, points, metric), labels))
            <==> !Clash(axes, points, metric, labels)
  {
    var names := NamesOf(metric, axes[1..], AllTraces(axes, points, metric), labels);
    NamesForAll(metric, axes[1..], AllTraces(axes, points, metric), labels);
    hide Product, Drawn, HasAbscissa, DrawsAny, Lines, AllTraces, NamesOf, SameLabels, Commaless;
    if !Distinct(names) {
      var t, u :| 0 <= t < u < |names| && names[t] == names[u];
      TwoNames(axes, points, metric, labels, t, u);
    }
    if Clash(axes, points, metric, labels) {
      var t, u := ClashingTraces(axes, points, metric, labels);
      TwoNames(axes, points, metric, labels, t, u);
    }
  }

  lemma NamesForAll(metric: string, rest: seq<Axis>, traces: seq<Trace>, labels: Labels)
    ensures |NamesOf(metric, rest, traces, labels)| == |traces|
  {
  }

  lemma AllTracesAreLines(axes: seq<Axis>, points: seq<SweepPoint>, metric: string)
    requires axes != [] && HasAbscissa(axes, points)
    ensures |AllTraces(axes, points, metric)| == |Lines(axes, points, metric, |Product(axes[1..])|)|
  {
    TracesAreLines(axes, points, metric, |Product(axes[1..])|);
  }

  lemma {:induction false} FewDrawn(axes: seq<Axis>, points: seq<SweepPoint>, metric: string, held: Combination, n: nat)
    requires axes != [] && n <= |points|
    ensures |Drawn(axes, points, metric, held, n)| <= n
  {
    if n > 0 {
      FewDrawn(axes, points, metric, held, n - 1);
    }
  }

  lemma TracesAreShort(axes: seq<Axis>, points: seq<SweepPoint>, metric: string, t: nat)
    requires ValidGrid(axes) && Tabulated(axes, points) && HasAbscissa(axes, points)
    requires t < |AllTraces(axes, points, metric)|
    ensures |AllTraces(axes, points, metric)[t].at| <= MAX_SERIES_POINTS
  {
    var n := |Product(axes[1..])|;
    ProductLength(axes);
    hide Product, Drawn, HasAbscissa, Tabulated, Lines;
    TracesAreLines(axes, points, metric, n);
    var held := Product(axes[1..])[Lines(axes, points, metric, n)[t]];
    FewDrawn(axes, points, metric, held, |points|);
    assert |points| <= MAX_SERIES_POINTS by {
      FewPoints(axes, points);
    }
  }

  lemma FewPoints(axes: seq<Axis>, points: seq<SweepPoint>)
    requires ValidGrid(axes) && Tabulated(axes, points)
    ensures |points| <= MAX_SWEEP_POINTS
  {
    ProductLength(axes);
  }

  /** On a legal grid the series model accepts a metric's curves if and only if no two of the lines
      it is drawn on print alike: every other check is met. */
  lemma AcceptedExactly(axes: seq<Axis>, points: seq<SweepPoint>, metric: string, labels: Labels)
    requires ValidGrid(axes) && Tabulated(axes, points) && Commaless(labels)
    ensures axes != [] && HasAbscissa(axes, points)
    ensures var traces := AllTraces(axes, points, metric);
            traces != [] ==>
              (Accepted(Curves(metric, NamesOf(metric, axes[1..], traces, labels), traces))
               <==> !Clash(axes, points, metric, labels))
  {
    assert axes != [];
    CurvesPartitionTheAnswers(axes, points, metric);
    hide Product, Drawn, HasAbscissa, Lines, AllTraces, NamesOf, Clash, ValidGrid, Tabulated, Distinct, Ascending;
    NamesAreDistinctExactly(axes, points, metric, labels);
    forall t | 0 <= t < |AllTraces(axes, points, metric)|
      ensures |AllTraces(axes, points, metric)[t].at| <= MAX_SERIES_POINTS
    {
      TracesAreShort(axes, points, metric, t);
    }
  }

  lemma NothingToClash(axes: seq<Axis>, points: seq<SweepPoint>, metric: string, labels: Labels)
    requires axes != [] && HasAbscissa(axes, points) && AllTraces(axes, points, metric) == []
    ensures !Clash(axes, points, metric, labels)
  {
    AllTracesAreLines(axes, points, metric);
    LinesAscend(axes, points, metric, |Product(axes[1..])|);
    hide Product, Drawn;
  }

  /** What one more metric adds to the question. */
  lemma OneMoreMetric(axes: seq<Axis>, points: seq<SweepPoint>, metrics: seq<string>, labels: Labels)
    requires ValidGrid(axes) && Tabulated(axes, points) && Commaless(labels) && metrics != []
    ensures axes != [] && HasAbscissa(axes, points)
    ensures var n := |metrics| - 1;
            CurvesOf(axes, points, metrics, labels).Err?
            <==> CurvesOf(axes, points, metrics[..n], labels).Err? || Clash(axes, points, metrics[n], labels)
  {
    AcceptedExactly(axes, points, metrics[|metrics| - 1], labels);
    hide ValidGrid, Tabulated, HasAbscissa, Clash, Accepted, NamesOf, AllTraces, Commaless;
    if AllTraces(axes, points, metrics[|metrics| - 1]) == [] {
      NothingToClash(axes, points, metrics[|metrics| - 1], labels);
    }
  }

  /** Some metric has two lines that print alike. */
  ghost predicate ClashesSomewhere(
    axes: seq<Axis>, points: seq<SweepPoint>, metrics: seq<string>, labels: Labels)
    requires axes != []
  {
    exists m :: 0 <= m < |metrics| && Clash(axes, points, metrics[m], labels)
  }

  lemma OneMoreToClash(axes: seq<Axis>, points: seq<SweepPoint>, metrics: seq<string>, labels: Labels)
    requires axes != [] && metrics != []
    ensures var n := |metrics| - 1;
            ClashesSomewhere(axes, points, metrics, labels)
            <==> ClashesSomewhere(axes, points, metrics[..n], labels) || Clash(axes, points, metrics[n], labels)
  {
    hide Clash;
    var n := |metrics| - 1;
    assert forall m :: 0 <= m < n ==> metrics[..n][m] == metrics[m];
  }

  /** The whole report is refused if and only if, for some tabulated metric, two lines it is drawn on
      hold values that all print alike: distinct values can, and then the caller gets no report. */
  lemma {:induction false} ReportIsRefusedExactly(
    axes: seq<Axis>, points: seq<SweepPoint>, metrics: seq<string>, labels: Labels)
    requires ValidGrid(axes) && Tabulated(axes, points) && Commaless(labels)
    ensures axes != [] && HasAbscissa(axes, points)
    ensures CurvesOf(axes, points, metrics, labels).Err? <==> ClashesSomewhere(axes, points, metrics, labels)
    decreases |metrics|
  {
    TabulatedHasAbscissa(axes, points);
    assert axes != [];
    hide *;
    if metrics == [] {
      NoMetrics(axes, points, labels);
    } else {
      ReportIsRefusedExactly(axes, points, metrics[..|metrics| - 1], labels);
      OneMoreMetric(axes, points, metrics, labels);
      OneMoreToClash(axes, points, metrics, labels);
    }
  }

  lemma NoMetrics(axes: seq<Axis>, points: seq<SweepPoint>, labels: Labels)
    requires axes != [] && HasAbscissa(axes, points)
    ensures CurvesOf(axes, points, [], labels) == Ok([]) && !ClashesSomewhere(axes, points, [], labels)
  {
  }

  /** A plain sweep: two values of one axis by two of another, everything answered. */
  function TwoByTwo(x: real, y: real): (grid: (seq<Axis>, seq<SweepPoint>)) {
    var at := (a: real, b: real) => SweepPoint(map["a" := a, "b" := b], map["m" := 0.0]);
    ([Axis("a", [0.0, 1.0]), Axis("b", [x, y])], [at(0.0, x), at(0.0, y), at(1.0, x), at(1.0, y)])
  }

  lemma TwoByTwoIsTabulated(x: real, y: real)
    requires x < y
    ensures var (axes, points) := TwoByTwo(x, y);
            && ValidGrid(axes) && Tabulated(axes, points)
            && Product(axes[1..]) == [[x], [y]]
  {
    var axes, points := TwoByTwo(x, y).0, TwoByTwo(x, y).1;
    OneAxis(axes[1..]);
    var tails := Product(axes[1..]);
    TwoValues(axes[0].values, tails);
    assert Product(axes) == Spread(axes[0].values, tails);
    var rows := Product(axes);
    assert rows == [[0.0] + [x], [0.0] + [y], [1.0] + [x], [1.0] + [y]];
    assert axes[1..][1..] == [];
    assert Size(axes[1..]) == 2 && Size(axes) == 4;
    hide Product, Named, Size, Spread;
    forall i | 0 <= i < 4
      ensures |rows[i]| == 2 && points[i].values == Named(axes, rows[i])
    {
      NamedTwice(axes, rows[i]);
    }
  }

  lemma NamedTwice(axes: seq<Axis>, row: Combination)
    requires |axes| == |row| == 2 && axes[0].parameter != axes[1].parameter
    ensures Named(axes, row) == map[axes[0].parameter := row[0], axes[1].parameter := row[1]]
  {
    assert axes[1..][0] == axes[1] && row[1..][0] == row[1];
    assert Named(axes[1..][1..], row[1..][1..]) == map[];
  }

  lemma TwoValues(values: seq<real>, tails: seq<Combination>)
    requires |values| == 2
    ensures Spread(values, tails) == Prefixed(values[0], tails) + Prefixed(values[1], tails)
  {
    var one := values[..1];
    assert one[..0] == [] && one[0] == values[0];
    assert Spread(one, tails) == Spread(one[..0], tails) + Prefixed(one[0], tails);
  }

  lemma OneAxis(axes: seq<Axis>)
    requires |axes| == 1 && |axes[0].values| == 2
    ensures Product(axes) == [[axes[0].values[0]], [axes[0].values[1]]]
  {
    var tails: seq<Combination> := [[]];
    var x, y := axes[0].values[0], axes[0].values[1];
    assert axes[1..] == [] && Product(axes[1..]) == tails;
    assert Product(axes) == Spread(axes[0].values, tails);
    TwoValues(axes[0].values, tails);
    assert Prefixed(x, tails)[0] == [x] + tails[0] == [x] && Prefixed(y, tails)[0] == [y] + tails[0] == [y];
    assert Prefixed(x, tails) == [[x]] && Prefixed(y, tails) == [[y]];
  }

  lemma BothLinesAreDrawn(x: real, y: real)
    requires x < y
    ensures var (axes, points) := TwoByTwo(x, y);
            && axes != [] && |Product(axes[1..])| == 2
            && DrawsAny(axes, points, "m", 0) && DrawsAny(axes, points, "m", 1)
  {
    var axes, points := TwoByTwo(x, y).0, TwoByTwo(x, y).1;
    TwoByTwoIsTabulated(x, y);
    assert IsDrawn(axes, "m", [x], points[0]) && IsDrawn(axes, "m", [y], points[1]);
    hide Product, ValidGrid, Tabulated, Drawn, IsDrawn;
    DrawnIsWhatIsOnTheLine(axes, points, "m", [x], 4);
    DrawnIsWhatIsOnTheLine(axes, points, "m", [y], 4);
    assert 0 in Drawn(axes, points, "m", [x], 4) && 1 in Drawn(axes, points, "m", [y], 4);
  }

  /** So printing two values alike is enough: of two distinct numbers with one label a sweep can be
      made that the validator accepts, that is answered in full, and that has no report. */
  lemma DistinctValuesAreRefused(x: real, y: real, labels: Labels)
    requires x < y && Commaless(labels) && Printed(labels, x) == Printed(labels, y)
    ensures var (axes, points) := TwoByTwo(x, y);
            && ValidGrid(axes) && Tabulated(axes, points) && axes != [] && HasAbscissa(axes, points)
            && CurvesOf(axes, points, ["m"], labels).Err?
  {
    var axes, points := TwoByTwo(x, y).0, TwoByTwo(x, y).1;
    TwoByTwoIsTabulated(x, y);
    BothLinesAreDrawn(x, y);
    ReportIsRefusedExactly(axes, points, ["m"], labels);
    assert SameLabels([x], [y], labels);
    hide Product, Tabulated, ValidGrid, CurvesOf, HasAbscissa, TwoByTwo, DrawsAny, SameLabels;
    assert Clash(axes, points, ["m"][0], labels);
  }
}
