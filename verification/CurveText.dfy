/** What the grid's and the curves' validators let through, and what the traces are called, spelled out
    in numbers and characters. */
module CurveText {
  import opened Sweep
  import opened Wrappers

  // ------------------------------------------------------------------------------- the names

  /** The held values read as `p=v` for one axis, and as two such texts with ", " between them for the
      axes of both: that is all there is to the text after " @ ", and it leaves out the first axis. */
  lemma {:induction false} HeldTextsJoin(left: seq<Axis>, right: seq<Axis>, held: Combination, labels: Labels)
    requires left != [] && right != [] && |held| == |left + right|
    ensures HeldAt(left + right, held, labels)
            == HeldAt(left, held[..|left|], labels) + ", " + HeldAt(right, held[|left|..], labels)
    decreases |left|
  {
    assert (left + right)[0] == left[0] && (left + right)[1..] == left[1..] + right;
    assert held[..|left|][1..] == held[1..][..|left| - 1] && held[|left|..] == held[1..][|left| - 1..];
    HeldStep(left + right, held, labels);
    HeldStep(left, held[..|left|], labels);
    var first, last := OnePair(left[0], held[0], labels), HeldAt(right, held[|left|..], labels);
    hide HeldAt, OnePair;
    if |left| > 1 {
      HeldTextsJoin(left[1..], right, held[1..], labels);
      var more := HeldAt(left[1..], held[1..][..|left| - 1], labels);
      Joined(first, ", ", more, ", ", last);
    }
  }

  function OnePair(axis: Axis, value: real, labels: Labels): string {
    axis.parameter + "=" + labels(value)
  }

  lemma HeldStep(rest: seq<Axis>, held: Combination, labels: Labels)
    requires rest != [] && |held| == |rest|
    ensures HeldAt(rest, held, labels)
            == if |rest| == 1 then OnePair(rest[0], held[0], labels)
               else OnePair(rest[0], held[0], labels) + (", " + HeldAt(rest[1..], held[1..], labels))
  {
    var first := OnePair(rest[0], held[0], labels);
    if |rest| == 1 {
      assert first + "" == first;
    }
  }

  lemma Joined(a: string, b: string, c: string, d: string, e: string)
    ensures a + (b + (c + d + e)) == a + (b + c) + d + e
  {
  }

  lemma NamesAreSpelled(metric: string, axis: Axis, value: real, labels: Labels)
    ensures TraceName(metric, [], [], labels) == metric
    ensures HeldAt([axis], [value], labels) == axis.parameter + "=" + labels(value)
    ensures TraceName(metric, [axis], [value], labels) == metric + " @ " + axis.parameter + "=" + labels(value)
  {
    assert HeldAt([axis], [value], labels) == axis.parameter + "=" + labels(value) + "";
    assert metric + " @ " + (axis.parameter + "=" + labels(value))
        == metric + " @ " + axis.parameter + "=" + labels(value);
  }

  /** With more axes the name is still the metric, " @ " and the joined text. */
  lemma NamesWithMoreAxes(metric: string, rest: seq<Axis>, held: Combination, labels: Labels)
    requires rest != [] && |held| == |rest|
    ensures TraceName(metric, rest, held, labels) == metric + " @ " + HeldAt(rest, held, labels)
    ensures TraceName(metric, rest, held, labels) != metric
  {
    assert |TraceName(metric, rest, held, labels)| >= |metric| + 3;
  }

  // ------------------------------------------------------------------------------- the grids

  /** One axis is a grid exactly when its values strictly ascend and there are two to sixty-four. */
  lemma GridOfOneAxis(axis: Axis)
    ensures ValidGrid([axis]) <==>
              && 2 <= |axis.values| <= 64
              && forall k :: 0 < k < |axis.values| ==> axis.values[k - 1] < axis.values[k]
  {
    assert [axis][1..] == [] && Size([axis][1..]) == 1;
    assert Size([axis]) == |axis.values| * Size([axis][1..]) == |axis.values|;
    if forall k :: 0 < k < |axis.values| ==> axis.values[k - 1] < axis.values[k] {
      StepsAscend(axis.values);
    }
  }

  lemma {:induction false} StepsAscend(values: seq<real>)
    requires forall k :: 0 < k < |values| ==> values[k - 1] < values[k]
    ensures Ascending(values)
    decreases |values|
  {
    if |values| > 1 {
      var n := |values| - 1;
      StepsAscend(values[..n]);
      assert forall i, j :: 0 <= i < j < n ==> values[..n][i] < values[..n][j];
      assert forall i :: 0 <= i < n - 1 ==> values[i] < values[n - 1];
      assert values[n - 1] < values[n];
    }
  }

  /** Putting an axis in front of a list of well-formed axes multiplies the number of points; the list is
      a grid exactly when that is at most sixty-four, the name is new and the axis has two values. */
  lemma GridWithOneMoreAxis(axis: Axis, axes: seq<Axis>)
    requires axes != [] && DistinctNames(axes) && forall i :: 0 <= i < |axes| ==> ValidAxis(axes[i])
    ensures ValidGrid([axis] + axes) <==>
              && 2 <= |axis.values| && Ascending(axis.values)
              && (forall i :: 0 <= i < |axes| ==> axes[i].parameter != axis.parameter)
              && |axis.values| * |Product(axes)| <= 64
  {
    var all := [axis] + axes;
    assert all[1..] == axes && all[0] == axis;
    ProductLength(axes);
    assert Size(all) == |axis.values| * Size(axes);
    assert (forall i :: 0 <= i < |all| ==> ValidAxis(all[i])) <==> ValidAxis(axis) by {
      assert all[0] == axis && forall i :: 0 < i < |all| ==> all[i] == axes[i - 1];
    }
    assert DistinctNames(all) <==> forall i :: 0 <= i < |axes| ==> axes[i].parameter != axis.parameter by {
      assert forall i :: 0 <= i < |axes| ==> all[i + 1] == axes[i];
      if DistinctNames(all) {
        forall i | 0 <= i < |axes|
          ensures axes[i].parameter != axis.parameter
        {
          assert all[0].parameter != all[i + 1].parameter;
        }
      }
    }
    hide ValidAxis, DistinctNames, Size, Product;
  }

  // ------------------------------------------------------------------------------- the curves

  /** What is drawn of one metric: one to thirty-two traces, no two of one name, each of one to 4096
      samples with as many abscissae. */
  ghost predicate WithinLimits(curves: Curves) {
    && 1 <= |curves.traces| <= 32
    && (forall t, u :: 0 <= t < u < |curves.names| ==> curves.names[t] != curves.names[u])
    && (forall t :: 0 <= t < |curves.traces| ==>
          |curves.traces[t].at| == |curves.traces[t].values| && 1 <= |curves.traces[t].values| <= 4096)
  }

  /** What a refusal is about: a tabulated metric that is drawn, on too many traces, or on two of one
      name, or on one of too many samples. */
  ghost predicate OverLimits(curves: Curves) {
    && curves.traces != []
    && (|| |curves.traces| > 32
        || (exists t, u :: 0 <= t < u < |curves.names| && curves.names[t] == curves.names[u])
        || (exists t :: 0 <= t < |curves.traces| && |curves.traces[t].values| > 4096))
  }

  ghost function Drawing(axes: seq<Axis>, points: seq<SweepPoint>, metric: string, labels: Labels): Curves
    requires axes != [] && HasAbscissa(axes, points)
  {
    var traces := AllTraces(axes, points, metric);
    Curves(metric, NamesOf(metric, axes[1..], traces, labels), traces)
  }

  /** No trace is empty and each has a value for each abscissa. */
  lemma {:induction false} TracesAreSampled(axes: seq<Axis>, points: seq<SweepPoint>, metric: string, n: nat)
    requires axes != [] && n <= |Product(axes[1..])| && HasAbscissa(axes, points)
    ensures forall t :: 0 <= t < |TracesOf(axes, points, metric, n)| ==>
              var trace := TracesOf(axes, points, metric, n)[t];
              |trace.at| == |trace.values| >= 1
  {
    hide Product, HasAbscissa, IsDrawn;
    if n > 0 {
      TracesAreSampled(axes, points, metric, n - 1);
    }
  }

  lemma AcceptedOrOver(axes: seq<Axis>, points: seq<SweepPoint>, metric: string, labels: Labels)
    requires axes != [] && HasAbscissa(axes, points)
    ensures var curves := Drawing(axes, points, metric, labels);
            && (Accepted(curves) <==> WithinLimits(curves))
            && (curves.traces == [] || Accepted(curves) || OverLimits(curves))
            && !(WithinLimits(curves) && OverLimits(curves))
  {
    TracesAreSampled(axes, points, metric, |Product(axes[1..])|);
    hide TracesOf, NamesOf, HasAbscissa, Product;
    assert forall t :: 0 <= t < |AllTraces(axes, points, metric)| ==>
        |AllTraces(axes, points, metric)[t].at| == |AllTraces(axes, points, metric)[t].values| >= 1;
  }

  /** A set of curves for each of these metrics that anything answered, within the limits. */
  ghost predicate DrawsAll(
    axes: seq<Axis>, points: seq<SweepPoint>, metrics: seq<string>, labels: Labels, drawn: seq<Curves>)
    requires axes != [] && HasAbscissa(axes, points)
  {
    && (forall c :: 0 <= c < |drawn| ==>
          drawn[c].metric in metrics && WithinLimits(drawn[c])
          && drawn[c] == Drawing(axes, points, drawn[c].metric, labels))
    && (forall m :: m in metrics && AllTraces(axes, points, m) != [] ==> Drawing(axes, points, m, labels) in drawn)
  }

  lemma OneMoreDrawn(
    axes: seq<Axis>, points: seq<SweepPoint>, metrics: seq<string>, labels: Labels, drawn: seq<Curves>, last: string)
    requires axes != [] && HasAbscissa(axes, points) && DrawsAll(axes, points, metrics, labels, drawn)
    ensures AllTraces(axes, points, last) == [] ==> DrawsAll(axes, points, metrics + [last], labels, drawn)
    ensures var curves := Drawing(axes, points, last, labels);
            WithinLimits(curves) ==> DrawsAll(axes, points, metrics + [last], labels, drawn + [curves])
  {
    hide WithinLimits, NamesOf, AllTraces, HasAbscissa;
  }

  /** What the report draws is within the limits, one set of curves for each metric that anything answered;
      a refusal names a metric that is over a limit. */
  lemma {:induction false} CurvesAreWithinLimits(
    axes: seq<Axis>, points: seq<SweepPoint>, metrics: seq<string>, labels: Labels)
    requires axes != [] && HasAbscissa(axes, points)
    ensures match CurvesOf(axes, points, metrics, labels)
            case Ok(drawn) => DrawsAll(axes, points, metrics, labels, drawn)
            case Err(refused) =>
              refused.metric in metrics && OverLimits(Drawing(axes, points, refused.metric, labels))
    decreases |metrics|
  {
    hide WithinLimits, OverLimits, NamesOf, AllTraces, HasAbscissa, Accepted;
    if metrics != [] {
      var n := |metrics| - 1;
      CurvesAreWithinLimits(axes, points, metrics[..n], labels);
      AcceptedOrOver(axes, points, metrics[n], labels);
      assert metrics == metrics[..n] + [metrics[n]];
      var before := CurvesOf(axes, points, metrics[..n], labels);
      if before.Ok? {
        OneMoreDrawn(axes, points, metrics[..n], labels, before.value, metrics[n]);
      }
      hide DrawsAll;
    }
  }
}
