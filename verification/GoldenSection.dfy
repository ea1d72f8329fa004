/** Bounded scalar search by golden section: the state machine that decides where an
    optimization looks next, replayed from the answers so far.

    Numbers are exact reals.  The ratio 1/phi is a parameter `r` constrained by the one
    equation the method relies on, `r * r + r == 1`. */
module GoldenSection {
  import opened RealMath
  import opened Wrappers

  ghost predicate IsInvPhi(r: real) {
    0.0 < r && r * r + r == 1.0
  }

  /** Both interior points answered: the bracket [a, b] and the values at c and d. */
  datatype State = State(a: real, b: real, c: real, d: real, fc: real, fd: real)

  /** What a replay reports: the bracket, and where to look next unless it is narrow enough. */
  datatype Look = Look(a: real, b: real, next: Option<real>)

  function Pow(r: real, n: nat): real {
    if n == 0 then 1.0 else r * Pow(r, n - 1)
  }

  /** The interior point nearer `a` and the one nearer `b`, at the golden proportion. */
  function Inner(r: real, a: real, b: real): real {
    b - r * (b - a)
  }

  function Outer(r: real, a: real, b: real): real {
    a + r * (b - a)
  }

  predicate NarrowEnough(a: real, b: real, lo: real, hi: real, tolerance: real) {
    b - a <= tolerance * (hi - lo)
  }

  function Opening(r: real, lo: real, hi: real, f0: real, f1: real): State {
    State(lo, hi, Inner(r, lo, hi), Outer(r, lo, hi), f0, f1)
  }

  /** Discards the side that cannot hold the minimum; one interior point is still to be asked. */
  function Narrow(r: real, s: State): Look {
    if s.fc < s.fd then
      Look(s.a, s.d, Some(Inner(r, s.a, s.d)))
    else
      Look(s.c, s.b, Some(Outer(r, s.c, s.b)))
  }

  /** The state once the point `Narrow` asked for has been answered with `v`. */
  function Answer(r: real, s: State, v: real): State {
    if s.fc < s.fd then
      State(s.a, s.d, Inner(r, s.a, s.d), s.c, v, s.fc)
    else
      State(s.c, s.b, s.d, Outer(r, s.c, s.b), s.fd, v)
  }

  /** The state after all of `answered`, with nothing discarded on account of the last one. */
  function Known(r: real, lo: real, hi: real, answered: seq<real>): State
    requires |answered| >= 2
    decreases |answered|
  {
    var n := |answered|;
    if n == 2 then
      Opening(r, lo, hi, answered[0], answered[1])
    else
      Answer(r, Known(r, lo, hi, answered[..n - 1]), answered[n - 1])
  }

  /** The specification of a replay: a bracket that has reached the tolerance stays as it was. */
  function Walk(r: real, lo: real, hi: real, answered: seq<real>, tolerance: real): Look
    decreases |answered|
  {
    var n := |answered|;
    if n == 0 then
      Look(lo, hi, Some(Inner(r, lo, hi)))
    else if n == 1 then
      Look(lo, hi, Some(Outer(r, lo, hi)))
    else
      var before := Walk(r, lo, hi, answered[..n - 1], tolerance);
      var s := Known(r, lo, hi, answered);
      if before.next.None? then before
      else if NarrowEnough(s.a, s.b, lo, hi, tolerance) then Look(s.a, s.b, None)
      else Narrow(r, s)
  }

  /** The replay itself: the state machine walked over the answers in one loop. */
  method Replay(r: real, lo: real, hi: real, answered: seq<real>, tolerance: real)
    returns (look: Look)
    ensures look == Walk(r, lo, hi, answered, tolerance)
  {
    var a, b := lo, hi;
    var c := Inner(r, a, b);
    var d := Outer(r, a, b);
    if |answered| == 0 {
      return Look(a, b, Some(c));
    }
    if |answered| < 2 {
      return Look(a, b, Some(d));
    }
    var fc, fd := answered[0], answered[1];
    var index := 2;
    hide Known, Walk, Inner, Outer, NarrowEnough;
    KnownOpens(r, lo, hi, answered);
    while true
      invariant 2 <= index <= |answered|
      invariant State(a, b, c, d, fc, fd) == Known(r, lo, hi, answered[..index])
      invariant Walk(r, lo, hi, answered[..index - 1], tolerance).next.Some?
      decreases |answered| - index
    {
      ghost var s := State(a, b, c, d, fc, fd);
      WalkAt(r, lo, hi, answered, tolerance, index);
      if NarrowEnough(a, b, lo, hi, tolerance) {
        StoppedStays(r, lo, hi, answered, tolerance, index);
        return Look(a, b, None);
      }
      if fc < fd {
        b, d, fd := d, c, fc;
        c := Inner(r, a, b);
        if index >= |answered| {
          return Look(a, b, Some(c));
        }
        KnownNext(r, lo, hi, answered, index, s);
        fc, index := answered[index], index + 1;
      } else {
        a, c, fc := c, d, fd;
        d := Outer(r, a, b);
        if index >= |answered| {
          return Look(a, b, Some(d));
        }
        KnownNext(r, lo, hi, answered, index, s);
        fd, index := answered[index], index + 1;
      }
    }
  }

  lemma KnownOpens(r: real, lo: real, hi: real, answered: seq<real>)
    requires |answered| >= 2
    ensures Known(r, lo, hi, answered[..2]) == Opening(r, lo, hi, answered[0], answered[1])
  {
  }

  lemma KnownNext(r: real, lo: real, hi: real, answered: seq<real>, k: nat, s: State)
    requires 2 <= k < |answered| && s == Known(r, lo, hi, answered[..k])
    ensures Known(r, lo, hi, answered[..k + 1]) == Answer(r, s, answered[k])
  {
    assert answered[..k + 1][..k] == answered[..k];
  }

  /** One turn of the loop, as the specification reads it. */
  lemma WalkAt(r: real, lo: real, hi: real, answered: seq<real>, tolerance: real, k: nat)
    requires 2 <= k <= |answered|
    requires Walk(r, lo, hi, answered[..k - 1], tolerance).next.Some?
    ensures var s := Known(r, lo, hi, answered[..k]);
            Walk(r, lo, hi, answered[..k], tolerance)
            == if NarrowEnough(s.a, s.b, lo, hi, tolerance) then Look(s.a, s.b, None) else Narrow(r, s)
    ensures k == |answered| ==> answered[..k] == answered
  {
    assert answered[..k][..k - 1] == answered[..k - 1];
  }

  /** Once a prefix of the answers has stopped the walk, later answers are not looked at. */
  lemma {:induction false} StoppedStays(
    r: real, lo: real, hi: real, answered: seq<real>, tolerance: real, k: nat)
    requires k <= |answered|
    requires Walk(r, lo, hi, answered[..k], tolerance).next.None?
    ensures Walk(r, lo, hi, answered, tolerance) == Walk(r, lo, hi, answered[..k], tolerance)
    decreases |answered|
  {
    var n := |answered|;
    if k == n {
      assert answered[..k] == answered;
    } else {
      var shorter := answered[..n - 1];
      assert shorter[..k] == answered[..k];
      StoppedStays(r, lo, hi, shorter, tolerance, k);
    }
  }

  /** Where to evaluate next, or None when the bracket has shrunk enough. */
  function NextPoint(r: real, lo: real, hi: real, answered: seq<real>, tolerance: real): Option<real> {
    Walk(r, lo, hi, answered, tolerance).next
  }

  /** What the search has narrowed the parameter to: the walk with no tolerance. */
  function BracketOf(r: real, lo: real, hi: real, answered: seq<real>): Look {
    Walk(r, lo, hi, answered, 0.0)
  }

  // ---------------------------------------------------------------- the geometry of a bracket

  lemma RatioBounds(r: real)
    requires IsInvPhi(r)
    ensures 0.5 < r < 1.0
  {
    assert (r - 0.5) * (r + 1.5) == 0.25;
    assert (1.0 - r) * (r + 2.0) == 1.0;
  }

  /** Proportions of a bracket of width `w`: what makes one interior point reusable. */
  ghost predicate Proportioned(r: real, s: State) {
    && s.a < s.c < s.d < s.b
    && s.c == Inner(r, s.a, s.b)
    && s.d == Outer(r, s.a, s.b)
  }

  lemma GoldenCut(r: real, w: real)
    requires IsInvPhi(r) && 0.0 < w
    ensures 0.0 < r * w < w < 2.0 * (r * w)
    ensures r * (r * w) == w - r * w
  {
    RatioBounds(r);
    assert r * (r * w) == (r * r) * w == (1.0 - r) * w;
  }

  lemma InteriorOfWidth(r: real, a: real, b: real, w: real)
    requires b - a == w
    ensures Inner(r, a, b) == b - r * w
    ensures Outer(r, a, b) == a + r * w
  {
  }

  lemma OpeningProportioned(r: real, lo: real, hi: real, f0: real, f1: real)
    requires IsInvPhi(r) && lo < hi
    ensures Proportioned(r, Opening(r, lo, hi, f0, f1))
  {
    hide Inner, Outer, IsInvPhi;
    GoldenCut(r, hi - lo);
    InteriorOfWidth(r, lo, hi, hi - lo);
  }

  lemma AnswerProportioned(r: real, s: State, v: real, w: real)
    requires IsInvPhi(r) && Proportioned(r, s) && w == s.b - s.a
    ensures Proportioned(r, Answer(r, s, v))
    ensures Answer(r, s, v).b - Answer(r, s, v).a == r * w
    ensures s.a <= Answer(r, s, v).a && Answer(r, s, v).b <= s.b
    ensures Narrow(r, s).a == Answer(r, s, v).a && Narrow(r, s).b == Answer(r, s, v).b
    ensures Narrow(r, s).next.Some? && Narrow(r, s).a < Narrow(r, s).next.value < Narrow(r, s).b
  {
    hide Inner, Outer, IsInvPhi;
    InteriorOfWidth(r, s.a, s.b, w);
    GoldenCut(r, w);
    GoldenCut(r, r * w);
    InteriorOfWidth(r, s.a, s.d, r * w);
    InteriorOfWidth(r, s.c, s.b, r * w);
  }

  lemma PowPositive(r: real, n: nat)
    requires 0.0 < r
    ensures 0.0 < Pow(r, n)
  {
  }

  lemma PowScales(r: real, n: nat, span: real)
    ensures r * (Pow(r, n) * span) == Pow(r, n + 1) * span
    ensures Pow(r, 0) * span == span
  {
    MulAssoc(r, Pow(r, n), span);
  }

  /** After n answers the state sits inside the bounds, keeps its proportions, and its
      bracket has been shrunk n - 2 times. */
  lemma {:induction false} KnownShape(r: real, lo: real, hi: real, answered: seq<real>)
    requires IsInvPhi(r) && lo < hi && |answered| >= 2
    ensures var s := Known(r, lo, hi, answered);
            && Proportioned(r, s)
            && lo <= s.a && s.b <= hi
            && s.b - s.a == Pow(r, |answered| - 2) * (hi - lo)
    decreases |answered|
  {
    hide Answer, Narrow, Proportioned, Inner, Outer, IsInvPhi, Pow;
    var n := |answered|;
    if n == 2 {
      OpeningProportioned(r, lo, hi, answered[0], answered[1]);
      PowScales(r, 0, hi - lo);
    } else {
      var s := Known(r, lo, hi, answered[..n - 1]);
      KnownShape(r, lo, hi, answered[..n - 1]);
      AnswerProportioned(r, s, answered[n - 1], Pow(r, n - 3) * (hi - lo));
      PowScales(r, n - 3, hi - lo);
    }
  }

  lemma PowDecreases(r: real, m: nat, n: nat)
    requires IsInvPhi(r) && m <= n
    ensures Pow(r, n) <= Pow(r, m)
    decreases n - m
  {
    if m < n {
      RatioBounds(r);
      PowDecreases(r, m, n - 1);
      PowPositive(r, n - 1);
      assert r * Pow(r, n - 1) <= Pow(r, n - 1);
    }
  }

  lemma ScaledComparison(p: real, tolerance: real, span: real)
    requires span > 0.0
    ensures p * span <= tolerance * span <==> p <= tolerance
  {
    if p <= tolerance {
      assert (tolerance - p) * span >= 0.0;
    } else {
      assert (p - tolerance) * span > 0.0;
    }
  }

  lemma WalkStopsWhen(r: real, lo: real, hi: real, answered: seq<real>, tolerance: real)
    requires |answered| >= 2
    ensures var s := Known(r, lo, hi, answered);
            NextPoint(r, lo, hi, answered, tolerance).None?
            <==> NextPoint(r, lo, hi, answered[..|answered| - 1], tolerance).None?
                 || NarrowEnough(s.a, s.b, lo, hi, tolerance)
  {
    hide Known, NarrowEnough, Inner, Outer;
  }

  lemma NarrowEnoughWhen(r: real, lo: real, hi: real, answered: seq<real>, tolerance: real)
    requires IsInvPhi(r) && lo < hi && |answered| >= 2
    ensures var s := Known(r, lo, hi, answered);
            NarrowEnough(s.a, s.b, lo, hi, tolerance) <==> Pow(r, |answered| - 2) <= tolerance
  {
    hide Known, Pow, Proportioned, IsInvPhi;
    KnownShape(r, lo, hi, answered);
    ScaledComparison(Pow(r, |answered| - 2), tolerance, hi - lo);
  }

  /** The search stops exactly when the last bracket it knew had reached the tolerance. */
  lemma {:induction false} StopsExactlyAtTolerance(
    r: real, lo: real, hi: real, answered: seq<real>, tolerance: real)
    requires IsInvPhi(r) && lo < hi
    ensures NextPoint(r, lo, hi, answered, tolerance).None?
            <==> |answered| >= 2 && Pow(r, |answered| - 2) <= tolerance
    decreases |answered|
  {
    hide Known, NarrowEnough, Inner, Outer, Pow, IsInvPhi;
    var n := |answered|;
    if n >= 2 {
      StopsExactlyAtTolerance(r, lo, hi, answered[..n - 1], tolerance);
      WalkStopsWhen(r, lo, hi, answered, tolerance);
      NarrowEnoughWhen(r, lo, hi, answered, tolerance);
      if n > 2 {
        PowDecreases(r, n - 3, n - 2);
      }
    }
  }

  /** Until it stops, a search with a tolerance walks exactly as one without. */
  lemma UnstoppedWalksFreely(r: real, lo: real, hi: real, answered: seq<real>, tolerance: real)
    requires IsInvPhi(r) && lo < hi
    requires NextPoint(r, lo, hi, answered, tolerance).Some?
    ensures Walk(r, lo, hi, answered, tolerance) == BracketOf(r, lo, hi, answered)
  {
    FreeWalkNarrows(r, lo, hi, answered);
  }

  /** With no tolerance to reach, every answer narrows the bracket. */
  lemma FreeWalkNarrows(r: real, lo: real, hi: real, answered: seq<real>)
    requires IsInvPhi(r) && lo < hi
    ensures NextPoint(r, lo, hi, answered, 0.0).Some?
    ensures |answered| >= 2 ==>
              BracketOf(r, lo, hi, answered) == Narrow(r, Known(r, lo, hi, answered))
  {
    StopsExactlyAtTolerance(r, lo, hi, answered, 0.0);
    if |answered| >= 2 {
      PowPositive(r, |answered| - 2);
    }
  }

  lemma NarrowedShape(r: real, lo: real, hi: real, answered: seq<real>)
    requires IsInvPhi(r) && lo < hi && |answered| >= 2
    ensures var look := Narrow(r, Known(r, lo, hi, answered));
            && look.b - look.a == Pow(r, |answered| - 1) * (hi - lo)
            && lo <= look.a && look.b <= hi
            && look.next.Some? && look.a < look.next.value < look.b
  {
    hide *;
    PowScales(r, |answered| - 2, hi - lo);
    KnownShape(r, lo, hi, answered);
    AnswerProportioned(r, Known(r, lo, hi, answered), 0.0, Pow(r, |answered| - 2) * (hi - lo));
  }

  /** The reported bracket shrinks by exactly `r` per answer after the first, and the next
      point lies strictly inside it. */
  lemma BracketWidth(r: real, lo: real, hi: real, answered: seq<real>)
    requires IsInvPhi(r) && lo < hi && |answered| >= 2
    ensures var look := BracketOf(r, lo, hi, answered);
            && look.b - look.a == Pow(r, |answered| - 1) * (hi - lo)
            && lo <= look.a && look.b <= hi
            && look.next.Some? && look.a < look.next.value < look.b
  {
    hide *;
    FreeWalkNarrows(r, lo, hi, answered);
    NarrowedShape(r, lo, hi, answered);
  }

  // -------------------------------------------------------------- the points that were asked

  /** The parameter values the search asked for to collect `answered`, in order. */
  function Points(r: real, lo: real, hi: real, answered: seq<real>): (points: seq<real>)
    requires IsInvPhi(r) && lo < hi
    ensures |points| == |answered|
    decreases |answered|
  {
    var n := |answered|;
    if n == 0 then []
    else
      FreeWalkNarrows(r, lo, hi, answered[..n - 1]);
      Points(r, lo, hi, answered[..n - 1]) + [NextPoint(r, lo, hi, answered[..n - 1], 0.0).value]
  }

  ghost predicate Seen(points: seq<real>, answered: seq<real>, x: real, v: real)
    requires |points| == |answered|
  {
    exists i :: 0 <= i < |answered| && points[i] == x && answered[i] == v
  }

  lemma SeenLater(points: seq<real>, answered: seq<real>, x: real, v: real, p: real, w: real)
    requires |points| == |answered|
    requires Seen(points, answered, x, v)
    ensures Seen(points + [p], answered + [w], x, v)
  {
    var i :| 0 <= i < |answered| && points[i] == x && answered[i] == v;
    assert (points + [p])[i] == x && (answered + [w])[i] == v;
  }

  lemma SeenLast(points: seq<real>, answered: seq<real>, p: real, w: real)
    requires |points| == |answered|
    ensures Seen(points + [p], answered + [w], p, w)
  {
    assert (points + [p])[|points|] == p && (answered + [w])[|points|] == w;
  }

  /** Both interior points carry the values that were reported there, an end that moved was
      itself evaluated, and nothing seen is lower than the better interior point. */
  lemma {:induction false} InteriorWasSeen(r: real, lo: real, hi: real, answered: seq<real>)
    requires IsInvPhi(r) && lo < hi && |answered| >= 2
    ensures var s := Known(r, lo, hi, answered);
            var points := Points(r, lo, hi, answered);
            && Seen(points, answered, s.c, s.fc)
            && Seen(points, answered, s.d, s.fd)
            && (s.a == lo || s.a in points)
            && (s.b == hi || s.b in points)
            && (forall v :: v in answered ==> s.fc <= v || s.fd <= v)
    decreases |answered|
  {
    var n := |answered|;
    var before, v := answered[..n - 1], answered[n - 1];
    assert answered == before + [v];
    FreeWalkNarrows(r, lo, hi, before);
    var points := Points(r, lo, hi, answered);
    var p := points[n - 1];
    assert points == Points(r, lo, hi, before) + [p];
    SeenLast(Points(r, lo, hi, before), before, p, v);
    if n == 2 {
      var first := before[..0];
      assert before == first + [answered[0]];
      FreeWalkNarrows(r, lo, hi, first);
      assert points[0] == Inner(r, lo, hi) && points[1] == Outer(r, lo, hi);
      assert answered[0] == Known(r, lo, hi, answered).fc;
    } else {
      var s := Known(r, lo, hi, before);
      InteriorWasSeen(r, lo, hi, before);
      SeenLater(Points(r, lo, hi, before), before, s.c, s.fc, p, v);
      SeenLater(Points(r, lo, hi, before), before, s.d, s.fd, p, v);
      SeenIsPoint(points, answered, s.c, s.fc);
      SeenIsPoint(points, answered, s.d, s.fd);
    }
  }

  lemma SeenIsPoint(points: seq<real>, answered: seq<real>, x: real, v: real)
    requires |points| == |answered| && Seen(points, answered, x, v)
    ensures x in points && v in answered
  {
  }

  /** For any objective at all: the lowest value seen was seen at a point of the bracket. */
  lemma LowestSeenIsBracketed(r: real, lo: real, hi: real, answered: seq<real>)
    requires IsInvPhi(r) && lo < hi && |answered| >= 2
    ensures var look := BracketOf(r, lo, hi, answered);
            var points := Points(r, lo, hi, answered);
            exists i :: 0 <= i < |answered|
                        && look.a <= points[i] <= look.b
                        && forall j :: 0 <= j < |answered| ==> answered[i] <= answered[j]
  {
    var s := Known(r, lo, hi, answered);
    var points := Points(r, lo, hi, answered);
    InteriorWasSeen(r, lo, hi, answered);
    KnownShape(r, lo, hi, answered);
    FreeWalkNarrows(r, lo, hi, answered);
    var x, v := if s.fc < s.fd then s.c else s.d, if s.fc < s.fd then s.fc else s.fd;
    var i :| 0 <= i < |answered| && points[i] == x && answered[i] == v;
    assert forall j :: 0 <= j < |answered| ==> answered[j] in answered;
    assert forall j :: 0 <= j < |answered| ==> answered[i] <= answered[j];
  }

  /** The first of the lowest values: the evaluation a report calls its best. */
  function FirstLowest(values: seq<real>): (i: nat)
    requires |values| > 0
    ensures i < |values|
    ensures forall j :: 0 <= j < |values| ==> values[i] <= values[j]
    ensures forall j :: 0 <= j < i ==> values[i] < values[j]
  {
    if |values| == 1 then 0
    else
      var k := FirstLowest(values[..|values| - 1]);
      if values[|values| - 1] < values[k] then |values| - 1 else k
  }

  /** The best point itself can be outside on ties: three equal answers leave the first one
      behind the bracket. */
  lemma TiedBestFallsOutside(r: real)
    requires IsInvPhi(r)
    ensures var answered := [7.0, 7.0, 7.0];
            Points(r, 0.0, 1.0, answered)[FirstLowest(answered)]
            < BracketOf(r, 0.0, 1.0, answered).a
  {
    var answered := [7.0, 7.0, 7.0];
    var two := answered[..2];
    assert two == [7.0, 7.0];
    FreeWalkNarrows(r, 0.0, 1.0, answered);
    FreeWalkNarrows(r, 0.0, 1.0, two);
    KnownShape(r, 0.0, 1.0, two);
    KnownShape(r, 0.0, 1.0, answered);
    FreeWalkNarrows(r, 0.0, 1.0, two[..1]);
    FreeWalkNarrows(r, 0.0, 1.0, two[..1][..0]);
    assert Points(r, 0.0, 1.0, answered)[..2] == Points(r, 0.0, 1.0, two);
    assert Points(r, 0.0, 1.0, two)[..1] == Points(r, 0.0, 1.0, two[..1]);
    assert FirstLowest(answered) == 0;
  }

  /** Without a tie at the lowest value, the best point lies in the bracket. */
  lemma UniqueBestIsBracketed(r: real, lo: real, hi: real, answered: seq<real>)
    requires IsInvPhi(r) && lo < hi && |answered| >= 2
    requires var best := FirstLowest(answered);
             forall j :: 0 <= j < |answered| && j != best ==> answered[best] < answered[j]
    ensures var look := BracketOf(r, lo, hi, answered);
            look.a <= Points(r, lo, hi, answered)[FirstLowest(answered)] <= look.b
  {
    LowestSeenIsBracketed(r, lo, hi, answered);
  }

  // Exactly when the best point leaves the bracket: it has to be tied from the right, and the
  // search has to go on from there.

  /** Where the best point stands in a search that has it at `y` with value `v`. */
  datatype Standing = Interior | JustTied | Overtaken | Left

  predicate Stands(standing: Standing, s: State, y: real, v: real, last: real) {
    match standing
    case Interior => (y == s.c && s.fc == v && v < s.fd) || (y == s.d && s.fd == v && v <= s.fc)
    case JustTied => y == s.c && s.fc == v && s.fd == v
    case Overtaken => y == s.a && s.fc == v && s.fd == last
    case Left => y < s.a || (y == s.a && s.fd == v && v <= s.fc)
  }

  lemma StandingDecides(r: real, s: State, standing: Standing, y: real, v: real, last: real)
    requires Proportioned(r, s) && Stands(standing, s, y, v, last) && v <= last
    ensures Narrow(r, s).a <= y <= Narrow(r, s).b
            <==> standing.Interior? || standing.JustTied? || (standing.Overtaken? && v < last)
  {
    hide Inner, Outer;
  }

  function NextStanding(standing: Standing, tied: bool): Standing {
    match standing
    case Interior => if tied then JustTied else Interior
    case JustTied => Overtaken
    case _ => Left
  }

  lemma StandingSteps(r: real, s: State, standing: Standing, y: real, v: real, last: real, w: real)
    requires Proportioned(r, s) && Proportioned(r, Answer(r, s, w))
    requires Stands(standing, s, y, v, last) && v <= last && v <= w
    ensures var p := Narrow(r, s).next.value;
            Stands(NextStanding(standing, w == v && p > y), Answer(r, s, w), y, v, w)
  {
    hide Inner, Outer;
  }

  /** The first of the first `n` evaluations that ties evaluation `i` from its right. */
  function FirstTie(points: seq<real>, answered: seq<real>, i: nat, n: nat): (tie: Option<nat>)
    requires |points| == |answered| && i < |answered| && n <= |answered|
    ensures tie.Some? ==> i < tie.value < n && answered[tie.value] == answered[i] && points[tie.value] > points[i]
    ensures forall j :: i < j < n && answered[j] == answered[i] && points[j] > points[i] ==>
              tie.Some? && tie.value <= j
  {
    if n <= i + 1 then None
    else
      var before := FirstTie(points, answered, i, n - 1);
      if before.Some? then before
      else if answered[n - 1] == answered[i] && points[n - 1] > points[i] then Some(n - 1)
      else None
  }

  function StandingAfter(tie: Option<nat>, n: nat): Standing {
    match tie
    case None => Interior
    case Some(j) => if n <= j + 1 then JustTied else if n == j + 2 then Overtaken else Left
  }

  lemma PointsOfPrefix(r: real, lo: real, hi: real, answered: seq<real>, n: nat)
    requires IsInvPhi(r) && lo < hi && n <= |answered|
    ensures Points(r, lo, hi, answered)[..n] == Points(r, lo, hi, answered[..n])
    decreases |answered|
  {
    if n < |answered| {
      var before := answered[..|answered| - 1];
      PointsOfPrefix(r, lo, hi, before, n);
      assert before[..n] == answered[..n];
    } else {
      assert answered[..n] == answered;
    }
  }

  /** The point asked for after `n >= 2` answers is the one the known state narrows to. */
  lemma PointIsNext(r: real, lo: real, hi: real, answered: seq<real>, n: nat)
    requires IsInvPhi(r) && lo < hi && 2 <= n < |answered|
    ensures Narrow(r, Known(r, lo, hi, answered[..n])).next.Some?
    ensures Points(r, lo, hi, answered)[n] == Narrow(r, Known(r, lo, hi, answered[..n])).next.value
    ensures Known(r, lo, hi, answered[..n + 1]) == Answer(r, Known(r, lo, hi, answered[..n]), answered[n])
  {
    hide Narrow, Inner, Outer;
    FreeWalkNarrows(r, lo, hi, answered[..n]);
    PointsOfPrefix(r, lo, hi, answered, n + 1);
    assert Points(r, lo, hi, answered)[n] == Points(r, lo, hi, answered)[..n + 1][n];
    assert answered[..n + 1][..n] == answered[..n];
  }

  lemma FirstPoints(r: real, lo: real, hi: real, answered: seq<real>)
    requires IsInvPhi(r) && lo < hi && |answered| >= 2
    ensures Points(r, lo, hi, answered)[0] == Inner(r, lo, hi)
    ensures Points(r, lo, hi, answered)[1] == Outer(r, lo, hi)
  {
    PointsOfPrefix(r, lo, hi, answered, 1);
    PointsOfPrefix(r, lo, hi, answered, 2);
    var points := Points(r, lo, hi, answered);
    assert points[0] == points[..1][0] && points[1] == points[..2][1];
    assert answered[..2][..1] == answered[..1] && answered[..1][..0] == [];
    assert Points(r, lo, hi, []) == [];
  }

  lemma OpeningStands(r: real, lo: real, hi: real, answered: seq<real>, i: nat)
    requires IsInvPhi(r) && lo < hi && |answered| >= 2 && i == FirstLowest(answered) && i < 2
    ensures Stands(StandingAfter(FirstTie(Points(r, lo, hi, answered), answered, i, 2), 2),
                   Known(r, lo, hi, answered[..2]), Points(r, lo, hi, answered)[i], answered[i], answered[1])
  {
    FirstPoints(r, lo, hi, answered);
    OpeningProportioned(r, lo, hi, answered[0], answered[1]);
    hide Inner, Outer;
    var points := Points(r, lo, hi, answered);
    assert Known(r, lo, hi, answered[..2]) == Opening(r, lo, hi, answered[0], answered[1]);
    assert FirstTie(points, answered, i, 1) == None;
  }

  lemma NewestStands(r: real, lo: real, hi: real, answered: seq<real>, i: nat)
    requires IsInvPhi(r) && lo < hi && |answered| >= 2 && i == FirstLowest(answered) && i >= 2
    ensures Stands(StandingAfter(FirstTie(Points(r, lo, hi, answered), answered, i, i + 1), i + 1),
                   Known(r, lo, hi, answered[..i + 1]), Points(r, lo, hi, answered)[i], answered[i], answered[i])
  {
    PointIsNext(r, lo, hi, answered, i);
    InteriorWasSeen(r, lo, hi, answered[..i]);
    var s := Known(r, lo, hi, answered[..i]);
    SeenIsPoint(Points(r, lo, hi, answered[..i]), answered[..i], s.c, s.fc);
    SeenIsPoint(Points(r, lo, hi, answered[..i]), answered[..i], s.d, s.fd);
    hide Inner, Outer, Points, Known;
    assert forall v :: v in answered[..i] ==> answered[i] < v;
  }

  lemma NextStands(r: real, lo: real, hi: real, answered: seq<real>, i: nat, n: nat)
    requires IsInvPhi(r) && lo < hi && 2 < n <= |answered| && i + 1 < n && i == FirstLowest(answered)
    requires var points := Points(r, lo, hi, answered);
             Stands(StandingAfter(FirstTie(points, answered, i, n - 1), n - 1),
                    Known(r, lo, hi, answered[..n - 1]), points[i], answered[i], answered[n - 2])
    ensures var points := Points(r, lo, hi, answered);
            Stands(StandingAfter(FirstTie(points, answered, i, n), n),
                   Known(r, lo, hi, answered[..n]), points[i], answered[i], answered[n - 1])
  {
    hide *;
    var points := Points(r, lo, hi, answered);
    PointIsNext(r, lo, hi, answered, n - 1);
    KnownShape(r, lo, hi, answered[..n - 1]);
    KnownShape(r, lo, hi, answered[..n]);
    StandingSteps(r, Known(r, lo, hi, answered[..n - 1]), StandingAfter(FirstTie(points, answered, i, n - 1), n - 1),
                  points[i], answered[i], answered[n - 2], answered[n - 1]);
    StandingFollowsTies(points, answered, i, n);
  }

  lemma {:induction false} BestStands(r: real, lo: real, hi: real, answered: seq<real>, i: nat, n: nat)
    requires IsInvPhi(r) && lo < hi && 2 <= n <= |answered| && i < n && i == FirstLowest(answered)
    ensures var points := Points(r, lo, hi, answered);
            Stands(StandingAfter(FirstTie(points, answered, i, n), n),
                   Known(r, lo, hi, answered[..n]), points[i], answered[i], answered[n - 1])
    decreases n
  {
    hide *;
    if i == n - 1 && i >= 2 {
      NewestStands(r, lo, hi, answered, i);
    } else if n == 2 {
      OpeningStands(r, lo, hi, answered, i);
    } else {
      BestStands(r, lo, hi, answered, i, n - 1);
      NextStands(r, lo, hi, answered, i, n);
    }
  }

  lemma StandingFollowsTies(points: seq<real>, answered: seq<real>, i: nat, n: nat)
    requires |points| == |answered| && i + 1 < n <= |answered|
    ensures StandingAfter(FirstTie(points, answered, i, n), n)
            == NextStanding(StandingAfter(FirstTie(points, answered, i, n - 1), n - 1),
                            answered[n - 1] == answered[i] && points[n - 1] > points[i])
  {
  }

  /** A later evaluation to its right has tied the best one, and the search went on from there by
      two more answers, or by one that tied again. */
  ghost predicate Outrun(points: seq<real>, answered: seq<real>, i: nat)
    requires |points| == |answered| && i < |answered|
  {
    var n := |answered|;
    exists j :: i < j < n && answered[j] == answered[i] && points[j] > points[i]
                && (j + 2 < n || (j + 2 == n && answered[n - 1] == answered[i]))
  }

  /** For any objective at all: the reported best lies in the reported bracket if and only if it
      has not been outrun. */
  lemma BestIsBracketedExactly(r: real, lo: real, hi: real, answered: seq<real>)
    requires IsInvPhi(r) && lo < hi && |answered| >= 2
    ensures var look := BracketOf(r, lo, hi, answered);
            var points, i := Points(r, lo, hi, answered), FirstLowest(answered);
            look.a <= points[i] <= look.b <==> !Outrun(points, answered, i)
  {
    var points, i, n := Points(r, lo, hi, answered), FirstLowest(answered), |answered|;
    assert answered[..n] == answered;
    BestStands(r, lo, hi, answered, i, n);
    FreeWalkNarrows(r, lo, hi, answered);
    KnownShape(r, lo, hi, answered);
    hide Narrow, Known, Points, Proportioned, Stands, BracketOf;
    var tie := FirstTie(points, answered, i, n);
    StandingDecides(r, Known(r, lo, hi, answered), StandingAfter(tie, n), points[i], answered[i], answered[n - 1]);
    if tie.Some? {
      assert answered[tie.value] == answered[i] && points[tie.value] > points[i];
    }
  }

  // ------------------------------------------------------------------- unimodal objectives

  ghost predicate FallsOn(f: real -> real, lo: real, hi: real) {
    forall x: real, y: real :: lo <= x < y <= hi ==> f(x) > f(y)
  }

  ghost predicate RisesOn(f: real -> real, lo: real, hi: real) {
    forall x: real, y: real :: lo <= x < y <= hi ==> f(x) < f(y)
  }

  /** Strictly falling to the minimiser `m`, strictly rising after it. */
  ghost predicate Unimodal(f: real -> real, lo: real, hi: real, m: real) {
    lo <= m <= hi && FallsOn(f, lo, m) && RisesOn(f, m, hi)
  }

  /** The answers are the objective at the points that were asked. */
  ghost predicate Answers(f: real -> real, r: real, lo: real, hi: real, answered: seq<real>)
    requires IsInvPhi(r) && lo < hi
  {
    forall i :: 0 <= i < |answered| ==> answered[i] == f(Points(r, lo, hi, answered)[i])
  }

  lemma SeenAnswer(f: real -> real, r: real, lo: real, hi: real, answered: seq<real>, x: real, v: real)
    requires IsInvPhi(r) && lo < hi && Answers(f, r, lo, hi, answered)
    requires Seen(Points(r, lo, hi, answered), answered, x, v)
    ensures v == f(x)
  {
  }

  lemma AnswersPrefix(f: real -> real, r: real, lo: real, hi: real, answered: seq<real>)
    requires IsInvPhi(r) && lo < hi && |answered| > 0 && Answers(f, r, lo, hi, answered)
    ensures Answers(f, r, lo, hi, answered[..|answered| - 1])
  {
    var n := |answered|;
    FreeWalkNarrows(r, lo, hi, answered[..n - 1]);
    assert Points(r, lo, hi, answered)[..n - 1] == Points(r, lo, hi, answered[..n - 1]);
  }

  /** One narrowing never discards the minimiser. */
  lemma NarrowKeepsMinimiser(f: real -> real, r: real, lo: real, hi: real, m: real, s: State)
    requires Unimodal(f, lo, hi, m)
    requires lo <= s.a <= s.c < s.d <= s.b <= hi && s.a <= m <= s.b
    requires s.fc == f(s.c) && s.fd == f(s.d)
    ensures Narrow(r, s).a <= m <= Narrow(r, s).b
  {
    assert m >= s.d ==> f(s.c) > f(s.d);
    assert m <= s.c ==> f(s.c) < f(s.d);
  }

  lemma {:induction false} KnownKeepsMinimiser(
    f: real -> real, r: real, lo: real, hi: real, m: real, answered: seq<real>)
    requires IsInvPhi(r) && lo < hi && |answered| >= 2
    requires Unimodal(f, lo, hi, m) && Answers(f, r, lo, hi, answered)
    ensures var s := Known(r, lo, hi, answered); s.a <= m <= s.b
    ensures var s := Known(r, lo, hi, answered); s.fc == f(s.c) && s.fd == f(s.d)
    decreases |answered|
  {
    var n := |answered|;
    var s := Known(r, lo, hi, answered);
    InteriorWasSeen(r, lo, hi, answered);
    SeenAnswer(f, r, lo, hi, answered, s.c, s.fc);
    SeenAnswer(f, r, lo, hi, answered, s.d, s.fd);
    if n > 2 {
      AnswersPrefix(f, r, lo, hi, answered);
      KnownKeepsMinimiser(f, r, lo, hi, m, answered[..n - 1]);
      KnownShape(r, lo, hi, answered[..n - 1]);
      NarrowKeepsMinimiser(f, r, lo, hi, m, Known(r, lo, hi, answered[..n - 1]));
    }
  }

  /** For a strictly unimodal objective the minimiser is in every bracket a replay reaches,
      with or without a tolerance. */
  lemma {:induction false} MinimiserIsBracketed(
    f: real -> real, r: real, lo: real, hi: real, m: real, answered: seq<real>, tolerance: real)
    requires IsInvPhi(r) && lo < hi
    requires Unimodal(f, lo, hi, m) && Answers(f, r, lo, hi, answered)
    ensures var look := Walk(r, lo, hi, answered, tolerance); look.a <= m <= look.b
    decreases |answered|
  {
    var n := |answered|;
    if n >= 2 {
      AnswersPrefix(f, r, lo, hi, answered);
      MinimiserIsBracketed(f, r, lo, hi, m, answered[..n - 1], tolerance);
      KnownKeepsMinimiser(f, r, lo, hi, m, answered);
      KnownShape(r, lo, hi, answered);
      NarrowKeepsMinimiser(f, r, lo, hi, m, Known(r, lo, hi, answered));
    }
  }

  /** Every point asked for lies within the bounds. */
  lemma {:induction false} PointsWithinBounds(r: real, lo: real, hi: real, answered: seq<real>)
    requires IsInvPhi(r) && lo < hi
    ensures forall x :: x in Points(r, lo, hi, answered) ==> lo <= x <= hi
    decreases |answered|
  {
    var n := |answered|;
    if n > 0 {
      var before := answered[..n - 1];
      PointsWithinBounds(r, lo, hi, before);
      FreeWalkNarrows(r, lo, hi, before);
      if |before| >= 2 {
        BracketWidth(r, lo, hi, before);
      } else {
        OpeningProportioned(r, lo, hi, 0.0, 0.0);
      }
    }
  }

  /** For a strictly unimodal objective the reported best is in the reported bracket, ties or not. */
  lemma UnimodalBestIsBracketed(
    f: real -> real, r: real, lo: real, hi: real, m: real, answered: seq<real>)
    requires IsInvPhi(r) && lo < hi && |answered| >= 2
    requires Unimodal(f, lo, hi, m) && Answers(f, r, lo, hi, answered)
    ensures var look := BracketOf(r, lo, hi, answered);
            look.a <= Points(r, lo, hi, answered)[FirstLowest(answered)] <= look.b
  {
    var points := Points(r, lo, hi, answered);
    var look, s := BracketOf(r, lo, hi, answered), Known(r, lo, hi, answered);
    var best := points[FirstLowest(answered)];
    FreeWalkNarrows(r, lo, hi, answered);
    MinimiserIsBracketed(f, r, lo, hi, m, answered, 0.0);
    PointsWithinBounds(r, lo, hi, answered);
    InteriorWasSeen(r, lo, hi, answered);
    SeenIsPoint(points, answered, s.c, s.fc);
    SeenIsPoint(points, answered, s.d, s.fd);
    assert best in points && lo <= best <= hi;
    assert forall x :: x in points ==> f(best) <= f(x) by {
      forall x | x in points ensures f(best) <= f(x) {
        var j :| 0 <= j < |points| && points[j] == x;
        assert answered[FirstLowest(answered)] <= answered[j];
      }
    }
    assert best < look.a ==> f(best) > f(look.a);
    assert look.b < best ==> f(look.b) < f(best);
  }

  lemma ConvergedWidth(r: real, lo: real, hi: real, answered: seq<real>, tolerance: real)
    requires IsInvPhi(r) && lo < hi && 0.0 < tolerance < 1.0
    requires NextPoint(r, lo, hi, answered, tolerance).None?
    ensures |answered| >= 2
    ensures var look := BracketOf(r, lo, hi, answered);
            look.b - look.a <= r * tolerance * (hi - lo)
  {
    hide Walk, NextPoint, BracketOf;
    StopsExactlyAtTolerance(r, lo, hi, answered, tolerance);
    BracketWidth(r, lo, hi, answered);
    var p := Pow(r, |answered| - 2);
    assert Pow(r, |answered| - 1) == r * p;
    MulLe(p, tolerance, r);
    MulLe(r * p, r * tolerance, hi - lo);
  }

  /** A search that reports `converged` has located the minimiser: it and the reported best
      are in a bracket no wider than `r * tolerance` of the range. */
  lemma ConvergedLocatesMinimiser(
    f: real -> real, r: real, lo: real, hi: real, m: real, answered: seq<real>, tolerance: real)
    requires IsInvPhi(r) && lo < hi && 0.0 < tolerance < 1.0
    requires Unimodal(f, lo, hi, m) && Answers(f, r, lo, hi, answered)
    requires NextPoint(r, lo, hi, answered, tolerance).None?
    ensures |answered| >= 2
    ensures var look := BracketOf(r, lo, hi, answered);
            var best := Points(r, lo, hi, answered)[FirstLowest(answered)];
            && look.a <= m <= look.b
            && look.a <= best <= look.b
            && look.b - look.a <= r * tolerance * (hi - lo)
            && Abs(best - m) <= r * tolerance * (hi - lo)
  {
    hide Walk, Points, Unimodal, Answers, NextPoint, IsInvPhi, FirstLowest;
    ConvergedWidth(r, lo, hi, answered, tolerance);
    MinimiserIsBracketed(f, r, lo, hi, m, answered, 0.0);
    UnimodalBestIsBracketed(f, r, lo, hi, m, answered);
  }

  // ------------------------------------------------------------------- what "better" means

  datatype Objective = Minimize | Maximize | Target(value: real) {
    /** The value the method minimises, from the metric a solve reported. */
    function AsMinimum(metric: real): real {
      match this
      case Minimize => metric
      case Maximize => -metric
      case Target(t) => (metric - t) * (metric - t)
    }
  }

  lemma FartherIsWorse(target: real, far: real, near: real)
    requires far < near <= target || target <= near < far
    ensures Target(target).AsMinimum(far) > Target(target).AsMinimum(near)
  {
    if far < near {
      SquareGrows(target - near, target - far);
    } else {
      SquareGrows(near - target, far - target);
    }
  }

  ghost predicate StrictlyMonotone(g: real -> real, lo: real, hi: real) {
    RisesOn(g, lo, hi) || FallsOn(g, lo, hi)
  }

  lemma NearerIsBetter(
    g: real -> real, lo: real, hi: real, m: real, target: real, far: real, near: real)
    requires lo <= far < near <= m <= hi || lo <= m <= near < far <= hi
    requires g(m) == target && StrictlyMonotone(g, lo, hi)
    ensures Target(target).AsMinimum(g(far)) > Target(target).AsMinimum(g(near))
  {
    assert near == m || g(near) != g(m);
    FartherIsWorse(target, g(far), g(near));
  }

  /** What the method minimises when the metric at a parameter is `g` of it. */
  function Grade(objective: Objective, g: real -> real): real -> real {
    x => objective.AsMinimum(g(x))
  }

  /** Minimising a metric is minimising it; maximising one that rises to `m` and falls after it is a
      minimisation with `m` as minimiser. */
  lemma UnimodalMetricIsGradedSo(g: real -> real, lo: real, hi: real, m: real)
    ensures Unimodal(g, lo, hi, m) ==> Unimodal(Grade(Minimize, g), lo, hi, m)
    ensures lo <= m <= hi && RisesOn(g, lo, m) && FallsOn(g, m, hi) ==> Unimodal(Grade(Maximize, g), lo, hi, m)
  {
  }

  lemma MissFallsBefore(g: real -> real, lo: real, hi: real, m: real, target: real)
    requires lo <= m <= hi && g(m) == target && StrictlyMonotone(g, lo, hi)
    ensures FallsOn(Grade(Target(target), g), lo, m)
  {
    hide StrictlyMonotone, Objective.AsMinimum;
    forall x: real, y: real | lo <= x < y <= m
      ensures Grade(Target(target), g)(x) > Grade(Target(target), g)(y)
    {
      NearerIsBetter(g, lo, hi, m, target, x, y);
    }
  }

  lemma MissRisesAfter(g: real -> real, lo: real, hi: real, m: real, target: real)
    requires lo <= m <= hi && g(m) == target && StrictlyMonotone(g, lo, hi)
    ensures RisesOn(Grade(Target(target), g), m, hi)
  {
    hide StrictlyMonotone, Objective.AsMinimum;
    forall x: real, y: real | m <= x < y <= hi
      ensures Grade(Target(target), g)(x) < Grade(Target(target), g)(y)
    {
      NearerIsBetter(g, lo, hi, m, target, y, x);
    }
  }

  /** Hitting a value with a strictly monotone metric is a strictly unimodal minimisation
      whose minimiser is the parameter that hits it. */
  lemma MonotoneTargetIsUnimodal(g: real -> real, lo: real, hi: real, m: real, target: real)
    requires lo <= m <= hi && g(m) == target && StrictlyMonotone(g, lo, hi)
    ensures Unimodal(Grade(Target(target), g), lo, hi, m)
  {
    hide FallsOn, RisesOn, StrictlyMonotone, Grade;
    MissFallsBefore(g, lo, hi, m, target);
    MissRisesAfter(g, lo, hi, m, target);
  }

  /** The trim question: with a strictly monotone metric that attains the target inside the
      bounds, a converged search reports a parameter that close to the one that hits it. */
  lemma TargetIsHit(
    g: real -> real, r: real, lo: real, hi: real, m: real, target: real,
    answered: seq<real>, tolerance: real)
    requires IsInvPhi(r) && lo < hi && 0.0 < tolerance < 1.0
    requires lo <= m <= hi && g(m) == target && StrictlyMonotone(g, lo, hi)
    requires Answers(Grade(Target(target), g), r, lo, hi, answered)
    requires NextPoint(r, lo, hi, answered, tolerance).None?
    ensures |answered| >= 2
    ensures var best := Points(r, lo, hi, answered)[FirstLowest(answered)];
            Abs(best - m) <= r * tolerance * (hi - lo)
  {
    MonotoneTargetIsUnimodal(g, lo, hi, m, target);
    hide *;
    ConvergedLocatesMinimiser(Grade(Target(target), g), r, lo, hi, m, answered, tolerance);
  }
}
