/** The N most extreme points of a field, spread out: a greedy pass in order of extremeness that
    suppresses everything near an earlier pick. */
module Hotspots {
  import opened Plane
  import opened RealMath
  import opened Wrappers

  /** Lengths are compared by their squares; the radius is a tenth of the bounds' diagonal. */
  datatype Field = Field(values: seq<real>, xy: seq<Point>, valid: seq<bool>, width: real, height: real)

  predicate WellFormed(f: Field) {
    |f.values| == |f.xy| == |f.valid|
  }

  function SquaredDistance(p: Point, q: Point): real {
    (p.x - q.x) * (p.x - q.x) + (p.y - q.y) * (p.y - q.y)
  }

  function SquaredRadius(f: Field): real {
    (f.width * f.width + f.height * f.height) / 100.0
  }

  predicate Near(f: Field, i: nat, j: nat)
    requires i < |f.xy| && j < |f.xy|
  {
    SquaredDistance(f.xy[i], f.xy[j]) < SquaredRadius(f)
  }

  /** Near is closer than a tenth of the diagonal of the bounds: for the distance `d` of two points and
      the diagonal `h`, exactly when `10 * d < h`. */
  lemma NearExactly(f: Field, i: nat, j: nat, d: real, h: real)
    requires i < |f.xy| && j < |f.xy| && d >= 0.0 && h >= 0.0
    requires d * d == (f.xy[i].x - f.xy[j].x) * (f.xy[i].x - f.xy[j].x)
                      + (f.xy[i].y - f.xy[j].y) * (f.xy[i].y - f.xy[j].y)
    requires h * h == f.width * f.width + f.height * f.height
    ensures Near(f, i, j) <==> 10.0 * d < h
  {
    assert Near(f, i, j) <==> (10.0 * d) * (10.0 * d) < h * h;
    if 10.0 * d < h {
      SquareGrows(10.0 * d, h);
    } else if h < 10.0 * d {
      SquareGrows(h, 10.0 * d);
    }
  }

  predicate AsExtreme(f: Field, minimum: bool, i: nat, j: nat)
    requires i < |f.values| && j < |f.values|
  {
    if minimum then f.values[i] <= f.values[j] else f.values[i] >= f.values[j]
  }

  /** What sorting the valid indices gives: each once, the most extreme first, ties in any order. */
  ghost predicate IsOrder(f: Field, minimum: bool, order: seq<nat>)
    requires WellFormed(f)
  {
    && (forall k :: 0 <= k < |order| ==> order[k] < |f.valid| && f.valid[order[k]])
    && (forall i :: 0 <= i < |f.valid| && f.valid[i] ==> i in order)
    && (forall k, m :: 0 <= k < m < |order| ==> order[k] != order[m] && AsExtreme(f, minimum, order[k], order[m]))
  }

  /** Such an order exists for every field. */
  lemma SomeOrder(f: Field, minimum: bool) returns (order: seq<nat>)
    requires WellFormed(f)
    ensures IsOrder(f, minimum, order)
  {
    order := [];
    for n := 0 to |f.valid|
      invariant forall k :: 0 <= k < |order| ==> order[k] < n && f.valid[order[k]]
      invariant forall i :: 0 <= i < n && f.valid[i] ==> i in order
      invariant Ranked(f, minimum, order)
    {
      if f.valid[n] {
        order := Inserted(f, minimum, order, n);
      }
    }
  }

  ghost predicate Ranked(f: Field, minimum: bool, order: seq<nat>) {
    forall k, m :: 0 <= k < m < |order| ==>
      && order[k] < |f.values| && order[m] < |f.values|
      && order[k] != order[m] && AsExtreme(f, minimum, order[k], order[m])
  }

  lemma Inserted(f: Field, minimum: bool, order: seq<nat>, i: nat) returns (after: seq<nat>)
    requires i < |f.values| && Ranked(f, minimum, order) && forall k :: 0 <= k < |order| ==> order[k] < i
    ensures forall k :: 0 <= k < |after| ==> after[k] == i || after[k] in order
    ensures i in after && forall k :: 0 <= k < |order| ==> order[k] in after
    ensures Ranked(f, minimum, after)
  {
    hide AsExtreme;
    var at := |order|;
    while at > 0 && !AsExtreme(f, minimum, order[at - 1], i)
      invariant 0 <= at <= |order| && forall k :: at <= k < |order| ==> AsExtreme(f, minimum, i, order[k])
    {
      EitherExtreme(f, minimum, order[at - 1], i);
      at := at - 1;
    }
    forall k | 0 <= k < at
      ensures AsExtreme(f, minimum, order[k], i)
    {
      if k < at - 1 {
        ExtremeThrough(f, minimum, order[k], order[at - 1], i);
      }
    }
    hide Ranked;
    assert order[..at] + order[at..] == order;
    after := RankedWith(f, minimum, order[..at], i, order[at..]);
  }

  lemma EitherExtreme(f: Field, minimum: bool, i: nat, j: nat)
    requires i < |f.values| && j < |f.values|
    ensures AsExtreme(f, minimum, i, j) || AsExtreme(f, minimum, j, i)
  {
  }

  lemma ExtremeThrough(f: Field, minimum: bool, i: nat, j: nat, k: nat)
    requires i < |f.values| && j < |f.values| && k < |f.values|
    requires AsExtreme(f, minimum, i, j) && AsExtreme(f, minimum, j, k)
    ensures AsExtreme(f, minimum, i, k)
  {
  }

  lemma RankedWith(f: Field, minimum: bool, left: seq<nat>, i: nat, right: seq<nat>) returns (after: seq<nat>)
    requires i < |f.values| && Ranked(f, minimum, left + right)
    requires forall k :: 0 <= k < |left + right| ==> (left + right)[k] < i
    requires forall k :: 0 <= k < |left| ==> left[k] < |f.values| && AsExtreme(f, minimum, left[k], i)
    requires forall k :: 0 <= k < |right| ==> right[k] < |f.values| && AsExtreme(f, minimum, i, right[k])
    ensures forall k :: 0 <= k < |after| ==> after[k] == i || after[k] in left + right
    ensures i in after && forall k :: 0 <= k < |left + right| ==> (left + right)[k] in after
    ensures Ranked(f, minimum, after)
  {
    hide AsExtreme;
    after := left + [i] + right;
    var all := left + right;
    assert after[|left|] == i;
    assert forall k :: 0 <= k < |all| ==> after[if k < |left| then k else k + 1] == all[k];
    forall k, m | 0 <= k < m < |after|
      ensures after[k] < |f.values| && after[m] < |f.values|
      ensures after[k] != after[m] && AsExtreme(f, minimum, after[k], after[m])
    {
      var k', m' := if k < |left| then k else k - 1, if m < |left| then m else m - 1;
      if k != |left| && m != |left| {
        assert all[k'] == after[k] && all[m'] == after[m];
      } else if m == |left| {
        assert after[k] == all[k];
      } else {
        assert after[m] == all[m'] && after[m] == right[m - |left| - 1];
      }
    }
  }

  const MAX_HOTSPOTS := 32
  const DEFAULT_SAMPLES := 64

  datatype Refusal = TooFew | NothingSolved

  /** Capped rather than refused above, refused below one. */
  function Budget(requested: Option<int>, ceiling: nat): (budget: Result<nat, Refusal>)
    ensures budget.Err? <==> requested.Some? && requested.value < 1
    ensures budget.Ok? ==> budget.value <= ceiling && (ceiling >= 1 ==> budget.value >= 1)
    ensures budget.Ok? && requested.Some? ==>
              budget.value == ceiling || (budget.value < ceiling && budget.value == requested.value)
    ensures budget.Ok? && requested.Some? && requested.value <= ceiling ==> budget.value == requested.value
    ensures budget.Ok? && requested.None? ==>
              budget.value <= DEFAULT_SAMPLES && (budget.value == DEFAULT_SAMPLES || budget.value == ceiling)
  {
    match requested
    case None => Ok(if DEFAULT_SAMPLES < ceiling then DEFAULT_SAMPLES else ceiling)
    case Some(n) => if n < 1 then Err(TooFew) else Ok(if n < ceiling then n else ceiling)
  }

  predicate NearAny(f: Field, i: nat, picks: seq<nat>)
    requires i < |f.xy| && forall k :: 0 <= k < |picks| ==> picks[k] < |f.xy|
  {
    exists k :: 0 <= k < |picks| && Near(f, i, picks[k])
  }

  /** The picks after the first `n` points of the order. */
  function Picked(f: Field, order: seq<nat>, n: nat, wanted: nat): (picks: seq<nat>)
    requires n <= |order| && forall k :: 0 <= k < |order| ==> order[k] < |f.xy|
    ensures forall k :: 0 <= k < |picks| ==> picks[k] < |f.xy|
  {
    if n == 0 then []
    else
      var before := Picked(f, order, n - 1, wanted);
      if |before| >= wanted || NearAny(f, order[n - 1], before) then before else before + [order[n - 1]]
  }

  lemma {:induction false} FullStaysFull(f: Field, order: seq<nat>, n: nat, m: nat, wanted: nat)
    requires n <= m <= |order| && forall k :: 0 <= k < |order| ==> order[k] < |f.xy|
    requires |Picked(f, order, n, wanted)| >= wanted
    ensures Picked(f, order, m, wanted) == Picked(f, order, n, wanted)
    decreases m
  {
    if n < m {
      FullStaysFull(f, order, n, m - 1, wanted);
    }
  }

  method Select(f: Field, order: seq<nat>, count: Option<int>, ghost minimum: bool)
    returns (selection: Result<seq<nat>, Refusal>)
    requires WellFormed(f) && IsOrder(f, minimum, order)
    ensures match selection
            case Err(TooFew) => count.Some? && count.value < 1
            case Err(NothingSolved) =>
              !(count.Some? && count.value < 1) && forall i :: 0 <= i < |f.valid| ==> !f.valid[i]
            case Ok(picks) =>
              !(count.Some? && count.value < 1) && order != []
              && picks == Picked(f, order, |order|, Budget(count, MAX_HOTSPOTS).value)
  {
    var budget := Budget(count, MAX_HOTSPOTS);
    if budget.Err? {
      return Err(budget.error);
    }
    var wanted := budget.value;
    if order == [] {
      return Err(NothingSolved);
    }
    var picks: seq<nat> := [];
    for n := 0 to |order|
      invariant picks == Picked(f, order, n, wanted)
    {
      if |picks| >= wanted {
        FullStaysFull(f, order, n, |order|, wanted);
        break;
      }
      if !NearAny(f, order[n], picks) {
        picks := picks + [order[n]];
      }
    }
    return Ok(picks);
  }

  /** Of the first `n` points in order, each is picked, or near a pick at least as extreme, or no
      more extreme than any pick of a full selection. */
  ghost predicate Covered(f: Field, minimum: bool, picks: seq<nat>, wanted: nat, i: nat)
    requires WellFormed(f) && i < |f.xy| && forall k :: 0 <= k < |picks| ==> picks[k] < |f.xy|
  {
    || i in picks
    || (exists k :: 0 <= k < |picks| && Near(f, i, picks[k]) && AsExtreme(f, minimum, picks[k], i))
    || (|picks| == wanted && forall k :: 0 <= k < |picks| ==> AsExtreme(f, minimum, picks[k], i))
  }

  ghost predicate IsSelection(f: Field, minimum: bool, picks: seq<nat>)
    requires WellFormed(f)
  {
    && (forall k :: 0 <= k < |picks| ==> picks[k] < |f.xy| && f.valid[picks[k]])
    && (forall k, m :: 0 <= k < m < |picks| ==>
          picks[k] < |f.xy| && picks[m] < |f.xy|
          && !Near(f, picks[m], picks[k]) && AsExtreme(f, minimum, picks[k], picks[m]))
  }

  /** Picks after `n` points: a selection within the budget that starts with the first of the order. */
  ghost predicate PicksOf(f: Field, minimum: bool, order: seq<nat>, n: nat, wanted: nat, picks: seq<nat>)
    requires WellFormed(f) && n <= |order|
  {
    && |picks| <= wanted
    && IsSelection(f, minimum, picks)
    && (forall k :: 0 <= k < |picks| ==> picks[k] in order[..n])
    && (n > 0 ==> picks != [] && picks[0] == order[0])
  }

  lemma OnePick(f: Field, minimum: bool, order: seq<nat>, n: nat, wanted: nat, before: seq<nat>)
    requires WellFormed(f) && IsOrder(f, minimum, order) && 0 < n <= |order| && wanted >= 1
    requires PicksOf(f, minimum, order, n - 1, wanted, before)
    ensures forall k :: 0 <= k < |before| ==> before[k] < |f.xy|
    ensures PicksOf(f, minimum, order, n, wanted,
                    if |before| >= wanted || NearAny(f, order[n - 1], before) then before else before + [order[n - 1]])
  {
    var i := order[n - 1];
    PickedAreAsExtreme(f, minimum, order, n, before);
    assert order[..n] == order[..n - 1] + [i];
    assert i < |f.xy| && f.valid[i];
    hide Near, AsExtreme, IsSelection, IsOrder;
    if !NearAny(f, i, before) {
      SelectionExtended(f, minimum, before, i);
    }
  }

  lemma OrderIsOnField(f: Field, minimum: bool, order: seq<nat>)
    requires WellFormed(f) && IsOrder(f, minimum, order)
    ensures forall k :: 0 <= k < |order| ==> order[k] < |f.xy|
  {
  }

  lemma NoPickYet(f: Field, minimum: bool, order: seq<nat>, wanted: nat)
    requires WellFormed(f)
    ensures PicksOf(f, minimum, order, 0, wanted, [])
  {
  }

  lemma {:induction false} PickedIsSelection(f: Field, minimum: bool, order: seq<nat>, n: nat, wanted: nat)
    requires WellFormed(f) && IsOrder(f, minimum, order) && n <= |order| && wanted >= 1
    ensures forall k :: 0 <= k < |order| ==> order[k] < |f.xy|
    ensures PicksOf(f, minimum, order, n, wanted, Picked(f, order, n, wanted))
  {
    hide Near, NearAny, AsExtreme, IsSelection, WellFormed, PicksOf, IsOrder;
    OrderIsOnField(f, minimum, order);
    if n == 0 {
      NoPickYet(f, minimum, order, wanted);
    } else {
      PickedIsSelection(f, minimum, order, n - 1, wanted);
      OnePick(f, minimum, order, n, wanted, Picked(f, order, n - 1, wanted));
    }
  }

  lemma SelectionExtended(f: Field, minimum: bool, before: seq<nat>, i: nat)
    requires WellFormed(f) && i < |f.xy| && f.valid[i] && IsSelection(f, minimum, before)
    requires forall k :: 0 <= k < |before| ==> before[k] < |f.xy| && AsExtreme(f, minimum, before[k], i)
    requires !NearAny(f, i, before)
    ensures IsSelection(f, minimum, before + [i])
  {
    hide Near, AsExtreme;
    assert forall k :: 0 <= k < |before| ==> !Near(f, i, before[k]);
  }

  lemma PickedAreAsExtreme(f: Field, minimum: bool, order: seq<nat>, n: nat, before: seq<nat>)
    requires WellFormed(f) && IsOrder(f, minimum, order) && 0 < n <= |order|
    requires forall k :: 0 <= k < |before| ==> before[k] in order[..n - 1]
    ensures forall k :: 0 <= k < |before| ==>
              before[k] < |f.xy| && AsExtreme(f, minimum, before[k], order[n - 1])
  {
    forall k | 0 <= k < |before|
      ensures before[k] < |f.xy| && AsExtreme(f, minimum, before[k], order[n - 1])
    {
      var m :| 0 <= m < n - 1 && order[..n - 1][m] == before[k];
      assert order[m] == before[k];
    }
  }

  lemma CoveredStays(f: Field, minimum: bool, before: seq<nat>, pick: nat, wanted: nat, i: nat)
    requires WellFormed(f) && i < |f.xy| && pick < |f.xy|
    requires forall k :: 0 <= k < |before| ==> before[k] < |f.xy|
    requires Covered(f, minimum, before, wanted, i) && |before| < wanted
    ensures Covered(f, minimum, before + [pick], wanted, i)
  {
    hide Near, AsExtreme;
    var picks := before + [pick];
    if i in before {
      assert i in picks;
    } else {
      var k :| 0 <= k < |before| && Near(f, i, before[k]) && AsExtreme(f, minimum, before[k], i);
      assert picks[k] == before[k];
    }
  }

  ghost predicate AllCovered(f: Field, minimum: bool, order: seq<nat>, n: nat, wanted: nat, picks: seq<nat>)
    requires WellFormed(f) && n <= |order| && forall k :: 0 <= k < |order| ==> order[k] < |f.xy|
    requires forall k :: 0 <= k < |picks| ==> picks[k] < |f.xy|
  {
    forall k :: 0 <= k < n ==> Covered(f, minimum, picks, wanted, order[k])
  }

  lemma OneMoreCovered(f: Field, minimum: bool, order: seq<nat>, n: nat, wanted: nat, before: seq<nat>)
    requires WellFormed(f) && IsOrder(f, minimum, order) && 0 < n <= |order|
    requires forall k :: 0 <= k < |before| ==> before[k] < |f.xy|
    requires PicksOf(f, minimum, order, n - 1, wanted, before)
    requires AllCovered(f, minimum, order, n - 1, wanted, before)
    ensures AllCovered(f, minimum, order, n, wanted,
                       if |before| >= wanted || NearAny(f, order[n - 1], before) then before
                       else before + [order[n - 1]])
  {
    var i := order[n - 1];
    var picks := if |before| >= wanted || NearAny(f, i, before) then before else before + [i];
    PickedAreAsExtreme(f, minimum, order, n, before);
    LastIsCovered(f, minimum, before, picks, wanted, i);
    hide Near, NearAny, IsSelection, Covered, IsOrder, AsExtreme;
    forall k | 0 <= k < n
      ensures Covered(f, minimum, picks, wanted, order[k])
    {
      if k < n - 1 && picks != before {
        CoveredStays(f, minimum, before, i, wanted, order[k]);
      }
    }
  }

  lemma {:induction false} PickedCover(f: Field, minimum: bool, order: seq<nat>, n: nat, wanted: nat)
    requires WellFormed(f) && IsOrder(f, minimum, order) && n <= |order| && wanted >= 1
    ensures AllCovered(f, minimum, order, n, wanted, Picked(f, order, n, wanted))
  {
    if n > 0 {
      PickedCover(f, minimum, order, n - 1, wanted);
      PickedIsSelection(f, minimum, order, n - 1, wanted);
      OneMoreCovered(f, minimum, order, n, wanted, Picked(f, order, n - 1, wanted));
      hide AllCovered, PicksOf, WellFormed, NearAny;
    }
  }

  lemma LastIsCovered(f: Field, minimum: bool, before: seq<nat>, picks: seq<nat>, wanted: nat, i: nat)
    requires WellFormed(f) && i < |f.xy| && |before| <= wanted
    requires forall k :: 0 <= k < |before| ==> before[k] < |f.xy| && AsExtreme(f, minimum, before[k], i)
    requires picks == if |before| >= wanted || NearAny(f, i, before) then before else before + [i]
    ensures Covered(f, minimum, picks, wanted, i)
  {
    hide Near, AsExtreme;
    if |before| < wanted && NearAny(f, i, before) {
      var k :| 0 <= k < |before| && Near(f, i, before[k]);
      assert AsExtreme(f, minimum, before[k], i);
    }
  }

  /** The selection: within budget, pairwise at least the radius apart, the most extreme first and
      as extreme as anything; a valid point left out is within the radius of a pick at least as
      extreme, unless the budget ran out on points all at least as extreme as it. */
  lemma HotspotsAreSpreadAndComplete(f: Field, minimum: bool, order: seq<nat>, wanted: nat)
    requires WellFormed(f) && IsOrder(f, minimum, order) && order != [] && wanted >= 1
    ensures var picks := Picked(f, order, |order|, wanted);
            && 1 <= |picks| <= wanted
            && IsSelection(f, minimum, picks)
            && (forall i :: 0 <= i < |f.valid| && f.valid[i] ==> AsExtreme(f, minimum, picks[0], i))
            && (forall i :: 0 <= i < |f.valid| && f.valid[i] ==> Covered(f, minimum, picks, wanted, i))
            && (|picks| < wanted ==>
                  forall i :: 0 <= i < |f.valid| && f.valid[i] ==> i in picks || NearAny(f, i, picks))
            && (minimum ==> forall i :: 0 <= i < |f.valid| && f.valid[i] ==> f.values[picks[0]] <= f.values[i])
            && (!minimum ==> forall i :: 0 <= i < |f.valid| && f.valid[i] ==> f.values[picks[0]] >= f.values[i])
  {
    PickedIsSelection(f, minimum, order, |order|, wanted);
    PickedCover(f, minimum, order, |order|, wanted);
    hide Near, IsSelection;
    var picks := Picked(f, order, |order|, wanted);
    forall i | 0 <= i < |f.valid| && f.valid[i]
      ensures AsExtreme(f, minimum, picks[0], i) && Covered(f, minimum, picks, wanted, i)
    {
      var k :| 0 <= k < |order| && order[k] == i;
      assert Covered(f, minimum, picks, wanted, order[k]);
    }
  }

  /** The same in terms of the field's numbers: the hottest spots of a maximum fall from pick to pick and
      the coldest of a minimum rise, and what a pick passed over is no hotter, or no colder, than it. */
  lemma HottestFirst(f: Field, minimum: bool, picks: seq<nat>, k: nat, m: nat)
    requires WellFormed(f) && IsSelection(f, minimum, picks) && k < m < |picks|
    ensures picks[k] < |f.values| && picks[m] < |f.values|
    ensures minimum ==> f.values[picks[k]] <= f.values[picks[m]]
    ensures !minimum ==> f.values[picks[k]] >= f.values[picks[m]]
  {
  }

  lemma PassedOverForBetter(f: Field, minimum: bool, picks: seq<nat>, wanted: nat, i: nat)
    requires WellFormed(f) && i < |f.xy| && forall k :: 0 <= k < |picks| ==> picks[k] < |f.xy|
    requires Covered(f, minimum, picks, wanted, i) && i !in picks && |picks| < wanted
    ensures exists k :: 0 <= k < |picks| && Near(f, i, picks[k])
                        && if minimum then f.values[picks[k]] <= f.values[i] else f.values[picks[k]] >= f.values[i]
  {
    var k :| 0 <= k < |picks| && Near(f, i, picks[k]) && AsExtreme(f, minimum, picks[k], i);
  }
}
