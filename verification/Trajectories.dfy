/** What a reader of an optimization's report is told, in the report's own terms: what each row says
    of the job behind it, which row is the best, and what each reason for stopping means. */
module Trajectories {
  import opened GoldenSection
  import opened Jobs
  import opened OptimizationSearch
  import opened RealMath
  import opened Wrappers

  // ------------------------------------------------------------------------------ what a row says

  /** The row of a reply: of a refusal the message and nothing else; of a job its id, how it ended and
      its metric, graded if there is one, with its error or, of a job that is done and reported no such
      metric, an error that says so. */
  predicate ReadsAs(e: Evaluation, i: nat, point: real, reply: Reply) {
    && e.iteration == i && e.value == point
    && match reply
       case Refused(message) =>
         e.job.None? && e.status.None? && e.metric.None? && e.objective.None? && e.error == Some(message)
       case Settled(job, _) =>
         && e.job == Some(job.id) && e.status == Some(job.status) && e.metric == job.metric
         && (e.objective.Some? <==> job.metric.Some?)
         && (if job.error.Some? && job.error.value != "" then e.error == job.error
             else e.error.Some? <==> job.metric.None? && job.status == Done)
  }

  /** Row i is at the point the method asks for after the answers before it, and reads as its reply. */
  predicate RowAt(r: real, body: Body, out: Outcome, i: nat, reply: Reply)
    requires i < |out.evaluations|
  {
    && i <= |out.answered| && Ask(r, body, out.answered[..i]).Some?
    && ReadsAs(out.evaluations[i], i, Ask(r, body, out.answered[..i]).value, reply)
  }

  lemma NextRow(r: real, body: Body, replies: nat -> Reply, evaluations: seq<Evaluation>, answered: seq<real>)
    requires |evaluations| == |answered| < body.maxEvaluations && Ask(r, body, answered).Some?
    ensures var out := SearchFrom(r, body, replies, evaluations, answered);
            |evaluations| < |out.evaluations| && RowAt(r, body, out, |evaluations|, replies(|evaluations|))
  {
    hide Ask;
    var i, point := |evaluations|, Ask(r, body, answered).value;
    var out := SearchFrom(r, body, replies, evaluations, answered);
    assert out.answered[..i] == answered;
    var row := match replies(i)
               case Refused(message) => RefusedRow(i, point, message)
               case Settled(job, _) => Row(i, point, job, body.objective);
    assert evaluations + [row] <= out.evaluations;
    assert out.evaluations[i] == row && ReadsAs(row, i, point, replies(i));
  }

  /** Every row of a run reads as the reply it got. */
  lemma {:induction false} RowsReadAsReplies(
    r: real, body: Body, replies: nat -> Reply, evaluations: seq<Evaluation>, answered: seq<real>)
    requires |evaluations| == |answered| <= body.maxEvaluations
    ensures var out := SearchFrom(r, body, replies, evaluations, answered);
            forall i :: |evaluations| <= i < |out.evaluations| ==> RowAt(r, body, out, i, replies(i))
    decreases body.maxEvaluations - |evaluations|
  {
    hide Ask, RowAt;
    var i, point := |evaluations|, Ask(r, body, answered);
    if point.Some? && i < body.maxEvaluations {
      NextRow(r, body, replies, evaluations, answered);
      if replies(i).Settled? {
        var row := Row(i, point.value, replies(i).job, body.objective);
        hide Row;
        if row.objective.Some? {
          RowsReadAsReplies(r, body, replies, evaluations + [row], answered + [row.objective.value]);
        }
      }
    }
  }

  /** Why a search stopped: `stalled` if and only if the last row has no grade; else `converged` if and
      only if the method asks for nothing more, and `budget` if and only if it does. */
  lemma {:induction false} SearchStopsExactly(
    r: real, body: Body, replies: nat -> Reply, evaluations: seq<Evaluation>, answered: seq<real>)
    requires |evaluations| == |answered| <= body.maxEvaluations
    requires forall i :: 0 <= i < |evaluations| ==> evaluations[i].objective.Some?
    ensures var out := SearchFrom(r, body, replies, evaluations, answered);
            && (forall i :: 0 <= i < |out.answered| ==> i < |out.evaluations| && out.evaluations[i].objective.Some?)
            && match out.stopped
               case Stalled =>
                 |out.evaluations| == |out.answered| + 1 && out.evaluations[|out.answered|].objective.None?
               case Converged => |out.evaluations| == |out.answered| && Ask(r, body, out.answered).None?
               case Budget =>
                 |out.evaluations| == |out.answered| == body.maxEvaluations && Ask(r, body, out.answered).Some?
               case _ => false
    ensures var out := SearchFrom(r, body, replies, evaluations, answered);
            out.refused == if |out.evaluations| > |evaluations| && replies(|out.evaluations| - 1).Refused?
                           then Some(out.evaluations[|out.evaluations| - 1]) else None
    decreases body.maxEvaluations - |evaluations|
  {
    hide Ask;
    var i, point := |evaluations|, Ask(r, body, answered);
    if point.Some? && i < body.maxEvaluations && replies(i).Settled? {
      var row := Row(i, point.value, replies(i).job, body.objective);
      if row.objective.Some? {
        SearchStopsExactly(r, body, replies, evaluations + [row], answered + [row.objective.value]);
      }
    }
  }

  // ---------------------------------------------------------------------------- which row is best

  /** The first of the rows with a metric that no other beats. */
  lemma {:induction false} BestIsFirst(evaluations: seq<Evaluation>) returns (b: nat)
    requires Best(evaluations).Some?
    ensures b < |evaluations| && Best(evaluations) == Some(evaluations[b]) && evaluations[b].objective.Some?
    ensures forall j :: 0 <= j < |evaluations| && evaluations[j].objective.Some? ==>
              && evaluations[b].objective.value <= evaluations[j].objective.value
              && (j < b ==> evaluations[b].objective.value < evaluations[j].objective.value)
  {
    var n := |evaluations| - 1;
    var before := evaluations[..n];
    if Best(evaluations) == Best(before) && Best(before).Some? {
      b := BestIsFirst(before);
      assert forall j :: 0 <= j < n ==> before[j] == evaluations[j];
    } else {
      b := n;
      assert forall j :: 0 <= j < n ==> evaluations[j] in evaluations;
      if Best(before).Some? {
        assert forall j :: 0 <= j < n ==> evaluations[j] == before[j] && before[j] in before;
      } else {
        assert forall j :: 0 <= j < n ==> evaluations[j] == before[j] && before[j] in before;
      }
    }
  }

  /** One metric is at least as good as another. */
  predicate AtLeastAsGood(objective: Objective, left: real, right: real) {
    match objective
    case Minimize => left <= right
    case Maximize => left >= right
    case Target(value) =>
      var far := if right >= value then right - value else value - right;
      value - far <= left <= value + far
  }

  lemma GradesCompare(objective: Objective, left: real, right: real)
    ensures objective.AsMinimum(left) <= objective.AsMinimum(right) <==> AtLeastAsGood(objective, left, right)
  {
    if objective.Target? {
      SquaresCompare(left - objective.value, right - objective.value);
    }
  }

  lemma SquaresCompare(x: real, y: real)
    ensures x * x <= y * y <==> (if y >= 0.0 then -y <= x <= y else y <= x <= -y)
  {
    var p, q := if x >= 0.0 then x else -x, if y >= 0.0 then y else -y;
    assert p * p == x * x && q * q == y * y;
    if p < q {
      SquareGrows(p, q);
    } else if q < p {
      SquareGrows(q, p);
    }
  }

  lemma MetricsAreGraded(r: real, body: Body, replies: nat -> Reply)
    ensures forall e :: e in Run(r, body, replies).evaluations ==>
              && (e.objective.Some? <==> e.metric.Some?)
              && (e.metric.Some? ==> e.objective == Some(body.objective.AsMinimum(e.metric.value)))
  {
    RowsKeepObjective(r, body, replies, [], []);
    RowsReadAsReplies(r, body, replies, [], []);
    hide SearchFrom, Ask, Objective.AsMinimum;
    forall e | e in Run(r, body, replies).evaluations
      ensures e.objective.Some? <==> e.metric.Some?
    {
      var i :| 0 <= i < |Run(r, body, replies).evaluations| && Run(r, body, replies).evaluations[i] == e;
      assert RowAt(r, body, Run(r, body, replies), i, replies(i));
    }
  }

  /** The best design of a report: there is one if and only if some row has a metric; then it is the
      smallest metric of all under `Minimize`, the largest under `Maximize` and the nearest to the value
      under `Target`, and of equally good rows the first. */
  lemma BestDesign(r: real, body: Body, replies: nat -> Reply)
    ensures var report := ReportOf(r, body, Run(r, body, replies));
            && (report.best.Some? <==> exists e :: e in report.evaluations && e.metric.Some?)
            && (report.best.Some? ==>
                  exists b :: 0 <= b < |report.evaluations| && report.best == Some(report.evaluations[b])
                    && IsBestRow(body.objective, report.evaluations, b))
  {
    var rows := Run(r, body, replies).evaluations;
    MetricsAreGraded(r, body, replies);
    hide Run, Objective.AsMinimum, AtLeastAsGood;
    if Best(rows).Some? {
      var b := BestIsFirst(rows);
      forall j | 0 <= j < |rows| && rows[j].metric.Some?
        ensures AtLeastAsGood(body.objective, rows[b].metric.value, rows[j].metric.value)
        ensures j < b ==> !AtLeastAsGood(body.objective, rows[j].metric.value, rows[b].metric.value)
      {
        assert rows[b] in rows && rows[j] in rows;
        GradesCompare(body.objective, rows[b].metric.value, rows[j].metric.value);
        GradesCompare(body.objective, rows[j].metric.value, rows[b].metric.value);
      }
      assert rows[b] in rows && IsBestRow(body.objective, rows, b);
    }
  }

  predicate IsBestRow(objective: Objective, rows: seq<Evaluation>, b: nat)
    requires b < |rows|
  {
    && rows[b].metric.Some?
    && forall j :: 0 <= j < |rows| && rows[j].metric.Some? ==>
         && AtLeastAsGood(objective, rows[b].metric.value, rows[j].metric.value)
         && (j < b ==> !AtLeastAsGood(objective, rows[j].metric.value, rows[b].metric.value))
  }

  // --------------------------------------------------------------------------- what a replay finds

  /** The job stored for a point: the one a content address finds, else the one recorded for its index. */
  predicate IsStored(lookup: real -> Option<Job>, byInput: map<nat, Job>, i: nat, point: real, job: Option<Job>) {
    match job
    case Some(job) => lookup(point) == Some(job) || (lookup(point).None? && i in byInput && byInput[i] == job)
    case None => lookup(point).None? && i !in byInput
  }

  /** Row i reads as the job stored for the point that the method asks for after the answers before it,
      and that job reports a metric or not. */
  ghost predicate StoredRowAt(
    r: real, body: Body, lookup: real -> Option<Job>, byInput: map<nat, Job>, out: Outcome, i: nat, graded: bool)
    requires i < |out.evaluations|
  {
    && i <= |out.answered| && Ask(r, body, out.answered[..i]).Some?
    && var point := Ask(r, body, out.answered[..i]).value;
       exists job ::
         IsStored(lookup, byInput, i, point, Some(job)) && (job.metric.Some? <==> graded)
         && ReadsAs(out.evaluations[i], i, point, Settled(job, false))
  }

  /** Where a replay ends: nothing more is asked for; or the budget is spent; or no job is stored, and
      then what is remembered of a search that came exactly as far, or else that it was not run or is
      incomplete; or the job stored reports no metric. */
  ghost predicate EndsAsFound(
    r: real, body: Body, lookup: real -> Option<Job>, byInput: map<nat, Job>,
    remembered: Option<SearchStop>, out: Outcome)
  {
    var n, point := |out.answered|, Ask(r, body, out.answered);
    if point.None? then
      out.stopped == Converged && |out.evaluations| == n && out.refused.None?
    else if n == body.maxEvaluations then
      out.stopped == Budget && |out.evaluations| == n && out.refused.None?
    else if IsStored(lookup, byInput, n, point.value, None) then
      if remembered.Some? && remembered.value.answered == n then
        out.stopped == remembered.value.reason && out.refused == remembered.value.refused
        && |out.evaluations| == n + (if out.refused.Some? then 1 else 0)
        && (out.refused.Some? ==> out.evaluations[n] == out.refused.value)
      else
        out.stopped == (if n == 0 then NotRun else Incomplete) && |out.evaluations| == n && out.refused.None?
    else
      out.stopped == Stalled && |out.evaluations| == n + 1 && out.refused.None?
      && StoredRowAt(r, body, lookup, byInput, out, n, false)
  }

  lemma NextStoredRow(
    r: real, body: Body, lookup: real -> Option<Job>, byInput: map<nat, Job>,
    remembered: Option<SearchStop>, evaluations: seq<Evaluation>, answered: seq<real>)
    requires |evaluations| == |answered| < body.maxEvaluations && Ask(r, body, answered).Some?
    requires Find(lookup, byInput, |evaluations|, Ask(r, body, answered).value).Some?
    ensures var out := ReplayFrom(r, body, lookup, byInput, remembered, evaluations, answered);
            var job := Find(lookup, byInput, |evaluations|, Ask(r, body, answered).value).value;
            && answered <= out.answered && |evaluations| < |out.evaluations|
            && (job.metric.Some? ==> StoredRowAt(r, body, lookup, byInput, out, |evaluations|, true))
            && (job.metric.None? ==> StoredRowAt(r, body, lookup, byInput, out, |evaluations|, false))
  {
    hide Ask;
    var i, point := |evaluations|, Ask(r, body, answered).value;
    var job := Find(lookup, byInput, i, point).value;
    var row := Row(i, point, job, body.objective);
    var out := ReplayFrom(r, body, lookup, byInput, remembered, evaluations, answered);
    ReplayGrows(r, body, lookup, byInput, remembered, evaluations, answered);
    assert out.answered[..i] == answered;
    assert evaluations + [row] <= out.evaluations;
    assert out.evaluations[i] == row && ReadsAs(row, i, point, Settled(job, false));
    assert IsStored(lookup, byInput, i, point, Some(job));
  }

  lemma {:induction false} ReplayGrows(
    r: real, body: Body, lookup: real -> Option<Job>, byInput: map<nat, Job>,
    remembered: Option<SearchStop>, evaluations: seq<Evaluation>, answered: seq<real>)
    requires |evaluations| <= body.maxEvaluations
    ensures answered <= ReplayFrom(r, body, lookup, byInput, remembered, evaluations, answered).answered
    decreases body.maxEvaluations - |evaluations|
  {
    hide Ask;
    var i, point := |evaluations|, Ask(r, body, answered);
    if point.Some? && i < body.maxEvaluations {
      var found := Find(lookup, byInput, i, point.value);
      if found.Some? {
        var row := Row(i, point.value, found.value, body.objective);
        hide Row, Find;
        if row.objective.Some? {
          ReplayGrows(
            r, body, lookup, byInput, remembered, evaluations + [row], answered + [row.objective.value]);
        }
      }
    }
  }

  lemma LastStoredRow(
    r: real, body: Body, lookup: real -> Option<Job>, byInput: map<nat, Job>,
    remembered: Option<SearchStop>, evaluations: seq<Evaluation>, answered: seq<real>)
    requires |evaluations| == |answered| <= body.maxEvaluations
    requires var i, point := |evaluations|, Ask(r, body, answered);
             point.Some? && i < body.maxEvaluations && Find(lookup, byInput, i, point.value).Some? ==>
               Find(lookup, byInput, i, point.value).value.metric.None?
    ensures EndsAsFound(r, body, lookup, byInput, remembered,
                        ReplayFrom(r, body, lookup, byInput, remembered, evaluations, answered))
    ensures var out := ReplayFrom(r, body, lookup, byInput, remembered, evaluations, answered);
            out.answered == answered && |answered| <= |out.evaluations|
  {
    hide Ask;
    var i, point := |evaluations|, Ask(r, body, answered);
    if point.Some? && i < body.maxEvaluations && Find(lookup, byInput, i, point.value).Some? {
      NextStoredRow(r, body, lookup, byInput, remembered, evaluations, answered);
      hide StoredRowAt;
    }
  }

  /** Every row of a replay reads as the job stored for it, and it ends as it should. */
  lemma {:induction false} ReplayTellsTheJobs(
    r: real, body: Body, lookup: real -> Option<Job>, byInput: map<nat, Job>,
    remembered: Option<SearchStop>, evaluations: seq<Evaluation>, answered: seq<real>)
    requires |evaluations| == |answered| <= body.maxEvaluations
    ensures var out := ReplayFrom(r, body, lookup, byInput, remembered, evaluations, answered);
            && EndsAsFound(r, body, lookup, byInput, remembered, out) && |out.answered| <= |out.evaluations|
            && forall i :: |evaluations| <= i < |out.answered| ==>
                 StoredRowAt(r, body, lookup, byInput, out, i, true)
    decreases body.maxEvaluations - |evaluations|
  {
    hide *;
    var i, point := |evaluations|, Ask(r, body, answered);
    if point.Some? && i < body.maxEvaluations && Find(lookup, byInput, i, point.value).Some?
       && Find(lookup, byInput, i, point.value).value.metric.Some?
    {
      NextStoredRow(r, body, lookup, byInput, remembered, evaluations, answered);
      OneRowOn(r, body, lookup, byInput, remembered, evaluations, answered);
      var row := Row(i, point.value, Find(lookup, byInput, i, point.value).value, body.objective);
      ReplayTellsTheJobs(
        r, body, lookup, byInput, remembered, evaluations + [row], answered + [row.objective.value]);
    } else {
      LastStoredRow(r, body, lookup, byInput, remembered, evaluations, answered);
    }
  }

  lemma OneRowOn(
    r: real, body: Body, lookup: real -> Option<Job>, byInput: map<nat, Job>,
    remembered: Option<SearchStop>, evaluations: seq<Evaluation>, answered: seq<real>)
    requires |evaluations| == |answered| < body.maxEvaluations && Ask(r, body, answered).Some?
    requires Find(lookup, byInput, |evaluations|, Ask(r, body, answered).value).Some?
    requires Find(lookup, byInput, |evaluations|, Ask(r, body, answered).value).value.metric.Some?
    ensures var i, point := |evaluations|, Ask(r, body, answered).value;
            var row := Row(i, point, Find(lookup, byInput, i, point).value, body.objective);
            && row.objective.Some?
            && ReplayFrom(r, body, lookup, byInput, remembered, evaluations, answered)
               == ReplayFrom(
                    r, body, lookup, byInput, remembered, evaluations + [row], answered + [row.objective.value])
  {
    hide Ask;
  }

  /** A report of a run: its rows and how many they are, the bracket if some row has a metric, and
      why it stopped. */
  lemma ReportTellsTheRun(r: real, body: Body, out: Outcome)
    ensures var report := ReportOf(r, body, out);
            && report.evaluations == out.evaluations && report.spent == |out.evaluations|
            && (report.bracket.Some? <==> report.best.Some?)
            && (report.bracket.Some? ==>
                  var look := Walk(r, body.lower, body.upper, out.answered, 0.0);
                  report.bracket == Some((look.a, look.b)))
            && (if out.evaluations == [] then report.stopped == NotRun else report.stopped == out.stopped)
  {
  }
}
