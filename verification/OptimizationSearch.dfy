/** Driving an optimization and reporting on it afterwards.

    `Search` submits the points a golden-section walk asks for and remembers only why it
    stopped; `OptimizationReport` rebuilds the trajectory by replaying the walk against the
    jobs in the store.  What a submission comes back with, and what the store finds later,
    are parameters. */
module OptimizationSearch {
  import opened GoldenSection
  import opened Jobs
  import opened RealMath
  import opened Wrappers

  /** A settled job: how it ended and the metric it reported, if any. */
  datatype Job = Job(id: nat, status: Status, metric: Option<real>, error: Option<string>)

  /** What one submission led to.  A job that was `joined` had been submitted by somebody else:
      the cache handed it out, and its recorded inputs do not name this optimization. */
  datatype Reply = Refused(message: string) | Settled(job: Job, joined: bool)

  datatype Body = Body(
    lower: real, upper: real, tolerance: real, maxEvaluations: nat, objective: Objective)

  ghost predicate ValidBody(body: Body) {
    body.lower < body.upper && 2 <= body.maxEvaluations <= 32 && 0.0 < body.tolerance < 1.0
  }

  datatype Evaluation = Evaluation(
    iteration: nat, value: real, job: Option<nat>, status: Option<Status>,
    metric: Option<real>, objective: Option<real>, error: Option<string>)

  datatype Stop = Converged | Budget | Stalled | Incomplete | NotRun

  /** What outlives a search: how far it got, why it ended, and the refused row if there is one. */
  datatype SearchStop = SearchStop(answered: nat, reason: Stop, refused: Option<Evaluation>)

  datatype Outcome = Outcome(
    evaluations: seq<Evaluation>, answered: seq<real>, stopped: Stop, refused: Option<Evaluation>)

  datatype Report = Report(
    evaluations: seq<Evaluation>, best: Option<Evaluation>, bracket: Option<(real, real)>,
    spent: nat, stopped: Stop)

  function Row(iteration: nat, point: real, job: Job, objective: Objective): Evaluation {
    Evaluation(
      iteration, point, Some(job.id), Some(job.status), job.metric,
      if job.metric.Some? then Some(objective.AsMinimum(job.metric.value)) else None,
      if job.error.Some? && job.error.value != "" then job.error
      else if job.metric.Some? || !job.status.Done? then None
      else Some("the solve reported no such metric to optimise"))
  }

  function RefusedRow(iteration: nat, point: real, message: string): Evaluation {
    Evaluation(iteration, point, None, None, None, None, Some(message))
  }

  function Ask(r: real, body: Body, answered: seq<real>): Option<real> {
    NextPoint(r, body.lower, body.upper, answered, body.tolerance)
  }

  // ------------------------------------------------------------------------- specifications

  /** The search continued from `evaluations`. */
  function SearchFrom(
    r: real, body: Body, replies: nat -> Reply, evaluations: seq<Evaluation>, answered: seq<real>)
    : (out: Outcome)
    requires |evaluations| <= body.maxEvaluations
    ensures evaluations <= out.evaluations && |out.evaluations| <= body.maxEvaluations
    ensures answered <= out.answered
    ensures |out.evaluations| - |evaluations| >= |out.answered| - |answered|
    decreases body.maxEvaluations - |evaluations|
  {
    var i := |evaluations|;
    match Ask(r, body, answered)
    case None => Outcome(evaluations, answered, Converged, None)
    case Some(point) =>
      if i >= body.maxEvaluations then
        Outcome(evaluations, answered, Budget, None)
      else match replies(i)
        case Refused(message) =>
          var row := RefusedRow(i, point, message);
          Outcome(evaluations + [row], answered, Stalled, Some(row))
        case Settled(job, _) =>
          var row := Row(i, point, job, body.objective);
          if row.objective.None? then
            Outcome(evaluations + [row], answered, Stalled, None)
          else
            SearchFrom(r, body, replies, evaluations + [row], answered + [row.objective.value])
  }

  /** The job a replay finds for evaluation `i`: by content address, else by recorded inputs. */
  function Find(lookup: real -> Option<Job>, byInput: map<nat, Job>, i: nat, point: real): Option<Job> {
    if lookup(point).Some? then lookup(point)
    else if i in byInput then Some(byInput[i])
    else None
  }

  function ReplayFrom(
    r: real, body: Body, lookup: real -> Option<Job>, byInput: map<nat, Job>,
    remembered: Option<SearchStop>, evaluations: seq<Evaluation>, answered: seq<real>)
    : (out: Outcome)
    requires |evaluations| <= body.maxEvaluations
    ensures evaluations <= out.evaluations && |out.evaluations| <= body.maxEvaluations
    decreases body.maxEvaluations - |evaluations|
  {
    var i := |evaluations|;
    match Ask(r, body, answered)
    case None => Outcome(evaluations, answered, Converged, None)
    case Some(point) =>
      if i >= body.maxEvaluations then
        Outcome(evaluations, answered, Budget, None)
      else match Find(lookup, byInput, i, point)
        case None =>
          if remembered.Some? && remembered.value.answered == |answered| then
            var tail := remembered.value.refused;
            Outcome(
              if tail.Some? then evaluations + [tail.value] else evaluations,
              answered, remembered.value.reason, tail)
          else
            Outcome(evaluations, answered, if evaluations == [] then NotRun else Incomplete, None)
        case Some(job) =>
          var row := Row(i, point, job, body.objective);
          if row.objective.None? then
            Outcome(evaluations + [row], answered, Stalled, None)
          else
            ReplayFrom(
              r, body, lookup, byInput, remembered,
              evaluations + [row], answered + [row.objective.value])
  }

  function Run(r: real, body: Body, replies: nat -> Reply): Outcome {
    SearchFrom(r, body, replies, [], [])
  }

  function Replayed(
    r: real, body: Body, lookup: real -> Option<Job>, byInput: map<nat, Job>,
    remembered: Option<SearchStop>): Outcome
  {
    ReplayFrom(r, body, lookup, byInput, remembered, [], [])
  }

  function Remember(out: Outcome): SearchStop {
    SearchStop(|out.answered|, out.stopped, out.refused)
  }

  /** The first of the graded evaluations with the lowest objective. */
  function Best(evaluations: seq<Evaluation>): (best: Option<Evaluation>)
    ensures best.None? <==> forall e :: e in evaluations ==> e.objective.None?
    ensures best.Some? ==>
              && best.value in evaluations && best.value.objective.Some?
              && forall e :: e in evaluations && e.objective.Some?
                             ==> best.value.objective.value <= e.objective.value
  {
    if evaluations == [] then None
    else
      var last := evaluations[|evaluations| - 1];
      var before := Best(evaluations[..|evaluations| - 1]);
      assert forall e :: e in evaluations <==> e in evaluations[..|evaluations| - 1] || e == last;
      if last.objective.None? then before
      else if before.None? || last.objective.value < before.value.objective.value then Some(last)
      else before
  }

  function ReportOf(r: real, body: Body, out: Outcome): Report {
    var best := Best(out.evaluations);
    var look := BracketOf(r, body.lower, body.upper, out.answered);
    Report(
      out.evaluations, best,
      if best.Some? then Some((look.a, look.b)) else None,
      |out.evaluations|,
      if out.evaluations == [] then NotRun else out.stopped)
  }

  // ------------------------------------------------------------------------- the service

  class SearchService {
    /** Why each finished search ended, by optimization revision and principal. */
    var stops: map<string, SearchStop>

    constructor ()
      ensures stops == map[]
    {
      stops := map[];
    }

    /** The loop: ask, submit, wait, answer, until the tolerance, the budget or a missing answer. */
    method Search(key: string, r: real, body: Body, replies: nat -> Reply) returns (report: Report)
      requires ValidBody(body)
      modifies this
      ensures report == ReportOf(r, body, Run(r, body, replies))
      ensures stops == old(stops)[key := Remember(Run(r, body, replies))]
      ensures report.spent <= body.maxEvaluations
    {
      var evaluations: seq<Evaluation> := [];
      var answered: seq<real> := [];
      var refused: Option<Evaluation> := None;
      var stopped := Converged;
      ghost var out := Run(r, body, replies);
      while true
        invariant |evaluations| <= body.maxEvaluations
        invariant refused.None? && stopped == Converged
        invariant SearchFrom(r, body, replies, evaluations, answered) == out
        decreases body.maxEvaluations - |evaluations|
      {
        var point := Ask(r, body, answered);
        if point.None? {
          break;
        }
        if |evaluations| >= body.maxEvaluations {
          stopped := Budget;
          break;
        }
        var reply := replies(|evaluations|);
        if reply.Refused? {
          refused := Some(RefusedRow(|evaluations|, point.value, reply.message));
          evaluations := evaluations + [refused.value];
          stopped := Stalled;
          break;
        }
        var row := Row(|evaluations|, point.value, reply.job, body.objective);
        evaluations := evaluations + [row];
        if row.objective.None? {
          stopped := Stalled;
          break;
        }
        answered := answered + [row.objective.value];
      }
      stops := stops[key := SearchStop(|answered|, stopped, refused)];
      report := ReportOf(r, body, Outcome(evaluations, answered, stopped, refused));
    }

    /** The trajectory, rebuilt by replaying the method against the jobs. */
    method OptimizationReport(
      key: string, r: real, body: Body, lookup: real -> Option<Job>, byInput: map<nat, Job>)
      returns (report: Report)
      requires ValidBody(body)
      ensures var remembered := if key in stops then Some(stops[key]) else None;
              report == ReportOf(r, body, Replayed(r, body, lookup, byInput, remembered))
      ensures report.spent <= body.maxEvaluations
    {
      var evaluations: seq<Evaluation> := [];
      var answered: seq<real> := [];
      var stopped := Converged;
      ghost var tail: Option<Evaluation> := None;
      ghost var remembered := if key in stops then Some(stops[key]) else None;
      ghost var out := Replayed(r, body, lookup, byInput, remembered);
      while true
        invariant |evaluations| <= body.maxEvaluations
        invariant stopped == Converged && tail.None?
        invariant ReplayFrom(r, body, lookup, byInput, remembered, evaluations, answered) == out
        decreases body.maxEvaluations - |evaluations|
      {
        var point := Ask(r, body, answered);
        if point.None? {
          break;
        }
        if |evaluations| >= body.maxEvaluations {
          stopped := Budget;
          break;
        }
        var job := Find(lookup, byInput, |evaluations|, point.value);
        if job.None? {
          if key in stops && stops[key].answered == |answered| {
            stopped := stops[key].reason;
            tail := stops[key].refused;
            if stops[key].refused.Some? {
              evaluations := evaluations + [stops[key].refused.value];
            }
          } else {
            stopped := if evaluations == [] then NotRun else Incomplete;
          }
          break;
        }
        var row := Row(|evaluations|, point.value, job.value, body.objective);
        evaluations := evaluations + [row];
        if row.objective.None? {
          stopped := Stalled;
          break;
        }
        answered := answered + [row.objective.value];
      }
      assert Outcome(evaluations, answered, stopped, tail) == out;
      report := ReportOf(r, body, Outcome(evaluations, answered, stopped, None));
    }
  }

  // ------------------------------------------------------------- a replay equals the run

  /** Of row i of `out`: where the submission was refused the replay finds no job, and elsewhere one
      that reads the same. */
  ghost predicate AlikeAt(
    body: Body, replies: nat -> Reply, lookup: real -> Option<Job>, byInput: map<nat, Job>, out: Outcome, i: nat)
    requires i < |out.evaluations|
  {
    var found := Find(lookup, byInput, i, out.evaluations[i].value);
    match replies(i)
    case Refused(_) => found.None?
    case Settled(job, _) =>
      found.Some? && Row(i, out.evaluations[i].value, found.value, body.objective)
                     == Row(i, out.evaluations[i].value, job, body.objective)
  }

  ghost predicate FindsAlike(
    body: Body, replies: nat -> Reply, lookup: real -> Option<Job>, byInput: map<nat, Job>,
    out: Outcome, k: nat)
  {
    forall i :: k <= i < |out.evaluations| ==> AlikeAt(body, replies, lookup, byInput, out, i)
  }

  /** What is remembered of the search that ended last, if that process still remembers it, still
      tells of the refused row. */
  predicate Recalls(remembered: Option<SearchStop>, out: Outcome) {
    out.refused.None? || remembered == Some(Remember(out))
  }

  /** What a search leaves: a refused row names no job and stalled it. */
  predicate IsStop(stop: SearchStop) {
    stop.refused.Some? ==> stop.refused.value.job.None? && stop.reason.Stalled?
  }

  /** From here on the replay is the run in no other case, and then its rows already differ. */
  ghost predicate FollowsExactly(
    r: real, body: Body, replies: nat -> Reply, lookup: real -> Option<Job>, byInput: map<nat, Job>,
    remembered: Option<SearchStop>, evaluations: seq<Evaluation>, answered: seq<real>)
    requires |evaluations| <= body.maxEvaluations
  {
    var out := SearchFrom(r, body, replies, evaluations, answered);
    var replay := ReplayFrom(r, body, lookup, byInput, remembered, evaluations, answered);
    && (replay == out
        <==> FindsAlike(body, replies, lookup, byInput, out, |evaluations|) && Recalls(remembered, out))
    && (replay.evaluations == out.evaluations && (remembered.Some? ==> IsStop(remembered.value)) ==> replay == out)
  }

  lemma RefusedFollowsExactly(
    r: real, body: Body, replies: nat -> Reply, lookup: real -> Option<Job>, byInput: map<nat, Job>,
    remembered: Option<SearchStop>, evaluations: seq<Evaluation>, answered: seq<real>)
    requires |evaluations| < body.maxEvaluations && replies(|evaluations|).Refused?
    requires Ask(r, body, answered).Some?
    ensures FollowsExactly(r, body, replies, lookup, byInput, remembered, evaluations, answered)
  {
    var i, point := |evaluations|, Ask(r, body, answered).value;
    var out := SearchFrom(r, body, replies, evaluations, answered);
    var replay := ReplayFrom(r, body, lookup, byInput, remembered, evaluations, answered);
    var found := Find(lookup, byInput, i, point);
    assert AlikeAt(body, replies, lookup, byInput, out, i) <==> found.None?;
    assert found.Some? ==> replay.evaluations[i].job.Some?;
  }

  /** A row that finds another job, or none, or that has no successor. */
  lemma LastFollowsExactly(
    r: real, body: Body, replies: nat -> Reply, lookup: real -> Option<Job>, byInput: map<nat, Job>,
    remembered: Option<SearchStop>, evaluations: seq<Evaluation>, answered: seq<real>)
    requires |evaluations| < body.maxEvaluations && replies(|evaluations|).Settled?
    requires Ask(r, body, answered).Some?
    requires var i, point := |evaluations|, Ask(r, body, answered).value;
             var found, row := Find(lookup, byInput, i, point), Row(i, point, replies(i).job, body.objective);
             found.Some? && Row(i, point, found.value, body.objective) == row ==> row.objective.None?
    ensures FollowsExactly(r, body, replies, lookup, byInput, remembered, evaluations, answered)
  {
    var i, point := |evaluations|, Ask(r, body, answered).value;
    var out := SearchFrom(r, body, replies, evaluations, answered);
    var replay := ReplayFrom(r, body, lookup, byInput, remembered, evaluations, answered);
    var found, row := Find(lookup, byInput, i, point), Row(i, point, replies(i).job, body.objective);
    assert out.evaluations[i] == row;
    assert AlikeAt(body, replies, lookup, byInput, out, i) <==>
      found.Some? && Row(i, point, found.value, body.objective) == row;
    if found.Some? {
      assert replay.evaluations[i] == Row(i, point, found.value, body.objective);
    } else {
      assert |replay.evaluations| > i ==> replay.evaluations[i] == remembered.value.refused.value;
    }
  }

  lemma {:induction false} ReplayFollowsExactly(
    r: real, body: Body, replies: nat -> Reply, lookup: real -> Option<Job>, byInput: map<nat, Job>,
    remembered: Option<SearchStop>, evaluations: seq<Evaluation>, answered: seq<real>)
    requires |evaluations| <= body.maxEvaluations
    ensures FollowsExactly(r, body, replies, lookup, byInput, remembered, evaluations, answered)
    decreases body.maxEvaluations - |evaluations|
  {
    var i, point := |evaluations|, Ask(r, body, answered);
    if point.Some? && i < body.maxEvaluations {
      hide Ask, IsStop, Recalls;
      if replies(i).Refused? {
        RefusedFollowsExactly(r, body, replies, lookup, byInput, remembered, evaluations, answered);
      } else {
        var found := Find(lookup, byInput, i, point.value);
        var row := Row(i, point.value, replies(i).job, body.objective);
        if found.Some? && Row(i, point.value, found.value, body.objective) == row && row.objective.Some? {
          hide Row, Find;
          var more, longer := evaluations + [row], answered + [row.objective.value];
          ReplayFollowsExactly(r, body, replies, lookup, byInput, remembered, more, longer);
          assert SearchFrom(r, body, replies, more, longer).evaluations[i] == row;
          assert AlikeAt(body, replies, lookup, byInput, SearchFrom(r, body, replies, more, longer), i);
        } else {
          LastFollowsExactly(r, body, replies, lookup, byInput, remembered, evaluations, answered);
        }
      }
    }
  }

  /** Whatever the store finds and whatever is remembered, the replay is the run, including a refused
      tail, if and only if for every row the store finds no job where the submission was refused and
      elsewhere one that reads the same, and a refused tail is still remembered. */
  lemma ReplayEqualsRun(
    r: real, body: Body, replies: nat -> Reply, lookup: real -> Option<Job>, byInput: map<nat, Job>,
    remembered: Option<SearchStop>)
    ensures var out := Run(r, body, replies);
            Replayed(r, body, lookup, byInput, remembered) == out
            <==> FindsAlike(body, replies, lookup, byInput, out, 0) && Recalls(remembered, out)
  {
    ReplayFollowsExactly(r, body, replies, lookup, byInput, remembered, [], []);
  }

  lemma {:induction false} SearchLeavesStop(
    r: real, body: Body, replies: nat -> Reply, evaluations: seq<Evaluation>, answered: seq<real>)
    requires |evaluations| <= body.maxEvaluations
    ensures IsStop(Remember(SearchFrom(r, body, replies, evaluations, answered)))
    decreases body.maxEvaluations - |evaluations|
  {
    var i := |evaluations|;
    var point := Ask(r, body, answered);
    if point.Some? && i < body.maxEvaluations && replies(i).Settled? {
      var row := Row(i, point.value, replies(i).job, body.objective);
      if row.objective.Some? {
        SearchLeavesStop(r, body, replies, evaluations + [row], answered + [row.objective.value]);
      }
    }
  }

  /** And whichever search of this optimization is remembered, if any, the reports are the same in no
      other case. */
  lemma ReportEqualsRunReport(
    r: real, body: Body, replies: nat -> Reply, lookup: real -> Option<Job>, byInput: map<nat, Job>,
    remembered: Option<SearchStop>, earlier: nat -> Reply)
    requires remembered.Some? ==> remembered.value == Remember(Run(r, body, earlier))
    ensures var out := Run(r, body, replies);
            ReportOf(r, body, Replayed(r, body, lookup, byInput, remembered)) == ReportOf(r, body, out)
            <==> FindsAlike(body, replies, lookup, byInput, out, 0) && Recalls(remembered, out)
  {
    ReplayFollowsExactly(r, body, replies, lookup, byInput, remembered, [], []);
    if remembered.Some? {
      SearchLeavesStop(r, body, earlier, [], []);
    }
    hide FindsAlike, SearchFrom, ReplayFrom, Best, BracketOf, IsStop, Recalls;
  }

  /** A content address finds the job of an evaluation if it is done, and otherwise nothing. */
  ghost predicate AddressesDone(replies: nat -> Reply, lookup: real -> Option<Job>, out: Outcome) {
    forall i :: 0 <= i < |out.evaluations| ==>
      lookup(out.evaluations[i].value)
      == if replies(i).Settled? && replies(i).job.status.Done? then Some(replies(i).job) else None
  }

  /** The recorded inputs name the jobs this search submitted itself. */
  ghost predicate RecordsOwn(replies: nat -> Reply, byInput: map<nat, Job>, n: nat) {
    forall i :: 0 <= i < n ==>
      if replies(i).Settled? && !replies(i).joined then i in byInput && byInput[i] == replies(i).job
      else i !in byInput
  }

  /** The store right after the first run of a cacheable search. */
  ghost predicate AfterCachedRun(
    replies: nat -> Reply, lookup: real -> Option<Job>, byInput: map<nat, Job>, out: Outcome)
  {
    AddressesDone(replies, lookup, out) && RecordsOwn(replies, byInput, |out.evaluations|)
  }

  /** No evaluation rests on somebody else's job that then failed or was cancelled. */
  ghost predicate NoLostJoin(replies: nat -> Reply, n: nat) {
    forall i :: 0 <= i < n && replies(i).Settled? ==> replies(i).job.status.Done? || !replies(i).joined
  }

  /** The recorded inputs answer row i as the run did: not at all where the submission was refused,
      and elsewhere with a job that reads the same. */
  ghost predicate InputsAnswer(
    body: Body, replies: nat -> Reply, byInput: map<nat, Job>, out: Outcome, i: nat)
    requires i < |out.evaluations|
  {
    match replies(i)
    case Refused(_) => i !in byInput
    case Settled(job, _) =>
      i in byInput
      && Row(i, out.evaluations[i].value, byInput[i], body.objective)
         == Row(i, out.evaluations[i].value, job, body.objective)
  }

  predicate IsDone(reply: Reply) {
    reply.Settled? && reply.job.status.Done?
  }

  /** Where a content address finds exactly the jobs that are done, whatever inputs are recorded: the
      report is the run if and only if the inputs answer every other row as the run did and a refused
      tail is remembered. */
  lemma CachedReplayEqualsRunExactly(
    r: real, body: Body, replies: nat -> Reply, lookup: real -> Option<Job>, byInput: map<nat, Job>,
    remembered: Option<SearchStop>)
    requires AddressesDone(replies, lookup, Run(r, body, replies))
    ensures var out := Run(r, body, replies);
            Replayed(r, body, lookup, byInput, remembered) == out
            <==> (forall i :: 0 <= i < |out.evaluations| && !IsDone(replies(i)) ==>
                    InputsAnswer(body, replies, byInput, out, i))
                 && Recalls(remembered, out)
  {
    ReplayEqualsRun(r, body, replies, lookup, byInput, remembered);
    var out := Run(r, body, replies);
    hide Run, Row, Replayed, Recalls;
    forall i | 0 <= i < |out.evaluations|
      ensures AlikeAt(body, replies, lookup, byInput, out, i)
              <==> IsDone(replies(i)) || InputsAnswer(body, replies, byInput, out, i)
    {
      assert lookup(out.evaluations[i].value) == if IsDone(replies(i)) then Some(replies(i).job) else None;
    }
  }

  /** On a first run, where the recorded inputs name the search's own jobs and no others: if and only
      if no evaluation joined another submission's job that then failed or was cancelled. */
  lemma FirstCachedRunIsRebuiltExactly(
    r: real, body: Body, replies: nat -> Reply, lookup: real -> Option<Job>, byInput: map<nat, Job>,
    remembered: Option<SearchStop>)
    requires AfterCachedRun(replies, lookup, byInput, Run(r, body, replies))
    ensures var out := Run(r, body, replies);
            Replayed(r, body, lookup, byInput, remembered) == out
            <==> NoLostJoin(replies, |out.evaluations|) && Recalls(remembered, out)
  {
    CachedReplayEqualsRunExactly(r, body, replies, lookup, byInput, remembered);
    hide Run, Row, Replayed, Recalls;
  }

  /** The lookup of a solver that is never cached. */
  function NoAddress(point: real): Option<Job> {
    None
  }

  /** Recorded inputs as a report reads them: a dictionary filled from the newest job down, over as
      many jobs as the listing returns. */
  function ByInput(newestFirst: seq<(nat, Job)>): map<nat, Job> {
    if newestFirst == [] then map[]
    else
      var n := |newestFirst| - 1;
      ByInput(newestFirst[..n])[newestFirst[n].0 := newestFirst[n].1]
  }

  /** So of several jobs recorded for one index the oldest answers. */
  lemma {:induction false} OldestInputWins(newestFirst: seq<(nat, Job)>, k: nat)
    requires k < |newestFirst|
    requires forall j :: k < j < |newestFirst| ==> newestFirst[j].0 != newestFirst[k].0
    ensures newestFirst[k].0 in ByInput(newestFirst)
    ensures ByInput(newestFirst)[newestFirst[k].0] == newestFirst[k].1
  {
    var n := |newestFirst| - 1;
    if k < n {
      OldestInputWins(newestFirst[..n], k);
    }
  }

  /** The job recorded for each index before any other: what `ByInput` keeps. */
  ghost predicate OldestIs(newestFirst: seq<(nat, Job)>, i: nat, job: Job) {
    exists k :: 0 <= k < |newestFirst| && newestFirst[k] == (i, job)
                && forall j :: k < j < |newestFirst| ==> newestFirst[j].0 != i
  }

  lemma {:induction false} ByInputHasRecorded(newestFirst: seq<(nat, Job)>, i: nat)
    ensures i in ByInput(newestFirst) <==> exists k :: 0 <= k < |newestFirst| && newestFirst[k].0 == i
  {
    if newestFirst != [] {
      var n := |newestFirst| - 1;
      ByInputHasRecorded(newestFirst[..n], i);
      assert forall k :: 0 <= k < n ==> newestFirst[..n][k] == newestFirst[k];
    }
  }

  lemma {:induction false} ByInputIsOldest(newestFirst: seq<(nat, Job)>, i: nat)
    requires i in ByInput(newestFirst)
    ensures OldestIs(newestFirst, i, ByInput(newestFirst)[i])
  {
    var n := |newestFirst| - 1;
    if newestFirst[n].0 == i {
      assert newestFirst[n] == (i, ByInput(newestFirst)[i]);
    } else {
      var before := newestFirst[..n];
      ByInputIsOldest(before, i);
      OldestStays(newestFirst, i, ByInput(before)[i]);
    }
  }

  lemma OldestStays(newestFirst: seq<(nat, Job)>, i: nat, job: Job)
    requires newestFirst != [] && newestFirst[|newestFirst| - 1].0 != i
    requires OldestIs(newestFirst[..|newestFirst| - 1], i, job)
    ensures OldestIs(newestFirst, i, job)
  {
    var before := newestFirst[..|newestFirst| - 1];
    var k :| 0 <= k < |before| && before[k] == (i, job) && forall j :: k < j < |before| ==> before[j].0 != i;
    assert newestFirst[k] == (i, job);
    forall j | k < j < |newestFirst|
      ensures newestFirst[j].0 != i
    {
      assert j < |before| ==> newestFirst[j] == before[j];
    }
  }

  /** Row i of an uncached run: nothing was ever recorded where the submission was refused, and
      elsewhere the oldest job recorded for the index reads as the run's own. */
  ghost predicate OldestIsOwn(
    body: Body, replies: nat -> Reply, newestFirst: seq<(nat, Job)>, out: Outcome, i: nat)
    requires i < |out.evaluations|
  {
    match replies(i)
    case Refused(_) => forall k :: 0 <= k < |newestFirst| ==> newestFirst[k].0 != i
    case Settled(job, _) =>
      exists oldest :: OldestIs(newestFirst, i, oldest)
        && Row(i, out.evaluations[i].value, oldest, body.objective)
           == Row(i, out.evaluations[i].value, job, body.objective)
  }

  lemma OldestIsUnique(newestFirst: seq<(nat, Job)>, i: nat, job: Job)
    requires OldestIs(newestFirst, i, job)
    ensures i in ByInput(newestFirst) && ByInput(newestFirst)[i] == job
  {
    var k :| 0 <= k < |newestFirst| && newestFirst[k] == (i, job)
      && forall j :: k < j < |newestFirst| ==> newestFirst[j].0 != i;
    OldestInputWins(newestFirst, k);
  }

  /** Without content addresses, whatever was recorded before: the report is the run's if and only
      if the oldest recorded job of each index is the run's own and a refused tail is remembered. */
  lemma UncachedReplayEqualsRunExactly(
    r: real, body: Body, replies: nat -> Reply, newestFirst: seq<(nat, Job)>, remembered: Option<SearchStop>)
    ensures var out := Run(r, body, replies);
            Replayed(r, body, NoAddress, ByInput(newestFirst), remembered) == out
            <==> (forall i :: 0 <= i < |out.evaluations| ==> OldestIsOwn(body, replies, newestFirst, out, i))
                 && Recalls(remembered, out)
  {
    var out, byInput := Run(r, body, replies), ByInput(newestFirst);
    ReplayEqualsRun(r, body, replies, NoAddress, byInput, remembered);
    hide Run, Replayed, Row, Recalls;
    forall i | 0 <= i < |out.evaluations|
      ensures OldestIsOwn(body, replies, newestFirst, out, i)
              <==> AlikeAt(body, replies, NoAddress, byInput, out, i)
    {
      ByInputHasRecorded(newestFirst, i);
      if i in byInput {
        ByInputIsOldest(newestFirst, i);
      }
      if replies(i).Settled? && OldestIsOwn(body, replies, newestFirst, out, i) {
        var oldest :| OldestIs(newestFirst, i, oldest)
          && Row(i, out.evaluations[i].value, oldest, body.objective)
             == Row(i, out.evaluations[i].value, replies(i).job, body.objective);
        OldestIsUnique(newestFirst, i, oldest);
      }
    }
  }

  /** On a first run every recorded job was submitted by the search itself, so that is enough. */
  lemma UncachedFirstRunIsRebuilt(
    r: real, body: Body, replies: nat -> Reply, byInput: map<nat, Job>)
    requires var out := Run(r, body, replies);
             forall i :: 0 <= i < |out.evaluations| ==>
               match replies(i)
               case Refused(_) => i !in byInput
               case Settled(job, _) => i in byInput && byInput[i] == job
    ensures var out := Run(r, body, replies);
            Replayed(r, body, NoAddress, byInput, Some(Remember(out))) == out
  {
    ReplayEqualsRun(r, body, replies, NoAddress, byInput, Some(Remember(Run(r, body, replies))));
  }

  /** Why a re-run needs content addresses: whatever else was recorded, a report whose oldest job
      for some row is another job than the re-run's is not the re-run's report. */
  lemma RerunIsShadowedByFirstRun(
    r: real, body: Body, first: Job, newestFirst: seq<(nat, Job)>, replies: nat -> Reply,
    remembered: Option<SearchStop>, i: nat)
    requires var out := Run(r, body, replies);
             i < |out.evaluations| && OldestIs(newestFirst, i, first)
             && (replies(i).Settled? ==> replies(i).job.id != first.id)
    ensures var out := Run(r, body, replies);
            Replayed(r, body, NoAddress, ByInput(newestFirst), remembered) != out
  {
    ReplayEqualsRun(r, body, replies, NoAddress, ByInput(newestFirst), remembered);
    OldestIsUnique(newestFirst, i, first);
    assert !AlikeAt(body, replies, NoAddress, ByInput(newestFirst), Run(r, body, replies), i);
  }

  /** The rows of a run are the points the method asks for, in order, graded with the answers. */
  lemma {:induction false} RowsAreThePoints(
    r: real, body: Body, replies: nat -> Reply, evaluations: seq<Evaluation>, answered: seq<real>)
    requires IsInvPhi(r) && ValidBody(body)
    requires |evaluations| == |answered| <= body.maxEvaluations
    requires forall i :: 0 <= i < |answered| ==>
               && evaluations[i].value == Points(r, body.lower, body.upper, answered)[i]
               && evaluations[i].objective == Some(answered[i])
    ensures var out := SearchFrom(r, body, replies, evaluations, answered);
            && |answered| <= |out.answered| <= |out.evaluations| <= |out.answered| + 1
            && (|out.evaluations| == |out.answered| <==> !out.stopped.Stalled?)
            && (forall i :: 0 <= i < |out.answered| ==>
                  && out.evaluations[i].value == Points(r, body.lower, body.upper, out.answered)[i]
                  && out.evaluations[i].objective == Some(out.answered[i]))
            && (out.stopped.Converged? ==> Ask(r, body, out.answered).None?)
            && (out.stopped.Budget? ==> |out.evaluations| == body.maxEvaluations)
    decreases body.maxEvaluations - |evaluations|
  {
    hide Walk, Known;
    var i := |evaluations|;
    var point := Ask(r, body, answered);
    if point.Some? && i < body.maxEvaluations && replies(i).Settled? {
      var row := Row(i, point.value, replies(i).job, body.objective);
      if row.objective.Some? {
        var longer := answered + [row.objective.value];
        UnstoppedWalksFreely(r, body.lower, body.upper, answered, body.tolerance);
        assert longer[..i] == answered;
        assert Points(r, body.lower, body.upper, longer)
            == Points(r, body.lower, body.upper, answered) + [point.value];
        RowsAreThePoints(r, body, replies, evaluations + [row], longer);
      }
    }
  }

  /** A converged run asked until the tolerance, and reports the first of its lowest points. */
  lemma ConvergedReport(r: real, body: Body, replies: nat -> Reply)
    requires IsInvPhi(r) && ValidBody(body) && Run(r, body, replies).stopped.Converged?
    ensures body.lower < body.upper && 0.0 < body.tolerance < 1.0
    ensures var answered := Run(r, body, replies).answered;
            && NextPoint(r, body.lower, body.upper, answered, body.tolerance).None?
            && |answered| >= 2
            && ReportOf(r, body, Run(r, body, replies)).best.Some?
            && ReportOf(r, body, Run(r, body, replies)).best.value.value
               == Points(r, body.lower, body.upper, answered)[FirstLowest(answered)]
  {
    hide SearchFrom, Walk, Known, Points, Best, FirstLowest, IsInvPhi, BracketOf;
    var out := Run(r, body, replies);
    RowsAreThePoints(r, body, replies, [], []);
    StopsExactlyAtTolerance(r, body.lower, body.upper, out.answered, body.tolerance);
    BestIsFirstLowest(out.evaluations, out.answered);
  }

  lemma GradedByMetric(r: real, body: Body, replies: nat -> Reply, g: real -> real)
    requires IsInvPhi(r) && ValidBody(body)
    requires var out := Run(r, body, replies);
             forall e :: e in out.evaluations ==> e.metric == Some(g(e.value))
    ensures Answers(Grade(body.objective, g), r, body.lower, body.upper, Run(r, body, replies).answered)
  {
    hide SearchFrom, Walk, Known, Points, IsInvPhi, Objective.AsMinimum;
    var out := Run(r, body, replies);
    RowsAreThePoints(r, body, replies, [], []);
    RowsKeepObjective(r, body, replies, [], []);
    var points := Points(r, body.lower, body.upper, out.answered);
    forall i | 0 <= i < |out.answered|
      ensures out.answered[i] == Grade(body.objective, g)(points[i])
    {
      assert out.evaluations[i] in out.evaluations;
    }
  }

  lemma {:induction false} RowsKeepObjective(
    r: real, body: Body, replies: nat -> Reply, evaluations: seq<Evaluation>, answered: seq<real>)
    requires |evaluations| <= body.maxEvaluations
    requires forall e :: e in evaluations && e.metric.Some?
                         ==> e.objective == Some(body.objective.AsMinimum(e.metric.value))
    ensures forall e :: e in SearchFrom(r, body, replies, evaluations, answered).evaluations && e.metric.Some?
                        ==> e.objective == Some(body.objective.AsMinimum(e.metric.value))
    decreases body.maxEvaluations - |evaluations|
  {
    hide Walk, Objective.AsMinimum;
    var i := |evaluations|;
    var point := Ask(r, body, answered);
    if point.Some? && i < body.maxEvaluations && replies(i).Settled? {
      var row := Row(i, point.value, replies(i).job, body.objective);
      if row.objective.Some? {
        RowsKeepObjective(r, body, replies, evaluations + [row], answered + [row.objective.value]);
      }
    }
  }

  lemma {:induction false} BestIsFirstLowest(evaluations: seq<Evaluation>, answered: seq<real>)
    requires |evaluations| == |answered| > 0
    requires forall i :: 0 <= i < |answered| ==> evaluations[i].objective == Some(answered[i])
    ensures Best(evaluations) == Some(evaluations[FirstLowest(answered)])
  {
    var n := |answered|;
    if n > 1 {
      BestIsFirstLowest(evaluations[..n - 1], answered[..n - 1]);
    }
  }

  // -------------------------------------------------------------------- from a search to a design

  /** A converged search whose graded metric is strictly unimodal has located its minimiser. */
  lemma ConvergedSearchLocates(r: real, body: Body, replies: nat -> Reply, g: real -> real, m: real)
    requires IsInvPhi(r) && ValidBody(body) && Run(r, body, replies).stopped.Converged?
    requires Unimodal(Grade(body.objective, g), body.lower, body.upper, m)
    requires forall e :: e in Run(r, body, replies).evaluations ==> e.metric == Some(g(e.value))
    ensures var report := ReportOf(r, body, Run(r, body, replies));
            && report.best.Some?
            && Abs(report.best.value.value - m) <= r * body.tolerance * (body.upper - body.lower)
  {
    hide *;
    var answered := Run(r, body, replies).answered;
    GradedByMetric(r, body, replies, g);
    ConvergedReport(r, body, replies);
    ConvergedLocatesMinimiser(Grade(body.objective, g), r, body.lower, body.upper, m, answered, body.tolerance);
  }

  /** Minimising a metric that falls strictly to `m` and rises after it, maximising one that rises
      strictly to `m` and falls after it, or hitting a value that a strictly monotone one takes at `m`:
      the reported best of a converged search is within `r * tolerance` of the range from `m`. */
  lemma ConvergedSearchFindsOptimum(r: real, body: Body, replies: nat -> Reply, g: real -> real, m: real)
    requires IsInvPhi(r) && ValidBody(body) && Run(r, body, replies).stopped.Converged?
    requires body.lower <= m <= body.upper
    requires match body.objective
             case Minimize => FallsOn(g, body.lower, m) && RisesOn(g, m, body.upper)
             case Maximize => RisesOn(g, body.lower, m) && FallsOn(g, m, body.upper)
             case Target(value) => g(m) == value && StrictlyMonotone(g, body.lower, body.upper)
    requires forall e :: e in Run(r, body, replies).evaluations ==> e.metric == Some(g(e.value))
    ensures var report := ReportOf(r, body, Run(r, body, replies));
            && report.best.Some?
            && Abs(report.best.value.value - m) <= r * body.tolerance * (body.upper - body.lower)
  {
    hide Run, ReportOf, Grade, FallsOn, RisesOn, IsInvPhi, Abs;
    UnimodalMetricIsGradedSo(g, body.lower, body.upper, m);
    if body.objective.Target? {
      MonotoneTargetIsUnimodal(g, body.lower, body.upper, m, body.objective.value);
    }
    ConvergedSearchLocates(r, body, replies, g, m);
  }

  /** End to end: a search for the parameter at which a strictly monotone metric takes a given
      value, if it reports `converged`, reports a best evaluation within `r * tolerance` of the
      range from that parameter. */
  lemma ConvergedSearchHitsTarget(
    r: real, body: Body, replies: nat -> Reply, g: real -> real, target: real, m: real)
    requires IsInvPhi(r) && ValidBody(body) && body.objective == Target(target)
    requires body.lower <= m <= body.upper && g(m) == target
    requires StrictlyMonotone(g, body.lower, body.upper)
    requires var out := Run(r, body, replies);
             && out.stopped.Converged?
             && forall e :: e in out.evaluations ==> e.metric == Some(g(e.value))
    ensures var report := ReportOf(r, body, Run(r, body, replies));
            && report.best.Some?
            && Abs(report.best.value.value - m) <= r * body.tolerance * (body.upper - body.lower)
  {
    hide Run, ReportOf, StrictlyMonotone, IsInvPhi, Abs;
    ConvergedSearchFindsOptimum(r, body, replies, g, m);
  }
}
