/** What a retention purge may remove: for each promise of the job store, the exact jobs that have
    to be spared while they are being solved, whatever the quotas. */
module Retention {
  import opened JobCache
  import opened Jobs
  import opened Wrappers

  // ---------------------------------------------------------------------------- composing runs

  lemma StepFirst(limits: Limits, purging: Purging, w: World, step: Step, rest: seq<Step>)
    requires Enabled(w, step) && Permitted(limits, purging, w, step)
    requires Legal(limits, purging, Apply(limits, w, step), rest)
    ensures Legal(limits, purging, w, [step] + rest)
    ensures After(limits, purging, w, [step] + rest) == After(limits, purging, Apply(limits, w, step), rest)
  {
    hide Enabled, Apply, Permitted;
    assert ([step] + rest)[1..] == rest;
  }

  lemma OneStep(limits: Limits, purging: Purging, w: World, step: Step)
    requires Enabled(w, step) && Permitted(limits, purging, w, step)
    ensures Legal(limits, purging, w, [step]) && After(limits, purging, w, [step]) == Apply(limits, w, step)
  {
    StepFirst(limits, purging, w, step, []);
    assert [step] + [] == [step];
  }

  lemma {:induction false} Joined(limits: Limits, purging: Purging, w: World, first: seq<Step>, second: seq<Step>)
    requires Legal(limits, purging, w, first)
    requires Legal(limits, purging, After(limits, purging, w, first), second)
    ensures Legal(limits, purging, w, first + second)
    ensures After(limits, purging, w, first + second)
            == After(limits, purging, After(limits, purging, w, first), second)
    decreases |first|
  {
    hide Enabled, Apply, Permitted;
    if first == [] {
      assert first + second == second;
    } else {
      Joined(limits, purging, Apply(limits, w, first[0]), first[1..], second);
      assert (first + second)[1..] == first[1..] + second;
    }
  }

  // ------------------------------------------------------------- emptying the store of the rest

  /** Policies that let go of every job that is not being solved. */
  predicate LetsGo(purging: Purging) {
    !purging.Never? && !purging.SparingCounted? && !purging.Lifetime?
  }

  /** `v` differs from `w` in nothing that concerns the stale solve `keep`. */
  ghost predicate Aside(w: World, v: World, keep: JobId) {
    && Named(v) && v.clock == w.clock && v.issued == w.issued
    && keep in w.solves && keep in v.solves && v.solves[keep] == w.solves[keep]
    && keep !in v.records
  }

  /** Solve `id` and no other moved on. */
  ghost predicate OnlyMoved(w: World, v: World, id: JobId) {
    && v.solves.Keys == w.solves.Keys && v.records.Keys == w.records.Keys
    && forall other :: other in w.solves && other != id ==> v.solves[other] == w.solves[other]
  }

  lemma StartMoves(limits: Limits, purging: Purging, w: World, id: JobId, keep: JobId)
    requires Aside(w, w, keep) && id in w.solves && id in w.records && w.solves[id].phase == Waiting
    ensures var v := Apply(limits, w, Start(id));
            Aside(w, v, keep) && OnlyMoved(w, v, id) && v.solves[id].phase == Solving
  {
    StepKeepsNamed(limits, w, Start(id));
    hide Named;
  }

  lemma FinishMoves(limits: Limits, purging: Purging, w: World, id: JobId, keep: JobId)
    requires Aside(w, w, keep) && id in w.solves && id in w.records && w.solves[id].phase == Solving
    ensures var v := Apply(limits, w, Finish(id, Done, 0));
            Aside(w, v, keep) && OnlyMoved(w, v, id) && v.solves[id].phase == Settled
  {
    StepKeepsNamed(limits, w, Finish(id, Done, 0));
    hide Named;
  }

  lemma SettleOne(limits: Limits, purging: Purging, w: World, id: JobId, keep: JobId) returns (steps: seq<Step>)
    requires Aside(w, w, keep) && id in w.solves && id in w.records
    ensures Legal(limits, purging, w, steps)
    ensures var v := After(limits, purging, w, steps);
            Aside(w, v, keep) && OnlyMoved(w, v, id) && v.solves[id].phase == Settled
  {
    hide Aside, OnlyMoved, Apply;
    match w.solves[id].phase
    case Settled =>
      steps := [];
      NothingMoved(w, id, keep);
    case Solving =>
      FinishMoves(limits, purging, w, id, keep);
      OneStep(limits, purging, w, Finish(id, Done, 0));
      steps := [Finish(id, Done, 0)];
    case Waiting =>
      StartMoves(limits, purging, w, id, keep);
      var v := Apply(limits, w, Start(id));
      StillAside(w, v, id, keep);
      FinishMoves(limits, purging, v, id, keep);
      OneStep(limits, purging, v, Finish(id, Done, 0));
      StepFirst(limits, purging, w, Start(id), [Finish(id, Done, 0)]);
      steps := [Start(id)] + [Finish(id, Done, 0)];
      BothMoved(w, v, Apply(limits, v, Finish(id, Done, 0)), id, keep);
  }

  lemma NothingMoved(w: World, id: JobId, keep: JobId)
    requires Aside(w, w, keep)
    ensures OnlyMoved(w, w, id)
  {
  }

  lemma StillAside(w: World, v: World, id: JobId, keep: JobId)
    requires Aside(w, v, keep) && OnlyMoved(w, v, id) && id in w.solves && id in w.records
    ensures Aside(v, v, keep) && id in v.solves && id in v.records
  {
  }

  lemma BothMoved(w: World, v: World, u: World, id: JobId, keep: JobId)
    requires Aside(w, v, keep) && OnlyMoved(w, v, id) && Aside(v, u, keep) && OnlyMoved(v, u, id)
    ensures Aside(w, u, keep) && OnlyMoved(w, u, id)
  {
  }

  /** Every stored solve is settled, one after the other. */
  lemma {:induction false} SettleAll(
    limits: Limits, purging: Purging, w: World, keep: JobId, pending: set<JobId>) returns (steps: seq<Step>)
    requires Aside(w, w, keep)
    requires forall id :: id in pending ==> id in w.solves && id in w.records
    requires forall id :: id in w.solves && id in w.records && id !in pending ==> w.solves[id].phase == Settled
    ensures Legal(limits, purging, w, steps)
    ensures var v := After(limits, purging, w, steps);
            Aside(w, v, keep)
            && forall id :: id in v.solves && id in v.records ==> v.solves[id].phase == Settled
    decreases |pending|
  {
    hide Legal, After, Named;
    if pending == {} {
      steps := [];
      NoSteps(limits, purging, w);
    } else {
      var id :| id in pending;
      var first := SettleOne(limits, purging, w, id, keep);
      var v := After(limits, purging, w, first);
      StillAside(w, v, id, keep);
      var rest := SettleAll(limits, purging, v, keep, pending - {id});
      Joined(limits, purging, w, first, rest);
      steps := first + rest;
    }
  }

  lemma NoSteps(limits: Limits, purging: Purging, w: World)
    ensures Legal(limits, purging, w, []) && After(limits, purging, w, []) == w
  {
  }

  lemma {:induction false} CutoffAbove(records: Records) returns (cutoff: int)
    ensures forall id :: id in records ==> records[id].createdAt < cutoff
    decreases |records|
  {
    if records == map[] {
      cutoff := 0;
    } else {
      var id :| id in records;
      var rest := CutoffAbove(records - {id});
      cutoff := if records[id].createdAt < rest then rest else records[id].createdAt + 1;
      assert forall x :: x in records ==> x == id || (x in records - {id} && (records - {id})[x] == records[x]);
    }
  }

  /** Whatever is stored beside a stale solve can be settled and purged, under any policy. */
  lemma EmptyOut(limits: Limits, purging: Purging, w: World, keep: JobId) returns (steps: seq<Step>)
    requires Named(w) && keep in w.solves && keep !in w.records && LetsGo(purging)
    ensures Legal(limits, purging, w, steps)
    ensures var v := After(limits, purging, w, steps); Aside(w, v, keep) && v.records == map[]
  {
    var settle := SettleAll(limits, purging, w, keep, set id | id in w.records && id in w.solves);
    var v := After(limits, purging, w, settle);
    hide Legal, After;
    var cutoff := CutoffAbove(v.records);
    PurgeAll(limits, purging, w, v, keep, cutoff);
    OneStep(limits, purging, v, Purge(cutoff));
    Joined(limits, purging, w, settle, [Purge(cutoff)]);
    steps := settle + [Purge(cutoff)];
  }

  lemma PurgeAll(limits: Limits, purging: Purging, w: World, v: World, keep: JobId, cutoff: int)
    requires Aside(w, v, keep) && LetsGo(purging)
    requires forall id :: id in v.solves && id in v.records ==> v.solves[id].phase == Settled
    requires forall id :: id in v.records ==> v.records[id].createdAt < cutoff
    ensures Permitted(limits, purging, v, Purge(cutoff))
    ensures var u := Apply(limits, v, Purge(cutoff)); Aside(w, u, keep) && u.records == map[]
  {
    StepKeepsNamed(limits, v, Purge(cutoff));
    hide Named;
  }

  // -------------------------------------------------------------------- the stale solve comes back

  lemma {:induction false} Bound(ids: set<JobId>) returns (bound: JobId)
    ensures forall id :: id in ids ==> id < bound
    decreases |ids|
  {
    if ids == {} {
      bound := 0;
    } else {
      var id :| id in ids;
      var rest := Bound(ids - {id});
      bound := if id < rest then rest else id + 1;
      assert forall x :: x in ids ==> x == id || x in ids - {id};
    }
  }

  /** What a stale solve does next: it writes its record back, into a store that has lost it. */
  function NextWrite(solve: Solve): Step {
    if solve.phase == Waiting then Start(solve.record.id) else Finish(solve.record.id, Done, 0)
  }

  function Written(solve: Solve): JobRecord {
    if solve.phase == Waiting then Started(solve).record else Ended(solve, Done, 0).record
  }

  lemma WritesBack(limits: Limits, purging: Purging, w: World, keep: JobId)
    requires Named(w) && keep in w.solves && keep !in w.records && w.solves[keep].phase != Settled
    ensures var step := NextWrite(w.solves[keep]);
            && Enabled(w, step) && Permitted(limits, purging, w, step)
            && Apply(limits, w, step).records == w.records[keep := Written(w.solves[keep])]
            && Apply(limits, w, step).clock == w.clock
  {
  }

  lemma EmptyAdmits(quotas: Quotas, owner: Owner, now: int)
    ensures Admits(quotas, map[], owner, now)
  {
    TotalOfNothing(ActiveJobs(owner));
    TotalOfNothing(JobsSince(owner, now - HOUR));
    TotalOfNothing(ArtifactBytes(owner));
  }

  lemma TickEffect(limits: Limits, purging: Purging, w: World, now: int)
    requires Named(w) && now >= w.clock
    ensures Enabled(w, Tick(now)) && Permitted(limits, purging, w, Tick(now))
    ensures Named(Apply(limits, w, Tick(now))) && Apply(limits, w, Tick(now)) == w.(clock := now)
  {
    StepKeepsNamed(limits, w, Tick(now));
    hide Named;
  }

  /** An unkeyed or unanswered submission that the quotas admit. */
  lemma SubmitEffect(limits: Limits, purging: Purging, w: World, id: JobId,
                     owner: Owner, key: Option<CacheKey>, now: int)
    requires Named(w) && id !in w.issued && now >= w.clock && Admits(limits(owner), w.records, owner, now)
    requires key.Some? ==> IsLookup(w.records, key.value, owner, None)
    ensures var step := Submit(id, owner, key, None, now);
            && Enabled(w, step) && Permitted(limits, purging, w, step)
            && var v := Apply(limits, w, step);
               && Named(v) && v.clock == now && v.records == w.records[id := NewJob(id, owner, key, now)]
               && v.solves == w.solves[id := Solve(NewJob(id, owner, key, now), Waiting)] && v.purged == w.purged
  {
    StepKeepsNamed(limits, w, Submit(id, owner, key, None, now));
    hide Named;
    assert id !in w.records by {
      FreshIsAbsent(w, id);
    }
  }

  lemma FreshIsAbsent(w: World, id: JobId)
    requires Named(w) && id !in w.issued
    ensures id !in w.records && id !in w.solves
  {
  }

  // -------------------------------------------------------------- two reusable jobs for one key

  /** Once a keyed job is purged while it is solved, the store can be emptied beside it, an
      identical submission starts a second job whatever the quotas, and the first one comes back. */
  lemma PurgedSolveComesBack(limits: Limits, purging: Purging, w: World, keep: JobId) returns (steps: seq<Step>)
    requires Named(w) && LetsGo(purging) && keep in w.solves && keep !in w.records
    requires w.solves[keep].phase != Settled && w.solves[keep].record.cacheKey.Some?
    ensures Legal(limits, purging, w, steps) && !OneReusable(After(limits, purging, w, steps).records)
  {
    var solve := w.solves[keep];
    var owner, key := solve.record.owner, solve.record.cacheKey;
    var empty := EmptyOut(limits, purging, w, keep);
    var v := After(limits, purging, w, empty);
    var next := Bound(v.issued);
    EmptyAdmits(limits(owner), owner, v.clock);
    SubmitEffect(limits, purging, v, next, owner, key, v.clock);
    var submit := Submit(next, owner, key, None, v.clock);
    var u := Apply(limits, v, submit);
    assert keep != next && keep !in u.records && u.solves[keep] == solve;
    WritesBack(limits, purging, u, keep);
    var both := Apply(limits, u, NextWrite(solve));
    assert Reusable(both.records[next], owner, key.value) && Reusable(both.records[keep], owner, key.value);
    hide Legal, After, Apply, Named;
    OneStep(limits, purging, u, NextWrite(solve));
    StepFirst(limits, purging, v, submit, [NextWrite(solve)]);
    Joined(limits, purging, w, empty, [submit] + [NextWrite(solve)]);
    steps := empty + ([submit] + [NextWrite(solve)]);
  }

  // ----------------------------------------------------------------- one active job too many

  lemma {:induction false} NothingCounts(measure: Measure, records: Records)
    requires forall id :: id in records ==> Weigh(measure, records[id]) == 0
    ensures Total(measure, records) == 0
    decreases |records|
  {
    if records != map[] {
      var id :| id in records;
      TotalWithout(measure, records, id);
      NothingCounts(measure, records - {id});
    }
  }

  /** A store of `n` active jobs of one owner, none started, and none of which counts in a later hour. */
  ghost predicate Filled(w: World, keep: JobId, owner: Owner, n: nat) {
    && Named(w) && keep in w.solves && keep !in w.records
    && Total(ActiveJobs(owner), w.records) == n
    && forall id :: id in w.records ==>
         && w.records[id].createdAt <= w.clock && w.records[id].artifactBytes == 0
         && id in w.solves && w.solves[id].phase == Waiting
  }

  /** An hour later only the concurrency quota counts. */
  lemma FilledHasRoom(quotas: Quotas, w: World, keep: JobId, owner: Owner, n: nat)
    requires Filled(w, keep, owner, n) && n < quotas.concurrentJobs
    ensures Admits(quotas, w.records, owner, w.clock + HOUR + 1)
  {
    NothingCounts(JobsSince(owner, w.clock + 1), w.records);
    NothingCounts(ArtifactBytes(owner), w.records);
    hide Total, Named;
  }

  lemma FilledMore(w: World, v: World, keep: JobId, owner: Owner, n: nat, job: JobRecord)
    requires Filled(w, keep, owner, n) && Named(v) && v.clock >= w.clock
    requires job.id !in w.records && job.id != keep
    requires job == NewJob(job.id, owner, None, v.clock)
    requires v.records == w.records[job.id := job] && v.solves == w.solves[job.id := Solve(job, Waiting)]
    ensures Filled(v, keep, owner, n + 1)
  {
    TotalUpdated(ActiveJobs(owner), w.records, job);
    hide Total, Named;
  }

  /** An unkeyed submission an hour later is admitted as long as the concurrency quota has room. */
  lemma FillOne(limits: Limits, purging: Purging, w: World, keep: JobId, owner: Owner, n: nat)
    returns (step: Step)
    requires Filled(w, keep, owner, n) && n < limits(owner).concurrentJobs
    ensures Enabled(w, step) && Permitted(limits, purging, w, step)
    ensures var v := Apply(limits, w, step); Filled(v, keep, owner, n + 1) && v.solves[keep] == w.solves[keep]
  {
    var next := Bound(w.issued);
    var now := w.clock + HOUR + 1;
    FreshIsAbsent(w, next);
    FilledHasRoom(limits(owner), w, keep, owner, n);
    assert Named(w) && keep in w.solves;
    hide Total, Named, Filled, Apply, Enabled, Permitted, Admits;
    step := Submit(next, owner, None, None, now);
    SubmitEffect(limits, purging, w, next, owner, None, now);
    FilledMore(w, Apply(limits, w, step), keep, owner, n, NewJob(next, owner, None, now));
  }

  lemma {:induction false} FillUp(limits: Limits, purging: Purging, w: World, keep: JobId, owner: Owner, n: nat)
    returns (steps: seq<Step>)
    requires Filled(w, keep, owner, n) && n <= limits(owner).concurrentJobs
    ensures Legal(limits, purging, w, steps)
    ensures var v := After(limits, purging, w, steps);
            Filled(v, keep, owner, limits(owner).concurrentJobs) && v.solves[keep] == w.solves[keep]
    decreases limits(owner).concurrentJobs - n
  {
    hide Legal, After, Filled, Apply, Enabled, Permitted;
    if n == limits(owner).concurrentJobs {
      steps := [];
      NoSteps(limits, purging, w);
      assert keep in w.solves by {
        FilledHasIt(w, keep, owner, n);
      }
    } else {
      var step := FillOne(limits, purging, w, keep, owner, n);
      var rest := FillUp(limits, purging, Apply(limits, w, step), keep, owner, n + 1);
      StepFirst(limits, purging, w, step, rest);
      steps := [step] + rest;
    }
  }

  lemma FilledHasIt(w: World, keep: JobId, owner: Owner, n: nat)
    requires Filled(w, keep, owner, n)
    ensures keep in w.solves
  {
  }

  lemma LastToStart(limits: Limits, purging: Purging, w: World, keep: JobId, owner: Owner, n: nat)
    requires Filled(w, keep, owner, n) && w.solves[keep].record.owner == owner && w.solves[keep].phase == Waiting
    ensures Legal(limits, purging, w, [Start(keep)])
    ensures Total(ActiveJobs(owner), After(limits, purging, w, [Start(keep)]).records) == n + 1
  {
    WritesBack(limits, purging, w, keep);
    assert w.solves[keep].record.id == keep && NextWrite(w.solves[keep]) == Start(keep);
    TotalUpdated(ActiveJobs(owner), w.records, Written(w.solves[keep]));
    hide Legal, After, Apply, Total, Named;
    OneStep(limits, purging, w, Start(keep));
  }

  /** Once a job not yet started is purged, its owner can be brought to the concurrency quota
      without it, and then it starts. */
  lemma PurgedStartOutrunsConcurrency(limits: Limits, purging: Purging, w: World, keep: JobId)
    returns (steps: seq<Step>)
    requires Named(w) && LetsGo(purging) && keep in w.solves && keep !in w.records
    requires w.solves[keep].phase == Waiting && limits(w.solves[keep].record.owner).concurrentJobs != 0
    ensures Legal(limits, purging, w, steps)
    ensures var owner := w.solves[keep].record.owner;
            Total(ActiveJobs(owner), After(limits, purging, w, steps).records) == limits(owner).concurrentJobs + 1
  {
    var owner := w.solves[keep].record.owner;
    var empty := EmptyOut(limits, purging, w, keep);
    var v := After(limits, purging, w, empty);
    TotalOfNothing(ActiveJobs(owner));
    assert Filled(v, keep, owner, 0);
    var fill := FillUp(limits, purging, v, keep, owner, 0);
    var u := After(limits, purging, v, fill);
    hide Legal, After, Apply, Total, Filled, Named;
    LastToStart(limits, purging, u, keep, owner, limits(owner).concurrentJobs);
    Joined(limits, purging, v, fill, [Start(keep)]);
    Joined(limits, purging, w, empty, fill + [Start(keep)]);
    steps := empty + (fill + [Start(keep)]);
  }

  // ------------------------------------------------------------------ one job too many an hour

  /** A store of `n` finished jobs of one owner within the hour. */
  ghost predicate Spent(w: World, keep: JobId, owner: Owner, clock: int, n: nat) {
    && Named(w) && keep in w.solves && keep !in w.records && w.clock == clock
    && Total(JobsSince(owner, clock - HOUR), w.records) == n
    && forall id :: id in w.records ==> !Active(w.records[id]) && w.records[id].artifactBytes == 0
  }

  /** A write of a stored solve puts its record and its phase in place. */
  lemma WriteEffect(w: World, id: JobId, next: Solve)
    requires Named(w) && id in w.solves && id in w.records && next.record.id == id
    requires w.records[id].cacheKey == next.record.cacheKey && w.records[id].reused == next.record.reused
    ensures var v := AfterWrite(w, id, next.record, next.phase);
            && v.records == w.records[id := next.record] && v.solves == w.solves[id := next]
            && v.clock == w.clock && v.purged == w.purged
  {
  }

  /** A job just submitted starts and finishes; nothing else changes. */
  lemma RunFresh(limits: Limits, purging: Purging, w: World, job: JobRecord) returns (steps: seq<Step>)
    requires Named(w) && job.id in w.solves && w.solves[job.id] == Solve(job, Waiting)
    requires job.id in w.records && w.records[job.id] == job && job.artifactBytes == 0
    ensures Legal(limits, purging, w, steps)
    ensures var v := After(limits, purging, w, steps);
            && Named(v) && v.clock == w.clock && v.records == w.records[job.id := job.(status := Done)]
            && v.solves == w.solves[job.id := Solve(job.(status := Done), Settled)] && v.purged == w.purged
  {
    var id := job.id;
    var start, finish := Start(id), Finish(id, Done, 0);
    var v := Apply(limits, w, start);
    var u := Apply(limits, v, finish);
    StepKeepsNamed(limits, w, start);
    StepKeepsNamed(limits, v, finish);
    WriteEffect(w, id, Started(w.solves[id]));
    WriteEffect(v, id, Ended(v.solves[id], Done, 0));
    hide Legal, After, Named, AfterWrite;
    assert v.records[id := job.(status := Done)] == w.records[id := job.(status := Done)];
    assert v.solves[id := Solve(job.(status := Done), Settled)] == w.solves[id := Solve(job.(status := Done), Settled)];
    OneStep(limits, purging, v, finish);
    StepFirst(limits, purging, w, start, [finish]);
    steps := [start] + [finish];
  }

  lemma SpentHasRoom(quotas: Quotas, w: World, keep: JobId, owner: Owner, n: nat)
    requires Spent(w, keep, owner, w.clock, n) && n < quotas.jobsPerHour
    ensures Admits(quotas, w.records, owner, w.clock)
  {
    NothingCounts(ActiveJobs(owner), w.records);
    NothingCounts(ArtifactBytes(owner), w.records);
  }

  lemma SpentMore(w: World, v: World, keep: JobId, owner: Owner, n: nat, done: JobRecord)
    requires Spent(w, keep, owner, w.clock, n) && Named(v) && v.clock == w.clock
    requires done.id !in w.records && done.id != keep && keep in v.solves
    requires done.owner == owner && done.createdAt == w.clock && !Active(done) && done.artifactBytes == 0
    requires v.records == w.records[done.id := done]
    ensures Spent(v, keep, owner, w.clock, n + 1)
  {
    TotalUpdated(JobsSince(owner, w.clock - HOUR), w.records, done);
    hide Total, Named;
  }

  lemma SpentIsNamed(w: World, keep: JobId, owner: Owner, clock: int, n: nat)
    requires Spent(w, keep, owner, clock, n)
    ensures Named(w) && keep in w.solves && keep in w.issued
  {
  }

  lemma SpendOne(limits: Limits, purging: Purging, w: World, keep: JobId, owner: Owner, n: nat)
    returns (steps: seq<Step>)
    requires Spent(w, keep, owner, w.clock, n) && n < limits(owner).jobsPerHour
    ensures Legal(limits, purging, w, steps)
    ensures var v := After(limits, purging, w, steps);
            Spent(v, keep, owner, w.clock, n + 1) && v.solves[keep] == w.solves[keep] && v.purged == w.purged
  {
    hide *;
    var next := Bound(w.issued);
    var job := NewJob(next, owner, None, w.clock);
    SpentIsNamed(w, keep, owner, w.clock, n);
    FreshIsAbsent(w, next);
    SpentHasRoom(limits(owner), w, keep, owner, n);
    SubmitEffect(limits, purging, w, next, owner, None, w.clock);
    var submit := Submit(next, owner, None, None, w.clock);
    var v := Apply(limits, w, submit);
    FreshJob(next, owner, w.clock);
    var run := RunFresh(limits, purging, v, job);
    var u := After(limits, purging, v, run);
    assert u.records == w.records[next := job.(status := Done)];
    SpentMore(w, u, keep, owner, n, job.(status := Done));
    StepFirst(limits, purging, w, submit, run);
    steps := [submit] + run;
  }

  lemma FreshJob(id: JobId, owner: Owner, now: int)
    ensures var job := NewJob(id, owner, None, now);
            && job.id == id && job.owner == owner && job.createdAt == now && job.artifactBytes == 0
            && !Active(job.(status := Done))
  {
  }

  lemma {:induction false} SpendAll(limits: Limits, purging: Purging, w: World, keep: JobId, owner: Owner, n: nat)
    returns (steps: seq<Step>)
    requires Spent(w, keep, owner, w.clock, n) && n <= limits(owner).jobsPerHour
    ensures Legal(limits, purging, w, steps)
    ensures var v := After(limits, purging, w, steps);
            && Spent(v, keep, owner, w.clock, limits(owner).jobsPerHour)
            && v.solves[keep] == w.solves[keep] && v.purged == w.purged
    decreases limits(owner).jobsPerHour - n
  {
    assert keep in w.solves;
    hide Legal, After, Total, Named;
    if n == limits(owner).jobsPerHour {
      steps := [];
      NoSteps(limits, purging, w);
    } else {
      var first := SpendOne(limits, purging, w, keep, owner, n);
      var v := After(limits, purging, w, first);
      var rest := SpendAll(limits, purging, v, keep, owner, n + 1);
      Joined(limits, purging, w, first, rest);
      steps := first + rest;
    }
  }

  lemma LastOfTheHour(limits: Limits, purging: Purging, w: World, keep: JobId, owner: Owner, n: nat)
    requires Spent(w, keep, owner, w.clock, n) && w.solves[keep].record.owner == owner
    requires w.solves[keep].phase != Settled && w.solves[keep].record.createdAt >= w.clock - HOUR
    ensures Legal(limits, purging, w, [NextWrite(w.solves[keep])])
    ensures var v := After(limits, purging, w, [NextWrite(w.solves[keep])]);
            v.clock == w.clock && Total(JobsSince(owner, v.clock - HOUR), v.records) == n + 1
  {
    WritesBack(limits, purging, w, keep);
    assert Written(w.solves[keep]).id == keep;
    TotalUpdated(JobsSince(owner, w.clock - HOUR), w.records, Written(w.solves[keep]));
    hide Legal, After, Apply, Total, Named;
    OneStep(limits, purging, w, NextWrite(w.solves[keep]));
  }

  /** From an empty store the hour's quota can be spent beside the stale solve, which then writes. */
  lemma SpendThenLast(limits: Limits, purging: Purging, w: World, keep: JobId, owner: Owner)
    returns (steps: seq<Step>)
    requires Spent(w, keep, owner, w.clock, 0) && w.solves[keep].record.owner == owner
    requires w.solves[keep].phase != Settled && w.solves[keep].record.createdAt >= w.clock - HOUR
    ensures Legal(limits, purging, w, steps)
    ensures var v := After(limits, purging, w, steps);
            Total(JobsSince(owner, v.clock - HOUR), v.records) == limits(owner).jobsPerHour + 1
  {
    hide Legal, After, Total, Spent;
    var spend := SpendAll(limits, purging, w, keep, owner, 0);
    var u := After(limits, purging, w, spend);
    SpentIsNow(u, keep, owner, w.clock, limits(owner).jobsPerHour);
    LastOfTheHour(limits, purging, u, keep, owner, limits(owner).jobsPerHour);
    var last := [NextWrite(u.solves[keep])];
    Joined(limits, purging, w, spend, last);
    steps := spend + last;
  }

  /** Once a job of the last hour is purged while it is solved, its owner can spend the hour's
      quota without it, and then it comes back. */
  lemma PurgedSolveOutrunsTheHour(limits: Limits, purging: Purging, w: World, keep: JobId)
    returns (steps: seq<Step>)
    requires Named(w) && LetsGo(purging) && keep in w.solves && keep !in w.records
    requires Matters(limits, SparingRecent, w.clock, w.solves[keep])
    ensures Legal(limits, purging, w, steps)
    ensures var owner, v := w.solves[keep].record.owner, After(limits, purging, w, steps);
            Total(JobsSince(owner, v.clock - HOUR), v.records) == limits(owner).jobsPerHour + 1
  {
    hide *;
    var solve := w.solves[keep];
    RecentMatters(limits, w.clock, solve);
    var empty := EmptyOut(limits, purging, w, keep);
    var v := After(limits, purging, w, empty);
    EmptyIsSpent(w, v, keep, solve.record.owner);
    var rest := SpendThenLast(limits, purging, v, keep, solve.record.owner);
    Joined(limits, purging, w, empty, rest);
    steps := empty + rest;
  }

  lemma RecentMatters(limits: Limits, clock: int, solve: Solve)
    requires Matters(limits, SparingRecent, clock, solve)
    ensures solve.phase != Settled && solve.record.createdAt >= clock - HOUR
  {
  }

  lemma EmptyIsSpent(w: World, v: World, keep: JobId, owner: Owner)
    requires Aside(w, v, keep) && v.records == map[]
    ensures Spent(v, keep, owner, v.clock, 0) && v.clock == w.clock
    ensures keep in v.solves && keep in w.solves && v.solves[keep] == w.solves[keep]
  {
    TotalOfNothing(JobsSince(owner, v.clock - HOUR));
  }

  lemma SpentIsNow(w: World, keep: JobId, owner: Owner, clock: int, n: nat)
    requires Spent(w, keep, owner, clock, n)
    ensures w.clock == clock && keep in w.solves
  {
  }

  // ------------------------------------------------------------------------ the exact conditions

  /** Whatever follows under a policy, what the policy is for holds. */
  ghost predicate Keeps(limits: Limits, purging: Purging, w: World) {
    forall steps :: Legal(limits, purging, w, steps) ==> Promise(limits, purging, After(limits, purging, w, steps))
  }

  lemma SparingIsEnough(limits: Limits, purging: Purging, w: World, cutoff: int)
    requires Reachable(limits, purging, w) && LetsGo(purging) && Spares(limits, purging, w, cutoff)
    ensures Keeps(limits, purging, Apply(limits, w, Purge(cutoff)))
  {
    hide Reachable, Legal, After;
    ReachableInv(limits, purging, w);
    StepKeepsInv(limits, purging, w, Purge(cutoff));
    var v := Apply(limits, w, Purge(cutoff));
    forall steps | Legal(limits, purging, v, steps)
      ensures Promise(limits, purging, After(limits, purging, v, steps))
    {
      RunKeepsInv(limits, purging, v, steps);
    }
  }

  /** A job the purge failed to spare is a stale solve afterwards. */
  lemma NotSpared(limits: Limits, purging: Purging, w: World, cutoff: int) returns (keep: JobId)
    requires Reachable(limits, purging, w) && LetsGo(purging) && !Spares(limits, purging, w, cutoff)
    ensures var v := Apply(limits, w, Purge(cutoff));
            && Named(v) && v.clock == w.clock && keep in v.solves && keep !in v.records
            && Matters(limits, purging, v.clock, v.solves[keep])
  {
    hide Reachable;
    ReachableInv(limits, purging, w);
    StepKeepsNamed(limits, w, Purge(cutoff));
    keep :| keep in Expired(w.records, cutoff) && keep in w.solves
      && Matters(limits, purging, w.clock, w.solves[keep]);
  }

  /** In every reachable state and under any quotas: after a purge there is at most one reusable job
      for each owner and key, whatever follows, if and only if it removed no keyed job that was
      still being solved. */
  lemma PurgeKeepsOneReusableExactly(limits: Limits, w: World, cutoff: int)
    requires Reachable(limits, SparingKeyed, w)
    ensures Keeps(limits, SparingKeyed, Apply(limits, w, Purge(cutoff)))
            <==> Spares(limits, SparingKeyed, w, cutoff)
  {
    hide Reachable, Legal, After, Named, Spares, Apply;
    if Spares(limits, SparingKeyed, w, cutoff) {
      SparingIsEnough(limits, SparingKeyed, w, cutoff);
    } else {
      var keep := NotSpared(limits, SparingKeyed, w, cutoff);
      var steps := PurgedSolveComesBack(limits, SparingKeyed, Apply(limits, w, Purge(cutoff)), keep);
    }
  }

  /** Likewise no owner ever has more active records than its concurrency quota if and only if the
      purge removed no job that had not started and whose owner has such a quota. */
  lemma PurgeKeepsConcurrencyExactly(limits: Limits, w: World, cutoff: int)
    requires Reachable(limits, SparingWaiting, w)
    ensures Keeps(limits, SparingWaiting, Apply(limits, w, Purge(cutoff)))
            <==> Spares(limits, SparingWaiting, w, cutoff)
  {
    hide Reachable, Legal, After, Named, Spares, Apply;
    if Spares(limits, SparingWaiting, w, cutoff) {
      SparingIsEnough(limits, SparingWaiting, w, cutoff);
    } else {
      var keep := NotSpared(limits, SparingWaiting, w, cutoff);
      var steps := PurgedStartOutrunsConcurrency(limits, SparingWaiting, Apply(limits, w, Purge(cutoff)), keep);
    }
  }

  /** And none has more records of the last hour than its hourly quota if and only if it removed no
      job of the last hour that was still being solved and whose owner has such a quota. */
  lemma PurgeKeepsHourlyExactly(limits: Limits, w: World, cutoff: int)
    requires Reachable(limits, SparingRecent, w)
    ensures Keeps(limits, SparingRecent, Apply(limits, w, Purge(cutoff)))
            <==> Spares(limits, SparingRecent, w, cutoff)
  {
    hide Reachable, Legal, After, Named, Spares, Apply;
    if Spares(limits, SparingRecent, w, cutoff) {
      SparingIsEnough(limits, SparingRecent, w, cutoff);
    } else {
      var keep := NotSpared(limits, SparingRecent, w, cutoff);
      var steps := PurgedSolveOutrunsTheHour(limits, SparingRecent, Apply(limits, w, Purge(cutoff)), keep);
    }
  }

  /** So one submission and a retention shorter than the wait to start are enough: two active jobs
      under a quota of one. */
  lemma PurgeOfASolveOutrunsTheQuota()
    ensures exists steps, limits: Limits ::
              && limits("alice").concurrentJobs == 1
              && Legal(limits, Unrestricted, Empty, steps)
              && Total(ActiveJobs("alice"), After(limits, Unrestricted, Empty, steps).records) == 2
  {
    var limits: Limits := (owner: Owner) => Quotas(1, 0, 0);
    EmptyInv(limits, Unrestricted);
    EmptyAdmits(limits("alice"), "alice", 0);
    SubmitEffect(limits, Unrestricted, Empty, 1, "alice", None, 0);
    var submit := Submit(1, "alice", None, None, 0);
    var v := Apply(limits, Empty, submit);
    PurgeEffect(limits, v, 1);
    var u := Apply(limits, v, Purge(1));
    hide Legal, After, Apply, Total, Named, Enabled, Permitted;
    var rest := PurgedStartOutrunsConcurrency(limits, Unrestricted, u, 1);
    StepFirst(limits, Unrestricted, v, Purge(1), rest);
    StepFirst(limits, Unrestricted, Empty, submit, [Purge(1)] + rest);
  }

  lemma PurgeEffect(limits: Limits, w: World, cutoff: int)
    requires Named(w)
    ensures Enabled(w, Purge(cutoff)) && Permitted(limits, Unrestricted, w, Purge(cutoff))
    ensures var v := Apply(limits, w, Purge(cutoff));
            Named(v) && v.solves == w.solves && v.clock == w.clock && v.records == Kept(w.records, cutoff)
  {
    StepKeepsNamed(limits, w, Purge(cutoff));
    hide Named;
  }
}
