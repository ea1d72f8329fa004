/** The quotas measured on the jobs themselves and not on what the store still counts: the solves in
    progress, and the jobs accepted in the last hour whether or not they are still stored. */
module QuotasInForce {
  import opened JobCache
  import opened Jobs
  import opened Retention
  import opened Wrappers

  // -------------------------------------------------------------------------- what is measured

  function Copies(solves: map<JobId, Solve>): Records {
    map id | id in solves :: solves[id].record
  }

  /** How many of an owner's solves have not ended: a copy is active until its solve ends. */
  ghost function InProgress(owner: Owner, w: World): nat {
    Total(ActiveJobs(owner), Copies(w.solves))
  }

  /** How many of an owner's jobs were accepted in the last hour, each counted once. */
  ghost function AcceptedInTheHour(owner: Owner, w: World): nat {
    Total(JobsSince(owner, w.clock - HOUR), w.purged + w.records)
  }

  ghost predicate AllRemembered(w: World) {
    forall id :: id in w.issued <==> id in w.purged || id in w.records
  }

  lemma StepKeepsRemembered(limits: Limits, w: World, step: Step)
    requires Named(w) && AllRemembered(w) && Enabled(w, step)
    ensures AllRemembered(Apply(limits, w, step))
  {
    hide Admits, IsLookup;
  }

  /** Whatever is purged: a job was accepted if and only if it is stored or was purged, so the
      measure above leaves no job out. */
  lemma {:induction false} RunKeepsRemembered(limits: Limits, purging: Purging, w: World, steps: seq<Step>)
    requires Named(w) && AllRemembered(w) && Legal(limits, purging, w, steps)
    ensures AllRemembered(After(limits, purging, w, steps))
    decreases |steps|
  {
    if steps != [] {
      hide Named, AllRemembered, Enabled, Apply, Permitted;
      StepKeepsNamed(limits, w, steps[0]);
      StepKeepsRemembered(limits, w, steps[0]);
      RunKeepsRemembered(limits, purging, Apply(limits, w, steps[0]), steps[1..]);
    }
  }

  /** What counts on the left counts as much on the right. */
  lemma {:induction false} TotalEmbeds(measure: Measure, part: Records, whole: Records)
    requires forall id :: id in part && Weigh(measure, part[id]) > 0 ==>
               id in whole && Weigh(measure, part[id]) <= Weigh(measure, whole[id])
    ensures Total(measure, part) <= Total(measure, whole)
    decreases |part|
  {
    hide Weigh;
    if part == map[] {
      TotalOfNothing(measure);
    } else {
      var id :| id in part;
      TotalWithout(measure, part, id);
      hide Total;
      if Weigh(measure, part[id]) == 0 {
        TotalEmbeds(measure, part - {id}, whole);
      } else {
        TotalWithout(measure, whole, id);
        TotalEmbeds(measure, part - {id}, whole - {id});
      }
    }
  }

  // ---------------------------------------------------------------------- solves in progress

  ghost predicate ProgressKept(limits: Limits, w: World) {
    forall owner :: limits(owner).concurrentJobs != 0 ==> InProgress(owner, w) <= limits(owner).concurrentJobs
  }

  /** Solves that are still stored are counted by the store. */
  lemma StoredSolvesAreCounted(limits: Limits, w: World, owner: Owner)
    requires Inv(limits, SparingOngoing, w) && limits(owner).concurrentJobs != 0
    ensures InProgress(owner, w) <= Total(ActiveJobs(owner), w.records)
  {
    var copies := Copies(w.solves);
    forall id | id in copies && Weigh(ActiveJobs(owner), copies[id]) > 0
      ensures id in w.records && Weigh(ActiveJobs(owner), copies[id]) <= Weigh(ActiveJobs(owner), w.records[id])
    {
      assert InPhase(w.solves[id]) && w.solves[id].phase != Settled;
      assert Matters(limits, SparingOngoing, w.clock, w.solves[id]);
      assert Echoes(w.records[id], w.solves[id].record);
    }
    hide Inv, Weigh, Total;
    TotalEmbeds(ActiveJobs(owner), copies, w.records);
  }

  lemma SparedSolvesStayWithin(limits: Limits, w: World)
    requires Inv(limits, SparingOngoing, w)
    ensures ProgressKept(limits, w)
  {
    forall owner | limits(owner).concurrentJobs != 0
      ensures InProgress(owner, w) <= limits(owner).concurrentJobs
    {
      StoredSolvesAreCounted(limits, w, owner);
      assert Total(ActiveJobs(owner), w.records) <= limits(owner).concurrentJobs;
    }
  }

  /** Beside the stale solve `keep`, the active jobs of a filled store are all in progress. */
  lemma FilledAndOneMore(w: World, keep: JobId, owner: Owner, n: nat)
    requires Filled(w, keep, owner, n)
    requires w.solves[keep].phase != Settled && w.solves[keep].record.owner == owner
    ensures InProgress(owner, w) >= n + 1
  {
    var stale := w.solves[keep].record;
    var part := w.records[keep := stale];
    var copies := Copies(w.solves);
    assert InPhase(w.solves[keep]) && stale.id == keep;
    TotalUpdated(ActiveJobs(owner), w.records, stale);
    forall id | id in part && Weigh(ActiveJobs(owner), part[id]) > 0
      ensures id in copies && Weigh(ActiveJobs(owner), part[id]) <= Weigh(ActiveJobs(owner), copies[id])
    {
      if id != keep {
        assert Echoes(w.records[id], w.solves[id].record);
      }
    }
    hide Named, Total, Weigh;
    TotalEmbeds(ActiveJobs(owner), part, copies);
  }

  /** Once a job is purged while it is solved, waiting or not, its owner can be brought to the
      concurrency quota without it: one solve more than the quota allows is then in progress. */
  lemma PurgedSolveOverlaps(limits: Limits, purging: Purging, w: World, keep: JobId) returns (steps: seq<Step>)
    requires Named(w) && LetsGo(purging) && keep in w.solves && keep !in w.records
    requires Matters(limits, SparingOngoing, w.clock, w.solves[keep])
    ensures Legal(limits, purging, w, steps)
    ensures var owner := w.solves[keep].record.owner;
            InProgress(owner, After(limits, purging, w, steps)) >= limits(owner).concurrentJobs + 1
  {
    var owner := w.solves[keep].record.owner;
    assert w.solves[keep].phase != Settled;
    var empty := EmptyOut(limits, purging, w, keep);
    var v := After(limits, purging, w, empty);
    TotalOfNothing(ActiveJobs(owner));
    assert Filled(v, keep, owner, 0);
    var fill := FillUp(limits, purging, v, keep, owner, 0);
    var u := After(limits, purging, v, fill);
    hide Legal, After, Apply, Total, Filled, Named, InProgress, Matters;
    FilledAndOneMore(u, keep, owner, limits(owner).concurrentJobs);
    Joined(limits, purging, w, empty, fill);
    steps := empty + fill;
  }

  /** Whatever follows under a policy, no owner has more solves in progress than its quota. */
  ghost predicate KeepsProgress(limits: Limits, purging: Purging, w: World) {
    forall steps :: Legal(limits, purging, w, steps) ==> ProgressKept(limits, After(limits, purging, w, steps))
  }

  /** In every reachable state and under any quotas: after a purge no owner ever has more solves in
      progress than its concurrency quota if and only if the purge removed no job still being solved,
      started or not, whose owner has such a quota. */
  lemma PurgeKeepsProgressExactly(limits: Limits, w: World, cutoff: int)
    requires Reachable(limits, SparingOngoing, w)
    ensures KeepsProgress(limits, SparingOngoing, Apply(limits, w, Purge(cutoff)))
            <==> Spares(limits, SparingOngoing, w, cutoff)
  {
    hide Reachable, Legal, After, Named, Spares, Apply, ProgressKept;
    var v := Apply(limits, w, Purge(cutoff));
    if Spares(limits, SparingOngoing, w, cutoff) {
      SparedKeepsProgress(limits, w, cutoff);
    } else {
      var keep := NotSpared(limits, SparingOngoing, w, cutoff);
      var steps := PurgedSolveOverlaps(limits, SparingOngoing, v, keep);
      NoLongerKept(limits, v.solves[keep], After(limits, SparingOngoing, v, steps));
    }
  }

  lemma NoLongerKept(limits: Limits, solve: Solve, w: World)
    requires limits(solve.record.owner).concurrentJobs != 0
    requires InProgress(solve.record.owner, w) >= limits(solve.record.owner).concurrentJobs + 1
    ensures !ProgressKept(limits, w)
  {
  }

  lemma SparedKeepsProgress(limits: Limits, w: World, cutoff: int)
    requires Reachable(limits, SparingOngoing, w) && Spares(limits, SparingOngoing, w, cutoff)
    ensures KeepsProgress(limits, SparingOngoing, Apply(limits, w, Purge(cutoff)))
  {
    hide Reachable, Legal, After, Inv, ProgressKept;
    ReachableInv(limits, SparingOngoing, w);
    StepKeepsInv(limits, SparingOngoing, w, Purge(cutoff));
    var v := Apply(limits, w, Purge(cutoff));
    forall steps | Legal(limits, SparingOngoing, v, steps)
      ensures ProgressKept(limits, After(limits, SparingOngoing, v, steps))
    {
      RunKeepsInv(limits, SparingOngoing, v, steps);
      SparedSolvesStayWithin(limits, After(limits, SparingOngoing, v, steps));
    }
  }

  // ------------------------------------------------------------------- jobs of the last hour

  lemma UnionOfOverlapping(measure: Measure, purged: Records, records: Records)
    requires forall id :: id in purged ==> Weigh(measure, purged[id]) == 0
    ensures Total(measure, purged + records) == Total(measure, records)
  {
    var gone := purged - records.Keys;
    assert purged + records == gone + records;
    TotalOfUnion(measure, gone, records);
    NothingCounts(measure, gone);
  }

  lemma SparedHourStaysWithin(limits: Limits, w: World, owner: Owner)
    requires Inv(limits, SparingCounted, w) && limits(owner).jobsPerHour != 0
    ensures AcceptedInTheHour(owner, w) <= limits(owner).jobsPerHour
  {
    hide Named, Held, Total;
    assert Total(JobsSince(owner, w.clock - HOUR), w.records) <= limits(owner).jobsPerHour;
    forall id | id in w.purged
      ensures Weigh(JobsSince(owner, w.clock - HOUR), w.purged[id]) == 0
    {
      assert !OfTheHour(limits, w.clock, w.purged[id]);
    }
    UnionOfOverlapping(JobsSince(owner, w.clock - HOUR), w.purged, w.records);
  }

  /** Each quota in force, over every run whose retention spares what that takes: jobs being solved
      for the solves in progress, jobs of the last hour for the jobs accepted in it. */
  lemma QuotasHoldOfTheJobs(limits: Limits, w: World, owner: Owner)
    ensures Reachable(limits, SparingOngoing, w) && limits(owner).concurrentJobs != 0 ==>
              InProgress(owner, w) <= limits(owner).concurrentJobs
    ensures Reachable(limits, SparingCounted, w) && limits(owner).jobsPerHour != 0 ==>
              AcceptedInTheHour(owner, w) <= limits(owner).jobsPerHour
  {
    hide Reachable, Inv, InProgress, AcceptedInTheHour;
    if Reachable(limits, SparingOngoing, w) {
      ReachableInv(limits, SparingOngoing, w);
      SparedSolvesStayWithin(limits, w);
    }
    if Reachable(limits, SparingCounted, w) && limits(owner).jobsPerHour != 0 {
      ReachableInv(limits, SparingCounted, w);
      SparedHourStaysWithin(limits, w, owner);
    }
  }

  lemma SettledRetentionReaches(limits: Limits, lax: Purging, w: World)
    requires Reachable(limits, SparingUnsettled, w)
    requires lax in {SparingKeyed, SparingWaiting, SparingOngoing, SparingRecent}
    ensures Inv(limits, lax, w)
  {
    hide Reachable, Inv;
    SparingUnsettledIsStrictest(limits, lax);
    LaxerReaches(limits, SparingUnsettled, lax, w);
    ReachableInv(limits, lax, w);
  }

  /** Retention that spares every job being solved keeps all of it but the bound on the jobs accepted
      in an hour: one reusable job for each key, both quotas as the store counts them, the solves in
      progress, and the accounts. */
  lemma SettledRetentionKeeps(limits: Limits, w: World)
    requires Reachable(limits, SparingUnsettled, w)
    ensures OneReusable(w.records) && ConcurrencyKept(limits, w.records) && HourlyKept(limits, w.records, w.clock)
    ensures ProgressKept(limits, w) && Accounted(w.accepted, w.records, w.purged)
  {
    hide Reachable, Named, Held, OneReusable, ConcurrencyKept, HourlyKept, ProgressKept, Accounted, Apart;
    SettledRetentionReaches(limits, SparingKeyed, w);
    SettledRetentionReaches(limits, SparingRecent, w);
    SettledRetentionReaches(limits, SparingOngoing, w);
    SparedSolvesStayWithin(limits, w);
    ReachableInv(limits, SparingUnsettled, w);
  }

  // ------------------------------------------------------------------------ one lifetime for all

  /** Retention as the server runs it: from time to time, with one lifetime for every job. */
  lemma LongLifeSparesTheHour(limits: Limits, ttl: nat, w: World, step: Step)
    requires Named(w) && Permitted(limits, Lifetime(ttl), w, step) && (ttl == 0 || ttl >= HOUR)
    ensures Permitted(limits, SparingCounted, w, step)
  {
    if step.Purge? {
      forall id | id in Expired(w.records, step.cutoff)
        ensures !OfTheHour(limits, w.clock, w.records[id])
        ensures id in w.solves ==> !OfTheHour(limits, w.clock, w.solves[id].record)
      {
        assert w.records[id].createdAt < w.clock - HOUR;
        assert id in w.solves ==> Echoes(w.records[id], w.solves[id].record);
      }
    }
  }

  lemma {:induction false} LongLifeRuns(limits: Limits, ttl: nat, w: World, steps: seq<Step>)
    requires Named(w) && Legal(limits, Lifetime(ttl), w, steps) && (ttl == 0 || ttl >= HOUR)
    ensures Legal(limits, SparingCounted, w, steps)
    ensures After(limits, SparingCounted, w, steps) == After(limits, Lifetime(ttl), w, steps)
    decreases |steps|
  {
    if steps != [] {
      hide Named, Enabled, Apply, Permitted;
      LongLifeSparesTheHour(limits, ttl, w, steps[0]);
      StepKeepsNamed(limits, w, steps[0]);
      LongLifeRuns(limits, ttl, Apply(limits, w, steps[0]), steps[1..]);
    }
  }

  lemma LongLifeReaches(limits: Limits, ttl: nat, w: World)
    requires Reachable(limits, Lifetime(ttl), w) && (ttl == 0 || ttl >= HOUR)
    ensures Reachable(limits, SparingCounted, w)
  {
    var steps :| Legal(limits, Lifetime(ttl), Empty, steps) && After(limits, Lifetime(ttl), Empty, steps) == w;
    LongLifeRuns(limits, ttl, Empty, steps);
  }

  /** A job done at time 0 outlives its lifetime and is purged within the hour. */
  lemma ExpiredWithinTheHour(limits: Limits, ttl: nat, owner: Owner) returns (steps: seq<Step>)
    requires 0 < ttl < HOUR
    ensures Legal(limits, Lifetime(ttl), Empty, steps)
    ensures var v, done := After(limits, Lifetime(ttl), Empty, steps), NewJob(0, owner, None, 0).(status := Done);
            && Named(v) && v.clock == ttl + 1 && v.records == map[] && v.purged == map[0 := done] && 0 in v.solves
  {
    var purging, job := Lifetime(ttl), NewJob(0, owner, None, 0);
    var submit := Submit(0, owner, None, None, 0);
    EmptyInv(limits, purging);
    EmptyAdmits(limits(owner), owner, 0);
    SubmitEffect(limits, purging, Empty, 0, owner, None, 0);
    var v := Apply(limits, Empty, submit);
    hide Legal, After, Named, Admits, Total;
    var run := RunFresh(limits, purging, v, job);
    var u := After(limits, purging, v, run);
    TickEffect(limits, purging, u, ttl + 1);
    var late := u.(clock := ttl + 1);
    assert u.records == map[0 := job.(status := Done)];
    LateToGo(limits, ttl, late, job.(status := Done));
    var last := [Tick(ttl + 1)] + [Purge(1)];
    hide Apply, Enabled, Permitted;
    OneStep(limits, purging, late, Purge(1));
    StepFirst(limits, purging, u, Tick(ttl + 1), [Purge(1)]);
    Joined(limits, purging, v, run, last);
    StepFirst(limits, purging, Empty, submit, run + last);
    steps := [submit] + (run + last);
  }

  lemma LateToGo(limits: Limits, ttl: nat, w: World, done: JobRecord)
    requires Named(w) && w.clock == ttl + 1 && ttl > 0 && w.purged == map[]
    requires w.records == map[0 := done] && done.createdAt == 0
    ensures Enabled(w, Purge(1)) && Permitted(limits, Lifetime(ttl), w, Purge(1))
    ensures var v := Apply(limits, w, Purge(1));
            && Named(v) && v.clock == w.clock && v.records == map[] && v.purged == map[0 := done]
            && v.solves == w.solves
  {
    StepKeepsNamed(limits, w, Purge(1));
    hide Named;
  }

  /** So the owner has the hour's quota once more: one job too many within the hour. */
  lemma ShortLifeOutrunsTheHour(limits: Limits, ttl: nat, owner: Owner) returns (w: World)
    requires 0 < ttl < HOUR
    ensures Reachable(limits, Lifetime(ttl), w) && AcceptedInTheHour(owner, w) == limits(owner).jobsPerHour + 1
  {
    var purging, done := Lifetime(ttl), NewJob(0, owner, None, 0).(status := Done);
    var first := ExpiredWithinTheHour(limits, ttl, owner);
    var v := After(limits, purging, Empty, first);
    TotalOfNothing(JobsSince(owner, v.clock - HOUR));
    assert Spent(v, 0, owner, v.clock, 0);
    hide Legal, After, Total, Named, Spent;
    var spend := SpendAll(limits, purging, v, 0, owner, 0);
    w := After(limits, purging, v, spend);
    Joined(limits, purging, Empty, first, spend);
    AndOnePurged(w, owner, v.clock, limits(owner).jobsPerHour, done);
  }

  lemma AndOnePurged(w: World, owner: Owner, clock: int, n: nat, done: JobRecord)
    requires Spent(w, 0, owner, clock, n) && w.purged == map[0 := done]
    requires done.id == 0 && done.owner == owner && done.createdAt >= clock - HOUR
    ensures AcceptedInTheHour(owner, w) == n + 1
  {
    TotalUpdated(JobsSince(owner, clock - HOUR), w.records, done);
    assert w.purged + w.records == w.records[0 := done];
    hide Total, Named;
  }

  /** With one lifetime for all jobs, an owner's hourly quota bounds the jobs accepted in every hour if
      and only if nothing expires within an hour: the lifetime is off or at least an hour. */
  lemma HourlyQuotaHoldsExactly(limits: Limits, ttl: nat, owner: Owner)
    requires limits(owner).jobsPerHour != 0
    ensures (forall w ::
              Reachable(limits, Lifetime(ttl), w) ==> AcceptedInTheHour(owner, w) <= limits(owner).jobsPerHour)
            <==> ttl == 0 || ttl >= HOUR
  {
    hide Reachable, AcceptedInTheHour;
    if ttl == 0 || ttl >= HOUR {
      forall w | Reachable(limits, Lifetime(ttl), w)
        ensures AcceptedInTheHour(owner, w) <= limits(owner).jobsPerHour
      {
        LongLifeReaches(limits, ttl, w);
        QuotasHoldOfTheJobs(limits, w, owner);
      }
    } else {
      var w := ShortLifeOutrunsTheHour(limits, ttl, owner);
    }
  }
}
