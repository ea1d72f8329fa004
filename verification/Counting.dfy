/** What the job store counts, as what it is counted for: how many jobs, how many bytes, and exactly
    when a submission is refused. */
module Counting {
  import opened JobCache
  import opened Jobs
  import opened Wrappers

  function Matching(records: Records, owner: Owner, wanted: JobRecord -> bool): set<JobId> {
    set id | id in records && records[id].owner == owner && wanted(records[id])
  }

  /** A measure that is one for what is wanted of an owner, and nothing for everything else, counts. */
  lemma {:induction false} TotalIsCount(measure: Measure, records: Records, owner: Owner, wanted: JobRecord -> bool)
    requires forall record :: Weigh(measure, record) == if record.owner == owner && wanted(record) then 1 else 0
    ensures Total(measure, records) == |Matching(records, owner, wanted)|
    decreases |records|
  {
    hide Weigh;
    if records == map[] {
      TotalOfNothing(measure);
      assert Matching(records, owner, wanted) == {};
    } else {
      var id :| id in records;
      var rest := records - {id};
      TotalWithout(measure, records, id);
      TotalIsCount(measure, rest, owner, wanted);
      hide Total, Matching;
      OneMoreMatch(records, id, owner, wanted);
    }
  }

  lemma OneMoreMatch(records: Records, id: JobId, owner: Owner, wanted: JobRecord -> bool)
    requires id in records
    ensures |Matching(records, owner, wanted)|
            == |Matching(records - {id}, owner, wanted)|
               + if records[id].owner == owner && wanted(records[id]) then 1 else 0
  {
    var before, after := Matching(records - {id}, owner, wanted), Matching(records, owner, wanted);
    assert id !in before;
    assert after == if records[id].owner == owner && wanted(records[id]) then before + {id} else before;
  }

  /** Active jobs are the owner's queued and running ones. */
  lemma ActiveJobsAreCounted(records: Records, owner: Owner)
    ensures Total(ActiveJobs(owner), records)
            == |set id | id in records && records[id].owner == owner && records[id].status in {Queued, Running}|
  {
    var wanted := (record: JobRecord) => record.status in {Queued, Running};
    TotalIsCount(ActiveJobs(owner), records, owner, wanted);
    assert Matching(records, owner, wanted)
        == set id | id in records && records[id].owner == owner && records[id].status in {Queued, Running};
  }

  /** Recent jobs are the owner's jobs submitted at that time or later. */
  lemma RecentJobsAreCounted(records: Records, owner: Owner, since: int)
    ensures Total(JobsSince(owner, since), records)
            == |set id | id in records && records[id].owner == owner && records[id].createdAt >= since|
  {
    var wanted := (record: JobRecord) => record.createdAt >= since;
    TotalIsCount(JobsSince(owner, since), records, owner, wanted);
    assert Matching(records, owner, wanted)
        == set id | id in records && records[id].owner == owner && records[id].createdAt >= since;
  }

  /** Bytes add up over the owner's jobs, and accepted submissions over those with the key, one for the
      job itself and one for each reuse. */
  lemma BytesAndUsesAddUp(records: Records, record: JobRecord, owner: Owner, key: CacheKey)
    requires record.id !in records
    ensures Total(ArtifactBytes(owner), map[]) == 0 && Total(Served(owner, key), map[]) == 0
    ensures Total(ArtifactBytes(owner), records[record.id := record])
            == Total(ArtifactBytes(owner), records) + if record.owner == owner then record.artifactBytes else 0
    ensures Total(Served(owner, key), records[record.id := record])
            == Total(Served(owner, key), records)
               + if record.owner == owner && record.cacheKey == Some(key) then 1 + record.reused else 0
  {
    TotalOfNothing(ArtifactBytes(owner));
    TotalOfNothing(Served(owner, key));
    TotalUpdated(ArtifactBytes(owner), records, record);
    TotalUpdated(Served(owner, key), records, record);
    hide Total;
  }

  /** A submission that hits nothing is refused if and only if one of the owner's quotas that are not
      zero is used up: as many active jobs, as many jobs in the last 3600 seconds, or as many bytes. */
  lemma RefusedExactly(quotas: Quotas, records: Records, owner: Owner, now: int)
    ensures !Admits(quotas, records, owner, now) <==>
            || (quotas.concurrentJobs > 0
                && |set id | id in records && records[id].owner == owner && records[id].status in {Queued, Running}|
                   >= quotas.concurrentJobs)
            || (quotas.jobsPerHour > 0
                && |set id | id in records && records[id].owner == owner && records[id].createdAt >= now - 3600|
                   >= quotas.jobsPerHour)
            || (quotas.artifactBytes > 0 && Total(ArtifactBytes(owner), records) >= quotas.artifactBytes)
  {
    ActiveJobsAreCounted(records, owner);
    RecentJobsAreCounted(records, owner, now - 3600);
    hide Total;
  }

  /** What a step of a solve that is still stored leaves in the store: its status, its bytes if it is
      done, and everything else as it was. */
  lemma SolveIsStored(limits: Limits, w: World, id: JobId, status: Status, bytes: nat)
    requires Named(w) && id in w.solves && id in w.records
    ensures Enabled(w, Start(id)) ==>
              Apply(limits, w, Start(id)).records == w.records[id := w.records[id].(status := Running)]
    ensures Enabled(w, Finish(id, status, bytes)) ==>
              Apply(limits, w, Finish(id, status, bytes)).records
              == w.records[id := w.records[id].(status := status,
                                                artifactBytes := if status == Done then bytes
                                                                 else w.records[id].artifactBytes)]
    ensures Enabled(w, Reconcile(id)) ==>
              Apply(limits, w, Reconcile(id)).records == w.records[id := w.records[id].(status := Failed)]
  {
  }

  /** From any world whose ids are names: a submission under an unused id that the quotas let in may be
      made, and its job then may start, finish in any of three ways and leave, having added one record
      that says so; a restart may come at any moment and takes every solve with it. */
  lemma LifeOfAJob(limits: Limits, w: World, id: JobId, owner: Owner, now: int, status: Status, bytes: nat)
    returns (waiting: World, solving: World, settled: World, left: World)
    requires id !in w.issued && id !in w.records && id !in w.solves && now >= w.clock
    requires Admits(limits(owner), w.records, owner, now) && status in {Done, Failed, Cancelled}
    ensures Enabled(w, Submit(id, owner, None, None, now))
    ensures waiting == Apply(limits, w, Submit(id, owner, None, None, now))
    ensures Enabled(waiting, Start(id)) && solving == Apply(limits, waiting, Start(id))
    ensures Enabled(solving, Finish(id, status, bytes)) && settled == Apply(limits, solving, Finish(id, status, bytes))
    ensures Enabled(settled, Leave(id)) && left == Apply(limits, settled, Leave(id))
    ensures var record := JobRecord(id, owner, None, status, now, 0, if status == Done then bytes else 0);
            left == w.(records := w.records[id := record], clock := now, issued := w.issued + {id})
    ensures Enabled(w, Restart) && Apply(limits, w, Restart) == w.(solves := map[])
  {
    hide Admits, PutInto, IsLookup, Kept, Expired, Total, AfterSubmit;
    SubmitAdds(limits, w, id, owner, now);
    var record := JobRecord(id, owner, None, Queued, now, 0, 0);
    waiting := Apply(limits, w, Submit(id, owner, None, None, now));
    assert waiting == w.(records := PutInto(w.records, record), solves := w.solves[id := Solve(record, Waiting)],
                         clock := now, issued := w.issued + {id});
    var started := record.(status := Running);
    solving := Apply(limits, waiting, Start(id));
    assert solving == waiting.(records := PutInto(waiting.records, started),
                               solves := waiting.solves[id := Solve(started, Solving)]);
    var ended := started.(status := status, artifactBytes := if status == Done then bytes else 0);
    settled := Apply(limits, solving, Finish(id, status, bytes));
    assert settled == solving.(records := PutInto(solving.records, ended),
                               solves := solving.solves[id := Solve(ended, Settled)]);
    left := Apply(limits, settled, Leave(id));
    PutThrice(w.records, record, started, ended);
    assert left.solves == w.solves;
  }

  lemma SubmitAdds(limits: Limits, w: World, id: JobId, owner: Owner, now: int)
    requires id !in w.issued && now >= w.clock && Admits(limits(owner), w.records, owner, now)
    ensures var record := JobRecord(id, owner, None, Queued, now, 0, 0);
            AfterSubmit(limits, w, id, owner, None, None, now)
            == w.(records := PutInto(w.records, record), solves := w.solves[id := Solve(record, Waiting)],
                  clock := now, issued := w.issued + {id})
  {
    hide Admits, PutInto;
  }

  lemma PutThrice(records: Records, first: JobRecord, second: JobRecord, third: JobRecord)
    requires first.id !in records && first.id == second.id == third.id
    requires first.cacheKey == second.cacheKey == third.cacheKey && first.reused == second.reused == third.reused
    ensures PutInto(PutInto(PutInto(records, first), second), third) == records[third.id := third]
  {
  }
}
