/** What a caller that polls a job is told: the live entry while this process solves it, the stored
    record otherwise, over every run of the machine in `JobCache`. */
module JobManager {
  import opened JobCache
  import opened Jobs
  import opened Wrappers

  /** A live entry.  Nothing but the end of the solve changes it. */
  class Job {
    const id: JobId
    const owner: Owner
    var status: Status

    constructor (record: JobRecord)
      ensures id == record.id && owner == record.owner && status == record.status
    {
      id, owner, status := record.id, record.owner, record.status;
    }

    method Absorb(record: JobRecord)
      modifies this
      ensures status == record.status
    {
      status := record.status;
    }
  }

  /** What is live: owner and status by id. */
  type Live = map<JobId, (Owner, Status)>

  /** A live job if this process owns one, else what the store remembers; somebody else's job is
      no job. */
  function Polled(live: Live, records: Records, id: JobId, owner: Option<Owner>): Option<Status> {
    var known :=
      if id in live then Some(live[id])
      else if id in records then Some((records[id].owner, records[id].status))
      else None;
    if known.None? || (owner.Some? && known.value.0 != owner.value) then None else Some(known.value.1)
  }

  class Manager {
    const store: MemoryJobStore
    var jobs: map<JobId, Job>

    constructor (store: MemoryJobStore)
      ensures this.store == store && jobs == map[]
    {
      this.store := store;
      jobs := map[];
    }

    ghost predicate Valid()
      reads this, jobs.Values
    {
      && (forall id :: id in jobs ==> jobs[id].id == id)
      && (forall i, j :: i in jobs && j in jobs && i != j ==> jobs[i] != jobs[j])
    }

    ghost function Live(): Live
      reads this, jobs.Values
    {
      map id | id in jobs :: (jobs[id].owner, jobs[id].status)
    }

    method Get(id: JobId, owner: Option<Owner>) returns (status: Option<Status>)
      requires Valid()
      ensures status == Polled(Live(), store.records, id, owner)
      ensures id in jobs ==>
                status == if owner.Some? && owner.value != jobs[id].owner then None else Some(jobs[id].status)
      ensures id !in jobs && id in store.records ==>
                status == if owner.Some? && owner.value != store.records[id].owner then None
                          else Some(store.records[id].status)
      ensures id !in jobs && id !in store.records ==> status == None
    {
      var known: Option<(Owner, Status)> := None;
      if id in jobs {
        known := Some((jobs[id].owner, jobs[id].status));
      } else if id in store.records {
        known := Some((store.records[id].owner, store.records[id].status));
      }
      if known.None? || (owner.Some? && known.value.0 != owner.value) {
        return None;
      }
      return Some(known.value.1);
    }

    /** Persists the record and keeps a live entry beside it. */
    method Submit(record: JobRecord) returns (job: Job)
      requires Valid() && record.id !in jobs
      modifies this, store
      ensures Valid() && fresh(job)
      ensures store.records == PutInto(old(store.records), record)
      ensures Live() == old(Live())[record.id := (record.owner, record.status)]
    {
      store.Put(record);
      job := new Job(record);
      jobs := jobs[record.id := job];
    }

    /** Copies the outcome onto the live entry, then drops it. */
    method Finish(job: Job, record: JobRecord)
      requires Valid() && record.id == job.id
      modifies this, job
      ensures job.status == record.status
      ensures old(job.id in jobs && jobs[job.id] == job) ==> Valid() && Live() == old(Live()) - {record.id}
    {
      job.Absorb(record);
      jobs := jobs - {job.id};
    }

    /** A zero time-to-live keeps everything; otherwise records and live entries go together. */
    method PurgeExpired(ttl: nat, now: int) returns (purged: set<JobId>)
      requires Valid()
      modifies this, store
      ensures Valid()
      ensures ttl == 0 ==> purged == {} && store.records == old(store.records) && Live() == old(Live())
      ensures ttl != 0 ==>
                && purged == Expired(old(store.records), now - ttl).Keys
                && store.records == Kept(old(store.records), now - ttl)
                && Live() == old(Live()) - purged
    {
      if ttl == 0 {
        return {};
      }
      purged := store.PurgeBefore(now - ttl);
      jobs := jobs - purged;
    }
  }

  // ------------------------------------------------------------------------ the live entries

  /** The machine of `JobCache` with the live entries beside it. */
  datatype Service = Service(world: World, live: Live)

  /** A solve that leaves retires its entry; a purge and a restart drop entries. */
  ghost function LiveAfter(limits: Limits, s: Service, step: Step): Live {
    match step
    case Submit(id, owner, key, found, now) =>
      if found.None? && Admits(limits(owner), s.world.records, owner, now) then s.live[id := (owner, Queued)]
      else s.live
    case Leave(id) => s.live - {id}
    case Purge(cutoff) => s.live - Expired(s.world.records, cutoff).Keys
    case Restart => map[]
    case _ => s.live
  }

  ghost function Next(limits: Limits, s: Service, step: Step): Service
    requires Enabled(s.world, step)
  {
    Service(Apply(limits, s.world, step), LiveAfter(limits, s, step))
  }

  ghost predicate Follows(limits: Limits, s: Service, steps: seq<Step>)
    decreases |steps|
  {
    steps == [] ||
    (Enabled(s.world, steps[0]) && Follows(limits, Next(limits, s, steps[0]), steps[1..]))
  }

  ghost function Run(limits: Limits, s: Service, steps: seq<Step>): Service
    requires Follows(limits, s, steps)
    decreases |steps|
  {
    if steps == [] then s else Run(limits, Next(limits, s, steps[0]), steps[1..])
  }

  /** What is live is being solved and stored, and says `queued`; what is being solved and was never
      purged is live. */
  ghost predicate LiveInv(s: Service) {
    && (forall id :: id in s.live ==>
          && id in s.world.solves && id in s.world.records && id !in s.world.purged
          && s.live[id] == (s.world.records[id].owner, Queued))
    && (forall id :: id in s.world.solves && id in s.world.records && id !in s.world.purged ==> id in s.live)
    && (forall id :: id in s.world.issued ==> id in s.world.records || id in s.world.purged)
    && (forall id :: id in s.world.purged ==> id in s.world.issued)
  }

  ghost predicate ServiceInv(s: Service) {
    Named(s.world) && LiveInv(s)
  }

  const Idle := Service(Empty, map[])

  /** What some run reaches, whatever its purges remove. */
  ghost predicate Attained(limits: Limits, s: Service) {
    exists steps :: Follows(limits, Idle, steps) && Run(limits, Idle, steps) == s
  }

  lemma HitKeepsLiveInv(s: Service, hit: JobId)
    requires LiveInv(s) && hit in s.world.records
    ensures LiveInv(s.(world := s.world.(records := Marked(s.world.records, hit))))
  {
  }

  lemma MissKeepsLiveInv(s: Service, id: JobId, owner: Owner, key: Option<CacheKey>, now: int)
    requires LiveInv(s) && Named(s.world) && id !in s.world.issued
    ensures var record := NewJob(id, owner, key, now);
            LiveInv(Service(s.world.(records := PutInto(s.world.records, record),
                                     solves := s.world.solves[id := Solve(record, Waiting)],
                                     issued := s.world.issued + {id}),
                            s.live[id := (owner, Queued)]))
  {
  }

  lemma SubmitKeepsLiveInv(limits: Limits, s: Service, id: JobId, owner: Owner, key: Option<CacheKey>,
                           found: Option<JobId>, now: int)
    requires ServiceInv(s) && Enabled(s.world, Submit(id, owner, key, found, now))
    ensures LiveInv(Next(limits, s, Submit(id, owner, key, found, now)))
  {
    assert found.Some? ==> found.value in s.world.records;
    hide Admits, IsLookup, Named, PutInto, Marked, Reusable;
    if found.Some? {
      HitKeepsLiveInv(s, found.value);
    } else {
      MissKeepsLiveInv(s, id, owner, key, now);
    }
  }

  lemma WriteKeepsLiveInv(s: Service, id: JobId, next: Solve)
    requires ServiceInv(s) && id in s.world.solves && MovesOn(s.world.solves[id], next)
    ensures LiveInv(s.(world := AfterWrite(s.world, id, next.record, next.phase)))
  {
  }

  lemma PurgeKeepsLiveInv(limits: Limits, s: Service, cutoff: int)
    requires ServiceInv(s)
    ensures LiveInv(Next(limits, s, Purge(cutoff)))
  {
  }

  lemma OthersKeepLiveInv(limits: Limits, s: Service, step: Step)
    requires ServiceInv(s) && Enabled(s.world, step)
    requires step.Leave? || step.Reconcile? || step.Tick? || step.Restart?
    ensures LiveInv(Next(limits, s, step))
  {
  }

  lemma StepKeepsLiveInv(limits: Limits, s: Service, step: Step)
    requires ServiceInv(s) && Enabled(s.world, step)
    ensures ServiceInv(Next(limits, s, step))
  {
    StepKeepsNamed(limits, s.world, step);
    hide LiveInv, AfterSubmit, AfterWrite, IsLookup, PutInto;
    match step
    case Submit(id, owner, key, found, now) => SubmitKeepsLiveInv(limits, s, id, owner, key, found, now);
    case Start(id) => WriteKeepsLiveInv(s, id, Started(s.world.solves[id]));
    case Finish(id, status, bytes) => WriteKeepsLiveInv(s, id, Ended(s.world.solves[id], status, bytes));
    case Purge(cutoff) => PurgeKeepsLiveInv(limits, s, cutoff);
    case _ => OthersKeepLiveInv(limits, s, step);
  }

  lemma {:induction false} RunKeepsServiceInv(limits: Limits, s: Service, steps: seq<Step>)
    requires ServiceInv(s) && Follows(limits, s, steps)
    ensures ServiceInv(Run(limits, s, steps))
    decreases |steps|
  {
    if steps != [] {
      hide ServiceInv, Enabled, Apply, LiveAfter;
      StepKeepsLiveInv(limits, s, steps[0]);
      RunKeepsServiceInv(limits, Next(limits, s, steps[0]), steps[1..]);
    }
  }

  lemma AttainedInv(limits: Limits, s: Service)
    requires Attained(limits, s)
    ensures ServiceInv(s)
  {
    var steps :| Follows(limits, Idle, steps) && Run(limits, Idle, steps) == s;
    RunKeepsServiceInv(limits, Idle, steps);
  }

  ghost function Poll(s: Service, id: JobId): Option<Status> {
    Polled(s.live, s.world.records, id, None)
  }

  /** From acceptance until retention removes it a job is never missing, and there is no moment at
      which its entry is gone and the store still shows it unfinished, unless a restart stranded it. */
  lemma NoJobIsMissing(limits: Limits, s: Service, id: JobId)
    requires Attained(limits, s) && id in s.world.issued && id !in s.world.purged
    ensures Poll(s, id).Some?
    ensures id !in s.live && Active(s.world.records[id]) ==> id !in s.world.solves
  {
    hide Attained;
    AttainedInv(limits, s);
  }

  /** A stored job is found by its owner exactly as it is by nobody in particular, and by no one else. */
  lemma EachOwnerSeesItsOwn(limits: Limits, s: Service, id: JobId, owner: Owner)
    requires Attained(limits, s) && id in s.world.records
    ensures Polled(s.live, s.world.records, id, Some(owner)).Some? <==> s.world.records[id].owner == owner
    ensures s.world.records[id].owner == owner ==> Polled(s.live, s.world.records, id, Some(owner)) == Poll(s, id)
  {
    hide Attained;
    AttainedInv(limits, s);
    if id in s.live {
      assert Echoes(s.world.records[id], s.world.solves[id].record);
    }
  }

  /** Whatever retention removes, what a poll says is what the store says exactly when the job is not
      live, or its solve has not started: a live entry knows of no start. */
  lemma PollLagsExactlyWhileSolving(limits: Limits, s: Service, id: JobId)
    requires Attained(limits, s) && id in s.world.records
    ensures id in s.live ==> id in s.world.solves
    ensures Poll(s, id) == Some(s.world.records[id].status)
            <==> id !in s.live || s.world.solves[id].phase == Waiting
    ensures Poll(s, id) == Some(Running) ==> id !in s.live
  {
    hide Attained;
    AttainedInv(limits, s);
    if id in s.live {
      assert Echoes(s.world.records[id], s.world.solves[id].record) && InPhase(s.world.solves[id]);
    }
  }

  // ------------------------------------------------------------------- polls never go back

  function Progressed(status: Status): nat {
    match status
    case Queued => 0
    case Running => 1
    case _ => 2
  }

  /** How far a job has come, whether or not it is stored at the moment. */
  ghost function Reached(w: World, id: JobId): nat {
    if id in w.solves then (match w.solves[id].phase case Waiting => 0 case Solving => 1 case Settled => 2)
    else if id in w.records then Progressed(w.records[id].status)
    else 3
  }

  /** The answer is final and nothing will write another. */
  ghost predicate Final(w: World, id: JobId, status: Status) {
    && Progressed(status) == 2
    && (id in w.solves ==> w.solves[id].phase == Settled)
    && (id in w.records ==> w.records[id].status == status)
    && id in w.issued
  }

  lemma PollIsReached(s: Service, id: JobId)
    requires ServiceInv(s) && Poll(s, id).Some?
    ensures id in s.world.issued && Progressed(Poll(s, id).value) <= Reached(s.world, id)
    ensures id !in s.live ==> Progressed(Poll(s, id).value) == Reached(s.world, id)
    ensures Progressed(Poll(s, id).value) == 2 ==> Final(s.world, id, Poll(s, id).value)
  {
    if id in s.world.solves && id in s.world.records {
      assert Echoes(s.world.records[id], s.world.solves[id].record) && InPhase(s.world.solves[id]);
    }
  }

  lemma SubmitReachesFurther(limits: Limits, s: Service, step: Step, id: JobId)
    requires ServiceInv(s) && Enabled(s.world, step) && id in s.world.issued && step.Submit?
    ensures var after := Apply(limits, s.world, step); id in after.issued && Reached(after, id) == Reached(s.world, id)
    ensures id in LiveAfter(limits, s, step) ==> id in s.live
  {
    assert step.found.Some? ==> step.found.value in s.world.records;
    hide Admits, IsLookup, Named, LiveInv;
  }

  lemma WriteReachesFurther(w: World, id: JobId, next: Solve, other: JobId)
    requires Named(w) && id in w.solves && MovesOn(w.solves[id], next) && other in w.issued
    ensures var after := AfterWrite(w, id, next.record, next.phase);
            other in after.issued && Reached(w, other) <= Reached(after, other)
  {
  }

  lemma OthersReachFurther(limits: Limits, s: Service, step: Step, id: JobId)
    requires ServiceInv(s) && Enabled(s.world, step) && id in s.world.issued
    requires step.Leave? || step.Reconcile? || step.Purge? || step.Tick? || step.Restart?
    ensures var after := Apply(limits, s.world, step); id in after.issued && Reached(s.world, id) <= Reached(after, id)
    ensures id in LiveAfter(limits, s, step) ==> id in s.live
  {
    hide LiveInv;
    if id in s.world.solves {
      assert InPhase(s.world.solves[id]);
      if id in s.world.records {
        assert Echoes(s.world.records[id], s.world.solves[id].record);
      }
    }
  }

  lemma StepReachesFurther(limits: Limits, s: Service, step: Step, id: JobId)
    requires ServiceInv(s) && Enabled(s.world, step) && id in s.world.issued
    ensures id in Apply(limits, s.world, step).issued
    ensures Reached(s.world, id) <= Reached(Apply(limits, s.world, step), id)
    ensures id in LiveAfter(limits, s, step) ==> id in s.live
  {
    hide AfterWrite, AfterSubmit, Reached, LiveInv, IsLookup;
    match step
    case Submit(_, _, _, _, _) => SubmitReachesFurther(limits, s, step, id);
    case Start(i) => WriteReachesFurther(s.world, i, Started(s.world.solves[i]), id);
    case Finish(i, status, bytes) => WriteReachesFurther(s.world, i, Ended(s.world.solves[i], status, bytes), id);
    case _ => OthersReachFurther(limits, s, step, id);
  }

  lemma StepKeepsFinal(limits: Limits, w: World, step: Step, id: JobId, status: Status)
    requires Named(w) && Enabled(w, step) && Final(w, id, status)
    ensures Final(Apply(limits, w, step), id, status)
  {
    hide Admits, IsLookup;
    match step
    case Submit(next, _, _, _, _) => assert next != id;
    case Start(other) => assert other != id;
    case Finish(other, _, _) => assert other != id;
    case Reconcile(other) => assert other != id;
    case _ =>
  }

  lemma {:induction false} RunReachesFurther(limits: Limits, s: Service, steps: seq<Step>, id: JobId)
    requires ServiceInv(s) && Follows(limits, s, steps) && id in s.world.issued
    ensures var t := Run(limits, s, steps);
            Reached(s.world, id) <= Reached(t.world, id) && (id in t.live ==> id in s.live)
    decreases |steps|
  {
    if steps != [] {
      hide ServiceInv, Enabled, Apply, LiveAfter, Reached;
      StepKeepsLiveInv(limits, s, steps[0]);
      StepReachesFurther(limits, s, steps[0], id);
      RunReachesFurther(limits, Next(limits, s, steps[0]), steps[1..], id);
    }
  }

  lemma {:induction false} RunKeepsFinal(limits: Limits, s: Service, steps: seq<Step>, id: JobId, status: Status)
    requires ServiceInv(s) && Follows(limits, s, steps) && Final(s.world, id, status)
    ensures Final(Run(limits, s, steps).world, id, status)
    decreases |steps|
  {
    if steps != [] {
      assert Named(s.world);
      hide ServiceInv, Named, Enabled, Apply, LiveAfter, Final;
      StepKeepsLiveInv(limits, s, steps[0]);
      StepKeepsFinal(limits, s.world, steps[0], id, status);
      RunKeepsFinal(limits, Next(limits, s, steps[0]), steps[1..], id, status);
    }
  }

  /** Over any run, restarts and any purges included, what the polls of a job say never goes back,
      and a final answer stays. */
  lemma PollsNeverGoBack(limits: Limits, s: Service, steps: seq<Step>, id: JobId)
    requires Attained(limits, s) && Follows(limits, s, steps)
    requires Poll(s, id).Some? && Poll(Run(limits, s, steps), id).Some?
    ensures var before, after := Poll(s, id).value, Poll(Run(limits, s, steps), id).value;
            && (before == Running ==> after != Queued)
            && (before == Done || before == Failed || before == Cancelled ==> after == before)
  {
    hide Attained;
    AttainedInv(limits, s);
    var t := Run(limits, s, steps);
    RunKeepsServiceInv(limits, s, steps);
    PollIsReached(s, id);
    PollIsReached(t, id);
    hide Run, Follows, Reached, Named;
    RunReachesFurther(limits, s, steps, id);
    if Progressed(Poll(s, id).value) == 2 {
      RunKeepsFinal(limits, s, steps, id, Poll(s, id).value);
    }
  }
}
