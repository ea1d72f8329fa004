/** The result cache, the job store and the quotas as one machine: submissions that hit or miss
    the cache, solves that write stale copies of their record back, start-up reconciliation and
    the retention purge, in any order. */
module JobCache {
  import opened Jobs
  import opened Wrappers

  type Owner = string
  type CacheKey = string

  datatype JobRecord = JobRecord(
    id: JobId, owner: Owner, cacheKey: Option<CacheKey>, status: Status,
    createdAt: int, reused: nat, artifactBytes: nat)

  type Records = map<JobId, JobRecord>

  predicate Active(record: JobRecord) {
    record.status == Queued || record.status == Running
  }

  /** A failure is not an answer; a job still on its way is. */
  predicate Reusable(record: JobRecord, owner: Owner, key: CacheKey) {
    record.owner == owner && record.cacheKey == Some(key) && (Active(record) || record.status == Done)
  }

  // ------------------------------------------------------------------------------ the store

  /** A status update cannot walk back the cache columns of a record already stored. */
  function PutInto(records: Records, record: JobRecord): (after: Records)
    ensures after.Keys == records.Keys + {record.id}
  {
    if record.id in records then
      var existing := records[record.id];
      records[record.id := record.(cacheKey := existing.cacheKey, reused := existing.reused)]
    else
      records[record.id := record]
  }

  function Marked(records: Records, id: JobId): (after: Records)
    ensures after.Keys == records.Keys
  {
    if id in records then records[id := records[id].(reused := records[id].reused + 1)] else records
  }

  function Kept(records: Records, cutoff: int): Records {
    map id | id in records && records[id].createdAt >= cutoff :: records[id]
  }

  function Expired(records: Records, cutoff: int): Records {
    map id | id in records && records[id].createdAt < cutoff :: records[id]
  }

  /** What a lookup may answer: the newest reusable job of this owner with this key, if any. */
  ghost predicate IsLookup(records: Records, key: CacheKey, owner: Owner, found: Option<JobId>) {
    match found
    case None => forall id :: id in records ==> !Reusable(records[id], owner, key)
    case Some(hit) =>
      && hit in records && Reusable(records[hit], owner, key)
      && forall id :: id in records && Reusable(records[id], owner, key) ==>
           records[id].createdAt <= records[hit].createdAt
  }

  lemma LookupIsSpelled(records: Records, key: CacheKey, owner: Owner, found: Option<JobId>)
    requires IsLookup(records, key, owner, found)
    ensures forall id :: id in records && records[id].owner == owner && records[id].cacheKey == Some(key) ==>
              records[id].status in {Queued, Running, Done} ==>
                found.Some? && found.value in records && records[id].createdAt <= records[found.value].createdAt
    ensures found.Some? ==>
              && found.value in records && records[found.value].owner == owner
              && records[found.value].cacheKey == Some(key)
              && records[found.value].status in {Queued, Running, Done}
  {
    forall id | id in records && records[id].owner == owner && records[id].cacheKey == Some(key)
      ensures records[id].status in {Queued, Running, Done} ==> Reusable(records[id], owner, key)
    {
    }
  }

  /** What is counted of a record. */
  datatype Measure =
    | ActiveJobs(owner: Owner)
    | JobsSince(owner: Owner, since: int)
    | ArtifactBytes(owner: Owner)
    | Served(owner: Owner, key: CacheKey)

  function Weigh(measure: Measure, record: JobRecord): nat {
    if record.owner != measure.owner then 0
    else match measure
      case ActiveJobs(_) => if Active(record) then 1 else 0
      case JobsSince(_, since) => if record.createdAt >= since then 1 else 0
      case ArtifactBytes(_) => record.artifactBytes
      case Served(_, key) => if record.cacheKey == Some(key) then 1 + record.reused else 0
  }

  ghost function Total(measure: Measure, records: Records): nat {
    if records == map[] then 0
    else
      var id :| id in records;
      Weigh(measure, records[id]) + Total(measure, records - {id})
  }

  lemma {:induction false} TotalWithout(measure: Measure, records: Records, id: JobId)
    requires id in records
    ensures Total(measure, records) == Weigh(measure, records[id]) + Total(measure, records - {id})
    decreases |records|
  {
    var first :| first in records
      && Total(measure, records) == Weigh(measure, records[first]) + Total(measure, records - {first});
    if first != id {
      TotalWithout(measure, records - {first}, id);
      TotalWithout(measure, records - {id}, first);
      assert records - {first} - {id} == records - {id} - {first};
    }
  }

  lemma TotalUpdated(measure: Measure, records: Records, record: JobRecord)
    ensures Total(measure, records[record.id := record])
            == Weigh(measure, record) + Total(measure, records)
               - (if record.id in records then Weigh(measure, records[record.id]) else 0)
  {
    var id := record.id;
    TotalWithout(measure, records[id := record], id);
    assert records[id := record] - {id} == records - {id};
    if id in records {
      TotalWithout(measure, records, id);
    } else {
      assert records - {id} == records;
    }
  }

  lemma TotalOfNothing(measure: Measure)
    ensures Total(measure, map[]) == 0
  {
  }

  lemma UnionWithout(left: Records, right: Records, id: JobId)
    requires left.Keys !! right.Keys && id in right
    ensures (left + right) - {id} == left + (right - {id})
  {
  }

  lemma {:induction false} TotalOfUnion(measure: Measure, left: Records, right: Records)
    requires left.Keys !! right.Keys
    ensures Total(measure, left + right) == Total(measure, left) + Total(measure, right)
    decreases |right|
  {
    hide Weigh, Total;
    if right == map[] {
      assert left + right == left;
      TotalOfNothing(measure);
    } else {
      var id :| id in right;
      TotalWithout(measure, right, id);
      TotalWithout(measure, left + right, id);
      assert (left + right)[id] == right[id];
      UnionWithout(left, right, id);
      TotalOfUnion(measure, left, right - {id});
    }
  }

  lemma {:induction false} TotalIsMonotone(measure: Measure, bound: Measure, records: Records)
    requires forall id :: id in records ==> Weigh(measure, records[id]) <= Weigh(bound, records[id])
    ensures Total(measure, records) <= Total(bound, records)
    decreases |records|
  {
    if records != map[] {
      var id :| id in records;
      TotalWithout(measure, records, id);
      TotalWithout(bound, records, id);
      TotalIsMonotone(measure, bound, records - {id});
    }
  }

  class MemoryJobStore {
    var records: Records

    constructor ()
      ensures records == map[]
    {
      records := map[];
    }

    method Put(record: JobRecord)
      modifies this
      ensures records == PutInto(old(records), record)
      ensures records.Keys == old(records).Keys + {record.id}
      ensures forall id :: id in old(records) && id != record.id ==> records[id] == old(records)[id]
      ensures var stored := records[record.id];
              if record.id in old(records) then
                var before := old(records)[record.id];
                stored == record.(cacheKey := before.cacheKey, reused := before.reused)
              else stored == record
    {
      var cacheKey, reused := record.cacheKey, record.reused;
      if record.id in records {
        cacheKey := records[record.id].cacheKey;
        reused := records[record.id].reused;
      }
      records := records[record.id :=
        JobRecord(record.id, record.owner, cacheKey, record.status, record.createdAt, reused, record.artifactBytes)];
    }

    method MarkReused(id: JobId)
      modifies this
      ensures records == Marked(old(records), id)
      ensures records.Keys == old(records).Keys
      ensures forall other :: other in records ==>
                records[other] == if other == id then old(records)[id].(reused := old(records)[id].reused + 1)
                                  else old(records)[other]
    {
      if id in records {
        records := records[id := records[id].(reused := records[id].reused + 1)];
      }
    }

    method FindCached(key: CacheKey, owner: Owner) returns (found: Option<JobId>)
      ensures IsLookup(records, key, owner, found)
      ensures forall id :: id in records && records[id].owner == owner && records[id].cacheKey == Some(key) ==>
                records[id].status in {Queued, Running, Done} ==>
                  found.Some? && found.value in records && records[id].createdAt <= records[found.value].createdAt
      ensures found.Some? ==>
                && found.value in records && records[found.value].owner == owner
                && records[found.value].cacheKey == Some(key)
                && records[found.value].status in {Queued, Running, Done}
    {
      found := None;
      hide Reusable;
      var rest := records.Keys;
      while rest != {}
        invariant rest <= records.Keys
        invariant IsLookup(records - rest, key, owner, found)
        decreases |rest|
      {
        var id :| id in rest;
        if Reusable(records[id], owner, key)
           && (found.None? || records[id].createdAt > records[found.value].createdAt) {
          found := Some(id);
        }
        assert forall x :: x in records - (rest - {id}) <==> x in records - rest || x == id;
        rest := rest - {id};
      }
      assert records - rest == records;
      LookupIsSpelled(records, key, owner, found);
      hide IsLookup;
    }

    method Usage(owner: Owner, since: int) returns (active: nat, recent: nat, bytes: nat)
      ensures active == Total(ActiveJobs(owner), records)
      ensures recent == Total(JobsSince(owner, since), records)
      ensures bytes == Total(ArtifactBytes(owner), records)
    {
      active, recent, bytes := 0, 0, 0;
      var rest := records;
      while rest != map[]
        invariant active + Total(ActiveJobs(owner), rest) == Total(ActiveJobs(owner), records)
        invariant recent + Total(JobsSince(owner, since), rest) == Total(JobsSince(owner, since), records)
        invariant bytes + Total(ArtifactBytes(owner), rest) == Total(ArtifactBytes(owner), records)
        decreases |rest|
      {
        var id :| id in rest;
        var record := rest[id];
        TotalWithout(ActiveJobs(owner), rest, id);
        TotalWithout(JobsSince(owner, since), rest, id);
        TotalWithout(ArtifactBytes(owner), rest, id);
        if record.owner == owner {
          active := active + if Active(record) then 1 else 0;
          recent := recent + if record.createdAt >= since then 1 else 0;
          bytes := bytes + record.artifactBytes;
        }
        rest := rest - {id};
      }
    }

    method PurgeBefore(cutoff: int) returns (doomed: set<JobId>)
      modifies this
      ensures doomed == Expired(old(records), cutoff).Keys
      ensures records == Kept(old(records), cutoff)
      ensures forall id :: id in doomed <==> id in old(records) && old(records)[id].createdAt < cutoff
      ensures records == old(records) - doomed
    {
      doomed := set id | id in records && records[id].createdAt < cutoff;
      ghost var before := records;
      var rest := doomed;
      while rest != {}
        invariant rest <= doomed
        invariant forall id :: id in records <==> id in before && (id in doomed ==> id in rest)
        invariant forall id :: id in records ==> records[id] == before[id]
        decreases |rest|
      {
        var id :| id in rest;
        records := records - {id};
        rest := rest - {id};
      }
      forall id
        ensures id in records <==> id in Kept(before, cutoff)
      {
      }
    }

    /** The newest `limit` jobs, or all of them; among equally new ones any. */
    method ListJobs(limit: nat) returns (listed: set<JobId>)
      ensures IsListing(records, limit, listed)
      ensures listed <= records.Keys && |listed| == if |records| < limit then |records| else limit
      ensures forall i, j :: i in listed && j in records.Keys - listed ==> records[j].createdAt <= records[i].createdAt
    {
      listed := {};
      var rest := records.Keys;
      while |listed| < limit && rest != {}
        invariant listed + rest == records.Keys && listed !! rest && |listed| <= limit
        invariant forall i, j :: i in listed && j in rest ==> records[j].createdAt <= records[i].createdAt
        decreases |rest|
      {
        var newest :| newest in rest;
        var others := rest - {newest};
        while others != {}
          invariant others <= rest && newest in rest
          invariant forall j :: j in rest && j !in others ==> records[j].createdAt <= records[newest].createdAt
          decreases |others|
        {
          var other :| other in others;
          if records[other].createdAt > records[newest].createdAt {
            newest := other;
          }
          others := others - {other};
        }
        listed := listed + {newest};
        rest := rest - {newest};
      }
      assert rest == {} ==> listed == records.Keys;
      assert |listed| + |rest| == |records.Keys| by {
        assert listed + rest == records.Keys;
      }
    }

    /** Fails, one by one, the listed jobs that are unfinished and not held. */
    method FailStranded(listed: set<JobId>, held: set<JobId>) returns (stranded: set<JobId>)
      requires listed <= records.Keys && forall id :: id in records ==> records[id].id == id
      modifies this
      ensures stranded == Stranded(old(records), listed, held)
      ensures forall id :: id in stranded <==>
                id in listed && id !in held && old(records)[id].status in {Queued, Running}
      ensures records.Keys == old(records).Keys
      ensures forall id :: id in records ==>
                records[id] == if id in stranded then old(records)[id].(status := Failed) else old(records)[id]
    {
      stranded := {};
      ghost var before := records;
      var unfinished := set id | id in listed && Active(records[id]);
      var rest := unfinished;
      while rest != {}
        invariant rest <= unfinished && unfinished <= before.Keys
        invariant forall id :: id in stranded <==> id in unfinished && id !in rest && id !in held
        invariant records.Keys == before.Keys
        invariant forall id :: id in records ==>
                    records[id] == if id in stranded then before[id].(status := Failed) else before[id]
        decreases |rest|
      {
        var id :| id in rest;
        if id !in held {
          assert records[id] == before[id];
          var record := records[id];
          Put(record.(status := Failed));
          stranded := stranded + {id};
        }
        rest := rest - {id};
      }
    }

    /** After a restart nobody is solving what is neither finished nor in `held`.  Only as many jobs
        are looked at as one listing returns. */
    method Reconcile(held: set<JobId>) returns (stranded: set<JobId>)
      requires forall id :: id in records ==> records[id].id == id
      modifies this
      ensures exists listed :: IsListing(old(records), LISTED, listed)
                && stranded == Stranded(old(records), listed, held)
      ensures |old(records)| <= LISTED ==> stranded == Stranded(old(records), old(records).Keys, held)
      ensures |old(records)| <= 10_000 ==>
                forall id :: id in stranded <==>
                  id in old(records) && id !in held && old(records)[id].status in {Queued, Running}
      ensures records.Keys == old(records).Keys
      ensures forall id :: id in records ==>
                records[id] == if id in stranded then old(records)[id].(status := Failed) else old(records)[id]
    {
      var listed := ListJobs(LISTED);
      ListingOfFew(records, LISTED, listed);
      stranded := FailStranded(listed, held);
    }
  }

  ghost function Stranded(records: Records, listed: set<JobId>, held: set<JobId>): set<JobId> {
    set id | id in listed && id in records && Active(records[id]) && id !in held
  }

  /** How many jobs `unfinished_ids` looks at. */
  const LISTED := 10_000

  ghost predicate IsListing(records: Records, limit: nat, listed: set<JobId>) {
    && listed <= records.Keys
    && (listed == records.Keys || |listed| == limit) && |listed| <= limit
    && forall i, j :: i in listed && j in records && j !in listed ==> records[j].createdAt <= records[i].createdAt
  }

  lemma ListingOfFew(records: Records, limit: nat, listed: set<JobId>)
    requires IsListing(records, limit, listed)
    ensures |records| <= limit ==> listed == records.Keys
  {
    if |records| <= limit && listed != records.Keys {
      ProperSubsetIsSmaller(listed, records.Keys);
    }
  }

  lemma ProperSubsetIsSmaller(a: set<JobId>, b: set<JobId>)
    requires a <= b && a != b
    ensures |a| < |b|
  {
    assert b == a + (b - a);
    assert |b| == |a| + |b - a|;
  }

  // ------------------------------------------------------------------------------- quotas

  /** A zero switches that quota off. */
  datatype Quotas = Quotas(concurrentJobs: nat, jobsPerHour: nat, artifactBytes: nat)

  const HOUR := 3600

  predicate WithinQuotas(quotas: Quotas, active: nat, recent: nat, bytes: nat) {
    && (quotas.concurrentJobs != 0 ==> active < quotas.concurrentJobs)
    && (quotas.jobsPerHour != 0 ==> recent < quotas.jobsPerHour)
    && (quotas.artifactBytes != 0 ==> bytes < quotas.artifactBytes)
  }

  ghost predicate Admits(quotas: Quotas, records: Records, owner: Owner, now: int) {
    WithinQuotas(quotas, Total(ActiveJobs(owner), records),
                 Total(JobsSince(owner, now - HOUR), records), Total(ArtifactBytes(owner), records))
  }

  function NewJob(id: JobId, owner: Owner, key: Option<CacheKey>, now: int): JobRecord {
    JobRecord(id, owner, key, Queued, now, 0, 0)
  }

  datatype Answer = Reused(id: JobId) | Accepted(id: JobId) | QuotaExceeded

  class SubmissionService {
    const store: MemoryJobStore

    constructor (store: MemoryJobStore)
      ensures this.store == store
    {
      this.store := store;
    }

    /** A hit costs no quota; the checks come after the lookup.  Nothing suspends in between, so
        the whole of it is one step of the machine below. */
    method Submit(id: JobId, owner: Owner, key: Option<CacheKey>, quotas: Quotas, now: int)
      returns (answer: Answer)
      modifies store
      ensures match answer
              case Reused(hit) =>
                key.Some? && IsLookup(old(store.records), key.value, owner, Some(hit))
                && store.records == Marked(old(store.records), hit)
              case QuotaExceeded =>
                (key.Some? ==> IsLookup(old(store.records), key.value, owner, None))
                && !Admits(quotas, old(store.records), owner, now) && store.records == old(store.records)
              case Accepted(issued) =>
                (key.Some? ==> IsLookup(old(store.records), key.value, owner, None))
                && Admits(quotas, old(store.records), owner, now)
                && issued == id && store.records == PutInto(old(store.records), NewJob(id, owner, key, now))
                && (id !in old(store.records) ==>
                      store.records == old(store.records)[id := JobRecord(id, owner, key, Queued, now, 0, 0)])
    {
      if key.Some? {
        var found := store.FindCached(key.value, owner);
        if found.Some? {
          store.MarkReused(found.value);
          return Reused(found.value);
        }
      }
      var active, recent, bytes := store.Usage(owner, now - HOUR);
      if !WithinQuotas(quotas, active, recent, bytes) {
        return QuotaExceeded;
      }
      store.Put(NewJob(id, owner, key, now));
      return Accepted(id);
    }
  }

  // ------------------------------------------------------------------------------ the machine

  /** Where a solve is, and the copy of the record it was handed at submission, whose `reused`
      is for ever 0. */
  datatype Phase = Waiting | Solving | Settled
  datatype Solve = Solve(record: JobRecord, phase: Phase)

  /** `issued` remembers every id handed out, `purged` what retention removed, and `accepted`
      counts the keyed submissions that were not refused. */
  datatype World = World(
    records: Records, solves: map<JobId, Solve>, clock: int,
    issued: set<JobId>, purged: Records, accepted: multiset<(Owner, CacheKey)>)

  datatype Step =
    | Submit(id: JobId, owner: Owner, key: Option<CacheKey>, found: Option<JobId>, now: int)
    | Start(id: JobId)
    | Finish(id: JobId, status: Status, bytes: nat)
    | Leave(id: JobId)
    | Reconcile(id: JobId)
    | Purge(cutoff: int)
    | Tick(now: int)
    | Restart

  type Limits = Owner -> Quotas

  const Empty := World(map[], map[], 0, {}, map[], multiset{})

  ghost predicate Enabled(w: World, step: Step) {
    match step
    case Submit(id, owner, key, found, now) =>
      && id !in w.issued && now >= w.clock
      && (if key.Some? then IsLookup(w.records, key.value, owner, found) else found.None?)
    case Start(id) => id in w.solves && w.solves[id].phase == Waiting
    case Finish(id, status, _) =>
      id in w.solves && w.solves[id].phase == Solving && status in {Done, Failed, Cancelled}
    case Leave(id) => id in w.solves && w.solves[id].phase == Settled
    case Reconcile(id) => id in w.records && Active(w.records[id]) && id !in w.solves
    case Purge(_) => true
    case Tick(now) => now >= w.clock
    case Restart => true
  }

  ghost function AfterSubmit(limits: Limits, w: World, id: JobId, owner: Owner, key: Option<CacheKey>,
                             found: Option<JobId>, now: int): World
  {
    var accepted := if key.Some? then w.accepted + multiset{(owner, key.value)} else w.accepted;
    if found.Some? then
      w.(records := Marked(w.records, found.value), clock := now, accepted := accepted)
    else if !Admits(limits(owner), w.records, owner, now) then
      w.(clock := now)
    else
      var record := NewJob(id, owner, key, now);
      w.(records := PutInto(w.records, record), solves := w.solves[id := Solve(record, Waiting)],
         clock := now, issued := w.issued + {id}, accepted := accepted)
  }

  /** A solve writes its own copy back. */
  function AfterWrite(w: World, id: JobId, record: JobRecord, phase: Phase): World {
    w.(records := PutInto(w.records, record), solves := w.solves[id := Solve(record, phase)])
  }

  ghost function Apply(limits: Limits, w: World, step: Step): World
    requires Enabled(w, step)
  {
    match step
    case Submit(id, owner, key, found, now) => AfterSubmit(limits, w, id, owner, key, found, now)
    case Start(id) => AfterWrite(w, id, w.solves[id].record.(status := Running), Solving)
    case Finish(id, status, bytes) =>
      var record := w.solves[id].record;
      AfterWrite(w, id, record.(status := status,
                                artifactBytes := if status == Done then bytes else record.artifactBytes), Settled)
    case Leave(id) => w.(solves := w.solves - {id})
    case Reconcile(id) => w.(records := PutInto(w.records, w.records[id].(status := Failed)))
    case Purge(cutoff) =>
      w.(records := Kept(w.records, cutoff), purged := w.purged + Expired(w.records, cutoff))
    case Tick(now) => w.(clock := now)
    case Restart => w.(solves := map[])
  }

  /** What a retention policy spares.  Of the jobs being solved: all of them, those with a key,
      those not started or not ended under a concurrency quota, or those of the last hour under an
      hourly quota; or every job of the last hour under an hourly quota, solved or not.  A
      `Lifetime` spares what is young enough, whatever becomes of it. */
  datatype Purging =
    | Never
    | SparingUnsettled | SparingKeyed
    | SparingWaiting | SparingOngoing
    | SparingRecent | SparingCounted
    | Lifetime(ttl: nat)
    | Unrestricted

  predicate Matters(limits: Limits, purging: Purging, clock: int, solve: Solve) {
    var record := solve.record;
    match purging
    case Never => solve.phase != Settled
    case SparingUnsettled => solve.phase != Settled
    case SparingKeyed => solve.phase != Settled && record.cacheKey.Some?
    case SparingWaiting => solve.phase == Waiting && limits(record.owner).concurrentJobs != 0
    case SparingOngoing => solve.phase != Settled && limits(record.owner).concurrentJobs != 0
    case SparingRecent => solve.phase != Settled && OfTheHour(limits, clock, record)
    case SparingCounted => solve.phase != Settled && OfTheHour(limits, clock, record)
    case Lifetime(_) => false
    case Unrestricted => false
  }

  /** One of the jobs that an hourly quota is about. */
  predicate OfTheHour(limits: Limits, clock: int, record: JobRecord) {
    limits(record.owner).jobsPerHour != 0 && record.createdAt >= clock - HOUR
  }

  /** A purge at this cut-off spares what matters. */
  ghost predicate Spares(limits: Limits, purging: Purging, w: World, cutoff: int) {
    && (forall id :: id in Expired(w.records, cutoff) && id in w.solves ==>
          !Matters(limits, purging, w.clock, w.solves[id]))
    && (purging.SparingCounted? ==>
          forall id :: id in Expired(w.records, cutoff) ==> !OfTheHour(limits, w.clock, w.records[id]))
  }

  /** A lifetime of zero keeps everything. */
  ghost predicate Permitted(limits: Limits, purging: Purging, w: World, step: Step) {
    step.Purge? ==>
      && !purging.Never? && Spares(limits, purging, w, step.cutoff)
      && (purging.Lifetime? ==> purging.ttl != 0 && step.cutoff == w.clock - purging.ttl)
  }

  // --------------------------------------------------------------------------- the invariants

  /** Ids agree, and a solve's copy is its stored record as the solve left it, hits apart. */
  ghost predicate Named(w: World) {
    && (forall id :: id in w.records ==> w.records[id].id == id && id in w.issued)
    && (forall id :: id in w.solves ==> w.solves[id].record.id == id && id in w.issued && InPhase(w.solves[id]))
    && (forall id :: id in w.solves && id in w.records ==> Echoes(w.records[id], w.solves[id].record))
  }

  predicate InPhase(solve: Solve) {
    match solve.phase
    case Waiting => solve.record.status == Queued
    case Solving => solve.record.status == Running
    case Settled => !Active(solve.record)
  }

  predicate Echoes(stored: JobRecord, copy: JobRecord) {
    stored == copy.(reused := stored.reused)
  }

  /** What matters to the policy is still stored. */
  ghost predicate Held(limits: Limits, purging: Purging, w: World) {
    forall id :: id in w.solves && Matters(limits, purging, w.clock, w.solves[id]) ==> id in w.records
  }

  ghost predicate OneReusable(records: Records) {
    forall i, j, owner, key ::
      (i in records && j in records
       && Reusable(records[i], owner, key) && Reusable(records[j], owner, key)) ==> i == j
  }

  ghost predicate ConcurrencyKept(limits: Limits, records: Records) {
    forall owner :: limits(owner).concurrentJobs != 0 ==>
      Total(ActiveJobs(owner), records) <= limits(owner).concurrentJobs
  }

  ghost predicate HourlyKept(limits: Limits, records: Records, clock: int) {
    forall owner :: limits(owner).jobsPerHour != 0 ==>
      Total(JobsSince(owner, clock - HOUR), records) <= limits(owner).jobsPerHour
  }

  ghost predicate Accounted(accepted: multiset<(Owner, CacheKey)>, records: Records, purged: Records) {
    forall owner, key ::
      accepted[(owner, key)] == Total(Served(owner, key), records) + Total(Served(owner, key), purged)
  }

  /** What was purged stays away. */
  ghost predicate Apart(w: World) {
    forall id :: id in w.purged ==> id in w.issued && id !in w.records
  }

  /** Nothing that an hourly quota is about was purged. */
  ghost predicate PurgedAreOld(limits: Limits, w: World) {
    forall id :: id in w.purged ==> !OfTheHour(limits, w.clock, w.purged[id])
  }

  /** What each policy is for. */
  ghost predicate Promise(limits: Limits, purging: Purging, w: World) {
    match purging
    case Never => w.purged == map[] && Accounted(w.accepted, w.records, w.purged)
    case SparingUnsettled => Apart(w) && Accounted(w.accepted, w.records, w.purged)
    case SparingKeyed => OneReusable(w.records)
    case SparingWaiting => ConcurrencyKept(limits, w.records)
    case SparingOngoing => ConcurrencyKept(limits, w.records)
    case SparingRecent => HourlyKept(limits, w.records, w.clock)
    case SparingCounted => HourlyKept(limits, w.records, w.clock) && PurgedAreOld(limits, w)
    case Lifetime(_) => true
    case Unrestricted => true
  }

  ghost predicate Inv(limits: Limits, purging: Purging, w: World) {
    Named(w) && Held(limits, purging, w) && Promise(limits, purging, w)
  }

  // -------------------------------------------------------------- names and what is still held

  /** A solve moves its copy on. */
  predicate MovesOn(solve: Solve, next: Solve) {
    && Active(solve.record) && InPhase(next) && !next.phase.Waiting?
    && (solve.phase.Solving? ==> next.phase.Settled?)
    && next.record == solve.record.(status := next.record.status, artifactBytes := next.record.artifactBytes)
  }

  /** What `Start` and `Finish` make of a solve. */
  function Started(solve: Solve): Solve {
    Solve(solve.record.(status := Running), Solving)
  }

  function Ended(solve: Solve, status: Status, bytes: nat): Solve {
    Solve(solve.record.(status := status,
                        artifactBytes := if status == Done then bytes else solve.record.artifactBytes), Settled)
  }

  lemma HitKeepsNamed(w: World, hit: JobId)
    requires Named(w) && hit in w.records
    ensures Named(w.(records := Marked(w.records, hit)))
  {
  }

  lemma MissKeepsNamed(w: World, id: JobId, owner: Owner, key: Option<CacheKey>, now: int)
    requires Named(w) && id !in w.issued
    ensures var record := NewJob(id, owner, key, now);
            Named(w.(records := PutInto(w.records, record), solves := w.solves[id := Solve(record, Waiting)],
                     issued := w.issued + {id}))
  {
  }

  lemma WriteKeepsNamed(w: World, id: JobId, next: Solve)
    requires Named(w) && id in w.solves && MovesOn(w.solves[id], next)
    ensures Named(AfterWrite(w, id, next.record, next.phase))
  {
  }

  lemma StepKeepsNamed(limits: Limits, w: World, step: Step)
    requires Named(w) && Enabled(w, step)
    ensures Named(Apply(limits, w, step))
  {
    match step
    case Submit(id, owner, key, found, now) =>
      assert found.Some? ==> found.value in w.records;
      hide Named, PutInto, Marked, IsLookup, Admits;
      if found.Some? {
        HitKeepsNamed(w, found.value);
        ClockIsNoName(w.(records := Marked(w.records, found.value)), Apply(limits, w, step));
      } else if Admits(limits(owner), w.records, owner, now) {
        MissKeepsNamed(w, id, owner, key, now);
        var record := NewJob(id, owner, key, now);
        ClockIsNoName(w.(records := PutInto(w.records, record), solves := w.solves[id := Solve(record, Waiting)],
                         issued := w.issued + {id}), Apply(limits, w, step));
      } else {
        ClockIsNoName(w, Apply(limits, w, step));
      }
    case Start(id) =>
      hide AfterWrite;
      WriteKeepsNamed(w, id, Started(w.solves[id]));
    case Finish(id, status, bytes) =>
      hide AfterWrite;
      WriteKeepsNamed(w, id, Ended(w.solves[id], status, bytes));
    case _ =>
  }

  lemma ClockIsNoName(w: World, v: World)
    requires Named(w) && v.records == w.records && v.solves == w.solves && v.issued == w.issued
    ensures Named(v)
  {
  }

  /** Whatever the policy, a permitted step keeps what matters to it. */
  lemma StepKeepsHeld(limits: Limits, purging: Purging, w: World, step: Step)
    requires Named(w) && Held(limits, purging, w)
    requires Enabled(w, step) && Permitted(limits, purging, w, step)
    ensures Held(limits, purging, Apply(limits, w, step))
  {
    hide IsLookup, Admits, Total;
    var after := Apply(limits, w, step);
    forall id | id in after.solves && Matters(limits, purging, after.clock, after.solves[id])
      ensures id in after.records
    {
      HeldAfter(limits, purging, w, step, id);
    }
  }

  lemma HeldAfter(limits: Limits, purging: Purging, w: World, step: Step, id: JobId)
    requires Named(w) && Held(limits, purging, w)
    requires Enabled(w, step) && Permitted(limits, purging, w, step)
    requires var after := Apply(limits, w, step);
             id in after.solves && Matters(limits, purging, after.clock, after.solves[id])
    ensures id in Apply(limits, w, step).records
  {
    hide *;
    if id in w.solves && w.solves[id] == Apply(limits, w, step).solves[id] {
      SameMatters(limits, purging, w, step, id);
      if step.Purge? {
        SparedStays(limits, purging, w, step, id);
      } else {
        StaysStored(limits, w, step, id);
      }
    } else {
      TouchedIsStored(limits, w, step, id);
    }
  }

  lemma SameMatters(limits: Limits, purging: Purging, w: World, step: Step, id: JobId)
    requires Held(limits, purging, w) && Enabled(w, step) && id in w.solves
    requires Matters(limits, purging, Apply(limits, w, step).clock, w.solves[id])
    ensures Matters(limits, purging, w.clock, w.solves[id]) && id in w.records
  {
    ClockGoesOn(limits, w, step);
    hide Apply;
  }

  lemma SparedStays(limits: Limits, purging: Purging, w: World, step: Step, id: JobId)
    requires Enabled(w, step) && Permitted(limits, purging, w, step) && step.Purge?
    requires id in w.solves && id in w.records && Matters(limits, purging, w.clock, w.solves[id])
    ensures id in Apply(limits, w, step).records
  {
    hide Matters;
  }

  lemma TouchedIsStored(limits: Limits, w: World, step: Step, id: JobId)
    requires Named(w) && Enabled(w, step) && id in Apply(limits, w, step).solves
    requires !(id in w.solves && w.solves[id] == Apply(limits, w, step).solves[id])
    ensures id in Apply(limits, w, step).records
  {
    hide IsLookup, Admits, PutInto, Marked;
  }

  lemma ClockGoesOn(limits: Limits, w: World, step: Step)
    requires Enabled(w, step)
    ensures Apply(limits, w, step).clock >= w.clock
  {
    hide IsLookup, Admits;
  }

  /** Only a purge removes records. */
  lemma StaysStored(limits: Limits, w: World, step: Step, id: JobId)
    requires Enabled(w, step) && !step.Purge? && id in w.records
    ensures id in Apply(limits, w, step).records
  {
    hide IsLookup, Admits, PutInto, Marked;
  }

  // --------------------------------------------------------------- one reusable job for each key

  lemma NoNewReusable(before: Records, after: Records)
    requires OneReusable(before)
    requires forall i, owner, key :: i in after && Reusable(after[i], owner, key) ==>
               i in before && Reusable(before[i], owner, key)
    ensures OneReusable(after)
  {
  }

  lemma HitKeepsExclusive(records: Records, hit: JobId)
    requires OneReusable(records) && hit in records
    ensures OneReusable(Marked(records, hit))
  {
    NoNewReusable(records, Marked(records, hit));
  }

  lemma MissKeepsExclusive(records: Records, id: JobId, owner: Owner, key: Option<CacheKey>, now: int)
    requires OneReusable(records) && id !in records
    requires key.Some? ==> IsLookup(records, key.value, owner, None)
    ensures OneReusable(PutInto(records, NewJob(id, owner, key, now)))
  {
    var after := PutInto(records, NewJob(id, owner, key, now));
    forall i, o, k | i in after && Reusable(after[i], o, k)
      ensures if i == id then o == owner && key == Some(k) else i in records && Reusable(records[i], o, k)
    {
    }
  }

  lemma WriteKeepsExclusive(limits: Limits, w: World, id: JobId, next: Solve)
    requires Inv(limits, SparingKeyed, w) && id in w.solves && MovesOn(w.solves[id], next)
    ensures OneReusable(PutInto(w.records, next.record))
  {
    var after := PutInto(w.records, next.record);
    forall i, o, k | i in after && Reusable(after[i], o, k)
      ensures i in w.records && Reusable(w.records[i], o, k)
    {
    }
    NoNewReusable(w.records, after);
  }

  lemma StepKeepsExclusive(limits: Limits, w: World, step: Step)
    requires Inv(limits, SparingKeyed, w) && Enabled(w, step)
    ensures OneReusable(Apply(limits, w, step).records)
  {
    hide OneReusable;
    match step
    case Submit(id, owner, key, found, now) =>
      if found.Some? {
        HitKeepsExclusive(w.records, found.value);
      } else {
        MissKeepsExclusive(w.records, id, owner, key, now);
      }
    case Start(id) => WriteKeepsExclusive(limits, w, id, Started(w.solves[id]));
    case Finish(id, status, bytes) => WriteKeepsExclusive(limits, w, id, Ended(w.solves[id], status, bytes));
    case Reconcile(id) => NoNewReusable(w.records, PutInto(w.records, w.records[id].(status := Failed)));
    case Purge(cutoff) => NoNewReusable(w.records, Kept(w.records, cutoff));
    case _ =>
  }

  // ----------------------------------------------------------------------------- the two quotas

  lemma KeptIsLess(measure: Measure, records: Records, cutoff: int)
    ensures Total(measure, Kept(records, cutoff)) + Total(measure, Expired(records, cutoff)) == Total(measure, records)
  {
    var kept, expired := Kept(records, cutoff), Expired(records, cutoff);
    assert records == kept + expired;
    TotalOfUnion(measure, kept, expired);
  }

  lemma TotalPut(measure: Measure, records: Records, record: JobRecord)
    ensures var after := PutInto(records, record);
            Total(measure, after)
            == Total(measure, records) + Weigh(measure, after[record.id])
               - (if record.id in records then Weigh(measure, records[record.id]) else 0)
  {
    hide Total, Weigh;
    var after := PutInto(records, record);
    var stored := after[record.id];
    assert record.id in records ==> stored.id == record.id;
    assert after == records[stored.id := stored];
    TotalUpdated(measure, records, stored);
  }

  lemma TotalMarked(measure: Measure, records: Records, hit: JobId)
    requires hit in records && records[hit].id == hit
    ensures Total(measure, Marked(records, hit))
            == Total(measure, records) + Weigh(measure, Marked(records, hit)[hit]) - Weigh(measure, records[hit])
  {
    TotalUpdated(measure, records, records[hit].(reused := records[hit].reused + 1));
  }

  lemma TotalSubmitted(measure: Measure, records: Records, id: JobId, owner: Owner, key: Option<CacheKey>, now: int)
    requires id !in records
    ensures Total(measure, PutInto(records, NewJob(id, owner, key, now)))
            == Total(measure, records) + Weigh(measure, NewJob(id, owner, key, now))
  {
    hide Total, Weigh;
    TotalPut(measure, records, NewJob(id, owner, key, now));
  }

  lemma WriteKeepsConcurrency(limits: Limits, w: World, id: JobId, next: Solve, owner: Owner)
    requires Named(w) && Held(limits, SparingWaiting, w)
    requires id in w.solves && MovesOn(w.solves[id], next) && limits(owner).concurrentJobs != 0
    ensures Total(ActiveJobs(owner), PutInto(w.records, next.record)) <= Total(ActiveJobs(owner), w.records)
  {
    TotalPut(ActiveJobs(owner), w.records, next.record);
    hide Total;
  }

  lemma StepKeepsConcurrency(limits: Limits, w: World, step: Step, owner: Owner)
    requires Inv(limits, SparingWaiting, w) && Enabled(w, step)
    requires limits(owner).concurrentJobs != 0
    ensures Total(ActiveJobs(owner), Apply(limits, w, step).records) <= limits(owner).concurrentJobs
  {
    hide Total;
    assert Total(ActiveJobs(owner), w.records) <= limits(owner).concurrentJobs;
    match step
    case Submit(id, o, key, found, now) =>
      if found.Some? {
        TotalMarked(ActiveJobs(owner), w.records, found.value);
      } else {
        TotalSubmitted(ActiveJobs(owner), w.records, id, o, key, now);
      }
    case Start(id) => WriteKeepsConcurrency(limits, w, id, Started(w.solves[id]), owner);
    case Finish(id, status, bytes) => WriteKeepsConcurrency(limits, w, id, Ended(w.solves[id], status, bytes), owner);
    case Reconcile(id) => TotalPut(ActiveJobs(owner), w.records, w.records[id].(status := Failed));
    case Purge(cutoff) => KeptIsLess(ActiveJobs(owner), w.records, cutoff);
    case _ =>
  }

  lemma LaterCountsFewer(owner: Owner, records: Records, clock: int, now: int)
    requires now >= clock
    ensures Total(JobsSince(owner, now - HOUR), records) <= Total(JobsSince(owner, clock - HOUR), records)
  {
    TotalIsMonotone(JobsSince(owner, now - HOUR), JobsSince(owner, clock - HOUR), records);
  }

  lemma WriteKeepsHourly(limits: Limits, w: World, id: JobId, next: Solve, owner: Owner)
    requires Named(w) && Held(limits, SparingRecent, w)
    requires id in w.solves && MovesOn(w.solves[id], next) && limits(owner).jobsPerHour != 0
    ensures Total(JobsSince(owner, w.clock - HOUR), PutInto(w.records, next.record))
            == Total(JobsSince(owner, w.clock - HOUR), w.records)
  {
    TotalPut(JobsSince(owner, w.clock - HOUR), w.records, next.record);
    hide Total;
  }

  lemma HitCountsAlike(owner: Owner, since: int, records: Records, hit: JobId)
    requires hit in records && records[hit].id == hit
    ensures Total(JobsSince(owner, since), Marked(records, hit)) == Total(JobsSince(owner, since), records)
  {
    TotalMarked(JobsSince(owner, since), records, hit);
    hide Total;
  }

  lemma MissStaysWithin(quotas: Quotas, records: Records, id: JobId, o: Owner, key: Option<CacheKey>, now: int,
                        owner: Owner)
    requires id !in records && (o == owner ==> Admits(quotas, records, owner, now)) && quotas.jobsPerHour != 0
    requires Total(JobsSince(owner, now - HOUR), records) <= quotas.jobsPerHour
    ensures Total(JobsSince(owner, now - HOUR), PutInto(records, NewJob(id, o, key, now))) <= quotas.jobsPerHour
  {
    TotalSubmitted(JobsSince(owner, now - HOUR), records, id, o, key, now);
    hide Total, PutInto;
  }

  lemma SubmitKeepsHourly(limits: Limits, w: World, step: Step, owner: Owner)
    requires Named(w) && Enabled(w, step) && step.Submit? && limits(owner).jobsPerHour != 0
    requires Total(JobsSince(owner, w.clock - HOUR), w.records) <= limits(owner).jobsPerHour
    ensures var after := Apply(limits, w, step);
            Total(JobsSince(owner, after.clock - HOUR), after.records) <= limits(owner).jobsPerHour
  {
    var now := step.now;
    assert step.found.Some? ==> step.found.value in w.records && w.records[step.found.value].id == step.found.value;
    assert step.found.None? ==> step.id !in w.records;
    LaterCountsFewer(owner, w.records, w.clock, now);
    hide IsLookup, Named, PutInto, Total, Admits, Marked;
    if step.found.Some? {
      HitCountsAlike(owner, now - HOUR, w.records, step.found.value);
    } else if Admits(limits(step.owner), w.records, step.owner, now) {
      MissStaysWithin(limits(owner), w.records, step.id, step.owner, step.key, now, owner);
    }
  }

  lemma StepKeepsHourly(limits: Limits, w: World, step: Step, owner: Owner)
    requires Inv(limits, SparingRecent, w) && Enabled(w, step) && limits(owner).jobsPerHour != 0
    ensures var after := Apply(limits, w, step);
            Total(JobsSince(owner, after.clock - HOUR), after.records) <= limits(owner).jobsPerHour
  {
    hide Total;
    assert Total(JobsSince(owner, w.clock - HOUR), w.records) <= limits(owner).jobsPerHour;
    hide IsLookup;
    match step
    case Submit(_, _, _, _, _) => SubmitKeepsHourly(limits, w, step, owner);
    case Start(id) => WriteKeepsHourly(limits, w, id, Started(w.solves[id]), owner);
    case Finish(id, status, bytes) => WriteKeepsHourly(limits, w, id, Ended(w.solves[id], status, bytes), owner);
    case Reconcile(id) => TotalPut(JobsSince(owner, w.clock - HOUR), w.records, w.records[id].(status := Failed));
    case Purge(cutoff) => KeptIsLess(JobsSince(owner, w.clock - HOUR), w.records, cutoff);
    case Tick(now) => LaterCountsFewer(owner, w.records, w.clock, now);
    case _ =>
  }

  lemma StepKeepsPurgedOld(limits: Limits, w: World, step: Step)
    requires PurgedAreOld(limits, w) && Enabled(w, step) && Permitted(limits, SparingCounted, w, step)
    ensures PurgedAreOld(limits, Apply(limits, w, step))
  {
    hide Admits, IsLookup;
    assert Apply(limits, w, step).clock >= w.clock;
  }

  /** A policy that spares more keeps what the other is for. */
  lemma SparingMore(limits: Limits, w: World)
    ensures Inv(limits, SparingOngoing, w) ==> Inv(limits, SparingWaiting, w)
    ensures Inv(limits, SparingCounted, w) ==> Inv(limits, SparingRecent, w)
  {
    hide Named, ConcurrencyKept, HourlyKept, PurgedAreOld;
  }

  // -------------------------------------------------------------------------------- the accounts

  lemma WriteIsAccounted(limits: Limits, purging: Purging, w: World, id: JobId, next: Solve,
                           owner: Owner, key: CacheKey)
    requires Named(w) && Held(limits, purging, w) && (purging.Never? || purging.SparingUnsettled?)
    requires id in w.solves && MovesOn(w.solves[id], next)
    ensures id in w.records
    ensures Total(Served(owner, key), PutInto(w.records, next.record)) == Total(Served(owner, key), w.records)
  {
    assert Matters(limits, purging, w.clock, w.solves[id]);
    TotalPut(Served(owner, key), w.records, next.record);
    hide Total;
  }

  lemma HitIsServed(records: Records, hit: JobId, owner: Owner, key: CacheKey, o: Owner, k: CacheKey)
    requires hit in records && records[hit].id == hit && Reusable(records[hit], o, k)
    ensures Total(Served(owner, key), Marked(records, hit))
            == Total(Served(owner, key), records) + if owner == o && key == k then 1 else 0
  {
    TotalMarked(Served(owner, key), records, hit);
    hide Total;
  }

  lemma MissIsServed(records: Records, id: JobId, owner: Owner, key: CacheKey, o: Owner, k: Option<CacheKey>, now: int)
    requires id !in records
    ensures Total(Served(owner, key), PutInto(records, NewJob(id, o, k, now)))
            == Total(Served(owner, key), records) + if owner == o && Some(key) == k then 1 else 0
  {
    TotalSubmitted(Served(owner, key), records, id, o, k, now);
    hide Total, PutInto;
  }

  lemma SubmitIsAccounted(limits: Limits, w: World, step: Step, owner: Owner, key: CacheKey)
    requires Named(w) && Enabled(w, step) && step.Submit?
    ensures var after := Apply(limits, w, step);
            && after.purged == w.purged
            && after.accepted[(owner, key)] - w.accepted[(owner, key)]
               == Total(Served(owner, key), after.records) - Total(Served(owner, key), w.records)
  {
    assert step.found.Some? ==> step.found.value in w.records && w.records[step.found.value].id == step.found.value;
    assert step.found.Some? ==> step.key.Some? && Reusable(w.records[step.found.value], step.owner, step.key.value);
    assert step.found.None? ==> step.id !in w.records;
    hide IsLookup, Named, PutInto, Total, Marked, Admits, Reusable;
    if step.found.Some? {
      HitIsServed(w.records, step.found.value, owner, key, step.owner, step.key.value);
    } else {
      MissIsServed(w.records, step.id, owner, key, step.owner, step.key, step.now);
    }
  }

  lemma PurgeIsAccounted(w: World, cutoff: int, owner: Owner, key: CacheKey)
    requires Apart(w)
    ensures Total(Served(owner, key), Kept(w.records, cutoff))
            + Total(Served(owner, key), w.purged + Expired(w.records, cutoff))
            == Total(Served(owner, key), w.records) + Total(Served(owner, key), w.purged)
  {
    KeptIsLess(Served(owner, key), w.records, cutoff);
    TotalOfUnion(Served(owner, key), w.purged, Expired(w.records, cutoff));
  }

  /** What the accounts of one owner and key come to after a step. */
  lemma StepIsAccounted(limits: Limits, purging: Purging, w: World, step: Step, owner: Owner, key: CacheKey)
    requires Inv(limits, purging, w) && (purging.Never? || purging.SparingUnsettled?)
    requires Enabled(w, step) && Permitted(limits, purging, w, step)
    ensures var after := Apply(limits, w, step);
            after.accepted[(owner, key)]
            == Total(Served(owner, key), after.records) + Total(Served(owner, key), after.purged)
  {
    assert w.accepted[(owner, key)] == Total(Served(owner, key), w.records) + Total(Served(owner, key), w.purged);
    assert step.Purge? ==> Apart(w);
    hide Total, Accounted, Weigh, AfterSubmit, IsLookup, PutInto;
    match step
    case Submit(_, _, _, _, _) => SubmitIsAccounted(limits, w, step, owner, key);
    case Start(id) => WriteIsAccounted(limits, purging, w, id, Started(w.solves[id]), owner, key);
    case Finish(id, status, bytes) =>
      WriteIsAccounted(limits, purging, w, id, Ended(w.solves[id], status, bytes), owner, key);
    case Reconcile(id) => ReconcileIsAccounted(w, id, owner, key);
    case Purge(cutoff) => PurgeIsAccounted(w, cutoff, owner, key);
    case _ =>
  }

  lemma ReconcileIsAccounted(w: World, id: JobId, owner: Owner, key: CacheKey)
    requires Named(w) && id in w.records
    ensures Total(Served(owner, key), PutInto(w.records, w.records[id].(status := Failed)))
            == Total(Served(owner, key), w.records)
  {
    TotalPut(Served(owner, key), w.records, w.records[id].(status := Failed));
    hide Total;
  }

  lemma WriteKeepsApart(limits: Limits, w: World, id: JobId, next: Solve)
    requires Named(w) && Held(limits, SparingUnsettled, w) && Apart(w)
    requires id in w.solves && MovesOn(w.solves[id], next)
    ensures Apart(AfterWrite(w, id, next.record, next.phase))
  {
    assert Matters(limits, SparingUnsettled, w.clock, w.solves[id]);
  }

  lemma StepKeepsApart(limits: Limits, w: World, step: Step)
    requires Named(w) && Held(limits, SparingUnsettled, w) && Apart(w) && Enabled(w, step)
    ensures Apart(Apply(limits, w, step))
  {
    hide Admits;
    match step
    case Start(id) => WriteKeepsApart(limits, w, id, Started(w.solves[id]));
    case Finish(id, status, bytes) => WriteKeepsApart(limits, w, id, Ended(w.solves[id], status, bytes));
    case _ =>
  }

  lemma OnlyPurgesRemove(limits: Limits, w: World, step: Step)
    requires Enabled(w, step) && !step.Purge?
    ensures Apply(limits, w, step).purged == w.purged
  {
  }

  // ------------------------------------------------------------------------- over whole runs

  /** Every step a policy permits keeps what the policy is for. */
  lemma StepKeepsInv(limits: Limits, purging: Purging, w: World, step: Step)
    requires Inv(limits, purging, w) && Enabled(w, step) && Permitted(limits, purging, w, step)
    ensures Inv(limits, purging, Apply(limits, w, step))
  {
    StepKeepsNamed(limits, w, step);
    StepKeepsHeld(limits, purging, w, step);
    var after := Apply(limits, w, step);
    hide Apply, Named, Held, Enabled;
    match purging
    case Never =>
      OnlyPurgesRemove(limits, w, step);
      StepKeepsAccounted(limits, purging, w, step);
    case SparingUnsettled =>
      StepKeepsApart(limits, w, step);
      StepKeepsAccounted(limits, purging, w, step);
    case SparingKeyed => StepKeepsExclusive(limits, w, step);
    case SparingWaiting => StepKeepsAllConcurrency(limits, w, step);
    case SparingOngoing =>
      SparingMore(limits, w);
      StepKeepsAllConcurrency(limits, w, step);
    case SparingRecent => StepKeepsAllHourly(limits, w, step);
    case SparingCounted =>
      SparingMore(limits, w);
      StepKeepsAllHourly(limits, w, step);
      StepKeepsPurgedOld(limits, w, step);
    case _ =>
  }

  lemma StepKeepsAccounted(limits: Limits, purging: Purging, w: World, step: Step)
    requires Inv(limits, purging, w) && (purging.Never? || purging.SparingUnsettled?)
    requires Enabled(w, step) && Permitted(limits, purging, w, step)
    ensures var after := Apply(limits, w, step); Accounted(after.accepted, after.records, after.purged)
  {
    var after := Apply(limits, w, step);
    hide Apply;
    forall owner, key
      ensures after.accepted[(owner, key)]
              == Total(Served(owner, key), after.records) + Total(Served(owner, key), after.purged)
    {
      StepIsAccounted(limits, purging, w, step, owner, key);
    }
  }

  lemma StepKeepsAllConcurrency(limits: Limits, w: World, step: Step)
    requires Inv(limits, SparingWaiting, w) && Enabled(w, step)
    ensures ConcurrencyKept(limits, Apply(limits, w, step).records)
  {
    forall owner | limits(owner).concurrentJobs != 0
      ensures Total(ActiveJobs(owner), Apply(limits, w, step).records) <= limits(owner).concurrentJobs
    {
      StepKeepsConcurrency(limits, w, step, owner);
    }
  }

  lemma StepKeepsAllHourly(limits: Limits, w: World, step: Step)
    requires Inv(limits, SparingRecent, w) && Enabled(w, step)
    ensures var after := Apply(limits, w, step); HourlyKept(limits, after.records, after.clock)
  {
    var after := Apply(limits, w, step);
    forall owner | limits(owner).jobsPerHour != 0
      ensures Total(JobsSince(owner, after.clock - HOUR), after.records) <= limits(owner).jobsPerHour
    {
      StepKeepsHourly(limits, w, step, owner);
    }
  }

  ghost predicate Legal(limits: Limits, purging: Purging, w: World, steps: seq<Step>)
    decreases |steps|
  {
    steps == [] ||
    (&& Enabled(w, steps[0]) && Permitted(limits, purging, w, steps[0])
     && Legal(limits, purging, Apply(limits, w, steps[0]), steps[1..]))
  }

  ghost function After(limits: Limits, purging: Purging, w: World, steps: seq<Step>): World
    requires Legal(limits, purging, w, steps)
    decreases |steps|
  {
    if steps == [] then w else After(limits, purging, Apply(limits, w, steps[0]), steps[1..])
  }

  ghost predicate Reachable(limits: Limits, purging: Purging, w: World) {
    exists steps ::
      Legal(limits, purging, Empty, steps) && After(limits, purging, Empty, steps) == w
  }

  lemma {:induction false} RunKeepsInv(limits: Limits, purging: Purging, w: World, steps: seq<Step>)
    requires Inv(limits, purging, w) && Legal(limits, purging, w, steps)
    ensures Inv(limits, purging, After(limits, purging, w, steps))
    decreases |steps|
  {
    if steps != [] {
      hide Inv, Enabled, Apply, Permitted;
      StepKeepsInv(limits, purging, w, steps[0]);
      RunKeepsInv(limits, purging, Apply(limits, w, steps[0]), steps[1..]);
    }
  }

  lemma EmptyInv(limits: Limits, purging: Purging)
    ensures Inv(limits, purging, Empty)
  {
  }

  lemma ReachableInv(limits: Limits, purging: Purging, w: World)
    requires Reachable(limits, purging, w)
    ensures Inv(limits, purging, w)
  {
    var steps :| Legal(limits, purging, Empty, steps) && After(limits, purging, Empty, steps) == w;
    hide Inv;
    EmptyInv(limits, purging);
    RunKeepsInv(limits, purging, Empty, steps);
  }

  /** As long as retention spares keyed jobs being solved: at most one reusable job for each owner
      and key, and every hit is therefore on that one job. */
  lemma AtMostOneReusableJob(limits: Limits, w: World, owner: Owner, key: CacheKey, i: JobId, j: JobId)
    requires Reachable(limits, SparingKeyed, w) && i in w.records && j in w.records
    requires Reusable(w.records[i], owner, key) && Reusable(w.records[j], owner, key)
    ensures i == j
    ensures forall found :: IsLookup(w.records, key, owner, found) <==> found == Some(i)
  {
    hide Reachable;
    ReachableInv(limits, SparingKeyed, w);
    hide Named, Held;
  }

  /** A keyed submission that started a job is what the next identical one attaches to, whatever
      other submissions, starts and hits came between, until the job fails, is cancelled or expires. */
  lemma IdenticalSubmissionAttaches(limits: Limits, w: World, id: JobId, owner: Owner, key: CacheKey,
                                    found: Option<JobId>)
    requires Reachable(limits, SparingKeyed, w)
    requires id in w.solves && w.solves[id].phase != Settled
    requires w.solves[id].record.owner == owner && w.solves[id].record.cacheKey == Some(key)
    requires IsLookup(w.records, key, owner, found)
    ensures found == Some(id)
  {
    hide Reachable;
    ReachableInv(limits, SparingKeyed, w);
    assert Reusable(w.records[id], owner, key);
  }

  /** Each quota holds, as the store counts its records, over every run whose retention spares what
      that takes: jobs not yet started for the concurrency quota, jobs of the last hour being solved
      for the hourly one.  `QuotasInForce` counts the jobs themselves. */
  lemma QuotasAreNeverExceeded(limits: Limits, w: World, owner: Owner)
    ensures Reachable(limits, SparingWaiting, w) && limits(owner).concurrentJobs != 0 ==>
              Total(ActiveJobs(owner), w.records) <= limits(owner).concurrentJobs
    ensures Reachable(limits, SparingRecent, w) && limits(owner).jobsPerHour != 0 ==>
              Total(JobsSince(owner, w.clock - HOUR), w.records) <= limits(owner).jobsPerHour
  {
    hide Reachable;
    if Reachable(limits, SparingWaiting, w) {
      ReachableInv(limits, SparingWaiting, w);
    }
    if Reachable(limits, SparingRecent, w) {
      ReachableInv(limits, SparingRecent, w);
    }
    hide Named, Held;
  }

  /** Every accepted submission is on exactly one job's account, though solves keep writing back
      records that know of no hit. */
  lemma SubmissionsAreAccountedFor(limits: Limits, w: World, owner: Owner, key: CacheKey)
    requires Reachable(limits, Never, w)
    ensures w.accepted[(owner, key)] == Total(Served(owner, key), w.records)
  {
    hide Reachable;
    ReachableInv(limits, Never, w);
    TotalOfNothing(Served(owner, key));
  }

  /** With retention that spares jobs being solved, the removed records' accounts complete the sum. */
  lemma SubmissionsSurviveRetention(limits: Limits, w: World, owner: Owner, key: CacheKey)
    requires Reachable(limits, SparingUnsettled, w)
    ensures w.accepted[(owner, key)]
            == Total(Served(owner, key), w.records) + Total(Served(owner, key), w.purged)
  {
    hide Reachable;
    ReachableInv(limits, SparingUnsettled, w);
  }

  /** One policy permits no more than another. */
  ghost predicate NoLaxer(limits: Limits, tight: Purging, lax: Purging) {
    tight.Never? ||
    (&& !lax.Never? && !lax.SparingCounted? && !lax.Lifetime?
     && forall clock: int, solve ::
          Matters(limits, lax, clock, solve) ==> Matters(limits, tight, clock, solve))
  }

  lemma {:induction false} LaxerRuns(limits: Limits, tight: Purging, lax: Purging, w: World, steps: seq<Step>)
    requires NoLaxer(limits, tight, lax) && Legal(limits, tight, w, steps)
    ensures Legal(limits, lax, w, steps) && After(limits, lax, w, steps) == After(limits, tight, w, steps)
    decreases |steps|
  {
    if steps != [] {
      hide Enabled, Apply, Matters;
      LaxerRuns(limits, tight, lax, Apply(limits, w, steps[0]), steps[1..]);
    }
  }

  /** Whatever holds of runs under one policy holds of runs under a stricter one. */
  lemma LaxerReaches(limits: Limits, tight: Purging, lax: Purging, w: World)
    requires NoLaxer(limits, tight, lax) && Reachable(limits, tight, w)
    ensures Reachable(limits, lax, w)
  {
    var steps :| Legal(limits, tight, Empty, steps) && After(limits, tight, Empty, steps) == w;
    LaxerRuns(limits, tight, lax, Empty, steps);
  }

  /** Sparing every job being solved is the strictest policy that purges at all. */
  lemma SparingUnsettledIsStrictest(limits: Limits, lax: Purging)
    requires !lax.Never? && !lax.SparingCounted? && !lax.Lifetime?
    ensures NoLaxer(limits, SparingUnsettled, lax) && NoLaxer(limits, Never, lax)
  {
  }
}
