/** An optimization over the result cache: what the store answers by content address once a search
    is over, from what happened before, and with that when its report is the run again. */
module CachedSearch {
  import GoldenSection
  import opened JobCache
  import opened Jobs
  import opened Retention
  import opened Wrappers
  import Runs = OptimizationSearch

  ghost predicate Nothing(records: Records, owner: Owner, key: CacheKey) {
    IsLookup(records, key, owner, None)
  }

  predicate Resubmits(step: Step, owner: Owner, key: CacheKey) {
    step.Submit? && step.owner == owner && step.key == Some(key)
  }

  ghost predicate Quiet(steps: seq<Step>, owner: Owner, key: CacheKey) {
    forall i :: 0 <= i < |steps| ==> !Resubmits(steps[i], owner, key)
  }

  // ---------------------------------------------------------------- what a lookup goes on finding

  /** A job that was handed out and is not being solved any more. */
  ghost predicate Over(w: World, id: JobId) {
    && id in w.issued && (id in w.solves ==> w.solves[id].phase == Settled)
    && (id in w.records ==> !Active(w.records[id]))
  }

  /** Nothing but its reuse count changes of a job that is over, and once removed it stays away. */
  lemma OverStays(limits: Limits, w: World, step: Step, id: JobId)
    requires Named(w) && Over(w, id) && Enabled(w, step)
    ensures var after := Apply(limits, w, step);
            && Over(after, id)
            && (id in after.records ==> id in w.records && Echoes(after.records[id], w.records[id]))
  {
    hide IsLookup, Admits;
    match step
    case Submit(next, _, _, _, _) => assert next != id;
    case Start(other) => assert other != id;
    case Finish(other, _, _) => assert other != id;
    case Reconcile(other) => assert other != id;
    case _ =>
  }

  lemma {:induction false} OverStaysOver(limits: Limits, purging: Purging, w: World, steps: seq<Step>, id: JobId)
    requires Named(w) && Legal(limits, purging, w, steps) && Over(w, id)
    ensures var after := After(limits, purging, w, steps);
            id in after.records ==> id in w.records && Echoes(after.records[id], w.records[id])
    decreases |steps|
  {
    if steps != [] {
      hide Named, Enabled, Apply, Permitted, Over;
      StepKeepsNamed(limits, w, steps[0]);
      OverStays(limits, w, steps[0], id);
      OverStaysOver(limits, purging, Apply(limits, w, steps[0]), steps[1..], id);
    }
  }

  lemma NothingComes(limits: Limits, w: World, step: Step, owner: Owner, key: CacheKey)
    requires Inv(limits, SparingKeyed, w) && Nothing(w.records, owner, key)
    requires Enabled(w, step) && !Resubmits(step, owner, key)
    ensures Nothing(Apply(limits, w, step).records, owner, key)
  {
    hide Admits, Promise;
    match step
    case Start(id) =>
      assert w.solves[id].record.cacheKey == Some(key) ==> Matters(limits, SparingKeyed, w.clock, w.solves[id]);
    case Finish(id, _, _) =>
      assert w.solves[id].record.cacheKey == Some(key) ==> Matters(limits, SparingKeyed, w.clock, w.solves[id]);
    case _ =>
  }

  lemma {:induction false} NothingComesOver(
    limits: Limits, w: World, steps: seq<Step>, owner: Owner, key: CacheKey)
    requires Inv(limits, SparingKeyed, w) && Legal(limits, SparingKeyed, w, steps)
    requires Nothing(w.records, owner, key) && Quiet(steps, owner, key)
    ensures Nothing(After(limits, SparingKeyed, w, steps).records, owner, key)
    decreases |steps|
  {
    if steps != [] {
      hide Inv, Enabled, Apply, Permitted, IsLookup, Nothing;
      assert !Resubmits(steps[0], owner, key);
      StepKeepsInv(limits, SparingKeyed, w, steps[0]);
      NothingComes(limits, w, steps[0], owner, key);
      assert forall i :: 0 <= i < |steps| - 1 ==> steps[1..][i] == steps[i + 1];
      NothingComesOver(limits, Apply(limits, w, steps[0]), steps[1..], owner, key);
    }
  }

  // ------------------------------------------------------------ what one evaluation leaves behind

  /** In this store the job is done, under this owner and key, if any. */
  predicate DoneIn(records: Records, id: JobId, owner: Owner, key: Option<CacheKey>) {
    && id in records && records[id].owner == owner && records[id].cacheKey == key
    && records[id].status == Done
  }

  /** On the way to `w` the job was seen done: what a search waits for. */
  ghost predicate SeenDone(limits: Limits, w: World, id: JobId, owner: Owner, key: Option<CacheKey>) {
    exists before, steps :: DoneOnTheWay(limits, before, steps, w, id, owner, key)
  }

  ghost predicate DoneOnTheWay(
    limits: Limits, before: World, steps: seq<Step>, w: World, id: JobId, owner: Owner, key: Option<CacheKey>)
  {
    && Reachable(limits, SparingKeyed, before) && DoneIn(before.records, id, owner, key)
    && Legal(limits, SparingKeyed, before, steps) && After(limits, SparingKeyed, before, steps) == w
  }

  lemma DoneIsOver(w: World, id: JobId, owner: Owner, key: Option<CacheKey>)
    requires Named(w) && DoneIn(w.records, id, owner, key)
    ensures Over(w, id)
  {
    assert id in w.solves ==> Echoes(w.records[id], w.solves[id].record) && InPhase(w.solves[id]);
  }

  /** It is the same to the end, if it is there. */
  lemma DoneStays(limits: Limits, w: World, id: JobId, owner: Owner, key: Option<CacheKey>)
    requires SeenDone(limits, w, id, owner, key)
    ensures id in w.records ==> DoneIn(w.records, id, owner, key)
  {
    var before, steps :| DoneOnTheWay(limits, before, steps, w, id, owner, key);
    hide Reachable, Legal, After, Named;
    ReachableInv(limits, SparingKeyed, before);
    DoneIsOver(before, id, owner, key);
    OverStaysOver(limits, SparingKeyed, before, steps, id);
  }

  /** As long as it is stored a lookup finds it and nothing else. */
  lemma DoneIsFound(limits: Limits, w: World, id: JobId, owner: Owner, key: CacheKey, found: Option<JobId>)
    requires Reachable(limits, SparingKeyed, w) && SeenDone(limits, w, id, owner, Some(key)) && id in w.records
    ensures IsLookup(w.records, key, owner, found) <==> found == Some(id)
  {
    hide Reachable, SeenDone;
    DoneStays(limits, w, id, owner, Some(key));
    AtMostOneReusableJob(limits, w, owner, key, id, id);
  }

  /** The step that gave an evaluation its reply: a refusal by quota, a hit on a job already done,
      or the end of the solve that was waited for. */
  ghost predicate Closes(
    limits: Limits, w: World, step: Step, owner: Owner, key: CacheKey, reply: Runs.Reply)
  {
    && Enabled(w, step)
    && match reply
       case Refused(_) =>
         Resubmits(step, owner, key) && step.found.None? && !Admits(limits(owner), w.records, owner, step.now)
       case Settled(job, _) =>
         if step.Submit? then
           && Resubmits(step, owner, key) && step.found == Some(job.id)
           && w.records[job.id].status == Done && job.status == Done
         else
           && step.Finish? && step.id == job.id && step.status == job.status
           && w.solves[job.id].record.owner == owner && w.solves[job.id].record.cacheKey == Some(key)
  }

  function Left(reply: Runs.Reply): Option<JobId> {
    if Runs.IsDone(reply) then Some(reply.job.id) else None
  }

  /** A job that fails or is cancelled was the only one under its key, so it leaves nothing. */
  lemma ClosingLeaves(
    limits: Limits, w: World, step: Step, owner: Owner, key: CacheKey, reply: Runs.Reply)
    requires Inv(limits, SparingKeyed, w) && Closes(limits, w, step, owner, key, reply)
    ensures match Left(reply)
            case None => Nothing(Apply(limits, w, step).records, owner, key)
            case Some(id) => DoneIn(Apply(limits, w, step).records, id, owner, Some(key))
  {
    if step.Finish? {
      assert Matters(limits, SparingKeyed, w.clock, w.solves[step.id]);
      assert Reusable(w.records[step.id], owner, key);
    }
  }

  /** This step gave the reply, and these led on to `w`. */
  ghost predicate RepliedAt(
    limits: Limits, before: World, step: Step, steps: seq<Step>, w: World,
    owner: Owner, key: CacheKey, reply: Runs.Reply)
  {
    && Reachable(limits, SparingKeyed, before)
    && Closes(limits, before, step, owner, key, reply)
    && Legal(limits, SparingKeyed, Apply(limits, before, step), steps)
    && After(limits, SparingKeyed, Apply(limits, before, step), steps) == w
  }

  ghost predicate Replied(limits: Limits, w: World, owner: Owner, key: CacheKey, reply: Runs.Reply) {
    exists before, step, steps :: RepliedAt(limits, before, step, steps, w, owner, key, reply)
  }

  /** And nobody has submitted the key again since. */
  ghost predicate RepliedLast(limits: Limits, w: World, owner: Owner, key: CacheKey, reply: Runs.Reply) {
    exists before, step, steps ::
      RepliedAt(limits, before, step, steps, w, owner, key, reply) && Quiet(steps, owner, key)
  }

  lemma ClosedReaches(limits: Limits, before: World, step: Step)
    requires Reachable(limits, SparingKeyed, before) && Enabled(before, step) && !step.Purge?
    ensures Reachable(limits, SparingKeyed, Apply(limits, before, step))
  {
    var first :| Legal(limits, SparingKeyed, Empty, first) && After(limits, SparingKeyed, Empty, first) == before;
    hide Apply, Enabled, Legal, After;
    OneStep(limits, SparingKeyed, before, step);
    Joined(limits, SparingKeyed, Empty, first, [step]);
  }

  /** An evaluation replied to with a done job saw it done. */
  lemma RepliedSawDone(limits: Limits, w: World, owner: Owner, key: CacheKey, reply: Runs.Reply)
    requires Replied(limits, w, owner, key, reply) && Runs.IsDone(reply)
    ensures SeenDone(limits, w, reply.job.id, owner, Some(key))
  {
    var before, step, steps :| RepliedAt(limits, before, step, steps, w, owner, key, reply);
    assert Enabled(before, step) && !step.Purge?;
    hide Reachable, Legal, After, Apply, Inv, Enabled;
    ReachableInv(limits, SparingKeyed, before);
    ClosingLeaves(limits, before, step, owner, key, reply);
    ClosedReaches(limits, before, step);
    assert DoneOnTheWay(limits, Apply(limits, before, step), steps, w, reply.job.id, owner, Some(key));
  }

  /** One replied to with anything else leaves nothing until somebody submits its key again. */
  lemma RepliedLeftNothing(limits: Limits, w: World, owner: Owner, key: CacheKey, reply: Runs.Reply)
    requires RepliedLast(limits, w, owner, key, reply) && !Runs.IsDone(reply)
    ensures Nothing(w.records, owner, key)
  {
    var before, step, steps :|
      RepliedAt(limits, before, step, steps, w, owner, key, reply) && Quiet(steps, owner, key);
    assert Enabled(before, step) && !step.Purge?;
    hide Reachable, Legal, After, Apply, Inv, Enabled, Nothing;
    ReachableInv(limits, SparingKeyed, before);
    ClosingLeaves(limits, before, step, owner, key, reply);
    StepKeepsInv(limits, SparingKeyed, before, step);
    NothingComesOver(limits, Apply(limits, before, step), steps, owner, key);
  }

  lemma RepliedReaches(limits: Limits, w: World, owner: Owner, key: CacheKey, reply: Runs.Reply)
    requires Replied(limits, w, owner, key, reply)
    ensures Reachable(limits, SparingKeyed, w)
  {
    var before, step, steps :| RepliedAt(limits, before, step, steps, w, owner, key, reply);
    var first :| Legal(limits, SparingKeyed, Empty, first) && After(limits, SparingKeyed, Empty, first) == before;
    hide Apply, Enabled, Legal, After, Admits;
    StepFirst(limits, SparingKeyed, before, step, steps);
    Joined(limits, SparingKeyed, Empty, first, [step] + steps);
  }

  /** A lookup finds the job of an evaluation if it is done and still stored; if it is not done, nothing
      until somebody submits the key again. */
  lemma FoundExactlyIfDone(
    limits: Limits, w: World, owner: Owner, key: CacheKey, reply: Runs.Reply, found: Option<JobId>)
    requires Replied(limits, w, owner, key, reply)
    requires if Runs.IsDone(reply) then reply.job.id in w.records else RepliedLast(limits, w, owner, key, reply)
    ensures IsLookup(w.records, key, owner, found) <==> found == Left(reply)
  {
    hide Reachable, Replied, RepliedLast, SeenDone;
    if Runs.IsDone(reply) {
      RepliedSawDone(limits, w, owner, key, reply);
      RepliedReaches(limits, w, owner, key, reply);
      DoneIsFound(limits, w, reply.job.id, owner, key, found);
    } else {
      RepliedLeftNothing(limits, w, owner, key, reply);
    }
  }

  // ------------------------------------------------------------------------------- the report

  /** How a report reads this store: a point without an address finds nothing, another what a lookup
      of its key finds, as the job of that id with the status stored. */
  ghost predicate Reads(
    w: World, owner: Owner, keyOf: real -> Option<CacheKey>, jobs: JobId -> Runs.Job,
    lookup: real -> Option<Runs.Job>)
  {
    forall point: real :: ReadsAt(w, owner, keyOf(point), jobs, lookup(point))
  }

  ghost predicate ReadsAt(
    w: World, owner: Owner, key: Option<CacheKey>, jobs: JobId -> Runs.Job, found: Option<Runs.Job>)
  {
    match key
    case None => found.None?
    case Some(key) =>
      match found
      case None => Nothing(w.records, owner, key)
      case Some(job) =>
        && IsLookup(w.records, key, owner, Some(job.id))
        && job == jobs(job.id) && job.status == w.records[job.id].status
  }

  /** On the way to `w` the job was seen done, whatever it was submitted under. */
  ghost predicate WasDone(limits: Limits, w: World, id: JobId, owner: Owner) {
    exists key :: SeenDone(limits, w, id, owner, key)
  }

  /** What a reply means for the store: a job that was waited for is over, and one that is done was
      seen done in it. */
  ghost predicate Observed(limits: Limits, w: World, owner: Owner, jobs: JobId -> Runs.Job, reply: Runs.Reply) {
    reply.Settled? ==>
      && IsOver(reply.job.status)
      && (Runs.IsDone(reply) ==> WasDone(limits, w, reply.job.id, owner) && reply.job == jobs(reply.job.id))
  }

  ghost predicate AllObserved(
    limits: Limits, w: World, owner: Owner, jobs: JobId -> Runs.Job, replies: nat -> Runs.Reply, n: nat)
  {
    forall i :: 0 <= i < n ==> Observed(limits, w, owner, jobs, replies(i))
  }

  /** The job that answered is still stored under the key that is asked for. */
  predicate StillStored(w: World, key: Option<CacheKey>, reply: Runs.Reply) {
    && key.Some? && Runs.IsDone(reply)
    && reply.job.id in w.records && w.records[reply.job.id].cacheKey == key
  }

  /** Row i can be had again: its job is done and still stored under its key; or nothing reusable is
      stored under its key, and the recorded inputs answer as the run did. */
  ghost predicate Recoverable(
    w: World, owner: Owner, keyOf: real -> Option<CacheKey>, body: Runs.Body, replies: nat -> Runs.Reply,
    byInput: map<nat, Runs.Job>, out: Runs.Outcome, i: nat)
    requires i < |out.evaluations|
  {
    var key := keyOf(out.evaluations[i].value);
    || StillStored(w, key, replies(i))
    || ((key.Some? ==> Nothing(w.records, owner, key.value)) && Runs.InputsAnswer(body, replies, byInput, out, i))
  }

  /** What the store tells of one row. */
  lemma RowIsAlikeExactly(
    limits: Limits, w: World, owner: Owner, key: Option<CacheKey>, jobs: JobId -> Runs.Job,
    reply: Runs.Reply, found: Option<Runs.Job>, i: nat, point: real, objective: GoldenSection.Objective)
    requires Reachable(limits, SparingKeyed, w) && Observed(limits, w, owner, jobs, reply)
    requires ReadsAt(w, owner, key, jobs, found) && found.Some?
    ensures key.Some? && !Nothing(w.records, owner, key.value)
    ensures reply.Settled? ==>
              (Runs.Row(i, point, found.value, objective) == Runs.Row(i, point, reply.job, objective)
               <==> StillStored(w, key, reply))
  {
    if reply.Settled? {
      if StillStored(w, key, reply) {
        hide Reachable, SeenDone, IsLookup;
        StoredIsFound(limits, w, owner, key, jobs, reply, Some(found.value.id));
      }
    }
  }

  lemma StoredIsFound(
    limits: Limits, w: World, owner: Owner, key: Option<CacheKey>, jobs: JobId -> Runs.Job,
    reply: Runs.Reply, found: Option<JobId>)
    requires Reachable(limits, SparingKeyed, w) && Observed(limits, w, owner, jobs, reply)
    requires StillStored(w, key, reply)
    ensures IsLookup(w.records, key.value, owner, found) <==> found == Some(reply.job.id)
  {
    hide Reachable, SeenDone, IsLookup;
    var own :| SeenDone(limits, w, reply.job.id, owner, own);
    DoneStays(limits, w, reply.job.id, owner, own);
    DoneIsFound(limits, w, reply.job.id, owner, key.value, found);
  }

  lemma RowIsFoundExactly(
    limits: Limits, w: World, owner: Owner, keyOf: real -> Option<CacheKey>, jobs: JobId -> Runs.Job,
    body: Runs.Body, replies: nat -> Runs.Reply, lookup: real -> Option<Runs.Job>,
    byInput: map<nat, Runs.Job>, out: Runs.Outcome, i: nat)
    requires i < |out.evaluations| && Reachable(limits, SparingKeyed, w)
    requires Observed(limits, w, owner, jobs, replies(i))
    requires ReadsAt(w, owner, keyOf(out.evaluations[i].value), jobs, lookup(out.evaluations[i].value))
    ensures Runs.AlikeAt(body, replies, lookup, byInput, out, i)
            <==> Recoverable(w, owner, keyOf, body, replies, byInput, out, i)
  {
    var point := out.evaluations[i].value;
    var key, found, reply := keyOf(point), lookup(point), replies(i);
    if found.Some? {
      hide Reachable, WasDone, Nothing, IsLookup, Runs.Row;
      RowIsAlikeExactly(limits, w, owner, key, jobs, reply, found, i, point, body.objective);
    } else {
      hide Reachable, WasDone, IsLookup, Runs.Row;
      if StillStored(w, key, reply) {
        StoredIsFound(limits, w, owner, key, jobs, reply, None);
      }
    }
  }

  /** Over the result cache itself, whoever submits what before, meanwhile and afterwards, as long as
      retention spares keyed jobs being solved: the report is the run if and only if every row can be
      had again and a refused tail is still remembered.  A job under the key of a row that was refused,
      failed or was cancelled takes its place, and so does an older recorded input. */
  lemma ReportOverTheCacheExactly(
    limits: Limits, w: World, owner: Owner, keyOf: real -> Option<CacheKey>, jobs: JobId -> Runs.Job,
    r: real, body: Runs.Body, replies: nat -> Runs.Reply,
    lookup: real -> Option<Runs.Job>, byInput: map<nat, Runs.Job>, remembered: Option<Runs.SearchStop>)
    requires Reachable(limits, SparingKeyed, w) && Reads(w, owner, keyOf, jobs, lookup)
    requires AllObserved(limits, w, owner, jobs, replies, |Runs.Run(r, body, replies).evaluations|)
    ensures var out := Runs.Run(r, body, replies);
            Runs.Replayed(r, body, lookup, byInput, remembered) == out
            <==> (forall i :: 0 <= i < |out.evaluations| ==>
                    Recoverable(w, owner, keyOf, body, replies, byInput, out, i))
                 && Runs.Recalls(remembered, out)
  {
    Runs.ReplayEqualsRun(r, body, replies, lookup, byInput, remembered);
    var out := Runs.Run(r, body, replies);
    hide Reachable, Observed, ReadsAt, Recoverable, Runs.AlikeAt, Runs.Run, Runs.Replayed, Runs.Recalls;
    forall i | 0 <= i < |out.evaluations|
      ensures Runs.AlikeAt(body, replies, lookup, byInput, out, i)
              <==> Recoverable(w, owner, keyOf, body, replies, byInput, out, i)
    {
      RowIsFoundExactly(limits, w, owner, keyOf, jobs, body, replies, lookup, byInput, out, i);
    }
  }

  /** A first run nobody interfered with: its done jobs are still stored, nothing reusable is stored
      under the key of any other evaluation, which is so until somebody submits that key again
      (`FoundExactlyIfDone`), and the recorded inputs name its own jobs and no others. */
  ghost predicate Undisturbed(
    w: World, owner: Owner, keyOf: real -> Option<CacheKey>, replies: nat -> Runs.Reply,
    byInput: map<nat, Runs.Job>, out: Runs.Outcome)
  {
    && Runs.RecordsOwn(replies, byInput, |out.evaluations|)
    && forall i :: 0 <= i < |out.evaluations| ==>
         UndisturbedAt(w, owner, keyOf(out.evaluations[i].value), replies(i))
  }

  ghost predicate UndisturbedAt(w: World, owner: Owner, key: Option<CacheKey>, reply: Runs.Reply) {
    if Runs.IsDone(reply) then StillStored(w, key, reply)
    else key.Some? ==> Nothing(w.records, owner, key.value)
  }

  /** The report of such a run is the run if and only if no evaluation joined another submission's job
      that then failed or was cancelled, and a refused tail is still remembered. */
  lemma UndisturbedReportExactly(
    limits: Limits, w: World, owner: Owner, keyOf: real -> Option<CacheKey>, jobs: JobId -> Runs.Job,
    r: real, body: Runs.Body, replies: nat -> Runs.Reply,
    lookup: real -> Option<Runs.Job>, byInput: map<nat, Runs.Job>, remembered: Option<Runs.SearchStop>)
    requires Reachable(limits, SparingKeyed, w) && Reads(w, owner, keyOf, jobs, lookup)
    requires AllObserved(limits, w, owner, jobs, replies, |Runs.Run(r, body, replies).evaluations|)
    requires Undisturbed(w, owner, keyOf, replies, byInput, Runs.Run(r, body, replies))
    ensures var out := Runs.Run(r, body, replies);
            Runs.Replayed(r, body, lookup, byInput, remembered) == out
            <==> Runs.NoLostJoin(replies, |out.evaluations|) && Runs.Recalls(remembered, out)
  {
    ReportOverTheCacheExactly(limits, w, owner, keyOf, jobs, r, body, replies, lookup, byInput, remembered);
    var out := Runs.Run(r, body, replies);
    hide Reachable, Reads, AllObserved, Runs.Run, Runs.Replayed, Runs.Recalls, Nothing, Runs.Row;
    forall i | 0 <= i < |out.evaluations|
      ensures Recoverable(w, owner, keyOf, body, replies, byInput, out, i)
              <==> (replies(i).Settled? ==> Runs.IsDone(replies(i)) || !replies(i).joined)
    {
      assert UndisturbedAt(w, owner, keyOf(out.evaluations[i].value), replies(i));
    }
  }

  // ------------------------------------------------------------------- a failure taken over

  lemma RepliedStill(
    limits: Limits, w: World, steps: seq<Step>, owner: Owner, key: CacheKey, reply: Runs.Reply)
    requires Replied(limits, w, owner, key, reply) && Legal(limits, SparingKeyed, w, steps)
    ensures Replied(limits, After(limits, SparingKeyed, w, steps), owner, key, reply)
  {
    var before, step, first :| RepliedAt(limits, before, step, first, w, owner, key, reply);
    hide Reachable, Legal, After, Apply, Enabled, Admits;
    Joined(limits, SparingKeyed, Apply(limits, before, step), first, steps);
    assert RepliedAt(
        limits, before, step, first + steps, After(limits, SparingKeyed, w, steps), owner, key, reply);
  }

  /** However a job ends, an evaluation can have been replied to with it, alone in the store. */
  lemma EvaluationHappens(limits: Limits, owner: Owner, key: CacheKey, job: Runs.Job) returns (w: World)
    requires IsOver(job.status)
    ensures Replied(limits, w, owner, key, Runs.Settled(job, false)) && Named(w)
    ensures w.clock == 0 && w.purged == map[]
    ensures w.records == map[job.id := NewJob(job.id, owner, Some(key), 0).(status := job.status)]
  {
    var submit, start := Submit(job.id, owner, Some(key), None, 0), Start(job.id);
    EmptyInv(limits, SparingKeyed);
    EmptyAdmits(limits(owner), owner, 0);
    SubmitEffect(limits, SparingKeyed, Empty, job.id, owner, Some(key), 0);
    var queued := Apply(limits, Empty, submit);
    StepKeepsNamed(limits, queued, start);
    WriteEffect(queued, job.id, Started(queued.solves[job.id]));
    var running := Apply(limits, queued, start);
    var finish := Finish(job.id, job.status, 0);
    StepKeepsNamed(limits, running, finish);
    WriteEffect(running, job.id, Ended(running.solves[job.id], job.status, 0));
    w := Apply(limits, running, finish);
    assert Closes(limits, running, finish, owner, key, Runs.Settled(job, false));
    hide Apply, Closes, Enabled, Inv, Named, AfterWrite;
    StepFirst(limits, SparingKeyed, queued, start, []);
    StepFirst(limits, SparingKeyed, Empty, submit, [start] + []);
    assert RepliedAt(limits, running, finish, [], w, owner, key, Runs.Settled(job, false));
  }

  /** What `Recoverable` rules out does happen, under any quotas and with nothing purged: the
      evaluation's job fails or is cancelled, and later somebody submits the same solve. */
  lemma ResubmissionTakesOver(limits: Limits, owner: Owner, key: CacheKey, job: Runs.Job) returns (w: World)
    requires job.status == Failed || job.status == Cancelled
    ensures Replied(limits, w, owner, key, Runs.Settled(job, false)) && w.purged == map[]
    ensures !Nothing(w.records, owner, key)
  {
    var v := EvaluationHappens(limits, owner, key, job);
    var now := HOUR + 1;
    TickEffect(limits, SparingKeyed, v, now);
    var late := v.(clock := now);
    NothingCounts(ActiveJobs(owner), late.records);
    NothingCounts(JobsSince(owner, now - HOUR), late.records);
    NothingCounts(ArtifactBytes(owner), late.records);
    assert Admits(limits(owner), late.records, owner, now);
    var next := Bound(late.issued);
    SubmitEffect(limits, SparingKeyed, late, next, owner, Some(key), now);
    var submit := Submit(next, owner, Some(key), None, now);
    w := Apply(limits, late, submit);
    assert Reusable(w.records[next], owner, key);
    hide Legal, After, Apply, Enabled, Permitted, Admits, Replied, Total, Named;
    OneStep(limits, SparingKeyed, late, submit);
    StepFirst(limits, SparingKeyed, v, Tick(now), [submit]);
    RepliedStill(limits, v, [Tick(now)] + [submit], owner, key, Runs.Settled(job, false));
  }
}
