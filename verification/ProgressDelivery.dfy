/** Progress-event delivery: a publisher stores an event and then publishes it under the
    sequence number the store assigned; a subscriber attaches to the live feed, replays the
    stored history, and drops whatever live it has already replayed. */
module ProgressDelivery {
  import opened Jobs

  type SubscriberId = nat

  datatype Event = StatusEvent(status: Status) | Progress(payload: int)

  /** An event as it moves through the bus: the store's sequence number and the payload. */
  type Delivery = (nat, Event)

  predicate IsTerminal(e: Event) {
    e.StatusEvent? && IsOver(e.status)
  }

  predicate NoTerminal(events: seq<Event>) {
    forall i :: 0 <= i < |events| ==> !IsTerminal(events[i])
  }

  /** The log up to and including its first terminal event. */
  function UpToTerminal(log: seq<Event>): (prefix: seq<Event>)
    ensures prefix <= log
    ensures NoTerminal(log) ==> prefix == log
    ensures !NoTerminal(log) ==>
              && prefix != [] && IsTerminal(prefix[|prefix| - 1])
              && NoTerminal(prefix[..|prefix| - 1])
  {
    if log == [] || NoTerminal(log[..|log| - 1]) then log
    else UpToTerminal(log[..|log| - 1])
  }

  lemma UpToTerminalIsUnique(log: seq<Event>, prefix: seq<Event>)
    requires prefix <= log && prefix != []
    requires IsTerminal(prefix[|prefix| - 1]) && NoTerminal(prefix[..|prefix| - 1])
    ensures prefix == UpToTerminal(log)
  {
    var first := UpToTerminal(log);
    var n, m := |prefix| - 1, |first| - 1;
    assert IsTerminal(log[n]);
    assert !NoTerminal(log);
    assert IsTerminal(log[m]);
    assert forall i :: 0 <= i < n ==> prefix[..n][i] == log[i];
    assert forall i :: 0 <= i < m ==> first[..m][i] == log[i];
    assert n == m;
  }

  // What ends a subscription is spelled out below: the three statuses a job ends with, and nothing else.

  /** An event list in which no job ends is kept whole. */
  lemma KeptWholeUnlessEnded(log: seq<Event>)
    requires forall i :: 0 <= i < |log| ==> log[i] !in {StatusEvent(Done), StatusEvent(Failed), StatusEvent(Cancelled)}
    ensures UpToTerminal(log) == log && NoTerminal(log)
  {
  }

  /** One in which the first such event is at `t` is kept up to there. */
  lemma CutWhereItEnds(log: seq<Event>, t: nat)
    requires t < |log| && log[t] in {StatusEvent(Done), StatusEvent(Failed), StatusEvent(Cancelled)}
    requires forall i :: 0 <= i < t ==> log[i] !in {StatusEvent(Done), StatusEvent(Failed), StatusEvent(Cancelled)}
    ensures UpToTerminal(log) == log[..t + 1] && !NoTerminal(log)
  {
    assert forall i :: 0 <= i < t ==> log[..t + 1][..t][i] == log[i];
    UpToTerminalIsUnique(log, log[..t + 1]);
    assert IsTerminal(log[t]);
  }

  lemma {:induction false} EndsSomewhere(log: seq<Event>) returns (t: nat)
    requires !NoTerminal(log)
    ensures t < |log| && log[t] in {StatusEvent(Done), StatusEvent(Failed), StatusEvent(Cancelled)}
    ensures forall i :: 0 <= i < t ==> log[i] !in {StatusEvent(Done), StatusEvent(Failed), StatusEvent(Cancelled)}
  {
    t := 0;
    while log[t] !in {StatusEvent(Done), StatusEvent(Failed), StatusEvent(Cancelled)}
      invariant t < |log|
      invariant forall i :: 0 <= i < t ==>
                  log[i] !in {StatusEvent(Done), StatusEvent(Failed), StatusEvent(Cancelled)}
      decreases |log| - t
    {
      if t + 1 == |log| {
        KeptWholeUnlessEnded(log);
      }
      t := t + 1;
    }
  }

  /** Of what is kept the last event, and no other, may be one that ends the job. */
  lemma CutIsSpelledOut(log: seq<Event>)
    ensures var prefix := UpToTerminal(log);
            && (if NoTerminal(log) then prefix == log else prefix != [])
            && forall i :: 0 <= i < |prefix| ==>
                 (prefix[i] in {StatusEvent(Done), StatusEvent(Failed), StatusEvent(Cancelled)}
                  <==> !NoTerminal(log) && i == |prefix| - 1)
  {
    if !NoTerminal(log) {
      var t := EndsSomewhere(log);
      CutWhereItEnds(log, t);
    }
  }

  // --------------------------------------------------------------- the objects in memory

  /** A mutable list of events, shared by reference. */
  class EventList {
    var items: seq<Event>

    constructor ()
      ensures items == []
    {
      items := [];
    }

    method Append(e: Event)
      modifies this
      ensures items == old(items) + [e]
    {
      items := items + [e];
    }
  }

  class EventQueue {
    var items: seq<Delivery>

    constructor ()
      ensures items == []
    {
      items := [];
    }
  }

  /** Fan-out with one queue per subscriber. */
  class InProcessEventBus {
    var subscribers: map<JobId, set<EventQueue>>

    constructor ()
      ensures subscribers == map[]
    {
      subscribers := map[];
    }

    function QueuesOf(job: JobId): set<EventQueue>
      reads this
    {
      if job in subscribers then subscribers[job] else {}
    }

    method Publish(job: JobId, seqNo: nat, e: Event)
      modifies QueuesOf(job)
      ensures forall q :: q in QueuesOf(job) ==> q.items == old(q.items) + [(seqNo, e)]
    {
      var rest := QueuesOf(job);
      while rest != {}
        invariant rest <= QueuesOf(job)
        invariant forall q :: q in QueuesOf(job) ==>
                    q.items == if q in rest then old(q.items) else old(q.items) + [(seqNo, e)]
        decreases |rest|
      {
        var q :| q in rest;
        q.items := q.items + [(seqNo, e)];
        rest := rest - {q};
      }
    }

    method Subscribe(job: JobId) returns (queue: EventQueue)
      modifies this
      ensures fresh(queue) && queue.items == []
      ensures subscribers == old(subscribers)[job := old(QueuesOf(job)) + {queue}]
    {
      queue := new EventQueue();
      subscribers := subscribers[job := QueuesOf(job) + {queue}];
    }

    /** Stops the feed, and forgets a job nobody listens to.  Idempotent. */
    method Unsubscribe(job: JobId, queue: EventQueue)
      modifies this
      ensures QueuesOf(job) == old(QueuesOf(job)) - {queue}
      ensures forall other :: other != job ==> QueuesOf(other) == old(QueuesOf(other))
      ensures job in subscribers ==> subscribers[job] != {} || old(job in subscribers && subscribers[job] == {})
    {
      if job in subscribers {
        var queues := subscribers[job] - {queue};
        subscribers := if queues == {} then subscribers - {job} else subscribers[job := queues];
      }
    }
  }

  /** The event logs of the in-memory store.  A log is whichever list was first put. */
  class MemoryEventStore {
    var logs: map<JobId, EventList>

    constructor ()
      ensures logs == map[]
    {
      logs := map[];
    }

    /** Keeps the existing list across updates, and the record's own list the first time. */
    method Put(job: JobId, events: EventList)
      modifies this
      ensures logs == if job in old(logs) then old(logs) else old(logs)[job := events]
    {
      if job !in logs {
        logs := logs[job := events];
      }
    }

    method AddEvent(job: JobId, e: Event) returns (seqNo: nat)
      modifies if job in logs then {logs[job]} else {}
      ensures job !in logs ==> seqNo == 0
      ensures job in logs ==>
                && logs[job].items == old(logs[job].items) + [e]
                && seqNo == |logs[job].items|
    {
      if job !in logs {
        return 0;
      }
      logs[job].Append(e);
      seqNo := |logs[job].items|;
    }
  }

  function Repeated(e: Event, twice: bool): seq<Event> {
    if twice then [e, e] else [e]
  }

  /** What a store that shares its log with the mirror ends up holding. */
  function Stored(events: seq<Event>, aliased: bool): seq<Event> {
    if events == [] then []
    else Stored(events[..|events| - 1], aliased) + Repeated(events[|events| - 1], aliased)
  }

  class EventSink {
    const store: MemoryEventStore
    const bus: InProcessEventBus
    const job: JobId
    const mirror: EventList?

    constructor (store: MemoryEventStore, bus: InProcessEventBus, job: JobId, mirror: EventList?)
      ensures this.store == store && this.bus == bus && this.job == job && this.mirror == mirror
    {
      this.store, this.bus, this.job, this.mirror := store, bus, job, mirror;
    }

    ghost function Footprint(): set<object>
      reads this, store, bus
    {
      var mirrored: set<object> := if mirror == null then {} else {mirror};
      var stored: set<object> := if job in store.logs then {store.logs[job]} else {};
      var queues: set<object> := set q: EventQueue | q in bus.QueuesOf(job);
      mirrored + stored + queues
    }

    /** Mirror, then store, then publish under the number the store gave. */
    method Emit(e: Event)
      requires job in store.logs
      modifies Footprint()
      ensures store.logs[job].items
              == old(store.logs[job].items) + Repeated(e, mirror == store.logs[job])
      ensures mirror != null && mirror != store.logs[job] ==> mirror.items == old(mirror.items) + [e]
      ensures forall q :: q in bus.QueuesOf(job) ==>
                q.items == old(q.items) + [(|store.logs[job].items|, e)]
    {
      if mirror != null {
        mirror.Append(e);
      }
      var seqNo := store.AddEvent(job, e);
      bus.Publish(job, seqNo, e);
    }

    method EmitAll(events: seq<Event>)
      requires job in store.logs
      modifies Footprint()
      ensures store.logs[job].items
              == old(store.logs[job].items) + Stored(events, mirror == store.logs[job])
    {
      ghost var aliased := mirror == store.logs[job];
      for i := 0 to |events|
        invariant store.logs[job].items == old(store.logs[job].items) + Stored(events[..i], aliased)
      {
        assert events[..i + 1][..i] == events[..i];
        Emit(events[i]);
      }
      assert events[..|events|] == events;
    }
  }

  /** How the in-process backend starts a job on the in-memory store: the list it mirrors into is
      the list the store kept. */
  method StartOnMemoryStore(store: MemoryEventStore, bus: InProcessEventBus, job: JobId)
    returns (sink: EventSink)
    requires job !in store.logs
    modifies store
    ensures job in store.logs && fresh(store.logs[job]) && store.logs[job].items == []
    ensures sink.store == store && sink.bus == bus && sink.job == job
    ensures sink.mirror == store.logs[job]
  {
    var events := new EventList();
    store.Put(job, events);
    sink := new EventSink(store, bus, job, events);
  }

  /** How it starts on a store that copies what it is given, or with no mirror at all. */
  method StartOnCopyingStore(
    store: MemoryEventStore, bus: InProcessEventBus, job: JobId, mirrored: bool)
    returns (sink: EventSink)
    requires job !in store.logs
    modifies store
    ensures job in store.logs && fresh(store.logs[job]) && store.logs[job].items == []
    ensures sink.store == store && sink.bus == bus && sink.job == job
    ensures sink.mirror != store.logs[job] && (sink.mirror == null || fresh(sink.mirror))
  {
    var stored := new EventList();
    store.Put(job, stored);
    var mirror: EventList? := null;
    if mirrored {
      mirror := new EventList();
    }
    sink := new EventSink(store, bus, job, mirror);
  }

  /** The stored log is what was emitted exactly when the mirror is another list, or when
      nothing was emitted: a shared list holds every event twice. */
  lemma {:induction false} LogIsWhatWasEmitted(events: seq<Event>, aliased: bool)
    ensures Stored(events, aliased) == events <==> !aliased || events == []
    ensures |Stored(events, aliased)| == if aliased then 2 * |events| else |events|
  {
    if events != [] {
      var n := |events| - 1;
      LogIsWhatWasEmitted(events[..n], aliased);
      if !aliased {
        assert events[..n] + [events[n]] == events;
      }
    }
  }

  /** The first thing a job on a shared list emits is already replayed twice. */
  method SharedListRepeats(bus: InProcessEventBus, job: JobId, e: Event) returns (history: seq<Event>)
    modifies bus.QueuesOf(job)
    ensures history == [e, e]
  {
    var store := new MemoryEventStore();
    var sink := StartOnMemoryStore(store, bus, job);
    sink.Emit(e);
    history := store.logs[job].items;
  }

  /** On a store that copies, mirrored or not, the history is what was emitted. */
  method CopyingStoreKeepsHistory(bus: InProcessEventBus, job: JobId, events: seq<Event>, mirrored: bool)
    returns (history: seq<Event>)
    modifies bus.QueuesOf(job)
    ensures history == events
  {
    var store := new MemoryEventStore();
    var sink := StartOnCopyingStore(store, bus, job, mirrored);
    sink.EmitAll(events);
    LogIsWhatWasEmitted(events, false);
    history := store.logs[job].items;
  }

  // ------------------------------------------------------------------- the subscriber loop

  /** The live half of a subscription: drop what is not newer than the last one delivered. */
  function Kept(replayed: nat, live: seq<Delivery>): seq<Delivery>
    decreases |live|
  {
    if live == [] then []
    else if live[0].0 <= replayed then Kept(replayed, live[1..])
    else [live[0]] + Kept(live[0].0, live[1..])
  }

  function Payloads(deliveries: seq<Delivery>): seq<Event> {
    seq(|deliveries|, i requires 0 <= i < |deliveries| => deliveries[i].1)
  }

  /** Everything a subscription yields, before it is cut at the first terminal event. */
  function Offered(history: seq<Event>, live: seq<Delivery>): seq<Event> {
    history + Payloads(Kept(|history|, live))
  }

  /** The replay: every stored event in turn, until one ends the job. */
  method ReplayHistory(history: seq<Event>) returns (yielded: seq<Event>, ended: bool)
    ensures yielded == UpToTerminal(history) && (ended <==> !NoTerminal(history))
  {
    hide UpToTerminal, IsTerminal, NoTerminal;
    yielded := [];
    NothingYet();
    for i := 0 to |history|
      invariant yielded == history[..i] && NoTerminal(yielded)
    {
      yielded := yielded + [history[i]];
      if IsTerminal(history[i]) {
        CutHere(history, i);
        return yielded, true;
      }
      NoTerminalGrows(history[..i], history[i]);
    }
    assert history[..|history|] == history;
    NothingToCut(history);
    ended := false;
  }

  /** The live feed: every event newer than the last one delivered, until one ends the job. */
  method FollowFeed(seen: nat, live: seq<Delivery>) returns (yielded: seq<Event>, ended: bool)
    ensures yielded == UpToTerminal(Payloads(Kept(seen, live)))
    ensures ended <==> !NoTerminal(Payloads(Kept(seen, live)))
  {
    ghost var offered := Payloads(Kept(seen, live));
    hide Kept, Payloads, UpToTerminal, IsTerminal, NoTerminal;
    yielded := [];
    var replayed := seen;
    NothingYet();
    NothingKept(replayed, live);
    for i := 0 to |live|
      invariant offered == yielded + Payloads(Kept(replayed, live[i..]))
      invariant NoTerminal(yielded)
    {
      NextKept(replayed, live, i);
      if live[i].0 > replayed {
        ghost var before := yielded;
        replayed := live[i].0;
        yielded := yielded + [live[i].1];
        OneMore(before, live[i].1, Payloads(Kept(replayed, live[i + 1..])));
        if IsTerminal(live[i].1) {
          CutHere(offered, |before|);
          return yielded, true;
        }
        NoTerminalGrows(before, live[i].1);
      }
    }
    NothingKept(replayed, live);
    assert offered == yielded;
    NothingToCut(offered);
    ended := false;
  }

  /** The generator: the history first, then the live feed. */
  method Subscribe(history: seq<Event>, live: seq<Delivery>) returns (yielded: seq<Event>, ended: bool)
    ensures yielded == UpToTerminal(Offered(history, live))
    ensures ended <==> !NoTerminal(Offered(history, live))
    ensures yielded <= Offered(history, live) && (if ended then yielded != [] else yielded == Offered(history, live))
    ensures forall i :: 0 <= i < |yielded| ==>
              (yielded[i] in {StatusEvent(Done), StatusEvent(Failed), StatusEvent(Cancelled)}
               <==> ended && i == |yielded| - 1)
  {
    hide Kept, Payloads, UpToTerminal, NoTerminal;
    yielded, ended := ReplayHistory(history);
    CutOfTwoParts(history, Payloads(Kept(|history|, live)));
    if !ended {
      NothingToCut(history);
      var more;
      more, ended := FollowFeed(|history|, live);
      yielded := yielded + more;
    }
    CutIsSpelledOut(Offered(history, live));
  }

  /** Cutting a sequence at its first terminal event, part by part. */
  lemma CutOfTwoParts(first: seq<Event>, second: seq<Event>)
    ensures NoTerminal(first + second) <==> NoTerminal(first) && NoTerminal(second)
    ensures UpToTerminal(first + second)
            == if NoTerminal(first) then first + UpToTerminal(second) else UpToTerminal(first)
  {
    var whole := first + second;
    assert forall i :: 0 <= i < |second| ==> whole[|first| + i] == second[i];
    if !NoTerminal(first) {
      UpToTerminalIsUnique(whole, UpToTerminal(first));
    } else if !NoTerminal(second) {
      var cut := UpToTerminal(second);
      var n := |cut| - 1;
      assert (first + cut)[..|first| + n] == first + cut[..n];
      UpToTerminalIsUnique(whole, first + cut);
    }
  }

  lemma NothingToCut(log: seq<Event>)
    requires NoTerminal(log)
    ensures UpToTerminal(log) == log
  {
  }

  lemma OneMore(before: seq<Event>, e: Event, rest: seq<Event>)
    ensures before + ([e] + rest) == (before + [e]) + rest
    ensures var whole := (before + [e]) + rest;
            whole[..|before|] == before && whole[..|before| + 1] == before + [e] && whole[|before|] == e
  {
  }

  lemma NothingYet()
    ensures NoTerminal([])
  {
  }

  lemma NothingKept(replayed: nat, live: seq<Delivery>)
    ensures Payloads(Kept(replayed, live[|live|..])) == []
    ensures live[0..] == live
  {
  }

  lemma NextKept(replayed: nat, live: seq<Delivery>, i: nat)
    requires i < |live|
    ensures Payloads(Kept(replayed, live[i..]))
            == if live[i].0 > replayed then [live[i].1] + Payloads(Kept(live[i].0, live[i + 1..]))
               else Payloads(Kept(replayed, live[i + 1..]))
  {
    assert live[i..][0] == live[i] && live[i..][1..] == live[i + 1..];
  }

  lemma CutHere(log: seq<Event>, n: nat)
    requires n < |log| && IsTerminal(log[n]) && NoTerminal(log[..n])
    ensures UpToTerminal(log) == log[..n + 1] && !NoTerminal(log)
  {
    assert log[..n + 1][..n] == log[..n];
    UpToTerminalIsUnique(log, log[..n + 1]);
  }

  /** Deliveries k + 1 .. m of a log, numbered as the store numbers them. */
  function Feed(log: seq<Event>, k: nat, m: nat): (live: seq<Delivery>)
    requires k <= m <= |log|
    ensures |live| == m - k
    ensures forall i :: 0 <= i < m - k ==> live[i] == (k + i + 1, log[k + i])
  {
    seq(m - k, i requires 0 <= i < m - k => (k + i + 1, log[k + i]))
  }

  /** A feed attached no later than the history was read completes it, whatever the overlap. */
  lemma {:induction false} OverlapIsExact(log: seq<Event>, n: nat, k: nat, m: nat)
    requires k <= n <= |log| && k <= m <= |log|
    ensures Kept(n, Feed(log, k, m)) == if m <= n then [] else Feed(log, n, m)
    decreases m - k
  {
    var live := Feed(log, k, m);
    if k < m {
      assert live[1..] == Feed(log, k + 1, m);
      OverlapIsExact(log, if k < n then n else k + 1, k + 1, m);
    }
  }

  lemma SubscriptionIsComplete(log: seq<Event>, n: nat, k: nat, m: nat)
    requires k <= n <= |log| && k <= m <= |log|
    ensures Offered(log[..n], Feed(log, k, m)) == log[..if n < m then m else n]
  {
    hide Kept;
    OverlapIsExact(log, n, k, m);
    if n < m {
      FeedPayloads(log, n, m);
    }
  }

  lemma FeedPayloads(log: seq<Event>, n: nat, m: nat)
    requires n <= m <= |log|
    ensures log[..n] + Payloads(Feed(log, n, m)) == log[..m]
  {
  }

  // On a log shared with the mirror the store answers 2, 4, 6, ... and holds every event twice.

  /** Deliveries k + 1 .. m of what was emitted, numbered as a store with a shared log numbers them. */
  function SharedFeed(events: seq<Event>, k: nat, m: nat): (live: seq<Delivery>)
    requires k <= m <= |events|
    ensures |live| == m - k
    ensures forall i :: 0 <= i < m - k ==> live[i] == (2 * (k + i + 1), events[k + i])
  {
    seq(m - k, i requires 0 <= i < m - k => (2 * (k + i + 1), events[k + i]))
  }

  lemma {:induction false} SharedOverlap(events: seq<Event>, n: nat, k: nat, m: nat)
    requires k <= m <= |events| && k <= n <= |events|
    ensures Kept(2 * n, SharedFeed(events, k, m)) == if m <= n then [] else SharedFeed(events, n, m)
    decreases m - k
  {
    var live := SharedFeed(events, k, m);
    if k < m {
      assert live[1..] == SharedFeed(events, k + 1, m);
      SharedOverlap(events, if k < n then n else k + 1, k + 1, m);
    }
  }

  /** A subscriber of a shared log is offered everything emitted before it read the history twice,
      and everything after once; that is what was emitted if and only if nothing was before. */
  lemma SharedLogIsOfferedTwice(events: seq<Event>, n: nat, k: nat, m: nat)
    requires k <= n <= m <= |events|
    ensures Offered(Stored(events[..n], true), SharedFeed(events, k, m)) == Stored(events[..n], true) + events[n..m]
    ensures Offered(Stored(events[..n], true), SharedFeed(events, k, m)) == events[..m] <==> n == 0
  {
    LogIsWhatWasEmitted(events[..n], true);
    SharedOverlap(events, n, k, m);
    assert Payloads(SharedFeed(events, n, m)) == events[n..m];
    hide Kept;
    assert n == 0 ==> Stored(events[..n], true) == [] && events[n..m] == events[..m];
  }

  lemma FirstTerminal(log: seq<Event>) returns (n: nat)
    ensures n <= |log| && NoTerminal(log[..n]) && (n < |log| ==> IsTerminal(log[n]))
  {
    n := 0;
    while n < |log| && !IsTerminal(log[n])
      invariant n <= |log| && NoTerminal(log[..n])
    {
      n := n + 1;
    }
  }

  /** Where an event stands in a shared log. */
  lemma {:induction false} StoredTwice(events: seq<Event>)
    ensures |Stored(events, true)| == 2 * |events|
    ensures forall i :: 0 <= i < |events| ==>
              Stored(events, true)[2 * i] == events[i] && Stored(events, true)[2 * i + 1] == events[i]
  {
    if events != [] {
      StoredTwice(events[..|events| - 1]);
    }
  }

  /** The first `n` events twice, the rest once. */
  ghost predicate IsTwiceThenOnce(offered: seq<Event>, events: seq<Event>, n: nat, m: nat)
    requires n <= m <= |events|
  {
    && |offered| == n + m
    && (forall i :: 0 <= i < 2 * n ==> offered[i] == events[i / 2])
    && (forall i :: 2 * n <= i < n + m ==> offered[i] == events[i - n])
  }

  lemma TwiceThenOnce(events: seq<Event>, n: nat, m: nat)
    requires n <= m <= |events|
    ensures IsTwiceThenOnce(Stored(events[..n], true) + events[n..m], events, n, m)
  {
    var twice := Stored(events[..n], true);
    StoredTwice(events[..n]);
    hide Stored;
    forall i | 0 <= i < 2 * n
      ensures (twice + events[n..m])[i] == events[i / 2]
    {
      assert i == 2 * (i / 2) || i == 2 * (i / 2) + 1;
      assert events[..n][i / 2] == events[i / 2];
    }
  }

  /** Where the first terminal event ends up. */
  lemma CutOfTwice(offered: seq<Event>, events: seq<Event>, n: nat, m: nat, t: nat)
    requires n <= m <= |events| && IsTwiceThenOnce(offered, events, n, m)
    requires t < m && IsTerminal(events[t]) && forall i :: 0 <= i < t ==> !IsTerminal(events[i])
    ensures |UpToTerminal(offered)| == 1 + if t < n then 2 * t else t + n
  {
    var u := if t < n then 2 * t else t + n;
    hide UpToTerminal, IsTerminal;
    assert IsTerminal(offered[u]);
    forall i | 0 <= i < u
      ensures !IsTerminal(offered[..u][i])
    {
      assert offered[..u][i] == offered[i] == if i < 2 * n then events[i / 2] else events[i - n];
    }
    CutHere(offered, u);
  }

  lemma NothingCutOfTwice(offered: seq<Event>, events: seq<Event>, n: nat, m: nat)
    requires n <= m <= |events| && IsTwiceThenOnce(offered, events, n, m)
    requires forall i :: 0 <= i < m ==> !IsTerminal(events[i])
    ensures UpToTerminal(offered) == offered && UpToTerminal(events[..m]) == events[..m]
  {
    hide IsTerminal;
    forall i | 0 <= i < |offered|
      ensures !IsTerminal(offered[i])
    {
      assert offered[i] == if i < 2 * n then events[i / 2] else events[i - n];
    }
    assert forall i :: 0 <= i < m ==> events[..m][i] == events[i];
  }

  /** What it yields of that, cut at the first terminal event, is what it should if and only if
      nothing was emitted before it read the history, or the very first event ended the job. */
  lemma SharedLogIsYieldedExactly(events: seq<Event>, n: nat, k: nat, m: nat)
    requires k <= n <= m <= |events|
    ensures UpToTerminal(Offered(Stored(events[..n], true), SharedFeed(events, k, m))) == UpToTerminal(events[..m])
            <==> n == 0 || IsTerminal(events[0])
  {
    SharedLogIsOfferedTwice(events, n, k, m);
    TwiceThenOnce(events, n, m);
    var offered := Stored(events[..n], true) + events[n..m];
    hide Stored, Offered, SharedFeed, IsTerminal;
    YieldedExactly(offered, events, n, m);
  }

  lemma YieldedExactly(offered: seq<Event>, events: seq<Event>, n: nat, m: nat)
    requires n <= m <= |events| && IsTwiceThenOnce(offered, events, n, m)
    ensures UpToTerminal(offered) == UpToTerminal(events[..m]) <==> n == 0 || IsTerminal(events[0])
  {
    var t := FirstTerminal(events[..m]);
    hide UpToTerminal, IsTerminal;
    forall i | 0 <= i < t
      ensures !IsTerminal(events[i])
    {
      assert events[..m][..t][i] == events[i];
    }
    if n == 0 {
      assert offered == events[..m];
    } else if t == m {
      NothingCutOfTwice(offered, events, n, m);
    } else {
      CutHere(events[..m], t);
      CutOfTwice(offered, events, n, m, t);
      if t == 0 {
        assert offered[..0] == [];
        CutHere(offered, 0);
        assert offered[0] == events[0];
      }
    }
  }

  ghost predicate InOrder(replayed: nat, live: seq<Delivery>) {
    && (forall i :: 0 <= i < |live| ==> replayed < live[i].0)
    && (forall i, j :: 0 <= i < j < |live| ==> live[i].0 < live[j].0)
  }

  /** What in-order publishing is for: of deliveries that are all news, the loop keeps every one
      exactly when they arrive in increasing order.  A bus that reorders loses an event. */
  lemma NothingIsLostExactlyInOrder(replayed: nat, live: seq<Delivery>)
    ensures Kept(replayed, live) == live <==> InOrder(replayed, live)
    decreases |live|
  {
    KeptIsInOrder(replayed, live);
    if InOrder(replayed, live) {
      InOrderIsKept(replayed, live);
    }
  }

  lemma {:induction false} KeptIsInOrder(replayed: nat, live: seq<Delivery>)
    ensures InOrder(replayed, Kept(replayed, live))
    decreases |live|
  {
    if live != [] {
      if live[0].0 <= replayed {
        KeptIsInOrder(replayed, live[1..]);
      } else {
        KeptIsInOrder(live[0].0, live[1..]);
      }
    }
  }

  lemma {:induction false} InOrderIsKept(replayed: nat, live: seq<Delivery>)
    requires InOrder(replayed, live)
    ensures Kept(replayed, live) == live
    decreases |live|
  {
    if live != [] {
      InOrderIsKept(live[0].0, live[1..]);
    }
  }

  lemma ReorderingLosesAnEvent(a: Event, b: Event)
    ensures Kept(0, [(2, b), (1, a)]) == [(2, b)]
  {
    assert [(2, b), (1, a)][1..] == [(1, a)];
    assert Kept(2, [(1, a)]) == [];
  }

  // -------------------------------------------------------- every interleaving of the parts

  datatype Phase = Attached | Replaying(history: seq<Event>) | Live | Finished | Abandoned

  datatype Subscriber = Subscriber(
    job: JobId, phase: Phase, queue: seq<Delivery>, replayed: nat, received: seq<Event>)

  /** The durable logs, how many events of each have been published, and who is listening. */
  datatype World = World(
    logs: map<JobId, seq<Event>>, published: map<JobId, nat>, subscribers: map<SubscriberId, Subscriber>)

  datatype Step =
    | StoreEvent(job: JobId, event: Event)
    | PublishNext(job: JobId)
    | Attach(id: SubscriberId, job: JobId)
    | ReadHistory(id: SubscriberId)
    | Advance(id: SubscriberId)
    | Abandon(id: SubscriberId)

  function Log(w: World, job: JobId): seq<Event> {
    if job in w.logs then w.logs[job] else []
  }

  function Published(w: World, job: JobId): nat {
    if job in w.published then w.published[job] else 0
  }

  predicate Listening(s: Subscriber) {
    s.phase.Attached? || s.phase.Replaying? || s.phase.Live?
  }

  /** Publishes of one job happen in the order of its sequence numbers; nothing else is ordered. */
  predicate Enabled(w: World, step: Step) {
    match step
    case StoreEvent(_, _) => true
    case PublishNext(job) => Published(w, job) < |Log(w, job)|
    case Attach(id, _) => id !in w.subscribers
    case ReadHistory(id) => id in w.subscribers && w.subscribers[id].phase.Attached?
    case Advance(id) =>
      && id in w.subscribers
      && (w.subscribers[id].phase.Replaying?
          || (w.subscribers[id].phase.Live? && w.subscribers[id].queue != []))
    case Abandon(id) => id in w.subscribers && Listening(w.subscribers[id])
  }

  function Enqueue(s: Subscriber, job: JobId, d: Delivery): Subscriber {
    if s.job == job && Listening(s) then s.(queue := s.queue + [d]) else s
  }

  function Yield(s: Subscriber, e: Event, replayed: nat, queue: seq<Delivery>): Subscriber {
    Subscriber(
      s.job, if IsTerminal(e) then Finished else s.phase,
      if IsTerminal(e) then [] else queue, replayed, s.received + [e])
  }

  /** One turn of a subscriber's loop. */
  function Turn(s: Subscriber): Subscriber
    requires s.phase.Replaying? || (s.phase.Live? && s.queue != [])
  {
    if s.phase.Replaying? then
      if s.replayed < |s.phase.history| then
        Yield(s, s.phase.history[s.replayed], s.replayed + 1, s.queue)
      else
        s.(phase := Live)
    else
      var (seqNo, e) := s.queue[0];
      if seqNo <= s.replayed then s.(queue := s.queue[1..])
      else Yield(s, e, seqNo, s.queue[1..])
  }

  function Apply(w: World, step: Step): World
    requires Enabled(w, step)
  {
    match step
    case StoreEvent(job, e) => w.(logs := w.logs[job := Log(w, job) + [e]])
    case PublishNext(job) =>
      var n := Published(w, job);
      var d := (n + 1, Log(w, job)[n]);
      World(
        w.logs, w.published[job := n + 1],
        map id | id in w.subscribers :: Enqueue(w.subscribers[id], job, d))
    case Attach(id, job) => w.(subscribers := w.subscribers[id := Subscriber(job, Attached, [], 0, [])])
    case ReadHistory(id) =>
      var s := w.subscribers[id];
      w.(subscribers := w.subscribers[id := s.(phase := Replaying(Log(w, s.job)))])
    case Advance(id) => w.(subscribers := w.subscribers[id := Turn(w.subscribers[id])])
    case Abandon(id) =>
      w.(subscribers := w.subscribers[id := w.subscribers[id].(phase := Abandoned, queue := [])])
  }

  predicate ValidRun(w: World, steps: seq<Step>)
    decreases |steps|
  {
    steps == [] || (Enabled(w, steps[0]) && ValidRun(Apply(w, steps[0]), steps[1..]))
  }

  function After(w: World, steps: seq<Step>): World
    requires ValidRun(w, steps)
    decreases |steps|
  {
    if steps == [] then w else After(Apply(w, steps[0]), steps[1..])
  }

  const Empty := World(map[], map[], map[])

  /** What holds of one subscriber, given its job's log and how much of it is published. */
  ghost predicate SubscriberInv(s: Subscriber, log: seq<Event>, published: nat) {
    && s.received <= log
    && (Listening(s) ==>
          && NoTerminal(s.received)
          && s.replayed == |s.received|
          && |s.queue| <= published <= |log|
          && s.queue == Feed(log, published - |s.queue|, published))
    && (s.phase.Attached? ==> s.replayed == 0)
    && (s.phase.Replaying? ==>
          && s.phase.history <= log
          && s.replayed <= |s.phase.history|
          && published - |s.queue| <= |s.phase.history|)
    && (s.phase.Live? ==> published - |s.queue| <= s.replayed)
    && (s.phase.Finished? ==>
          && s.received != [] && IsTerminal(s.received[|s.received| - 1])
          && NoTerminal(s.received[..|s.received| - 1]))
  }

  ghost predicate Inv(w: World) {
    && (forall job :: Published(w, job) <= |Log(w, job)|)
    && (forall id :: id in w.subscribers ==>
          var s := w.subscribers[id];
          SubscriberInv(s, Log(w, s.job), Published(w, s.job)))
  }

  lemma TurnKeepsInv(s: Subscriber, log: seq<Event>, published: nat)
    requires SubscriberInv(s, log, published)
    requires s.phase.Replaying? || (s.phase.Live? && s.queue != [])
    ensures SubscriberInv(Turn(s), log, published)
    ensures s.received <= Turn(s).received && Turn(s).job == s.job
  {
    hide NoTerminal, IsTerminal, Feed;
    if s.phase.Replaying? {
      if s.replayed < |s.phase.history| {
        YieldKeepsInv(s, log, published, s.queue);
      }
    } else {
      NextInQueue(s, log, published);
      if s.queue[0].0 > s.replayed {
        YieldKeepsInv(s, log, published, s.queue[1..]);
      }
    }
  }

  lemma NextInQueue(s: Subscriber, log: seq<Event>, published: nat)
    requires SubscriberInv(s, log, published) && s.phase.Live? && s.queue != []
    ensures var k := published - |s.queue|;
            && 0 <= k < published <= |log| && s.queue[0] == (k + 1, log[k])
            && s.queue[1..] == Feed(log, k + 1, published)
  {
    hide NoTerminal, IsTerminal;
  }

  /** Delivering the next event of the log. */
  lemma YieldKeepsInv(s: Subscriber, log: seq<Event>, published: nat, queue: seq<Delivery>)
    requires SubscriberInv(s, log, published) && published <= |log| && s.replayed < |log|
    requires s.phase.Replaying? || s.phase.Live?
    requires |queue| <= published && queue == Feed(log, published - |queue|, published)
    requires s.phase.Replaying? ==> queue == s.queue && s.replayed < |s.phase.history|
    requires s.phase.Live? ==> published - |queue| <= s.replayed + 1
    ensures SubscriberInv(Yield(s, log[s.replayed], s.replayed + 1, queue), log, published)
  {
    hide Feed, NoTerminal, IsTerminal, Log, Published;
    var e := log[s.replayed];
    assert s.received + [e] == log[..s.replayed + 1];
    if IsTerminal(e) {
      assert (s.received + [e])[..|s.received|] == s.received;
    } else {
      NoTerminalGrows(s.received, e);
    }
  }

  lemma NoTerminalGrows(events: seq<Event>, e: Event)
    requires NoTerminal(events) && !IsTerminal(e)
    ensures NoTerminal(events + [e])
  {
  }

  lemma EnqueueKeepsInv(s: Subscriber, job: JobId, log: seq<Event>, published: nat)
    requires s.job == job && SubscriberInv(s, log, published) && published < |log|
    ensures SubscriberInv(Enqueue(s, job, (published + 1, log[published])), log, published + 1)
    ensures Enqueue(s, job, (published + 1, log[published])).job == s.job
  {
    if Listening(s) {
      assert s.queue + [(published + 1, log[published])]
          == Feed(log, published - |s.queue|, published + 1);
    }
  }

  lemma LongerLogKeepsInv(s: Subscriber, log: seq<Event>, published: nat, e: Event)
    requires SubscriberInv(s, log, published) && published <= |log|
    ensures SubscriberInv(s, log + [e], published)
  {
    if Listening(s) {
      assert Feed(log + [e], published - |s.queue|, published)
          == Feed(log, published - |s.queue|, published);
    }
  }

  lemma SubscriberStepKeepsInv(w: World, step: Step, id: SubscriberId)
    requires Inv(w) && Enabled(w, step) && id in Apply(w, step).subscribers
    ensures var w' := Apply(w, step);
            SubscriberInv(
              w'.subscribers[id], Log(w', w'.subscribers[id].job), Published(w', w'.subscribers[id].job))
  {
    hide SubscriberInv, Turn, Enqueue;
    if id in w.subscribers {
      var s := w.subscribers[id];
      assert SubscriberInv(s, Log(w, s.job), Published(w, s.job));
      match step
      case StoreEvent(job, e) =>
        if s.job == job {
          LongerLogKeepsInv(s, Log(w, job), Published(w, job), e);
        }
      case PublishNext(job) =>
        if s.job == job {
          EnqueueKeepsInv(s, job, Log(w, job), Published(w, job));
        } else {
          OthersAreLeft(s, job, (Published(w, job) + 1, Log(w, job)[Published(w, job)]));
        }
      case Attach(_, _) =>
      case ReadHistory(reader) =>
        if id == reader {
          HistoryIsPrefix(s, Log(w, s.job), Published(w, s.job));
        }
      case Advance(reader) =>
        if id == reader {
          TurnKeepsInv(s, Log(w, s.job), Published(w, s.job));
        }
      case Abandon(leaver) =>
        if id == leaver {
          LeavingKeepsInv(s, Log(w, s.job), Published(w, s.job));
        }
    } else {
      AttachedInv(step.job, Log(w, step.job), Published(w, step.job));
    }
  }

  lemma OthersAreLeft(s: Subscriber, job: JobId, d: Delivery)
    requires s.job != job
    ensures Enqueue(s, job, d) == s
  {
  }

  lemma AttachedInv(job: JobId, log: seq<Event>, published: nat)
    requires published <= |log|
    ensures SubscriberInv(Subscriber(job, Attached, [], 0, []), log, published)
  {
  }

  lemma HistoryIsPrefix(s: Subscriber, log: seq<Event>, published: nat)
    requires SubscriberInv(s, log, published) && s.phase.Attached?
    ensures SubscriberInv(s.(phase := Replaying(log)), log, published)
  {
  }

  lemma LeavingKeepsInv(s: Subscriber, log: seq<Event>, published: nat)
    requires SubscriberInv(s, log, published)
    ensures SubscriberInv(s.(phase := Abandoned, queue := []), log, published)
  {
  }

  /** Every step keeps the invariant. */
  lemma StepKeepsInv(w: World, step: Step)
    requires Inv(w) && Enabled(w, step)
    ensures Inv(Apply(w, step))
  {
    hide SubscriberInv, Turn, Enqueue;
    var w' := Apply(w, step);
    forall job
      ensures Published(w', job) <= |Log(w', job)|
    {
      assert Published(w, job) <= |Log(w, job)|;
    }
    forall id | id in w'.subscribers
      ensures SubscriberInv(
                w'.subscribers[id], Log(w', w'.subscribers[id].job), Published(w', w'.subscribers[id].job))
    {
      SubscriberStepKeepsInv(w, step, id);
    }
  }

  lemma {:induction false} RunKeepsInv(w: World, steps: seq<Step>)
    requires Inv(w) && ValidRun(w, steps)
    ensures Inv(After(w, steps))
    decreases |steps|
  {
    if steps != [] {
      StepKeepsInv(w, steps[0]);
      RunKeepsInv(Apply(w, steps[0]), steps[1..]);
    }
  }

  /** Over every interleaving, on a log not shared with a mirror: what a subscriber has received is
      a prefix of its job's log, with no gap, repeat or reordering; one that ended by itself has the
      log up to and including the first event that says done, failed or cancelled; one that has caught
      up has all of it, and was not passed by such an event. */
  lemma DeliveryIsExact(steps: seq<Step>, id: SubscriberId)
    requires ValidRun(Empty, steps) && id in After(Empty, steps).subscribers
    ensures var w := After(Empty, steps);
            var s := w.subscribers[id];
            && s.received <= Log(w, s.job)
            && (s.phase.Finished? ==> s.received == UpToTerminal(Log(w, s.job)))
            && (s.phase.Live? && s.queue == [] && Published(w, s.job) == |Log(w, s.job)| ==>
                  s.received == Log(w, s.job) && NoTerminal(Log(w, s.job)))
    ensures var s := After(Empty, steps).subscribers[id];
            && (s.phase.Finished? ==> s.received != [])
            && (s.phase.Finished? || Listening(s) ==>
                  forall i :: 0 <= i < |s.received| ==>
                    (s.received[i] in {StatusEvent(Done), StatusEvent(Failed), StatusEvent(Cancelled)}
                     <==> s.phase.Finished? && i == |s.received| - 1))
  {
    RunKeepsInv(Empty, steps);
    var w := After(Empty, steps);
    var s := w.subscribers[id];
    assert SubscriberInv(s, Log(w, s.job), Published(w, s.job));
    CutIsSpelledOut(s.received);
    hide ValidRun, After, Inv, NoTerminal;
    if s.phase.Finished? {
      UpToTerminalIsUnique(Log(w, s.job), s.received);
      UpToTerminalIsUnique(s.received, s.received);
    }
  }

  lemma StepOnlyExtends(w: World, step: Step, id: SubscriberId, job: JobId)
    requires Inv(w) && Enabled(w, step)
    ensures Log(w, job) <= Log(Apply(w, step), job)
    ensures id in w.subscribers ==>
              && id in Apply(w, step).subscribers
              && w.subscribers[id].received <= Apply(w, step).subscribers[id].received
  {
  }

  /** Nothing delivered is taken back, and no log is rewritten. */
  lemma {:induction false} RunOnlyExtends(w: World, steps: seq<Step>, id: SubscriberId, job: JobId)
    requires Inv(w) && ValidRun(w, steps)
    ensures Log(w, job) <= Log(After(w, steps), job)
    ensures id in w.subscribers ==>
              && id in After(w, steps).subscribers
              && w.subscribers[id].received <= After(w, steps).subscribers[id].received
    decreases |steps|
  {
    if steps != [] {
      hide Inv, Apply, Enabled, Log;
      StepKeepsInv(w, steps[0]);
      StepOnlyExtends(w, steps[0], id, job);
      RunOnlyExtends(Apply(w, steps[0]), steps[1..], id, job);
    }
  }
}
