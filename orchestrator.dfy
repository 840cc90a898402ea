/** The orchestrator (src/orchestrator.ts): a periodic tick that releases
    stale claims, forgets workers whose process has ended, and launches one
    worker per unclaimed granule up to a fixed capacity. Timers and process
    events become explicit method calls, the child process a record of the
    two fields the orchestrator reads, and spawning a function that may fail.
    The ghost fields `spawnCalls` and `killRequested` record the calls made
    to the process layer. */
module Orchestration {
  import opened Text
  import opened Granules
  import opened MemoryStore

  const MaxWorkers := 3
  const StaleClaimTimeoutMs := 30 * 60 * 1000
  const BootstrapContent := "Read README.md and plan the implementation of GRANULES"

  /** What the orchestrator observes of a child process. */
  datatype ProcessHandle = ProcessHandle(killed: bool, exitCode: Option<int>)

  datatype ActiveWorker = ActiveWorker(workerId: string, granuleId: string, process: ProcessHandle, startedAt: int)

  /** spawnWorker: the handle of the launched process, or None when it
      throws. */
  type Spawner = (string, Granule) -> Option<ProcessHandle>

  /** Worker ids are "W-" followed by the value of the worker counter. */
  function WorkerId(n: int): string {
    Numbered("W-", n)
  }

  /** A worker is finished once its process is killed or has an exit code. */
  predicate Exited(p: ProcessHandle) {
    p.killed || p.exitCode.Some?
  }

  /** The entries cleanup keeps. */
  function Survivors(active: map<string, ActiveWorker>): (r: map<string, ActiveWorker>)
    ensures |r| <= |active|
  {
    var r := map w | w in active && !Exited(active[w].process) :: active[w];
    SubsetCardinality(r.Keys, active.Keys);
    r
  }

  lemma SubsetCardinality<T>(a: set<T>, b: set<T>)
    requires a <= b
    ensures |a| <= |b|
  {
    if a != {} {
      var x :| x in a;
      SubsetCardinality(a - {x}, b - {x});
    }
  }

  /** listGranules().filter(g => g.state === "unclaimed"), in list order. */
  function UnclaimedOf(gs: seq<Granule>): (r: seq<Granule>)
    ensures |r| <= |gs|
    ensures forall g :: g in r <==> g in gs && g.state == Unclaimed
    decreases |gs|
  {
    if gs == [] then []
    else
      var rest := UnclaimedOf(gs[1..]);
      if gs[0].state == Unclaimed then [gs[0]] + rest else rest
  }

  /** How many spawns a tick attempts: min(MAX_WORKERS - active, unclaimed),
      and none when that is not positive. */
  function SpawnCount(active: nat, waiting: nat): (n: nat)
    ensures n <= waiting
    ensures active + n <= MaxWorkers || n == 0
    ensures n == 0 <==> active >= MaxWorkers || waiting == 0
    ensures n == waiting || active + n >= MaxWorkers
  {
    var slots := MaxWorkers - active;
    var m := if slots < waiting then slots else waiting;
    if m <= 0 then 0 else m
  }

  /** The active-worker map after spawning a worker under `workerId` for the
      granule `granule` filed under `granuleId`: unchanged when spawning
      throws, otherwise with an entry for the launched worker. */
  function Launch(active: map<string, ActiveWorker>, workerId: string, granuleId: string, granule: Granule,
                  spawn: Spawner, now: int): map<string, ActiveWorker>
  {
    match spawn(workerId, granule)
    case None => active
    case Some(handle) => active[workerId := ActiveWorker(workerId, granuleId, handle, now)]
  }

  /** The active-worker map after the first `n` spawn attempts of a tick,
      for `queue[0]` to `queue[n - 1]` in order, with worker ids issued from
      `first` on; it grows by at most one entry per attempt. */
  function Dispatched(active: map<string, ActiveWorker>, first: int, queue: seq<Granule>, n: nat,
                      spawn: Spawner, now: int): (r: map<string, ActiveWorker>)
    requires n <= |queue|
    ensures |r| <= |active| + n
    decreases n
  {
    if n == 0 then active
    else Launch(Dispatched(active, first, queue, n - 1, spawn, now),
                WorkerId(first + n - 1), queue[n - 1].id, queue[n - 1], spawn, now)
  }

  /** The last spawn attempt of a dispatch keeps every other entry and adds
      at most the entry for its own worker id, filed for its granule. */
  lemma DispatchedLast(active: map<string, ActiveWorker>, first: int, queue: seq<Granule>, n: nat,
                       spawn: Spawner, now: int)
    requires 0 < n <= |queue|
    ensures var before := Dispatched(active, first, queue, n - 1, spawn, now);
      var r := Dispatched(active, first, queue, n, spawn, now);
      && (forall w :: w in before && w != WorkerId(first + n - 1) ==> w in r && r[w] == before[w])
      && (forall w :: w in r ==>
            (w in before && r[w] == before[w]) || (w == WorkerId(first + n - 1) && r[w].granuleId == queue[n - 1].id))
  {
  }

  /** Dispatch keeps every entry that was already there, provided the ids it
      issues are new. */
  lemma {:induction false} DispatchKeepsExisting(active: map<string, ActiveWorker>, first: int,
                                                queue: seq<Granule>, n: nat, spawn: Spawner, now: int)
    requires n <= |queue| && FreshFrom(active, first)
    ensures var r := Dispatched(active, first, queue, n, spawn, now);
      forall w :: w in active ==> w in r && r[w] == active[w]
    decreases n
  {
    if n > 0 {
      DispatchKeepsExisting(active, first, queue, n - 1, spawn, now);
      assert WorkerId(first + n - 1) !in active;
      DispatchedLast(active, first, queue, n, spawn, now);
      KeptStep(active, Dispatched(active, first, queue, n - 1, spawn, now), Dispatched(active, first, queue, n, spawn, now),
               WorkerId(first + n - 1));
    }
  }

  /** The step of the lemma above, on maps alone: entries of `active` that
      `before` kept and that `r` keeps from `before` are kept by `r`. */
  lemma KeptStep(active: map<string, ActiveWorker>, before: map<string, ActiveWorker>,
                 r: map<string, ActiveWorker>, added: string)
    requires added !in active
    requires forall w :: w in active ==> w in before && before[w] == active[w]
    requires forall w :: w in before && w != added ==> w in r && r[w] == before[w]
    ensures forall w :: w in active ==> w in r && r[w] == active[w]
  {
  }

  /** Every entry dispatch adds records a spawn attempt: its key and its
      granule id are a (worker id, granule id) pair passed to spawn. */
  lemma {:induction false} DispatchedEntriesWereAttempted(active: map<string, ActiveWorker>, first: int,
                                                         queue: seq<Granule>, n: nat, spawn: Spawner, now: int)
    requires n <= |queue|
    ensures var r := Dispatched(active, first, queue, n, spawn, now);
      forall w :: w in r && w !in active ==> (w, r[w].granuleId) in Attempts(first, queue, n)
    decreases n
  {
    if n > 0 {
      DispatchedEntriesWereAttempted(active, first, queue, n - 1, spawn, now);
      DispatchedLast(active, first, queue, n, spawn, now);
      EntriesStep(active, Dispatched(active, first, queue, n - 1, spawn, now), Dispatched(active, first, queue, n, spawn, now),
                  Attempts(first, queue, n - 1), (WorkerId(first + n - 1), queue[n - 1].id));
    }
  }

  /** The step of the lemma above, on maps and pairs alone: an entry of
      `r` is new to `active` only if it is new in `before` or is the one
      added for `last`. */
  lemma EntriesStep(active: map<string, ActiveWorker>, before: map<string, ActiveWorker>,
                    r: map<string, ActiveWorker>, earlier: seq<(string, string)>, last: (string, string))
    requires forall w :: w in before && w !in active ==> (w, before[w].granuleId) in earlier
    requires forall w :: w in r ==> (w in before && r[w] == before[w]) || (w == last.0 && r[w].granuleId == last.1)
    ensures forall w :: w in r && w !in active ==> (w, r[w].granuleId) in earlier + [last]
  {
    assert (earlier + [last])[|earlier|] == last;
    assert forall p :: p in earlier ==> p in earlier + [last];
  }

  /** The (worker id, granule id) pairs the first `n` attempts pass to
      spawn. */
  function Attempts(first: int, queue: seq<Granule>, n: nat): (r: seq<(string, string)>)
    requires n <= |queue|
    ensures |r| == n
    ensures forall k :: 0 <= k < n ==> r[k] == (WorkerId(first + k), queue[k].id)
    decreases n
  {
    if n == 0 then []
    else Attempts(first, queue, n - 1) + [(WorkerId(first + n - 1), queue[n - 1].id)]
  }

  /** Recording one more attempt after `calls`. */
  lemma AttemptsStep(calls: seq<(string, string)>, first: int, queue: seq<Granule>, i: nat)
    requires i < |queue|
    ensures calls + Attempts(first, queue, i + 1)
         == (calls + Attempts(first, queue, i)) + [(WorkerId(first + i), queue[i].id)]
  {
  }

  /** The worker ids of one dispatch are pairwise different. */
  lemma AttemptIdsDistinct(first: int, queue: seq<Granule>, n: nat)
    requires n <= |queue|
    ensures forall i, j :: 0 <= i < j < n ==> Attempts(first, queue, n)[i].0 != Attempts(first, queue, n)[j].0
  {
    var attempts := Attempts(first, queue, n);
    forall i, j | 0 <= i < j < n
      ensures attempts[i].0 != attempts[j].0
    {
      WorkerIdsDiffer(first + i, first + j);
    }
  }

  /** An id issued for one counter value is not the id of another. */
  lemma OtherWorkerId(w: string, a: int, b: int)
    requires w == WorkerId(a) && a != b
    ensures w != WorkerId(b)
  {
    WorkerIdsDiffer(a, b);
  }

  /** Different counter values give different worker ids. */
  lemma WorkerIdsDiffer(a: int, b: int)
    requires a != b
    ensures WorkerId(a) != WorkerId(b)
  {
    if WorkerId(a) == WorkerId(b) {
      NumberedInjective("W-", a, b);
    }
  }

  /** No id the counter issues from `next` on is a key yet. */
  ghost predicate FreshFrom(active: map<string, ActiveWorker>, next: int) {
    forall n :: n >= next ==> WorkerId(n) !in active
  }

  /** A tick's stale release leaves a store of unclaimed granules as it
      is. */
  lemma FreshGranulesStay(before: map<string, Granule>, after: map<string, Granule>, now: int)
    requires after.Keys == before.Keys
    requires forall id :: id in after ==> after[id] == ReleasedIfStale(before[id], now, StaleClaimTimeoutMs)
    ensures (forall id :: id in before ==> before[id].state == Unclaimed) ==> after == before
  {
  }

  /** The loop of stop() over the active workers: each one's process is
      asked to terminate (a kill that throws is ignored), so the workers
      asked are exactly the active ones. */
  method KillAll(active: map<string, ActiveWorker>) returns (killed: set<string>)
    ensures killed == active.Keys
  {
    killed := {};
    var pending := active.Keys;
    while pending != {}
      invariant pending <= active.Keys
      invariant killed == active.Keys - pending
      decreases pending
    {
      var w :| w in pending;
      killed := killed + {w};
      pending := pending - {w};
    }
  }

  /** The first loop of cleanupCompletedWorkers(): collects exactly the
      workers whose process is finished. */
  method FinishedWorkers(active: map<string, ActiveWorker>) returns (toRemove: set<string>)
    ensures forall w :: w in toRemove <==> w in active && Exited(active[w].process)
  {
    toRemove := {};
    var pending := active.Keys;
    while pending != {}
      invariant pending <= active.Keys
      invariant forall w :: w in toRemove <==> w in active && w !in pending && Exited(active[w].process)
      decreases pending
    {
      var w :| w in pending;
      if Exited(active[w].process) {
        toRemove := toRemove + {w};
      }
      pending := pending - {w};
    }
  }

  /** The second loop of cleanupCompletedWorkers(): deletes each collected
      worker and keeps every other entry as it was. */
  method DeleteWorkers(active: map<string, ActiveWorker>, toRemove: set<string>)
    returns (remaining: map<string, ActiveWorker>)
    ensures remaining.Keys == active.Keys - toRemove
    ensures forall w :: w in remaining ==> remaining[w] == active[w]
  {
    remaining := active;
    var pending := toRemove;
    while pending != {}
      invariant pending <= toRemove
      invariant remaining.Keys == active.Keys - (toRemove - pending)
      invariant forall w :: w in remaining ==> remaining[w] == active[w]
      decreases pending
    {
      var w :| w in pending;
      remaining := remaining - {w};
      pending := pending - {w};
    }
  }

  class Orchestrator {
    const store: GranuleStore
    var activeWorkers: map<string, ActiveWorker>
    var nextWorkerId: int
    /** Whether loopInterval holds a timer handle. */
    var loopScheduled: bool
    /** How many interval timers set by start() are still running: stop()
        clears only the one loopInterval holds. */
    ghost var liveTimers: nat
    var serverStarted: bool
    /** Every call made to spawnWorker: (worker id, granule id). */
    ghost var spawnCalls: seq<(string, string)>
    /** Every worker whose process stop() asked to kill. */
    ghost var killRequested: set<string>

    /** Every active worker is filed under its own id, and no id the worker
        counter has yet to issue is in use. */
    ghost predicate Valid()
      reads this
    {
      && nextWorkerId >= 1
      && (forall w :: w in activeWorkers ==> activeWorkers[w].workerId == w)
      && FreshFrom(activeWorkers, nextWorkerId)
      && (loopScheduled ==> liveTimers >= 1)
    }

    /** At most MAX_WORKERS workers are active. */
    predicate WithinCapacity()
      reads this
    {
      |activeWorkers| <= MaxWorkers
    }

    constructor (store: GranuleStore)
      ensures Valid() && WithinCapacity()
      ensures this.store == store && activeWorkers == map[] && nextWorkerId == 1
      ensures !loopScheduled && liveTimers == 0 && !serverStarted && spawnCalls == [] && killRequested == {}
    {
      this.store := store;
      activeWorkers := map[];
      nextWorkerId := 1;
      loopScheduled := false;
      liveTimers := 0;
      serverStarted := false;
      spawnCalls := [];
      killRequested := {};
    }

    /** start(): starts the server once, bootstraps an empty store, sets a
        new interval timer for the tick (one set by an earlier start() keeps
        running) and runs one tick at once, with the outcome tick() promises
        over the bootstrapped store. */
    method Start(now: int, spawn: Spawner)
      requires Valid() && store.Valid()
      modifies this, store
      ensures Valid() && store.Valid()
      ensures serverStarted && loopScheduled && liveTimers == old(liveTimers) + 1
      ensures old(WithinCapacity()) ==> WithinCapacity()
      ensures old(store.order) == [] ==> store.order == [GranuleId(1)]
      ensures old(store.order) == [] ==>
        store.granules == map[GranuleId(1) := NewGranule(GranuleId(1), Plan, BootstrapContent, None, now)]
      ensures old(store.order) != [] ==> store.order == old(store.order) && store.nextId == old(store.nextId)
      ensures old(store.order) != [] ==> store.granules.Keys == old(store.granules).Keys
      ensures old(store.order) != [] ==> forall id :: id in store.granules ==>
        store.granules[id] == ReleasedIfStale(old(store.granules)[id], now, StaleClaimTimeoutMs)
      ensures var survivors := Survivors(old(activeWorkers));
              var queue := UnclaimedOf(store.ListGranules());
              var n := SpawnCount(|survivors|, |queue|);
              && nextWorkerId == old(nextWorkerId) + n
              && activeWorkers == Dispatched(survivors, old(nextWorkerId), queue, n, spawn, now)
              && spawnCalls == old(spawnCalls) + Attempts(old(nextWorkerId), queue, n)
      ensures killRequested == old(killRequested)
    {
      if !serverStarted {
        serverStarted := true;
      }
      Bootstrap(now);
      ghost var booted := store.granules;
      ScheduleAndTick(now, spawn);
      FreshGranulesStay(booted, store.granules, now);
    }

    /** The last two steps of start(): a new interval timer is set and
        loopInterval holds it, then one tick runs at once. */
    method ScheduleAndTick(now: int, spawn: Spawner)
      requires Valid() && store.Valid()
      modifies this, store
      ensures Valid() && store.Valid()
      ensures loopScheduled && liveTimers == old(liveTimers) + 1 && serverStarted == old(serverStarted)
      ensures store.granules.Keys == old(store.granules).Keys
      ensures forall id :: id in store.granules ==>
        store.granules[id] == ReleasedIfStale(old(store.granules)[id], now, StaleClaimTimeoutMs)
      ensures store.order == old(store.order) && store.nextId == old(store.nextId)
      ensures var survivors := Survivors(old(activeWorkers));
              var queue := UnclaimedOf(store.ListGranules());
              var n := SpawnCount(|survivors|, |queue|);
              && nextWorkerId == old(nextWorkerId) + n
              && activeWorkers == Dispatched(survivors, old(nextWorkerId), queue, n, spawn, now)
              && spawnCalls == old(spawnCalls) + Attempts(old(nextWorkerId), queue, n)
      ensures old(WithinCapacity()) ==> WithinCapacity()
      ensures killRequested == old(killRequested)
    {
      loopScheduled, liveTimers := true, liveTimers + 1;
      assert activeWorkers == old(activeWorkers) && nextWorkerId == old(nextWorkerId);
      assert spawnCalls == old(spawnCalls) && killRequested == old(killRequested);
      Tick(now, spawn);
    }

    /** The bootstrap step of start(): exactly one plan granule is created
        when the store is empty, and the store is left alone otherwise. */
    method Bootstrap(now: int)
      requires store.Valid()
      modifies store
      ensures store.Valid()
      ensures old(store.order) == [] ==> store.order == [GranuleId(1)] && store.nextId == 2
      ensures old(store.order) == [] ==>
        store.granules == map[GranuleId(1) := NewGranule(GranuleId(1), Plan, BootstrapContent, None, now)]
      ensures old(store.order) != [] ==>
        store.granules == old(store.granules) && store.order == old(store.order) && store.nextId == old(store.nextId)
    {
      var granules := store.ListGranules();
      if |granules| == 0 {
        var g := store.CreateGranule(Plan, BootstrapContent, now);
      }
    }

    /** stop(): clears the timer loopInterval holds, if any, asks every
        active worker's process to terminate (a failing kill is ignored) and
        empties the active set. */
    method Stop()
      requires Valid()
      modifies this
      ensures Valid() && WithinCapacity()
      ensures activeWorkers == map[] && !loopScheduled
      ensures liveTimers == old(liveTimers) - (if old(loopScheduled) then 1 else 0)
      ensures killRequested == old(killRequested) + old(activeWorkers).Keys
      ensures nextWorkerId == old(nextWorkerId) && serverStarted == old(serverStarted)
      ensures spawnCalls == old(spawnCalls)
    {
      if loopScheduled {
        liveTimers := liveTimers - 1;
        loopScheduled := false;
      }
      var killed := KillAll(activeWorkers);
      killRequested := killRequested + killed;
      activeWorkers := map[];
    }

    /** start() twice and then stop(): the timer set by the first start() is
        never cleared, since loopInterval only holds the last one. */
    method StartTwiceThenStop(now: int, spawn: Spawner)
      requires Valid() && store.Valid()
      modifies this, store
      ensures liveTimers == old(liveTimers) + 1 && !loopScheduled && activeWorkers == map[]
    {
      Start(now, spawn);
      Start(now, spawn);
      Stop();
    }

    /** tick(): releases claims older than 30 minutes, drops the finished
        workers, then attempts a spawn for each of the first
        min(MAX_WORKERS - active, unclaimed) unclaimed granules in list order,
        issuing one worker id per attempt. Dispatch changes no granule. */
    method Tick(now: int, spawn: Spawner)
      requires Valid() && store.Valid()
      modifies this, store
      ensures Valid() && store.Valid()
      ensures store.granules.Keys == old(store.granules).Keys
      ensures forall id :: id in store.granules ==>
        store.granules[id] == ReleasedIfStale(old(store.granules)[id], now, StaleClaimTimeoutMs)
      ensures store.order == old(store.order) && store.nextId == old(store.nextId)
      ensures var survivors := Survivors(old(activeWorkers));
              var queue := UnclaimedOf(store.ListGranules());
              var n := SpawnCount(|survivors|, |queue|);
              && nextWorkerId == old(nextWorkerId) + n
              && activeWorkers == Dispatched(survivors, old(nextWorkerId), queue, n, spawn, now)
              && spawnCalls == old(spawnCalls) + Attempts(old(nextWorkerId), queue, n)
              && |activeWorkers| <= |survivors| + n
      ensures |Survivors(old(activeWorkers))| <= MaxWorkers ==> WithinCapacity()
      ensures old(WithinCapacity()) ==> WithinCapacity()
      ensures loopScheduled == old(loopScheduled) && liveTimers == old(liveTimers) && serverStarted == old(serverStarted)
      ensures killRequested == old(killRequested)
    {
      var released := store.ReleaseStaleClaims(StaleClaimTimeoutMs, now);
      CleanupCompletedWorkers();
      var unclaimed := UnclaimedOf(store.ListGranules());
      var toSpawn := SpawnCount(|activeWorkers|, |unclaimed|);
      forall i | 0 <= i < toSpawn
        ensures unclaimed[i].id in store.granules && store.granules[unclaimed[i].id] == unclaimed[i]
      {
        assert unclaimed[i] in store.ListGranules();
      }
      Dispatch(unclaimed, toSpawn, now, spawn);
    }

    /** The spawn loop of tick(): one spawn attempt for each of the first
        `toSpawn` unclaimed granules, in order. */
    method Dispatch(unclaimed: seq<Granule>, toSpawn: nat, now: int, spawn: Spawner)
      requires Valid()
      requires toSpawn <= |unclaimed|
      requires forall i :: 0 <= i < toSpawn ==>
        unclaimed[i].id in store.granules && store.granules[unclaimed[i].id] == unclaimed[i]
      modifies this
      ensures Valid()
      ensures nextWorkerId == old(nextWorkerId) + toSpawn
      ensures activeWorkers == Dispatched(old(activeWorkers), old(nextWorkerId), unclaimed, toSpawn, spawn, now)
      ensures spawnCalls == old(spawnCalls) + Attempts(old(nextWorkerId), unclaimed, toSpawn)
      ensures loopScheduled == old(loopScheduled) && liveTimers == old(liveTimers) && serverStarted == old(serverStarted)
      ensures killRequested == old(killRequested)
    {
      ghost var start, first, calls := activeWorkers, nextWorkerId, spawnCalls;
      var i := 0;
      while i < toSpawn
        invariant 0 <= i <= toSpawn
        invariant Valid()
        invariant nextWorkerId == first + i
        invariant activeWorkers == Dispatched(start, first, unclaimed, i, spawn, now)
        invariant spawnCalls == calls + Attempts(first, unclaimed, i)
        invariant loopScheduled == old(loopScheduled) && liveTimers == old(liveTimers) && serverStarted == old(serverStarted)
        invariant killRequested == old(killRequested)
      {
        AttemptsStep(calls, first, unclaimed, i);
        SpawnNext(start, first, unclaimed, i, now, spawn);
        i := i + 1;
      }
    }

    /** One step of the dispatch loop: the attempt for `unclaimed[i]`. */
    method SpawnNext(ghost start: map<string, ActiveWorker>, ghost first: int, unclaimed: seq<Granule>, i: nat,
                     now: int, spawn: Spawner)
      requires Valid()
      requires i < |unclaimed| && nextWorkerId == first + i
      requires activeWorkers == Dispatched(start, first, unclaimed, i, spawn, now)
      requires unclaimed[i].id in store.granules && store.granules[unclaimed[i].id] == unclaimed[i]
      modifies this
      ensures Valid()
      ensures nextWorkerId == first + i + 1
      ensures activeWorkers == Dispatched(start, first, unclaimed, i + 1, spawn, now)
      ensures spawnCalls == old(spawnCalls) + [(WorkerId(first + i), unclaimed[i].id)]
      ensures loopScheduled == old(loopScheduled) && liveTimers == old(liveTimers) && serverStarted == old(serverStarted)
      ensures killRequested == old(killRequested)
    {
      SpawnWorkerForGranule(unclaimed[i].id, now, spawn);
    }

    /** cleanupCompletedWorkers(): collects the workers whose process is
        killed or has an exit code, then deletes exactly those. */
    method CleanupCompletedWorkers()
      requires Valid()
      modifies this
      ensures Valid()
      ensures activeWorkers == Survivors(old(activeWorkers))
      ensures nextWorkerId == old(nextWorkerId) && spawnCalls == old(spawnCalls)
      ensures loopScheduled == old(loopScheduled) && liveTimers == old(liveTimers) && serverStarted == old(serverStarted)
      ensures killRequested == old(killRequested)
    {
      var toRemove := FinishedWorkers(activeWorkers);
      var remaining := DeleteWorkers(activeWorkers, toRemove);
      assert remaining == Survivors(activeWorkers);
      activeWorkers := remaining;
    }

    /** spawnWorkerForGranule(): always consumes the next worker id; a
        missing granule ends the attempt before spawning, a throwing spawn
        after it, and a launched process is filed under the new id. */
    method SpawnWorkerForGranule(granuleId: string, now: int, spawn: Spawner)
      requires Valid()
      modifies this
      ensures Valid()
      ensures nextWorkerId == old(nextWorkerId) + 1
      ensures WorkerId(old(nextWorkerId)) !in old(activeWorkers)
      ensures store.granules == old(store.granules)
      ensures granuleId !in store.granules ==> activeWorkers == old(activeWorkers) && spawnCalls == old(spawnCalls)
      ensures granuleId in store.granules ==>
        && activeWorkers == Launch(old(activeWorkers), WorkerId(old(nextWorkerId)), granuleId, store.granules[granuleId], spawn, now)
        && spawnCalls == old(spawnCalls) + [(WorkerId(old(nextWorkerId)), granuleId)]
      ensures loopScheduled == old(loopScheduled) && liveTimers == old(liveTimers) && serverStarted == old(serverStarted)
      ensures killRequested == old(killRequested)
    {
      var workerId := WorkerId(nextWorkerId);
      forall n | n >= nextWorkerId + 1
        ensures WorkerId(n) != workerId
      {
        WorkerIdsDiffer(n, nextWorkerId);
      }
      nextWorkerId := nextWorkerId + 1;
      if granuleId !in store.granules {
        return;
      }
      var granule := store.granules[granuleId];
      var handle := spawn(workerId, granule);
      spawnCalls := spawnCalls + [(workerId, granuleId)];
      if handle.None? {
        return;
      }
      activeWorkers := activeWorkers[workerId := ActiveWorker(workerId, granuleId, handle.value, now)];
    }

    /** The "exit" and "error" handlers of a spawned process: both delete
        that worker's entry and nothing else. */
    method WorkerExited(workerId: string)
      requires Valid()
      modifies this
      ensures Valid()
      ensures activeWorkers == old(activeWorkers) - {workerId}
      ensures old(WithinCapacity()) ==> WithinCapacity()
      ensures nextWorkerId == old(nextWorkerId) && spawnCalls == old(spawnCalls)
      ensures loopScheduled == old(loopScheduled) && liveTimers == old(liveTimers) && serverStarted == old(serverStarted)
      ensures killRequested == old(killRequested)
    {
      activeWorkers := activeWorkers - {workerId};
    }

    /** The runtime updating a child process's `killed` or `exitCode`, which
        the next cleanup observes. */
    method ProcessStateChanged(workerId: string, process: ProcessHandle)
      requires Valid()
      modifies this
      ensures Valid()
      ensures workerId in old(activeWorkers) ==>
        activeWorkers == old(activeWorkers)[workerId := old(activeWorkers)[workerId].(process := process)]
      ensures workerId !in old(activeWorkers) ==> activeWorkers == old(activeWorkers)
      ensures old(WithinCapacity()) ==> WithinCapacity()
      ensures nextWorkerId == old(nextWorkerId) && spawnCalls == old(spawnCalls)
      ensures loopScheduled == old(loopScheduled) && liveTimers == old(liveTimers) && serverStarted == old(serverStarted)
      ensures killRequested == old(killRequested)
    {
      if workerId in activeWorkers {
        activeWorkers := activeWorkers[workerId := activeWorkers[workerId].(process := process)];
      }
    }
  }
}
