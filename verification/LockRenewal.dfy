/**
 The renewal loop of a lock holder: a timer renews the lock every half lifetime, but no more often
 than once a second, until the load that needs it has finished.
 */
module LockRenewal {
  import opened Options
  import opened RedisLock

  const MIN_RENEW_INTERVAL_MS: int := 1000

  function RenewInterval(lockTtlMs: int): (interval: int)
    requires lockTtlMs >= 0
  {
    if lockTtlMs / 2 > MIN_RENEW_INTERVAL_MS then lockTtlMs / 2 else MIN_RENEW_INTERVAL_MS
  }

  // The first renewal can come before the lock lapses exactly when the lifetime exceeds a second.  There
  // is at least a second between two renewals, and from two seconds on there are just two to a lifetime.
  lemma IntervalFitsLifetime(lockTtlMs: int)
    requires lockTtlMs >= 0
    ensures RenewInterval(lockTtlMs) < lockTtlMs <==> lockTtlMs > 1000
    ensures RenewInterval(lockTtlMs) >= 1000
    ensures lockTtlMs >= 2000 ==> 2 * RenewInterval(lockTtlMs) <= lockTtlMs < 2 * RenewInterval(lockTtlMs) + 2
    ensures lockTtlMs < 2000 ==> RenewInterval(lockTtlMs) == 1000
  {
  }

  // ---- A run seen from the holder ----

  // The times at which the holder's own renewals took effect.
  function Renewals(now: int, key: string, token: string, ttlMs: int, steps: seq<Step>): seq<int> {
    if steps == [] then []
    else
      var front, last := steps[..|steps| - 1], steps[|steps| - 1];
      Renewals(now, key, token, ttlMs, front) +
      if last == RenewStep(key, token, ttlMs) then [NowAfter(now, front)] else []
  }

  // Until the end of `steps` the holder has neither released the lock nor renewed it otherwise.
  ghost predicate OnlyRenews(steps: seq<Step>, key: string, token: string, ttlMs: int) {
    forall i :: 0 <= i < |steps| ==>
      && steps[i] != ReleaseStep(key, token)
      && (steps[i].RenewStep? && steps[i].key == key && steps[i].token == token ==> steps[i].ttlMs == ttlMs)
  }

  // The timer started at `started` fires every `interval`, and a renewal takes effect within
  // `latency` of its tick: whenever the k-th tick is that long ago, the renewal has happened.
  ghost predicate OnSchedule(now: int, renewals: seq<int>, started: int, interval: int, latency: int) {
    forall k: int {:trigger TickTime(started, interval, k)} ::
      k >= 1 && TickTime(started, interval, k) + latency <= now ==>
      exists r :: r in renewals && TickTime(started, interval, k) <= r
  }

  function TickTime(started: int, interval: int, k: int): int {
    started + k * interval
  }

  ghost predicate AlwaysOnSchedule(now: int, key: string, token: string, ttlMs: int, steps: seq<Step>,
                                   started: int, interval: int, latency: int) {
    forall i :: 0 <= i <= |steps| ==>
      OnSchedule(NowAfter(now, steps[..i]), Renewals(now, key, token, ttlMs, steps[..i]), started, interval, latency)
  }

  // The last tick whose renewal must have taken effect is less than interval + latency ago.
  lemma LatestTick(now: int, started: int, interval: int, latency: int) returns (k: int)
    requires interval > 0 && now >= started + interval + latency
    ensures k >= 1 && TickTime(started, interval, k) + latency <= now < TickTime(started, interval, k) + interval
            + latency
  {
    k := (now - started - latency) / interval;
    var rest := (now - started - latency) % interval;
    assert now - started - latency == k * interval + rest;
    ProductSign(k, interval);
  }

  lemma ProductSign(k: int, interval: int)
    requires interval > 0
    ensures k <= 0 ==> k * interval <= 0
  {
  }

  // On schedule, some renewal, or the acquisition itself, is less than `ttlMs` old.
  lemma RecentRenewal(now: int, acquired: int, started: int, interval: int, latency: int, ttlMs: int,
                      renewals: seq<int>)
    requires acquired <= started && interval > 0 && latency >= 0 && (started - acquired) + interval + latency < ttlMs
    requires OnSchedule(now, renewals, started, interval, latency)
    ensures now - acquired < ttlMs || exists r :: r in renewals && now - r < ttlMs
  {
    if now >= started + interval + latency {
      var k := LatestTick(now, started, interval, latency);
      var r :| r in renewals && TickTime(started, interval, k) <= r;
      assert now - r < ttlMs;
    }
  }

  // The deadline of a lease that is alive lies a full lifetime after the acquisition and after
  // every renewal.
  ghost predicate Covers(lease: Lease, acquired: int, renewals: seq<int>, ttlMs: int) {
    lease.Until? && lease.deadline >= acquired + ttlMs && forall r :: r in renewals ==> lease.deadline >= r + ttlMs
  }

  lemma {:induction false} RenewalsAreOver(now: int, key: string, token: string, ttlMs: int, steps: seq<Step>)
    ensures forall r :: r in Renewals(now, key, token, ttlMs, steps) ==> r <= NowAfter(now, steps)
    ensures now <= NowAfter(now, steps)
  {
    if steps == [] {
    } else {
      RenewalsAreOver(now, key, token, ttlMs, steps[..|steps| - 1]);
    }
  }

  // On schedule the holder's lease never lapses.
  lemma {:induction false} LeaseSurvives(acquired: int, key: string, token: string, ttlMs: int, steps: seq<Step>,
                                         started: int, interval: int, latency: int)
    requires acquired <= started && interval > 0 && latency >= 0 && (started - acquired) + interval + latency < ttlMs
    requires OnlyRenews(steps, key, token, ttlMs)
    requires AlwaysOnSchedule(acquired, key, token, ttlMs, steps, started, interval, latency)
    ensures Covers(OwnLease(Until(acquired + ttlMs), acquired, key, token, steps), acquired,
                   Renewals(acquired, key, token, ttlMs, steps), ttlMs)
  {
    if steps == [] {
    } else {
      var front, last := steps[..|steps| - 1], steps[|steps| - 1];
      FrontOnSchedule(acquired, key, token, ttlMs, steps, started, interval, latency);
      LeaseSurvives(acquired, key, token, ttlMs, front, started, interval, latency);
      RenewalsAreOver(acquired, key, token, ttlMs, front);
      assert steps[..|steps|] == steps;
      RecentRenewal(NowAfter(acquired, steps), acquired, started, interval, latency, ttlMs,
                    Renewals(acquired, key, token, ttlMs, steps));
    }
  }

  lemma FrontOnSchedule(now: int, key: string, token: string, ttlMs: int, steps: seq<Step>,
                        started: int, interval: int, latency: int)
    requires steps != [] && OnlyRenews(steps, key, token, ttlMs)
    requires AlwaysOnSchedule(now, key, token, ttlMs, steps, started, interval, latency)
    ensures OnlyRenews(steps[..|steps| - 1], key, token, ttlMs)
    ensures AlwaysOnSchedule(now, key, token, ttlMs, steps[..|steps| - 1], started, interval, latency)
  {
    var front := steps[..|steps| - 1];
    assert forall i :: 0 <= i <= |front| ==> front[..i] == steps[..i];
  }

  // With a lifetime above a second, and latencies that leave room for it, the holder's token stays
  // stored at every moment until it is released, however long the load takes.
  lemma LockContinuity(w: World, key: string, token: string, lockTtlMs: int, steps: seq<Step>, started: int,
                       latency: int)
    requires !Alive(w.locks, key, w.now) && TokenUnused(steps, token) && OnlyRenews(steps, key, token, lockTtlMs)
    requires lockTtlMs > MIN_RENEW_INTERVAL_MS && latency >= 0 && w.now <= started
    requires (started - w.now) + RenewInterval(lockTtlMs) + latency < lockTtlMs
    requires AlwaysOnSchedule(w.now, key, token, lockTtlMs, steps, started, RenewInterval(lockTtlMs), latency)
    ensures var w' := AfterAll(After(w, AcquireStep(key, token, lockTtlMs)), steps);
            HeldBy(w'.locks, key, token, w'.now)
  {
    LeaseSurvives(w.now, key, token, lockTtlMs, steps, started, RenewInterval(lockTtlMs), latency);
    HeldExactlyByOwnLease(After(w, AcquireStep(key, token, lockTtlMs)), key, token, steps);
  }

  // The holder only renews, and its renewals are on schedule with latencies that leave room for them.
  ghost predicate RenewedInTime(acquired: int, key: string, token: string, lockTtlMs: int, steps: seq<Step>) {
    OnlyRenews(steps, key, token, lockTtlMs) && lockTtlMs > MIN_RENEW_INTERVAL_MS &&
    exists started, latency {:trigger AlwaysOnSchedule(acquired, key, token, lockTtlMs, steps, started,
                                                       RenewInterval(lockTtlMs), latency)} ::
      && latency >= 0 && acquired <= started && (started - acquired) + RenewInterval(lockTtlMs) + latency < lockTtlMs
      && AlwaysOnSchedule(acquired, key, token, lockTtlMs, steps, started, RenewInterval(lockTtlMs), latency)
  }

  // Then its lease is alive at the end, when it is about to release the lock.
  lemma AliveAtRelease(acquired: int, key: string, token: string, lockTtlMs: int, steps: seq<Step>)
    requires RenewedInTime(acquired, key, token, lockTtlMs, steps)
    ensures OwnLease(Until(acquired + lockTtlMs), acquired, key, token, steps) != Gone
  {
    var started, latency :|
      && latency >= 0 && acquired <= started && (started - acquired) + RenewInterval(lockTtlMs) + latency < lockTtlMs
      && AlwaysOnSchedule(acquired, key, token, lockTtlMs, steps, started, RenewInterval(lockTtlMs), latency);
    LeaseSurvives(acquired, key, token, lockTtlMs, steps, started, RenewInterval(lockTtlMs), latency);
  }

  // With a lifetime of a second or less the lock has lapsed before the first tick, whatever the
  // latencies: without a renewal before `started` + interval, it is gone by then.
  lemma ShortLifetimeLapses(w: World, key: string, token: string, lockTtlMs: int, started: int)
    requires !Alive(w.locks, key, w.now) && 0 < lockTtlMs <= MIN_RENEW_INTERVAL_MS && w.now <= started
    ensures var wait := Tick(started + RenewInterval(lockTtlMs) - w.now);
            var w' := AfterAll(After(w, AcquireStep(key, token, lockTtlMs)), [wait]);
            w'.now == TickTime(started, RenewInterval(lockTtlMs), 1) && !Alive(w'.locks, key, w'.now)
  {
    var wait := Tick(started + RenewInterval(lockTtlMs) - w.now);
    var w1 := After(w, AcquireStep(key, token, lockTtlMs));
    assert [wait][..0] == [];
    assert AfterAll(w1, [wait]) == After(AfterAll(w1, []), wait);
  }

  // ---- The load under the lock ----

  datatype Reading = Hit | ServableStale | Nothing | Failed

  datatype Action = StartTimer | Recheck | Fetch | StopTimer | Release | WaitForPeer

  datatype Outcome = Returned | Threw

  // What happens on the server while the load goes on: time passes, the timer renews, other clients
  // call.
  method Meanwhile(client: RedisServer, now: int, steps: seq<Step>) returns (end: int)
    modifies client
    ensures World(end, client.locks) == AfterAll(World(now, old(client.locks)), steps)
  {
    end := now;
    for i := 0 to |steps|
      invariant World(end, client.locks) == AfterAll(World(now, old(client.locks)), steps[..i])
    {
      assert steps[..i + 1][..i] == steps[..i];
      match steps[i] {
        case Tick(ms) => end := end + ms;
        case AcquireStep(key, token, ttlMs) => var _ := client.SetNx(key, token, ttlMs, end);
        case RenewStep(key, token, ttlMs) => var _ := client.EvalRenew(key, token, ttlMs, end);
        case ReleaseStep(key, token) => client.EvalRelease(key, token, end);
      }
    }
    assert steps[..|steps|] == steps;
  }

  // The value found, or else a fetch of it.
  method UseOrFetch(found: Reading, fetched: Outcome) returns (log: seq<Action>, outcome: Outcome)
    ensures log == if found == Nothing then [Fetch] else []
    ensures outcome == Threw <==> found == Failed || (found == Nothing && fetched == Threw)
  {
    match found {
      case Hit => return [], Returned;
      case ServableStale => return [], Returned;
      case Failed => return [], Threw;
      case Nothing => return [Fetch], fetched;
    }
  }

  // One distributed load.  `found` is what the layers hold once the lock is held, or what polling for a
  // peer's value found; `fetched` is the fetch's own outcome; `during` is what happens on the server
  // until the load is over.  A load that holds the lock starts the timer first and looks at the layers
  // again before it fetches; however it ends, the timer is stopped and the lock released, last and once.
  // With scripts available the holder's lease is over then, and unless it had lapsed the next acquire
  // succeeds; with renewals in time it had not lapsed.
  method LoadWithLock(client: RedisServer, key: string, token: string, lockTtlMs: int, now: int, during: seq<Step>,
                      useLock: bool, acquireThrows: bool, failOpen: bool, found: Reading, fetched: Outcome,
                      releaseThrows: bool) returns (log: seq<Action>, outcome: Outcome, end: int)
    modifies client
    ensures var asked := useLock && !acquireThrows;
            var held := asked && !Alive(old(client.locks), LockKey(key), now);
            var lease := OwnLease(Until(now + lockTtlMs), now, LockKey(key), token, during);
            && (held ==> |log| >= 2 && log[|log| - 2..] == [StopTimer, Release] && Release !in log[..|log| - 1])
            && (held ==> log[..2] == [StartTimer, Recheck] && StartTimer !in log[1..])
            && (!held ==> Release !in log && StartTimer !in log)
            && (held && client.hasEval && !releaseThrows && lockTtlMs > 0 && TokenUnused(during, token) ==>
                  && !HeldBy(client.locks, LockKey(key), token, end)
                  && (lease != Gone ==> !Alive(client.locks, LockKey(key), end))
                  && (RenewedInTime(now, LockKey(key), token, lockTtlMs, during) ==>
                        lease != Gone && !Alive(client.locks, LockKey(key), end)))
            && (asked && !held ==> log != [] && log[0] == WaitForPeer)
            && (forall i, j :: 0 <= i < j < |log| ==> log[i] != log[j])
            && (Fetch in log <==> !useLock || (acquireThrows && failOpen) || (asked && found == Nothing))
            && (WaitForPeer in log <==> asked && !held)
            && (outcome == Threw <==> (if Fetch in log then fetched == Threw else acquireThrows || found == Failed)
                                      || (held && releaseThrows && !failOpen))
  {
    end := now;
    if !useLock || (acquireThrows && failOpen) {
      return [Fetch], fetched, end;
    }
    if acquireThrows {
      return [], Threw, end;
    }
    var handle := Acquire(client, key, token, lockTtlMs, now);
    var fetch;
    fetch, outcome := UseOrFetch(found, fetched);
    ghost var acquired := World(now, client.locks);
    end := Meanwhile(client, now, during);
    if handle == null {
      return [WaitForPeer] + fetch, outcome, end;
    }
    if lockTtlMs > 0 && TokenUnused(during, token) {
      HeldExactlyByOwnLease(acquired, LockKey(key), token, during);
      if RenewedInTime(now, LockKey(key), token, lockTtlMs, during) {
        AliveAtRelease(now, LockKey(key), token, lockTtlMs, during);
      }
    }
    if releaseThrows {
      outcome := if failOpen then outcome else Threw;
    } else {
      handle.Release(end);
    }
    log := [StartTimer, Recheck] + fetch + [StopTimer, Release];
  }
}
