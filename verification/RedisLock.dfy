/**
 The token-fenced Redis lock: the client object, and safety over all runs of clients and time.

 The store maps a lock key to a token and an expiry.  Every script runs atomically on the server.
 The main result says that whether a token still holds its lock depends on that token's own calls
 and on time only, whatever the other clients do.
 */
module RedisLock {
  import opened Options

  datatype Lock = Lock(token: string, expiresAt: int)

  type Locks = map<string, Lock>

  // A key whose time has come is as good as absent.
  predicate Alive(locks: Locks, key: string, now: int) {
    key in locks && now < locks[key].expiresAt
  }

  predicate HeldBy(locks: Locks, key: string, token: string, now: int) {
    Alive(locks, key, now) && locks[key].token == token
  }

  // SET key token NX PX ttl
  function SetIfAbsent(locks: Locks, key: string, token: string, ttlMs: int, now: int): Locks {
    if Alive(locks, key, now) then locks else locks[key := Lock(token, now + ttlMs)]
  }

  // Compare-and-extend; a lifetime that is not positive deletes the key.
  function ExtendIfHeld(locks: Locks, key: string, token: string, ttlMs: int, now: int): Locks {
    if !HeldBy(locks, key, token, now) then locks
    else if ttlMs <= 0 then locks - {key}
    else locks[key := Lock(token, now + ttlMs)]
  }

  // Compare-and-delete
  function DeleteIfHeld(locks: Locks, key: string, token: string, now: int): Locks {
    if HeldBy(locks, key, token, now) then locks - {key} else locks
  }

  // ---- The client ----

  class RedisServer {
    const hasEval: bool
    var locks: Locks

    constructor (hasEval: bool)
      ensures this.hasEval == hasEval && locks == map[]
    {
      this.hasEval, locks := hasEval, map[];
    }

    method SetNx(key: string, token: string, ttlMs: int, now: int) returns (ok: bool)
      modifies this
      ensures ok <==> !Alive(old(locks), key, now)
      ensures locks == SetIfAbsent(old(locks), key, token, ttlMs, now)
    {
      if key in locks && now < locks[key].expiresAt {
        return false;
      }
      locks := locks[key := Lock(token, now + ttlMs)];
      return true;
    }

    method EvalRenew(key: string, token: string, ttlMs: int, now: int) returns (renewed: int)
      modifies this
      ensures renewed == 1 <==> HeldBy(old(locks), key, token, now)
      ensures locks == ExtendIfHeld(old(locks), key, token, ttlMs, now)
    {
      if key in locks && now < locks[key].expiresAt && locks[key].token == token {
        locks := if ttlMs <= 0 then locks - {key} else locks[key := Lock(token, now + ttlMs)];
        return 1;
      }
      return 0;
    }

    method EvalRelease(key: string, token: string, now: int)
      modifies this
      ensures locks == DeleteIfHeld(old(locks), key, token, now)
    {
      if key in locks && now < locks[key].expiresAt && locks[key].token == token {
        locks := locks - {key};
      }
    }
  }

  const PREFIX := "__safecache:locks"

  function LockKey(key: string): string {
    PREFIX + ":" + key
  }

  // Different keys have different locks.
  lemma LockKeyInjective(a: string, b: string)
    ensures LockKey(a) == LockKey(b) <==> a == b
  {
    if LockKey(a) == LockKey(b) {
      assert LockKey(a)[|PREFIX| + 1..] == a && LockKey(b)[|PREFIX| + 1..] == b;
    }
  }

  class LockHandle {
    const client: RedisServer
    const lockKey: string
    const token: string

    constructor (client: RedisServer, lockKey: string, token: string)
      ensures this.client == client && this.lockKey == lockKey && this.token == token
    {
      this.client, this.lockKey, this.token := client, lockKey, token;
    }

    // Without scripts the lock cannot be extended safely, and is reported as no longer held.
    method Renew(ttlMs: int, now: int) returns (stillHeld: bool)
      modifies client
      ensures stillHeld <==> client.hasEval && HeldBy(old(client.locks), lockKey, token, now)
      ensures client.locks == if client.hasEval then ExtendIfHeld(old(client.locks), lockKey, token, ttlMs, now)
                              else old(client.locks)
    {
      if !client.hasEval {
        return false;
      }
      var renewed := client.EvalRenew(lockKey, token, ttlMs, now);
      stillHeld := renewed == 1;
    }

    // Without scripts the lock is left to expire.
    method Release(now: int)
      modifies client
      ensures client.locks == if client.hasEval then DeleteIfHeld(old(client.locks), lockKey, token, now)
                              else old(client.locks)
    {
      if client.hasEval {
        client.EvalRelease(lockKey, token, now);
      }
    }
  }

  method Acquire(client: RedisServer, key: string, token: string, ttlMs: int, now: int) returns (handle: LockHandle?)
    modifies client
    ensures handle != null <==> !Alive(old(client.locks), LockKey(key), now)
    ensures handle != null ==>
              fresh(handle) && handle.client == client && handle.lockKey == LockKey(key) && handle.token == token
    ensures client.locks == SetIfAbsent(old(client.locks), LockKey(key), token, ttlMs, now)
    ensures handle != null ==> forall at :: HeldBy(client.locks, LockKey(key), token, at) <==> at < now + ttlMs
    ensures forall other, holder, at :: other != key ==>
              (HeldBy(client.locks, LockKey(other), holder, at)
               <==> HeldBy(old(client.locks), LockKey(other), holder, at))
  {
    forall other ensures LockKey(other) == LockKey(key) <==> other == key {
      LockKeyInjective(other, key);
    }
    var ok := client.SetNx(LockKey(key), token, ttlMs, now);
    if ok {
      handle := new LockHandle(client, LockKey(key), token);
    } else {
      handle := null;
    }
  }

  // ---- Runs of any number of clients ----

  datatype Step =
    | Tick(ms: nat)
    | AcquireStep(key: string, token: string, ttlMs: int)
    | RenewStep(key: string, token: string, ttlMs: int)
    | ReleaseStep(key: string, token: string)

  datatype World = World(now: int, locks: Locks)

  function After(w: World, step: Step): World {
    match step
    case Tick(ms) => w.(now := w.now + ms)
    case AcquireStep(key, token, ttlMs) => w.(locks := SetIfAbsent(w.locks, key, token, ttlMs, w.now))
    case RenewStep(key, token, ttlMs) => w.(locks := ExtendIfHeld(w.locks, key, token, ttlMs, w.now))
    case ReleaseStep(key, token) => w.(locks := DeleteIfHeld(w.locks, key, token, w.now))
  }

  function AfterAll(w: World, steps: seq<Step>): World {
    if steps == [] then w else After(AfterAll(w, steps[..|steps| - 1]), steps[|steps| - 1])
  }

  // What a token's own calls on one key, and time, make of its lease; other clients play no part.
  datatype Lease = Gone | Until(deadline: int)

  function OwnStep(lease: Lease, now: int, key: string, token: string, step: Step): Lease {
    if lease == Gone then Gone else
    match step
    case Tick(ms) => if now + ms < lease.deadline then lease else Gone
    case AcquireStep(_, _, _) => lease
    case RenewStep(k, t, ttlMs) =>
      if k != key || t != token then lease else if ttlMs > 0 then Until(now + ttlMs) else Gone
    case ReleaseStep(k, t) => if k == key && t == token then Gone else lease
  }

  function NowAfter(now: int, steps: seq<Step>): int {
    if steps == [] then now
    else
      var before := NowAfter(now, steps[..|steps| - 1]);
      match steps[|steps| - 1]
      case Tick(ms) => before + ms
      case _ => before
  }

  function OwnLease(lease: Lease, now: int, key: string, token: string, steps: seq<Step>): Lease {
    if steps == [] then lease
    else
      var front := steps[..|steps| - 1];
      OwnStep(OwnLease(lease, now, key, token, front), NowAfter(now, front), key, token, steps[|steps| - 1])
  }

  // No acquisition in the run uses `token`.
  ghost predicate TokenUnused(steps: seq<Step>, token: string) {
    forall i :: 0 <= i < |steps| && steps[i].AcquireStep? ==> steps[i].token != token
  }

  lemma {:induction false} ClockOfRun(w: World, steps: seq<Step>)
    ensures AfterAll(w, steps).now == NowAfter(w.now, steps)
  {
    if steps == [] {
    } else {
      ClockOfRun(w, steps[..|steps| - 1]);
    }
  }

  // A token holds its lock exactly as long as its own lease says.
  lemma {:induction false} HeldExactlyByOwnLease(w: World, key: string, token: string, steps: seq<Step>)
    requires HeldBy(w.locks, key, token, w.now) && TokenUnused(steps, token)
    ensures var w' := AfterAll(w, steps);
            var lease := OwnLease(Until(w.locks[key].expiresAt), w.now, key, token, steps);
            && (HeldBy(w'.locks, key, token, w'.now) <==> lease != Gone)
            && (lease != Gone ==> w'.locks[key].expiresAt == lease.deadline)
            && (lease == Gone && key in w'.locks && w'.locks[key].token == token ==> w'.locks[key].expiresAt <= w'.now)
  {
    if steps == [] {
    } else {
      var front := steps[..|steps| - 1];
      assert forall i :: 0 <= i < |front| ==> front[i] == steps[i];
      HeldExactlyByOwnLease(w, key, token, front);
      ClockOfRun(w, front);
      LeaseStep(AfterAll(w, front), key, token,
                OwnLease(Until(w.locks[key].expiresAt), w.now, key, token, front), steps[|steps| - 1]);
    }
  }

  ghost predicate LeaseMatches(w: World, key: string, token: string, lease: Lease) {
    && (HeldBy(w.locks, key, token, w.now) <==> lease != Gone)
    && (lease != Gone ==> w.locks[key].expiresAt == lease.deadline)
    && (lease == Gone ==> (key in w.locks && w.locks[key].token == token ==> w.locks[key].expiresAt <= w.now))
  }

  lemma LeaseStep(w: World, key: string, token: string, lease: Lease, step: Step)
    requires LeaseMatches(w, key, token, lease) && (step.AcquireStep? ==> step.token != token)
    ensures LeaseMatches(After(w, step), key, token, OwnStep(lease, w.now, key, token, step))
  {
  }

  // From a successful acquire until the holder's release or expiry, no acquire of the key succeeds.
  lemma NoSecondHolder(w: World, key: string, token: string, ttlMs: int, steps: seq<Step>, other: string,
                       otherTtlMs: int)
    requires !Alive(w.locks, key, w.now) && ttlMs > 0 && TokenUnused(steps, token) && other != token
    requires OwnLease(Until(w.now + ttlMs), w.now, key, token, steps) != Gone
    ensures var w' := AfterAll(After(w, AcquireStep(key, token, ttlMs)), steps);
            && Alive(w'.locks, key, w'.now)
            && After(w', AcquireStep(key, other, otherTtlMs)) == w'
            && !HeldBy(w'.locks, key, other, w'.now)
  {
    HeldExactlyByOwnLease(After(w, AcquireStep(key, token, ttlMs)), key, token, steps);
  }

  // Once its lease is gone, a token's handle changes nothing, and its renewal reports failure.
  lemma StaleHandleIsHarmless(w: World, key: string, token: string, steps: seq<Step>, ttlMs: int)
    requires HeldBy(w.locks, key, token, w.now) && TokenUnused(steps, token)
    requires OwnLease(Until(w.locks[key].expiresAt), w.now, key, token, steps) == Gone
    ensures var w' := AfterAll(w, steps);
            && !HeldBy(w'.locks, key, token, w'.now)
            && After(w', RenewStep(key, token, ttlMs)) == w' && After(w', ReleaseStep(key, token)) == w'
  {
    HeldExactlyByOwnLease(w, key, token, steps);
  }

  // A release ends the token's lease.  If it was still alive, the key is free and the next acquire
  // succeeds; if not, nothing changes for whoever holds the key now.
  lemma ReleaseFreesLock(w: World, key: string, token: string, steps: seq<Step>, other: string, otherTtlMs: int)
    requires HeldBy(w.locks, key, token, w.now) && TokenUnused(steps, token) && otherTtlMs > 0
    ensures var lease := OwnLease(Until(w.locks[key].expiresAt), w.now, key, token, steps);
            var before, after := AfterAll(w, steps), AfterAll(w, steps + [ReleaseStep(key, token)]);
            && !HeldBy(after.locks, key, token, after.now)
            && (if lease == Gone then after == before
                else !Alive(after.locks, key, after.now)
                     && HeldBy(After(after, AcquireStep(key, other, otherTtlMs)).locks, key, other, after.now))
  {
    assert (steps + [ReleaseStep(key, token)])[..|steps|] == steps;
    HeldExactlyByOwnLease(w, key, token, steps);
  }

  // ---- Locks of different keys ----

  function KeyOf(step: Step): Option<string> {
    match step
    case Tick(_) => None
    case AcquireStep(key, _, _) => Some(key)
    case RenewStep(key, _, _) => Some(key)
    case ReleaseStep(key, _) => Some(key)
  }

  // Calls on other keys change nothing about this one.
  lemma {:induction false} OtherKeysDoNotMatter(w: World, key: string, steps: seq<Step>)
    requires forall i :: 0 <= i < |steps| ==> KeyOf(steps[i]) != Some(LockKey(key))
    ensures var w' := AfterAll(w, steps);
            && (LockKey(key) in w'.locks <==> LockKey(key) in w.locks)
            && (LockKey(key) in w.locks ==> w'.locks[LockKey(key)] == w.locks[LockKey(key)])
  {
    if steps == [] {
    } else {
      OtherKeysDoNotMatter(w, key, steps[..|steps| - 1]);
    }
  }

  // However often other keys are locked, this one is free for the first who asks.
  lemma FirstAcquireSucceeds(now: int, key: string, others: seq<string>, steps: seq<Step>, token: string, ttlMs: int)
    requires key !in others && ttlMs > 0
    requires forall i :: 0 <= i < |steps| && KeyOf(steps[i]).Some? ==>
               exists other :: other in others && KeyOf(steps[i]) == Some(LockKey(other))
    ensures var w := AfterAll(World(now, map[]), steps);
            && !Alive(w.locks, LockKey(key), w.now)
            && HeldBy(After(w, AcquireStep(LockKey(key), token, ttlMs)).locks, LockKey(key), token, w.now)
  {
    forall other | other in others ensures LockKey(other) != LockKey(key) {
      LockKeyInjective(other, key);
    }
    OtherKeysDoNotMatter(World(now, map[]), key, steps);
  }
}
