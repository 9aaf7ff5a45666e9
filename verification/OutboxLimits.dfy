/**
 Why the lease matters: marks are not tied to the claim they belong to, so two workers that overlap
 on an expired lease both count from the same snapshot.  With a cap of 2 or more their failures can
 leave a row unprocessed with its retries used up, and no claim will ever return it again.
 */
module OutboxLimits {
  import opened Options
  import opened Outbox
  import opened OutboxSafety

  ghost predicate NeverStrands(c: Settings) {
    forall now: int, steps: seq<Step>, s: State, id: Id ::
      Runs(c, Initial(now), steps, s) && id in s.rows && !s.rows[id].processed && c.maxRetries.Some?
      ==> s.rows[id].retryCount < c.maxRetries.value
  }

  // ---- A cap of 1, where the first failure is the last, or empty batches ----

  predicate FailsAtMostOnce(c: Settings) {
    c.maxRetries == Some(1) || c.batchSize == 0
  }

  ghost predicate Untried(c: Settings, s: State) {
    && (forall id :: id in s.rows && !s.rows[id].processed ==> s.rows[id].retryCount == 0)
    && (forall worker :: worker in s.workers ==> s.workers[worker].phase != Marking(Failed))
    && (c.batchSize == 0 ==> forall worker :: worker in s.workers ==> s.workers[worker].batch == [])
  }

  lemma StepUntried(c: Settings, s: State, step: Step)
    requires FailsAtMostOnce(c) && Untried(c, s) && Enabled(c, s, step)
    ensures Untried(c, Apply(c, s, step))
  {
  }

  lemma {:induction false} RunUntried(c: Settings, s: State, steps: seq<Step>, s': State)
    requires FailsAtMostOnce(c) && Untried(c, s) && Runs(c, s, steps, s')
    ensures Untried(c, s')
    decreases |steps|
  {
    if steps == [] {
    } else {
      StepUntried(c, s, steps[0]);
      RunUntried(c, Apply(c, s, steps[0]), steps[1..], s');
    }
  }

  // ---- A cap of 2 or more ----

  ghost predicate Reaches(c: Settings, s: State, s': State) {
    exists steps :: Runs(c, s, steps, s')
  }

  lemma {:induction false} RunThen(c: Settings, s: State, steps: seq<Step>, mid: State, more: seq<Step>, s': State)
    requires Runs(c, s, steps, mid) && Runs(c, mid, more, s')
    ensures Runs(c, s, steps + more, s')
    decreases |steps|
  {
    if steps == [] {
      assert steps + more == more;
    } else {
      assert (steps + more)[1..] == steps[1..] + more;
      RunThen(c, Apply(c, s, steps[0]), steps[1..], mid, more, s');
    }
  }

  lemma ReachesStep(c: Settings, s: State, mid: State, step: Step)
    requires Reaches(c, s, mid) && Enabled(c, mid, step)
    ensures Reaches(c, s, Apply(c, mid, step))
  {
    var steps :| Runs(c, s, steps, mid);
    var after := Apply(c, mid, step);
    assert [step][1..] == [];
    assert Runs(c, after, [step][1..], after);
    assert Runs(c, mid, [step], after);
    RunThen(c, s, steps, mid, [step], after);
  }

  const NOTHING := Invalidation([], [], None)

  // One row in the table, tried `retries` times.
  function Table(created: int, retries: nat, claimedAt: Option<int>): map<Id, Row> {
    map[0 := Row(created, NOTHING, retries, false, claimedAt)]
  }

  function Scene(now: int, retries: nat, claimedAt: Option<int>, workers: map<WorkerId, Worker>, claims: nat): State {
    State(now, Table(0, retries, claimedAt), workers, claims, {}, {}, {})
  }

  function WorkerOn(retries: nat, phase: Phase, claimedAt: int, claim: nat): Worker {
    Worker([Snapshot(0, NOTHING, retries)], 0, phase, claimedAt, claim)
  }

  // A worker claims the row.
  lemma ClaimRow(c: Settings, start: State, now: int, retries: nat, claimedAt: Option<int>,
                 workers: map<WorkerId, Worker>, worker: WorkerId, claims: nat)
    requires c.batchSize >= 1 && (c.maxRetries.Some? ==> retries < c.maxRetries.value) && worker !in workers
    requires claimedAt.Some? ==> claimedAt.value < now - c.claimMs
    requires Reaches(c, start, Scene(now, retries, claimedAt, workers, claims))
    ensures Reaches(c, start, Scene(now, retries, Some(now), workers[worker := WorkerOn(retries, Mapping, now, claims)],
                                    claims + 1))
  {
    var s := Scene(now, retries, claimedAt, workers, claims);
    assert Claimable(c, s.rows[0], now);
    ReachesStep(c, start, s, Claim(worker, now, [0]));
    assert Snapshots(s.rows, [0]) == [Snapshot(0, NOTHING, retries)];
    assert Stamped(s.rows, [0], now) == Table(0, retries, Some(now));
  }

  // Its invalidation fails with retries to spare.
  lemma FailRow(c: Settings, start: State, now: int, retries: nat, claimedAt: Option<int>,
                workers: map<WorkerId, Worker>, worker: WorkerId, claim: nat, claims: nat)
    requires c.maxRetries.Some? && retries + 1 < c.maxRetries.value
    requires Reaches(c, start, Scene(now, retries, claimedAt, workers[worker := WorkerOn(retries, Mapping, now, claim)],
                                     claims))
    ensures Reaches(c, start, Scene(now, retries, claimedAt,
                                    workers[worker := WorkerOn(retries, Marking(Failed), now, claim)], claims))
  {
    var s := Scene(now, retries, claimedAt, workers[worker := WorkerOn(retries, Mapping, now, claim)], claims);
    ReachesStep(c, start, s, MapRow(worker, true));
    var mapped := AfterMapRow(c, s, worker, true);
    ReachesStep(c, start, mapped, InvalidationFails(worker));
    assert AfterInvalidationFails(c, mapped, worker).workers
           == workers[worker := WorkerOn(retries, Marking(Failed), now, claim)];
  }

  lemma ClaimAndFail(c: Settings, start: State, now: int, retries: nat, claimedAt: Option<int>,
                     workers: map<WorkerId, Worker>, worker: WorkerId, claims: nat)
    requires c.batchSize >= 1 && c.maxRetries.Some? && retries + 1 < c.maxRetries.value && worker !in workers
    requires claimedAt.Some? ==> claimedAt.value < now - c.claimMs
    requires Reaches(c, start, Scene(now, retries, claimedAt, workers, claims))
    ensures Reaches(c, start,
                    Scene(now, retries, Some(now), workers[worker := WorkerOn(retries, Marking(Failed), now, claims)],
                          claims + 1))
  {
    ClaimRow(c, start, now, retries, claimedAt, workers, worker, claims);
    FailRow(c, start, now, retries, Some(now), workers, worker, claims, claims + 1);
  }

  // It records the failure and stops.
  lemma RecordAndStop(c: Settings, start: State, now: int, retries: nat, claimedAt: Option<int>,
                      workers: map<WorkerId, Worker>, worker: WorkerId, failing: Worker, claims: nat)
    requires worker !in workers
    requires exists count, since, claim :: failing == WorkerOn(count, Marking(Failed), since, claim)
    requires Reaches(c, start, Scene(now, retries, claimedAt, workers[worker := failing], claims))
    ensures Reaches(c, start, Scene(now, retries + 1, None, workers, claims))
  {
    var s := Scene(now, retries, claimedAt, workers[worker := failing], claims);
    ReachesStep(c, start, s, MarkRow(worker, true));
    var marked := AfterMarkRow(s, worker, true);
    assert marked.rows == Table(0, retries + 1, None);
    ReachesStep(c, start, marked, Stop(worker));
    assert Apply(c, marked, Stop(worker)).workers == workers;
  }

  // One failed attempt after another, up to `retries`.
  lemma {:induction false} FailTimes(c: Settings, retries: nat)
    requires c.batchSize >= 1 && c.maxRetries.Some? && retries < c.maxRetries.value
    ensures Reaches(c, Initial(0), Scene(0, retries, None, map[], retries))
  {
    var start := Initial(0);
    if retries == 0 {
      assert Runs(c, start, [], start);
      ReachesStep(c, start, start, Insert(0, NOTHING));
      assert Apply(c, start, Insert(0, NOTHING)) == Scene(0, 0, None, map[], 0);
    } else {
      FailTimes(c, retries - 1);
      ClaimAndFail(c, start, 0, retries - 1, None, map[], 0, retries - 1);
      RecordAndStop(c, start, 0, retries - 1, Some(0), map[], 0, WorkerOn(retries - 1, Marking(Failed), 0, retries - 1),
                    retries);
    }
  }

  // Two overlapping attempts on the last-but-one retry.
  lemma OverlapStrands(c: Settings) returns (s: State)
    requires c.batchSize >= 1 && c.maxRetries.Some? && c.maxRetries.value >= 2
    ensures Reaches(c, Initial(0), s) && s.workers == map[] && 0 in s.rows && !s.rows[0].processed
    ensures s.rows[0].retryCount == c.maxRetries.value
    ensures forall computedAt :: !Claimable(c, s.rows[0], computedAt)
  {
    var start, r, later := Initial(0), c.maxRetries.value - 2, c.claimMs + 1;
    var early, late := WorkerOn(r, Marking(Failed), 0, r), WorkerOn(r, Marking(Failed), later, r + 1);
    FailTimes(c, r);
    ClaimAndFail(c, start, 0, r, None, map[], 0, r);
    var first := map[][0 := early];
    ReachesStep(c, start, Scene(0, r, Some(0), first, r + 1), Tick(later));
    ClaimAndFail(c, start, later, r, Some(0), first, 1, r + 1);
    RecordAndStop(c, start, later, r, Some(later), first, 1, late, r + 2);
    RecordAndStop(c, start, later, r + 1, None, map[], 0, early, r + 2);
    s := Scene(later, r + 2, None, map[], r + 2);
  }

  // ---- A cap below 1 ----

  lemma UnusableCapStrands(c: Settings) returns (steps: seq<Step>, s: State)
    requires !UsableCap(c)
    ensures DisciplinedRun(c, Initial(0), steps, s) && Runs(c, Initial(0), steps, s)
    ensures 0 in s.rows && !s.rows[0].processed && s.rows[0].retryCount >= c.maxRetries.value
  {
    steps := [Insert(0, NOTHING)];
    s := Apply(c, Initial(0), steps[0]);
    assert steps[1..] == [];
    assert Runs(c, s, steps[1..], s) && DisciplinedRun(c, s, steps[1..], s);
  }

  // ---- Exactly when no row is stranded ----

  // Without lease discipline: when the first failure is the last, or nothing is ever claimed.
  lemma StrandsExactlyAboveOne(c: Settings)
    ensures NeverStrands(c) <==> c.maxRetries.None? || (UsableCap(c) && FailsAtMostOnce(c))
  {
    if c.maxRetries.None? {
    } else if !UsableCap(c) {
      var steps, s := UnusableCapStrands(c);
    } else if FailsAtMostOnce(c) {
      forall now: int, steps: seq<Step>, s: State, id: Id |
        Runs(c, Initial(now), steps, s) && id in s.rows && !s.rows[id].processed
        ensures s.rows[id].retryCount < c.maxRetries.value
      {
        RunUntried(c, Initial(now), steps, s);
      }
    } else {
      var s := OverlapStrands(c);
      var steps :| Runs(c, Initial(0), steps, s);
    }
  }

  ghost predicate LeaseNeverStrands(c: Settings) {
    forall now: int, steps: seq<Step>, s: State, id: Id ::
      DisciplinedRun(c, Initial(now), steps, s) && id in s.rows && !s.rows[id].processed && c.maxRetries.Some?
      ==> s.rows[id].retryCount < c.maxRetries.value
  }

  // With it: whenever the cap allows any attempt at all.
  lemma LeaseStrandsExactlyBelowOne(c: Settings)
    ensures LeaseNeverStrands(c) <==> UsableCap(c)
  {
    if UsableCap(c) {
      forall now: int, steps: seq<Step>, s: State, id: Id |
        DisciplinedRun(c, Initial(now), steps, s) && id in s.rows && !s.rows[id].processed && c.maxRetries.Some?
        ensures s.rows[id].retryCount < c.maxRetries.value
      {
        NoRowIsStranded(c, now, steps, s, id, now);
      }
    } else {
      var steps, s := UnusableCapStrands(c);
    }
  }
}
