/**
 What the outbox guarantees: under any interleaving, why a row is processed; and under lease
 discipline, that no row is claimed twice at once or left behind.
 */
module OutboxSafety {
  import opened Options
  import opened Outbox

  // ---- Any interleaving: processed rows are justified ----

  // The attempt of this claim on the row has invalidated the first `done` targets.
  ghost predicate Invalidated(s: State, claim: nat, id: Id, payload: Invalidation, done: nat) {
    forall i :: 0 <= i < |Targets(payload)| && i < done ==> (claim, id, Targets(payload)[i]) in s.invalidated
  }

  // One attempt has invalidated them all.
  ghost predicate FullyInvalidated(s: State, id: Id, payload: Invalidation) {
    exists claim: nat :: Invalidated(s, claim, id, payload, |Targets(payload)|)
  }

  ghost predicate Justified(s: State, id: Id)
    requires id in s.rows
  {
    || FullyInvalidated(s, id, s.rows[id].payload)
    || id in s.unparseable
    || id in s.exhausted
  }

  ghost predicate WorkerHonest(s: State, w: Worker) {
    && (forall i :: 0 <= i < |w.batch| ==>
          w.batch[i].id in s.rows && w.batch[i].payload == s.rows[w.batch[i].id].payload)
    && (w.index < |w.batch| ==> PhaseHonest(s, w.claim, Current(w), w.phase))
  }

  ghost predicate PhaseHonest(s: State, claim: nat, row: Snapshot, phase: Phase) {
    match phase
    case Mapping => true
    case Invalidating(done) => Invalidated(s, claim, row.id, row.payload, done)
    case Marking(Processed) => Invalidated(s, claim, row.id, row.payload, |Targets(row.payload)|)
    case Marking(DeadLettered) => row.id in s.unparseable || row.id in s.exhausted
    case Marking(Failed) => true
  }

  ghost predicate Honest(s: State) {
    && (forall id :: id in s.rows && s.rows[id].processed ==> Justified(s, id))
    && (forall worker :: worker in s.workers ==> WorkerHonest(s, s.workers[worker]))
  }

  // The history only grows, and no row loses its payload.
  ghost predicate Grows(s: State, s': State) {
    && s.invalidated <= s'.invalidated && s.unparseable <= s'.unparseable && s.exhausted <= s'.exhausted
    && (forall id :: id in s.rows ==> id in s'.rows && s'.rows[id].payload == s.rows[id].payload)
  }

  lemma GrowthKeepsWorker(s: State, s': State, w: Worker)
    requires Grows(s, s') && WorkerHonest(s, w)
    ensures WorkerHonest(s', w)
  {
  }

  lemma StillJustified(s: State, s': State)
    requires Honest(s) && Grows(s, s')
    ensures forall id :: id in s.rows && s.rows[id].processed ==> Justified(s', id)
  {
    forall id | id in s.rows && s.rows[id].processed ensures Justified(s', id) {
      var payload := s.rows[id].payload;
      if FullyInvalidated(s, id, payload) {
        var claim: nat :| Invalidated(s, claim, id, payload, |Targets(payload)|);
        assert Invalidated(s', claim, id, payload, |Targets(payload)|);
      }
    }
  }

  // Nothing is marked, and no worker goes on.
  lemma WorkersUntouchedHonest(s: State, s': State)
    requires Honest(s) && Grows(s, s')
    requires forall worker :: worker in s'.workers ==>
               worker in s.workers && s'.workers[worker] == s.workers[worker]
    requires forall id :: id in s'.rows && s'.rows[id].processed ==> id in s.rows && s.rows[id].processed
    ensures Honest(s')
  {
    StillJustified(s, s');
    forall worker | worker in s'.workers ensures WorkerHonest(s', s'.workers[worker]) {
      GrowthKeepsWorker(s, s', s.workers[worker]);
    }
  }

  lemma ClaimHonest(c: Settings, s: State, worker: WorkerId, computedAt: int, batch: seq<Id>)
    requires Honest(s) && Enabled(c, s, Claim(worker, computedAt, batch))
    ensures Honest(AfterClaim(c, s, worker, batch))
  {
    var s' := AfterClaim(c, s, worker, batch);
    StillJustified(s, s');
    forall other | other in s'.workers && other != worker ensures WorkerHonest(s', s'.workers[other]) {
      GrowthKeepsWorker(s, s', s.workers[other]);
    }
  }

  // A step of one worker that leaves the table alone.
  lemma WorkerStepHonest(s: State, s': State, worker: WorkerId)
    requires Honest(s) && Grows(s, s') && s'.rows == s.rows
    requires worker in s'.workers && s'.workers == s.workers[worker := s'.workers[worker]]
    requires WorkerHonest(s', s'.workers[worker])
    ensures Honest(s')
  {
    StillJustified(s, s');
    forall other | other in s'.workers && other != worker ensures WorkerHonest(s', s'.workers[other]) {
      GrowthKeepsWorker(s, s', s.workers[other]);
    }
  }

  lemma MapRowHonest(c: Settings, s: State, worker: WorkerId, parses: bool)
    requires Honest(s) && Enabled(c, s, MapRow(worker, parses))
    ensures Honest(AfterMapRow(c, s, worker, parses))
  {
    var s' := AfterMapRow(c, s, worker, parses);
    GrowthKeepsWorker(s, s', s.workers[worker]);
    WorkerStepHonest(s, s', worker);
  }

  lemma InvalidateNextHonest(c: Settings, s: State, worker: WorkerId)
    requires Honest(s) && Enabled(c, s, InvalidateNext(worker))
    ensures Honest(AfterInvalidateNext(s, worker))
  {
    var s' := AfterInvalidateNext(s, worker);
    GrowthKeepsWorker(s, s', s.workers[worker]);
    WorkerStepHonest(s, s', worker);
  }

  lemma InvalidationEndsHonest(c: Settings, s: State, step: Step)
    requires Honest(s) && Enabled(c, s, step) && (step.InvalidationDone? || step.InvalidationFails?)
    ensures Honest(Apply(c, s, step))
  {
    var s' := Apply(c, s, step);
    GrowthKeepsWorker(s, s', s.workers[step.worker]);
    WorkerStepHonest(s, s', step.worker);
  }

  lemma MarkRowHonest(c: Settings, s: State, worker: WorkerId, applied: bool)
    requires Honest(s) && Enabled(c, s, MarkRow(worker, applied))
    ensures Honest(AfterMarkRow(s, worker, applied))
  {
    var s' := AfterMarkRow(s, worker, applied);
    StillJustified(s, s');
    forall other | other in s'.workers ensures WorkerHonest(s', s'.workers[other]) {
      GrowthKeepsWorker(s, s', s.workers[other]);
    }
    var w := s.workers[worker];
    assert PhaseHonest(s, w.claim, Current(w), w.phase);
    if applied && w.phase.mark == Processed {
      assert Invalidated(s', w.claim, Current(w).id, Current(w).payload, |Targets(Current(w).payload)|);
    }
  }

  lemma StepHonest(c: Settings, s: State, step: Step)
    requires Honest(s) && Enabled(c, s, step)
    ensures Honest(Apply(c, s, step))
  {
    match step
    case Tick(_) => WorkersUntouchedHonest(s, Apply(c, s, step));
    case Insert(_, _) => WorkersUntouchedHonest(s, Apply(c, s, step));
    case Claim(worker, computedAt, batch) => ClaimHonest(c, s, worker, computedAt, batch);
    case MapRow(worker, parses) => MapRowHonest(c, s, worker, parses);
    case InvalidateNext(worker) => InvalidateNextHonest(c, s, worker);
    case InvalidationDone(_) => InvalidationEndsHonest(c, s, step);
    case InvalidationFails(_) => InvalidationEndsHonest(c, s, step);
    case MarkRow(worker, applied) => MarkRowHonest(c, s, worker, applied);
    case Stop(_) => WorkersUntouchedHonest(s, Apply(c, s, step));
  }

  lemma {:induction false} RunHonest(c: Settings, s: State, steps: seq<Step>, s': State)
    requires Honest(s) && Runs(c, s, steps, s')
    ensures Honest(s')
    decreases |steps|
  {
    if steps == [] {
    } else {
      StepHonest(c, s, steps[0]);
      RunHonest(c, Apply(c, s, steps[0]), steps[1..], s');
    }
  }

  // Whatever the workers, crashes and leases do, a row is processed only after one attempt invalidated
  // every key and tag it names, or after its payload failed to map, or after an attempt used up its retries.
  lemma ProcessedIsJustified(c: Settings, now: int, steps: seq<Step>, s: State, id: Id)
    requires Runs(c, Initial(now), steps, s) && id in s.rows && s.rows[id].processed
    ensures Justified(s, id)
  {
    RunHonest(c, Initial(now), steps, s);
  }

  // Processed is final.
  lemma {:induction false} ProcessedIsFinal(c: Settings, s: State, steps: seq<Step>, s': State, id: Id)
    requires Runs(c, s, steps, s') && id in s.rows && s.rows[id].processed
    ensures id in s'.rows && s'.rows[id].processed && s'.rows[id].payload == s.rows[id].payload
    decreases |steps|
  {
    if steps == [] {
    } else {
      ProcessedStays(c, s, steps[0], id);
      ProcessedIsFinal(c, Apply(c, s, steps[0]), steps[1..], s', id);
    }
  }

  lemma ProcessedStays(c: Settings, s: State, step: Step, id: Id)
    requires Enabled(c, s, step) && id in s.rows && s.rows[id].processed
    ensures var s' := Apply(c, s, step);
            id in s'.rows && s'.rows[id].processed && s'.rows[id].payload == s.rows[id].payload
  {
  }

  // No claim ever returns a processed row, whenever it is made.
  lemma ProcessedIsNeverClaimed(c: Settings, s: State, steps: seq<Step>, s': State, id: Id, step: Step)
    requires Runs(c, s, steps, s') && id in s.rows && s.rows[id].processed
    requires Enabled(c, s', step) && step.Claim?
    ensures id !in step.batch
  {
    ProcessedIsFinal(c, s, steps, s', id);
  }

  // ---- Lease discipline ----

  // Every worker finishes, or crashes for good, before its lease expires.
  ghost predicate Disciplined(c: Settings, s: State) {
    forall worker :: worker in s.workers ==> s.now <= s.workers[worker].claimedAt + c.claimMs
  }

  ghost predicate DisciplinedRun(c: Settings, s: State, steps: seq<Step>, s': State)
    decreases |steps|
  {
    Disciplined(c, s) &&
    if steps == [] then s == s'
    else Enabled(c, s, steps[0]) && DisciplinedRun(c, Apply(c, s, steps[0]), steps[1..], s')
  }

  // The worker has yet to deal with this row.
  predicate Pending(w: Worker, id: Id) {
    exists i :: w.index <= i < |w.batch| && w.batch[i].id == id
  }

  // A pending row is still exactly as the worker claimed it.
  ghost predicate AsClaimed(s: State, w: Worker, i: nat)
    requires i < |w.batch|
  {
    var id := w.batch[i].id;
    && id in s.rows && !s.rows[id].processed
    && s.rows[id].claimedAt == Some(w.claimedAt) && s.rows[id].retryCount == w.batch[i].retryCount
  }

  ghost predicate MarkFits(c: Settings, w: Worker) {
    w.index < |w.batch| && w.phase == Marking(Failed) ==> !Exhausted(c, Current(w).retryCount)
  }

  ghost predicate WorkerExact(c: Settings, s: State, w: Worker) {
    && (forall i :: w.index <= i < |w.batch| ==> AsClaimed(s, w, i))
    && (forall i, j :: 0 <= i < j < |w.batch| ==> w.batch[i].id != w.batch[j].id)
    && MarkFits(c, w)
  }

  // No two workers have the same row pending.
  ghost predicate Exclusive(s: State) {
    forall a, b, i, j :: a in s.workers && b in s.workers && a != b
      && s.workers[a].index <= i < |s.workers[a].batch| && s.workers[b].index <= j < |s.workers[b].batch|
      ==> s.workers[a].batch[i].id != s.workers[b].batch[j].id
  }

  // A cap below 1 would keep every row from ever being claimed.
  predicate UsableCap(c: Settings) {
    c.maxRetries.Some? ==> c.maxRetries.value >= 1
  }

  ghost predicate BelowCap(c: Settings, s: State) {
    c.maxRetries.Some? && UsableCap(c) ==>
      forall id :: id in s.rows && !s.rows[id].processed ==> s.rows[id].retryCount < c.maxRetries.value
  }

  ghost predicate Exact(c: Settings, s: State) {
    && (forall worker :: worker in s.workers ==> WorkerExact(c, s, s.workers[worker]))
    && Exclusive(s) && BelowCap(c, s)
  }

  // A row pending for a live worker is not claimable.
  lemma PendingIsNotClaimable(c: Settings, s: State, worker: WorkerId, i: nat, computedAt: int)
    requires Exact(c, s) && Disciplined(c, s) && computedAt <= s.now
    requires worker in s.workers && s.workers[worker].index <= i < |s.workers[worker].batch|
    ensures var id := s.workers[worker].batch[i].id; id in s.rows && !Claimable(c, s.rows[id], computedAt)
  {
    assert AsClaimed(s, s.workers[worker], i);
  }

  lemma ClaimExact(c: Settings, s: State, worker: WorkerId, computedAt: int, batch: seq<Id>)
    requires Exact(c, s) && Disciplined(c, s) && Enabled(c, s, Claim(worker, computedAt, batch))
    ensures Exact(c, AfterClaim(c, s, worker, batch))
  {
    var s' := AfterClaim(c, s, worker, batch);
    forall other, i | other in s.workers && s.workers[other].index <= i < |s.workers[other].batch|
      ensures s.workers[other].batch[i].id !in batch
    {
      PendingIsNotClaimable(c, s, other, i, computedAt);
    }
    forall other | other in s'.workers ensures WorkerExact(c, s', s'.workers[other]) {
      if other != worker {
        assert WorkerExact(c, s, s.workers[other]);
        forall i | s.workers[other].index <= i < |s.workers[other].batch| ensures AsClaimed(s', s.workers[other], i) {
          assert AsClaimed(s, s.workers[other], i);
        }
      }
    }
  }

  // A step of one worker that changes only its phase.
  lemma PhaseExact(c: Settings, s: State, s': State, worker: WorkerId)
    requires Exact(c, s) && worker in s.workers && s'.rows == s.rows && s'.now == s.now
    requires worker in s'.workers
    requires s'.workers == s.workers[worker := s.workers[worker].(phase := s'.workers[worker].phase)]
    requires MarkFits(c, s'.workers[worker])
    ensures Exact(c, s')
  {
    forall other | other in s'.workers ensures WorkerExact(c, s', s'.workers[other]) {
      assert WorkerExact(c, s, s.workers[other]);
      forall i | s'.workers[other].index <= i < |s'.workers[other].batch| ensures AsClaimed(s', s'.workers[other], i) {
        assert AsClaimed(s, s.workers[other], i);
      }
    }
  }

  lemma MarkRowExact(c: Settings, s: State, worker: WorkerId, applied: bool)
    requires Exact(c, s) && Enabled(c, s, MarkRow(worker, applied))
    ensures Exact(c, AfterMarkRow(s, worker, applied))
  {
    var s', w := AfterMarkRow(s, worker, applied), s.workers[worker];
    var id := Current(w).id;
    assert AsClaimed(s, w, w.index);
    forall other | other in s'.workers ensures WorkerExact(c, s', s'.workers[other]) {
      var o := s'.workers[other];
      assert WorkerExact(c, s, s.workers[other]);
      forall i | o.index <= i < |o.batch| ensures AsClaimed(s', o, i) {
        assert AsClaimed(s, s.workers[other], i);
        assert o.batch[i].id != id by {
          if other == worker {
            assert w.batch[w.index].id != w.batch[i].id;
          } else {
            assert s.workers[worker].batch[w.index].id != s.workers[other].batch[i].id;
          }
        }
      }
    }
  }

  lemma InsertExact(c: Settings, s: State, id: Id, payload: Invalidation)
    requires Exact(c, s) && Enabled(c, s, Insert(id, payload))
    ensures Exact(c, Apply(c, s, Insert(id, payload)))
  {
    var s' := Apply(c, s, Insert(id, payload));
    forall worker | worker in s'.workers ensures WorkerExact(c, s', s'.workers[worker]) {
      assert WorkerExact(c, s, s.workers[worker]);
      forall i | s.workers[worker].index <= i < |s.workers[worker].batch| ensures AsClaimed(s', s.workers[worker], i) {
        assert AsClaimed(s, s.workers[worker], i);
      }
    }
  }

  lemma TickOrStopExact(c: Settings, s: State, step: Step)
    requires Exact(c, s) && Enabled(c, s, step) && (step.Tick? || step.Stop?)
    ensures Exact(c, Apply(c, s, step))
  {
    var s' := Apply(c, s, step);
    forall worker | worker in s'.workers ensures WorkerExact(c, s', s'.workers[worker]) {
      assert WorkerExact(c, s, s.workers[worker]);
      forall i | s.workers[worker].index <= i < |s.workers[worker].batch| ensures AsClaimed(s', s.workers[worker], i) {
        assert AsClaimed(s, s.workers[worker], i);
      }
    }
  }

  lemma StepExact(c: Settings, s: State, step: Step)
    requires Exact(c, s) && Disciplined(c, s) && Enabled(c, s, step)
    ensures Exact(c, Apply(c, s, step))
  {
    match step
    case Tick(_) => TickOrStopExact(c, s, step);
    case Insert(id, payload) => InsertExact(c, s, id, payload);
    case Claim(worker, computedAt, batch) => ClaimExact(c, s, worker, computedAt, batch);
    case MapRow(worker, parses) => PhaseExact(c, s, AfterMapRow(c, s, worker, parses), worker);
    case InvalidateNext(worker) => PhaseExact(c, s, AfterInvalidateNext(s, worker), worker);
    case InvalidationDone(worker) => PhaseExact(c, s, Apply(c, s, step), worker);
    case InvalidationFails(worker) => PhaseExact(c, s, AfterInvalidationFails(c, s, worker), worker);
    case MarkRow(worker, applied) => MarkRowExact(c, s, worker, applied);
    case Stop(_) => TickOrStopExact(c, s, step);
  }

  lemma {:induction false} RunExact(c: Settings, s: State, steps: seq<Step>, s': State)
    requires Exact(c, s) && DisciplinedRun(c, s, steps, s')
    ensures Exact(c, s')
    decreases |steps|
  {
    if steps == [] {
    } else {
      StepExact(c, s, steps[0]);
      RunExact(c, Apply(c, s, steps[0]), steps[1..], s');
    }
  }

  // Two live claims never overlap on a row.
  lemma LiveClaimsAreDisjoint(c: Settings, now: int, steps: seq<Step>, s: State, a: WorkerId, b: WorkerId, id: Id)
    requires DisciplinedRun(c, Initial(now), steps, s)
    requires a in s.workers && b in s.workers && Pending(s.workers[a], id) && Pending(s.workers[b], id)
    ensures a == b
  {
    RunExact(c, Initial(now), steps, s);
    var i :| s.workers[a].index <= i < |s.workers[a].batch| && s.workers[a].batch[i].id == id;
    var j :| s.workers[b].index <= j < |s.workers[b].batch| && s.workers[b].batch[j].id == id;
  }

  // No row is left behind: an unprocessed row can be claimed as soon as its lease, if any, is over.
  lemma NoRowIsStranded(c: Settings, now: int, steps: seq<Step>, s: State, id: Id, computedAt: int)
    requires UsableCap(c) && DisciplinedRun(c, Initial(now), steps, s) && id in s.rows && !s.rows[id].processed
    ensures c.maxRetries.Some? ==> s.rows[id].retryCount < c.maxRetries.value
    ensures Claimable(c, s.rows[id], computedAt)
            <==> s.rows[id].claimedAt.None? || s.rows[id].claimedAt.value + c.claimMs < computedAt
  {
    RunExact(c, Initial(now), steps, s);
  }

  // ---- Retries run out ----

  function Remaining(cap: int, row: Row): int {
    if row.processed then 0 else cap - row.retryCount
  }

  // The retries that the unprocessed rows have left, in all.
  ghost function RetriesLeft(cap: int, rows: map<Id, Row>): int
    decreases |rows|
  {
    if rows == map[] then 0
    else
      var id :| id in rows;
      Fewer(rows, id);
      Remaining(cap, rows[id]) + RetriesLeft(cap, rows - {id})
  }

  lemma Fewer(rows: map<Id, Row>, id: Id)
    requires id in rows
    ensures |rows - {id}| < |rows|
  {
    assert (rows - {id}).Keys == rows.Keys - {id};
  }

  lemma {:induction false} SplitOff(cap: int, rows: map<Id, Row>, id: Id)
    requires id in rows
    ensures RetriesLeft(cap, rows) == Remaining(cap, rows[id]) + RetriesLeft(cap, rows - {id})
    decreases |rows|
  {
    var first :| first in rows && RetriesLeft(cap, rows)
        == Remaining(cap, rows[first]) + RetriesLeft(cap, rows - {first});
    if first != id {
      Fewer(rows, first);
      Fewer(rows, id);
      SplitOff(cap, rows - {first}, id);
      SplitOff(cap, rows - {id}, first);
      assert rows - {first} - {id} == rows - {id} - {first};
    }
  }

  lemma ChangeOneRow(cap: int, rows: map<Id, Row>, id: Id, row: Row)
    requires id in rows
    ensures RetriesLeft(cap, rows[id := row]) == RetriesLeft(cap, rows) - Remaining(cap, rows[id]) + Remaining(cap, row)
  {
    SplitOff(cap, rows, id);
    SplitOff(cap, rows[id := row], id);
    assert rows[id := row] - {id} == rows - {id};
  }

  lemma {:induction false} SameRemainingSameSum(cap: int, rows: map<Id, Row>, rows': map<Id, Row>)
    requires rows.Keys == rows'.Keys
    requires forall id :: id in rows ==> Remaining(cap, rows[id]) == Remaining(cap, rows'[id])
    ensures RetriesLeft(cap, rows) == RetriesLeft(cap, rows')
    decreases |rows|
  {
    if rows != map[] {
      var id :| id in rows;
      SplitOff(cap, rows, id);
      SplitOff(cap, rows', id);
      Fewer(rows, id);
      SameRemainingSameSum(cap, rows - {id}, rows' - {id});
    } else {
      assert rows' == map[];
    }
  }

  // Each recorded failure uses up at least one retry.
  lemma RecordedFailureUsesRetry(c: Settings, s: State, worker: WorkerId)
    requires c.maxRetries.Some? && UsableCap(c) && Exact(c, s) && Enabled(c, s, MarkRow(worker, true))
    ensures var cap, left := c.maxRetries.value, RetriesLeft(c.maxRetries.value, s.rows);
            var left' := RetriesLeft(cap, AfterMarkRow(s, worker, true).rows);
            left' <= left && (s.workers[worker].phase.mark != Processed ==> left' < left)
  {
    var w := s.workers[worker];
    assert AsClaimed(s, w, w.index);
    ChangeOneRow(c.maxRetries.value, s.rows, Current(w).id, ApplyMark(s.rows[Current(w).id], w.phase.mark));
  }

  predicate RecordsFailure(s: State, step: Step) {
    step.MarkRow? && step.applied && AtWork(s, step.worker) && s.workers[step.worker].phase.Marking?
    && s.workers[step.worker].phase.mark != Processed
  }

  ghost function RecordedFailures(c: Settings, s: State, steps: seq<Step>, s': State): nat
    requires Runs(c, s, steps, s')
    decreases |steps|
  {
    if steps == [] then 0
    else (if RecordsFailure(s, steps[0]) then 1 else 0) + RecordedFailures(c, Apply(c, s, steps[0]), steps[1..], s')
  }

  function Inserts(steps: seq<Step>): nat
    decreases |steps|
  {
    if steps == [] then 0 else (if steps[0].Insert? then 1 else 0) + Inserts(steps[1..])
  }

  lemma StepRetries(c: Settings, s: State, step: Step)
    requires c.maxRetries.Some? && UsableCap(c) && Exact(c, s) && Enabled(c, s, step)
    ensures RetriesLeft(c.maxRetries.value, Apply(c, s, step).rows) + (if RecordsFailure(s, step) then 1 else 0)
            <= RetriesLeft(c.maxRetries.value, s.rows) + (if step.Insert? then c.maxRetries.value else 0)
  {
    var cap, s' := c.maxRetries.value, Apply(c, s, step);
    if step.Insert? {
      SplitOff(cap, s'.rows, step.id);
      assert s'.rows - {step.id} == s.rows;
    } else if step.Claim? {
      SameRemainingSameSum(cap, s.rows, s'.rows);
    } else if step.MarkRow? && step.applied {
      RecordedFailureUsesRetry(c, s, step.worker);
    }
  }

  // Over a whole run: every failure recorded is paid for by a retry that some inserted row brought in.
  lemma {:induction false} RetriesPayForFailures(c: Settings, s: State, steps: seq<Step>, s': State)
    requires c.maxRetries.Some? && UsableCap(c) && Exact(c, s)
    requires DisciplinedRun(c, s, steps, s') && Runs(c, s, steps, s')
    ensures RetriesLeft(c.maxRetries.value, s'.rows) + RecordedFailures(c, s, steps, s')
            <= RetriesLeft(c.maxRetries.value, s.rows) + c.maxRetries.value * Inserts(steps)
    decreases |steps|
  {
    if steps == [] {
    } else {
      var cap, s1 := c.maxRetries.value, Apply(c, s, steps[0]);
      StepExact(c, s, steps[0]);
      StepRetries(c, s, steps[0]);
      RetriesPayForFailures(c, s1, steps[1..], s');
      DistributeOver(cap, if steps[0].Insert? then 1 else 0, Inserts(steps[1..]));
    }
  }

  lemma DistributeOver(cap: int, a: int, b: int)
    ensures cap * (a + b) == cap * a + cap * b
  {
  }

  lemma {:induction false} RetriesLeftIsNatural(c: Settings, s: State, rows: map<Id, Row>)
    requires c.maxRetries.Some? && UsableCap(c) && BelowCap(c, s) && rows.Keys <= s.rows.Keys
             && forall id :: id in rows ==> rows[id] == s.rows[id]
    ensures RetriesLeft(c.maxRetries.value, rows) >= 0
    decreases |rows|
  {
    if rows == map[] {
    } else {
      var id :| id in rows;
      SplitOff(c.maxRetries.value, rows, id);
      Fewer(rows, id);
      RetriesLeftIsNatural(c, s, rows - {id});
    }
  }

  // So a run records at most `maxRetries` failures per row that was ever inserted.
  lemma FailuresAreBounded(c: Settings, now: int, steps: seq<Step>, s: State)
    requires c.maxRetries.Some? && UsableCap(c) && DisciplinedRun(c, Initial(now), steps, s)
             && Runs(c, Initial(now), steps, s)
    ensures RecordedFailures(c, Initial(now), steps, s) <= c.maxRetries.value * Inserts(steps)
  {
    RetriesPayForFailures(c, Initial(now), steps, s);
    RunExact(c, Initial(now), steps, s);
    RetriesLeftIsNatural(c, s, s.rows);
  }
}
