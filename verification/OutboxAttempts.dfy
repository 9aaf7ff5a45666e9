/**
 What becomes of a row, told from the attempts on it: under any interleaving, the mark that an attempt
 records is the one that its own outcome demands, a row whose payload did not map is never claimed
 again, and the head of the queue is never passed over.
 */
module OutboxAttempts {
  import opened Options
  import opened Outbox
  import opened OutboxSafety

  predicate IsBy(step: Step, worker: WorkerId) {
    match step
    case Tick(_) => false
    case Insert(_, _) => false
    case _ => step.worker == worker
  }

  lemma StepOfOthers(c: Settings, s: State, step: Step, worker: WorkerId)
    requires Enabled(c, s, step) && worker in s.workers && !IsBy(step, worker)
    ensures var s' := Apply(c, s, step); worker in s'.workers && s'.workers[worker] == s.workers[worker]
  {
  }

  lemma {:induction false} RunOfOthers(c: Settings, s: State, steps: seq<Step>, s': State, worker: WorkerId)
    requires Runs(c, s, steps, s') && worker in s.workers
    requires forall i :: 0 <= i < |steps| ==> !IsBy(steps[i], worker)
    ensures worker in s'.workers && s'.workers[worker] == s.workers[worker]
    decreases |steps|
  {
    if steps == [] {
    } else {
      StepOfOthers(c, s, steps[0], worker);
      RunOfOthers(c, Apply(c, s, steps[0]), steps[1..], s', worker);
    }
  }

  // The end of an attempt: the payload does not map, or the invalidation is done, or it fails.
  predicate EndsAttempt(step: Step, worker: WorkerId) {
    step == MapRow(worker, false) || step == InvalidationDone(worker) || step == InvalidationFails(worker)
  }

  // The worker's attempt ends, others go on, and then it marks its row.
  ghost predicate AttemptThenMark(c: Settings, s: State, end: Step, worker: WorkerId, others: seq<Step>, s': State,
                                  applied: bool) {
    && EndsAttempt(end, worker) && Enabled(c, s, end)
    && Runs(c, Apply(c, s, end), others, s') && (forall i :: 0 <= i < |others| ==> !IsBy(others[i], worker))
    && Enabled(c, s', MarkRow(worker, applied))
  }

  // A recorded attempt ends its row if it invalidated everything, or its payload did not map, or it was
  // the last one that its snapshot allows; it counts a retry unless it succeeded; it releases the claim.
  // Nothing else in the table changes, and the worker goes on to its next row.
  lemma AttemptDecidesRow(c: Settings, s: State, end: Step, worker: WorkerId, others: seq<Step>, s': State,
                          applied: bool)
    requires AttemptThenMark(c, s, end, worker, others, s', applied)
    ensures var w := s.workers[worker];
            Apply(c, s', MarkRow(worker, applied)).workers
            == s'.workers[worker := w.(index := w.index + 1, phase := Mapping)]
    ensures var row, rows' := Current(s.workers[worker]), Apply(c, s', MarkRow(worker, applied)).rows;
            && row.id in s'.rows && rows'.Keys == s'.rows.Keys
            && (forall id :: id in s'.rows && (id != row.id || !applied) ==> rows'[id] == s'.rows[id])
            && (applied ==>
                  && (rows'[row.id].processed
                      <==> || s'.rows[row.id].processed || end.InvalidationDone? || end.MapRow?
                           || (c.maxRetries.Some? && row.retryCount + 1 >= c.maxRetries.value))
                  && rows'[row.id].retryCount == s'.rows[row.id].retryCount + (if end.InvalidationDone? then 0 else 1)
                  && rows'[row.id].claimedAt == None)
  {
    RunOfOthers(c, Apply(c, s, end), others, s', worker);
  }

  // Once a failed mapping is recorded, no later claim returns the row, whatever the cap.
  lemma UnmappableIsNeverClaimedAgain(c: Settings, s: State, worker: WorkerId, others: seq<Step>, s': State,
                                      more: seq<Step>, s'': State, claim: Step)
    requires AttemptThenMark(c, s, MapRow(worker, false), worker, others, s', true)
    requires Runs(c, Apply(c, s', MarkRow(worker, true)), more, s'')
    requires Enabled(c, s'', claim) && claim.Claim?
    ensures Current(s.workers[worker]).id !in claim.batch
  {
    AttemptDecidesRow(c, s, MapRow(worker, false), worker, others, s', true);
    ProcessedIsNeverClaimed(c, Apply(c, s', MarkRow(worker, true)), more, s'', Current(s.workers[worker]).id, claim);
  }

  // The oldest unprocessed row, once its lease is over, is in every claim of at least one row.
  lemma HeadIsNotPassedOver(c: Settings, s: State, worker: WorkerId, computedAt: int, batch: seq<Id>, id: Id)
    requires Enabled(c, s, Claim(worker, computedAt, batch)) && c.batchSize >= 1
    requires id in s.rows && !s.rows[id].processed
    requires c.maxRetries.Some? ==> s.rows[id].retryCount < c.maxRetries.value
    requires s.rows[id].claimedAt.Some? ==> s.rows[id].claimedAt.value + c.claimMs < computedAt
    requires forall other :: other in s.rows && other != id && !s.rows[other].processed ==>
               s.rows[id].createdAt < s.rows[other].createdAt
    ensures id in batch
  {
    assert Claimable(c, s.rows[id], computedAt);
    assert batch != [] ==> batch[0] in batch;
  }
}
