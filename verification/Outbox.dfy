/**
 The Postgres outbox worker as a step system: any number of workers that claim rows under a lease,
 invalidate what each row names, and mark the rows one by one, while workers crash, marks get lost
 and leases expire.

 The table is a map of rows; the claim statement and each mark statement are one step.
 */
module Outbox {
  import opened Options

  type Id = nat
  type WorkerId = nat

  datatype Invalidation = Invalidation(keys: seq<string>, tags: seq<string>, tenant: Option<string>)

  // One call to the cache: a key or a tag, for a tenant if there is one.
  datatype Target = Key(key: string, tenant: Option<string>) | Tag(tag: string, tenant: Option<string>)

  datatype Row = Row(createdAt: int, payload: Invalidation, retryCount: nat, processed: bool, claimedAt: Option<int>)

  // What a claim returns of a row.
  datatype Snapshot = Snapshot(id: Id, payload: Invalidation, retryCount: nat)

  datatype Mark = Processed | Failed | DeadLettered

  datatype Phase = Mapping | Invalidating(done: nat) | Marking(mark: Mark)

  // `batch[index]` is the row being dispatched, and `claim` the number of the claim: together with the
  // row it identifies one attempt.
  datatype Worker = Worker(batch: seq<Snapshot>, index: nat, phase: Phase, claimedAt: int, claim: nat)

  datatype Settings = Settings(batchSize: nat, maxRetries: Option<int>, claimMs: nat)

  // `claims` counts the claims made.  `invalidated`, `unparseable` and `exhausted` record the history of
  // the run: the invalidations that took place, each with its claim and row, the rows whose payload
  // failed to map, and the rows with an attempt that failed when its snapshot's count plus one reached
  // the cap.
  datatype State = State(
    now: int,
    rows: map<Id, Row>,
    workers: map<WorkerId, Worker>,
    claims: nat,
    invalidated: set<(nat, Id, Target)>,
    unparseable: set<Id>,
    exhausted: set<Id>)

  datatype Step =
    | Tick(ms: nat)
    | Insert(id: Id, payload: Invalidation)
    | Claim(worker: WorkerId, computedAt: int, batch: seq<Id>)
    | MapRow(worker: WorkerId, parses: bool)
    | InvalidateNext(worker: WorkerId)
    | InvalidationDone(worker: WorkerId)
    | InvalidationFails(worker: WorkerId)
    | MarkRow(worker: WorkerId, applied: bool)
    | Stop(worker: WorkerId)

  // ---- One row ----

  // First occurrences only, in order.
  function Unique(values: seq<string>): seq<string> {
    if values == [] then []
    else
      var front, last := Unique(values[..|values| - 1]), values[|values| - 1];
      if last in front then front else front + [last]
  }

  // What one row's invalidation consists of, in order.
  function Targets(payload: Invalidation): seq<Target> {
    var keys, tags := Unique(payload.keys), Unique(payload.tags);
    seq(|keys|, i requires 0 <= i < |keys| => Key(keys[i], payload.tenant))
    + seq(|tags|, i requires 0 <= i < |tags| => Tag(tags[i], payload.tenant))
  }

  predicate Exhausted(c: Settings, retryCount: nat) {
    c.maxRetries.Some? && retryCount + 1 >= c.maxRetries.value
  }

  // How an attempt on a row is recorded, decided from the snapshot.
  function MarkFor(c: Settings, retryCount: nat, parses: bool, invalidates: bool): Mark {
    if parses && invalidates then Processed
    else if !parses || Exhausted(c, retryCount) then DeadLettered
    else Failed
  }

  function ApplyMark(row: Row, mark: Mark): Row {
    match mark
    case Processed => row.(processed := true, claimedAt := None)
    case DeadLettered => row.(processed := true, claimedAt := None, retryCount := row.retryCount + 1)
    case Failed => row.(claimedAt := None, retryCount := row.retryCount + 1)
  }

  // ---- Claiming ----

  // Unprocessed, never claimed or claimed before the lease boundary, and below the cap.
  predicate Claimable(c: Settings, row: Row, computedAt: int) {
    && !row.processed
    && (row.claimedAt.None? || row.claimedAt.value < computedAt - c.claimMs)
    && (c.maxRetries.Some? ==> row.retryCount < c.maxRetries.value)
  }

  ghost predicate Distinct(ids: seq<Id>) {
    forall i, j :: 0 <= i < j < |ids| ==> ids[i] != ids[j]
  }

  // The claim statement: the oldest claimable rows, up to the batch size.
  ghost predicate ValidClaim(c: Settings, rows: map<Id, Row>, computedAt: int, batch: seq<Id>) {
    && Distinct(batch) && |batch| <= c.batchSize
    && (forall id :: id in batch ==> id in rows && Claimable(c, rows[id], computedAt))
    && (forall id, left :: id in batch && left in rows && Claimable(c, rows[left], computedAt) && left !in batch
                           ==> rows[id].createdAt <= rows[left].createdAt)
    && (|batch| < c.batchSize ==> forall left :: left in rows && Claimable(c, rows[left], computedAt) ==> left in batch)
  }

  function Stamped(rows: map<Id, Row>, batch: seq<Id>, now: int): map<Id, Row> {
    map id | id in rows :: if id in batch then rows[id].(claimedAt := Some(now)) else rows[id]
  }

  function Snapshots(rows: map<Id, Row>, batch: seq<Id>): (snapshots: seq<Snapshot>)
    requires forall id :: id in batch ==> id in rows
    ensures |snapshots| == |batch|
    ensures forall i :: 0 <= i < |batch| ==>
              snapshots[i] == Snapshot(batch[i], rows[batch[i]].payload, rows[batch[i]].retryCount)
  {
    seq(|batch|, i requires 0 <= i < |batch| && batch[i] in rows =>
      Snapshot(batch[i], rows[batch[i]].payload, rows[batch[i]].retryCount))
  }

  // ---- Steps ----

  predicate AtWork(s: State, worker: WorkerId) {
    worker in s.workers && s.workers[worker].index < |s.workers[worker].batch|
  }

  function Current(w: Worker): Snapshot
    requires w.index < |w.batch|
  {
    w.batch[w.index]
  }

  ghost predicate Enabled(c: Settings, s: State, step: Step) {
    match step
    case Tick(_) => true
    case Insert(id, _) => id !in s.rows
    case Claim(worker, computedAt, batch) =>
      worker !in s.workers && computedAt <= s.now && ValidClaim(c, s.rows, computedAt, batch)
    case MapRow(worker, _) => AtWork(s, worker) && s.workers[worker].phase.Mapping?
    case InvalidateNext(worker) =>
      && AtWork(s, worker) && s.workers[worker].phase.Invalidating?
      && s.workers[worker].phase.done < |Targets(Current(s.workers[worker]).payload)|
    case InvalidationDone(worker) =>
      && AtWork(s, worker) && s.workers[worker].phase.Invalidating?
      && s.workers[worker].phase.done == |Targets(Current(s.workers[worker]).payload)|
    case InvalidationFails(worker) => AtWork(s, worker) && s.workers[worker].phase.Invalidating?
    case MarkRow(worker, _) =>
      AtWork(s, worker) && s.workers[worker].phase.Marking? && Current(s.workers[worker]).id in s.rows
    case Stop(worker) => worker in s.workers
  }

  function SetPhase(s: State, worker: WorkerId, phase: Phase): State
    requires worker in s.workers
  {
    s.(workers := s.workers[worker := s.workers[worker].(phase := phase)])
  }

  function AfterClaim(c: Settings, s: State, worker: WorkerId, batch: seq<Id>): State
    requires forall id :: id in batch ==> id in s.rows
  {
    s.(rows := Stamped(s.rows, batch, s.now),
       workers := s.workers[worker := Worker(Snapshots(s.rows, batch), 0, Mapping, s.now, s.claims)],
       claims := s.claims + 1)
  }

  function AfterMapRow(c: Settings, s: State, worker: WorkerId, parses: bool): State
    requires AtWork(s, worker)
  {
    var row := Current(s.workers[worker]);
    if parses then SetPhase(s, worker, Invalidating(0))
    else
      var marking := SetPhase(s, worker, Marking(MarkFor(c, row.retryCount, false, false)));
      marking.(unparseable := s.unparseable + {row.id})
  }

  function AfterInvalidateNext(s: State, worker: WorkerId): State
    requires AtWork(s, worker) && s.workers[worker].phase.Invalidating?
    requires s.workers[worker].phase.done < |Targets(Current(s.workers[worker]).payload)|
  {
    var w := s.workers[worker];
    var target := Targets(Current(w).payload)[w.phase.done];
    var invalidating := SetPhase(s, worker, Invalidating(w.phase.done + 1));
    invalidating.(invalidated := s.invalidated + {(w.claim, Current(w).id, target)})
  }

  function AfterInvalidationFails(c: Settings, s: State, worker: WorkerId): State
    requires AtWork(s, worker)
  {
    var row := Current(s.workers[worker]);
    var marked := SetPhase(s, worker, Marking(MarkFor(c, row.retryCount, true, false)));
    if Exhausted(c, row.retryCount) then marked.(exhausted := s.exhausted + {row.id}) else marked
  }

  // A mark that fails leaves the row as it is; either way the worker goes on to the next row.
  function AfterMarkRow(s: State, worker: WorkerId, applied: bool): State
    requires AtWork(s, worker) && s.workers[worker].phase.Marking? && Current(s.workers[worker]).id in s.rows
  {
    var w := s.workers[worker];
    var id := Current(w).id;
    var rows := if applied then s.rows[id := ApplyMark(s.rows[id], w.phase.mark)] else s.rows;
    s.(rows := rows, workers := s.workers[worker := w.(index := w.index + 1, phase := Mapping)])
  }

  function Apply(c: Settings, s: State, step: Step): State
    requires Enabled(c, s, step)
  {
    match step
    case Tick(ms) => s.(now := s.now + ms)
    case Insert(id, payload) => s.(rows := s.rows[id := Row(s.now, payload, 0, false, None)])
    case Claim(worker, _, batch) => AfterClaim(c, s, worker, batch)
    case MapRow(worker, parses) => AfterMapRow(c, s, worker, parses)
    case InvalidateNext(worker) => AfterInvalidateNext(s, worker)
    case InvalidationDone(worker) =>
      SetPhase(s, worker, Marking(MarkFor(c, Current(s.workers[worker]).retryCount, true, true)))
    case InvalidationFails(worker) => AfterInvalidationFails(c, s, worker)
    case MarkRow(worker, applied) => AfterMarkRow(s, worker, applied)
    case Stop(worker) => s.(workers := s.workers - {worker})
  }

  function Initial(now: int): State {
    State(now, map[], map[], 0, {}, {}, {})
  }

  ghost predicate Runs(c: Settings, s: State, steps: seq<Step>, s': State)
    decreases |steps|
  {
    if steps == [] then s == s'
    else Enabled(c, s, steps[0]) && Runs(c, Apply(c, s, steps[0]), steps[1..], s')
  }
}
