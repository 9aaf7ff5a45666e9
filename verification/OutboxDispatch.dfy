/**
 One poll of the outbox worker as it runs: the loop over the claimed rows with its counters, and
 the loops over the keys and tags of one row.
 */
module OutboxDispatch {
  import opened Options
  import opened Outbox

  // ---- One row's invalidation ----

  lemma {:induction false} UniqueKeepsMembers(values: seq<string>, x: string)
    ensures x in Unique(values) <==> x in values
  {
    if values == [] {
    } else {
      UniqueKeepsMembers(values[..|values| - 1], x);
      assert values == values[..|values| - 1] + [values[|values| - 1]];
    }
  }

  // The order of first occurrences is kept.
  lemma {:induction false} UniqueKeepsOrder(values: seq<string>, i: nat, j: nat)
    requires i < j < |Unique(values)|
    ensures exists m: nat :: m < |values| && values[m] == Unique(values)[i] && Unique(values)[j] !in values[..m + 1]
  {
    var front, unique := values[..|values| - 1], Unique(values[..|values| - 1]);
    if j < |unique| {
      UniqueKeepsOrder(front, i, j);
      var m: nat :| m < |front| && front[m] == unique[i] && unique[j] !in front[..m + 1];
      assert values[..m + 1] == front[..m + 1];
    } else {
      UniqueKeepsMembers(front, unique[i]);
      UniqueKeepsMembers(front, Unique(values)[j]);
      var m: nat :| m < |front| && front[m] == unique[i];
      assert forall x :: x in values[..m + 1] ==> x in front;
    }
  }

  lemma {:induction false} UniqueHasNoRepeats(values: seq<string>)
    ensures forall i, j :: 0 <= i < j < |Unique(values)| ==> Unique(values)[i] != Unique(values)[j]
  {
    if values == [] {
    } else {
      UniqueHasNoRepeats(values[..|values| - 1]);
    }
  }

  // The targets are exactly the keys and tags of the payload, for its tenant.
  lemma TargetsAreKeysAndTags(payload: Invalidation, x: string, tenant: Option<string>)
    ensures Key(x, tenant) in Targets(payload) <==> x in payload.keys && tenant == payload.tenant
    ensures Tag(x, tenant) in Targets(payload) <==> x in payload.tags && tenant == payload.tenant
  {
    var keys, tags, targets := Unique(payload.keys), Unique(payload.tags), Targets(payload);
    UniqueKeepsMembers(payload.keys, x);
    UniqueKeepsMembers(payload.tags, x);
    if x in keys {
      var i :| 0 <= i < |keys| && keys[i] == x;
      assert targets[i] == Key(x, payload.tenant);
    }
    if x in tags {
      var i :| 0 <= i < |tags| && tags[i] == x;
      assert targets[|keys| + i] == Tag(x, payload.tenant);
    }
  }

  // Keys come first.
  lemma KeysComeFirst(payload: Invalidation, i: nat, j: nat)
    requires i < j < |Targets(payload)| && Targets(payload)[j].Key?
    ensures Targets(payload)[i].Key?
  {
  }

  lemma TargetsHaveNoRepeats(payload: Invalidation)
    ensures forall i, j :: 0 <= i < j < |Targets(payload)| ==> Targets(payload)[i] != Targets(payload)[j]
  {
    UniqueHasNoRepeats(payload.keys);
    UniqueHasNoRepeats(payload.tags);
  }

  method UniqueOf(values: seq<string>) returns (unique: seq<string>)
    ensures unique == Unique(values)
  {
    unique := [];
    for i := 0 to |values|
      invariant unique == Unique(values[..i])
    {
      assert values[..i + 1][..i] == values[..i];
      if values[i] !in unique {
        unique := unique + [values[i]];
      }
    }
    assert values[..|values|] == values;
  }

  // Invalidates every key, then every tag; `failsAt` is the call that throws, if any.
  method ApplyOutboxInvalidation(payload: Invalidation, failsAt: Option<nat>) returns (calls: seq<Target>, ok: bool)
    ensures calls <= Targets(payload)
    ensures ok <==> calls == Targets(payload)
    ensures ok <==> failsAt.None? || failsAt.value >= |Targets(payload)|
  {
    var keys := UniqueOf(payload.keys);
    var tags := UniqueOf(payload.tags);
    ghost var targets := Targets(payload);
    calls := [];
    for i := 0 to |keys|
      invariant |calls| == i && calls == targets[..i]
      invariant failsAt.Some? ==> i <= failsAt.value
    {
      if failsAt == Some(i) {
        return calls, false;
      }
      calls := calls + [Key(keys[i], payload.tenant)];
    }
    for i := 0 to |tags|
      invariant |calls| == |keys| + i && calls == targets[..|keys| + i]
      invariant failsAt.Some? ==> |keys| + i <= failsAt.value
    {
      if failsAt == Some(|keys| + i) {
        return calls, false;
      }
      calls := calls + [Tag(tags[i], payload.tenant)];
    }
    ok := true;
  }

  // ---- One poll ----

  // What happens to a row: whether its payload maps, its invalidation succeeds, its mark is applied.
  datatype Attempt = Attempt(parses: bool, invalidates: bool, markApplied: bool)

  datatype PollResult = PollResult(rows: nat, processed: nat, failed: nat, deadLettered: nat)

  // The table after the first rows of a batch have been dispatched.
  function Dispatched(c: Settings, table: map<Id, Row>, batch: seq<Snapshot>, attempts: seq<Attempt>): map<Id, Row>
    requires |batch| == |attempts|
  {
    if batch == [] then table
    else
      var row, a := batch[|batch| - 1], attempts[|attempts| - 1];
      var before := Dispatched(c, table, batch[..|batch| - 1], attempts[..|attempts| - 1]);
      if a.markApplied && row.id in before then
        before[row.id := ApplyMark(before[row.id], MarkFor(c, row.retryCount, a.parses, a.invalidates))]
      else before
  }

  // The rows whose attempt was recorded with this mark.
  function Recorded(c: Settings, batch: seq<Snapshot>, attempts: seq<Attempt>, mark: Mark): nat
    requires |batch| == |attempts|
  {
    if batch == [] then 0
    else
      var row, a := batch[|batch| - 1], attempts[|attempts| - 1];
      Recorded(c, batch[..|batch| - 1], attempts[..|attempts| - 1], mark)
      + if a.markApplied && MarkFor(c, row.retryCount, a.parses, a.invalidates) == mark then 1 else 0
  }

  lemma OneMoreRow(c: Settings, table: map<Id, Row>, batch: seq<Snapshot>, attempts: seq<Attempt>, done: nat)
    requires |batch| == |attempts| && done < |batch|
    ensures var row, a := batch[done], attempts[done];
            var before := Dispatched(c, table, batch[..done], attempts[..done]);
            var mark := MarkFor(c, row.retryCount, a.parses, a.invalidates);
            && Dispatched(c, table, batch[..done + 1], attempts[..done + 1])
               == (if a.markApplied && row.id in before then before[row.id := ApplyMark(before[row.id], mark)]
                   else before)
            && forall m :: Recorded(c, batch[..done + 1], attempts[..done + 1], m)
                           == Recorded(c, batch[..done], attempts[..done], m)
                              + if a.markApplied && mark == m then 1 else 0
  {
    assert batch[..done + 1][..done] == batch[..done] && attempts[..done + 1][..done] == attempts[..done];
  }

  // ---- What a poll means for each row ----

  // An attempt that is not recorded leaves its row alone.  A recorded one ends the row if it invalidated
  // everything, if its payload did not map, or if it was the last one allowed; it counts one retry unless
  // it succeeded, and releases the claim.
  predicate RecordedRight(c: Settings, before: Row, after: Row, row: Snapshot, a: Attempt) {
    if !a.markApplied then after == before
    else
      var succeeded := a.parses && a.invalidates;
      var last := c.maxRetries.Some? && row.retryCount + 1 >= c.maxRetries.value;
      && (after.processed <==> before.processed || succeeded || !a.parses || last)
      && after.retryCount == before.retryCount + (if succeeded then 0 else 1)
      && after.claimedAt == None && after.payload == before.payload && after.createdAt == before.createdAt
  }

  predicate DistinctRows(batch: seq<Snapshot>) {
    forall i, j :: 0 <= i < j < |batch| ==> batch[i].id != batch[j].id
  }

  ghost predicate RowsRight(c: Settings, table: map<Id, Row>, rows: map<Id, Row>, batch: seq<Snapshot>,
                            attempts: seq<Attempt>)
    requires |batch| == |attempts|
  {
    && rows.Keys == table.Keys
    && (forall i :: 0 <= i < |batch| && batch[i].id in table ==>
          RecordedRight(c, table[batch[i].id], rows[batch[i].id], batch[i], attempts[i]))
    && (forall id :: id in table && (forall i :: 0 <= i < |batch| ==> batch[i].id != id) ==> rows[id] == table[id])
  }

  // Each row of a batch is recorded as its own attempt demands, and no other row is touched.
  lemma {:induction false} PollRecordsEachRow(c: Settings, table: map<Id, Row>, batch: seq<Snapshot>,
                                              attempts: seq<Attempt>)
    requires |batch| == |attempts| && DistinctRows(batch)
    ensures RowsRight(c, table, Dispatched(c, table, batch, attempts), batch, attempts)
  {
    if batch == [] {
    } else {
      var front, frontAttempts := batch[..|batch| - 1], attempts[..|attempts| - 1];
      PollRecordsEachRow(c, table, front, frontAttempts);
      var before, rows := Dispatched(c, table, front, frontAttempts), Dispatched(c, table, batch, attempts);
      var last := batch[|batch| - 1];
      forall i | 0 <= i < |batch| && batch[i].id in table
        ensures RecordedRight(c, table[batch[i].id], rows[batch[i].id], batch[i], attempts[i])
      {
        if i < |front| {
          assert front[i] == batch[i] && frontAttempts[i] == attempts[i] && batch[i].id != last.id;
          assert RecordedRight(c, table[batch[i].id], before[batch[i].id], front[i], frontAttempts[i]);
        } else {
          assert forall j :: 0 <= j < |front| ==> front[j] == batch[j] && front[j].id != last.id;
          assert before[last.id] == table[last.id];
        }
      }
      forall id | id in table && (forall i :: 0 <= i < |batch| ==> batch[i].id != id) ensures rows[id] == table[id] {
        assert batch[|batch| - 1].id != id;
        assert forall i :: 0 <= i < |front| ==> front[i] == batch[i];
      }
    }
  }

  predicate Succeeds(a: Attempt) {
    a.markApplied && a.parses && a.invalidates
  }

  predicate Dies(c: Settings, row: Snapshot, a: Attempt) {
    a.markApplied && (!a.parses || (!a.invalidates && c.maxRetries.Some? && row.retryCount + 1 >= c.maxRetries.value))
  }

  function Successes(attempts: seq<Attempt>): set<int> {
    set i | 0 <= i < |attempts| && Succeeds(attempts[i])
  }

  function Deaths(c: Settings, batch: seq<Snapshot>, attempts: seq<Attempt>): set<int>
    requires |batch| == |attempts|
  {
    set i | 0 <= i < |batch| && Dies(c, batch[i], attempts[i])
  }

  lemma OneMore(before: set<int>, after: set<int>, n: int, counts: bool)
    requires n !in before && after == before + if counts then {n} else {}
    ensures |after| == |before| + if counts then 1 else 0
  {
  }

  // The counters count the rows that succeeded, and those that were given up.
  lemma {:induction false} ProcessedCountsSuccesses(c: Settings, batch: seq<Snapshot>, attempts: seq<Attempt>)
    requires |batch| == |attempts|
    ensures Recorded(c, batch, attempts, Processed) == |Successes(attempts)|
  {
    if batch == [] {
      assert Successes(attempts) == {};
    } else {
      var n := |batch| - 1;
      ProcessedCountsSuccesses(c, batch[..n], attempts[..n]);
      OneMore(Successes(attempts[..n]), Successes(attempts), n, Succeeds(attempts[n]));
    }
  }

  lemma {:induction false} DeadLetteredCountsDeaths(c: Settings, batch: seq<Snapshot>, attempts: seq<Attempt>)
    requires |batch| == |attempts|
    ensures Recorded(c, batch, attempts, DeadLettered) == |Deaths(c, batch, attempts)|
  {
    if batch == [] {
      assert Deaths(c, batch, attempts) == {};
    } else {
      var n := |batch| - 1;
      DeadLetteredCountsDeaths(c, batch[..n], attempts[..n]);
      OneMore(Deaths(c, batch[..n], attempts[..n]), Deaths(c, batch, attempts), n, Dies(c, batch[n], attempts[n]));
    }
  }

  lemma PollIsRight(c: Settings, table: map<Id, Row>, batch: seq<Snapshot>, attempts: seq<Attempt>, done: nat)
    requires |batch| == |attempts| && done <= |batch|
    ensures var first, tried := batch[..done], attempts[..done];
            && (DistinctRows(batch) ==> RowsRight(c, table, Dispatched(c, table, first, tried), first, tried))
            && Recorded(c, first, tried, Processed) == |Successes(tried)|
            && Recorded(c, first, tried, DeadLettered) == |Deaths(c, first, tried)|
  {
    if DistinctRows(batch) {
      PollRecordsEachRow(c, table, batch[..done], attempts[..done]);
    }
    ProcessedCountsSuccesses(c, batch[..done], attempts[..done]);
    DeadLetteredCountsDeaths(c, batch[..done], attempts[..done]);
  }

  predicate Propagates(a: Attempt) {
    a.parses && !a.invalidates
  }

  // The loop of one poll.  Without propagation every claimed row is counted once, as processed or
  // as failed; with it, the first cache failure ends the poll after its row is marked.
  method Dispatch(c: Settings, propagate: bool, table: map<Id, Row>, batch: seq<Snapshot>, attempts: seq<Attempt>)
    returns (rows: map<Id, Row>, result: PollResult, done: nat, threw: bool)
    requires |batch| == |attempts| && forall i :: 0 <= i < |batch| ==> batch[i].id in table
    ensures done <= |batch| && rows == Dispatched(c, table, batch[..done], attempts[..done])
    ensures DistinctRows(batch) ==> RowsRight(c, table, rows, batch[..done], attempts[..done])
    ensures threw <==> propagate && exists i :: 0 <= i < |attempts| && Propagates(attempts[i])
    ensures threw ==> done > 0 && Propagates(attempts[done - 1])
    ensures threw ==> forall i :: 0 <= i < done - 1 ==> !Propagates(attempts[i])
    ensures !threw ==> done == |batch|
    ensures result.rows == |batch| && result.processed + result.failed == done
    ensures result.processed == |Successes(attempts[..done])|
    ensures result.deadLettered == |Deaths(c, batch[..done], attempts[..done])|
  {
    rows, done, threw := table, 0, false;
    var processed, failed, deadLettered := 0, 0, 0;
    while done < |batch|
      invariant done <= |batch| && rows == Dispatched(c, table, batch[..done], attempts[..done])
      invariant rows.Keys == table.Keys
      invariant processed + failed == done
      invariant processed == Recorded(c, batch[..done], attempts[..done], Processed)
      invariant deadLettered == Recorded(c, batch[..done], attempts[..done], DeadLettered)
      invariant propagate ==> forall i :: 0 <= i < done ==> !Propagates(attempts[i])
    {
      var row, a := batch[done], attempts[done];
      OneMoreRow(c, table, batch, attempts, done);
      if !(a.parses && a.invalidates) {
        failed := failed + 1;
        var dead := !a.parses || (c.maxRetries.Some? && row.retryCount + 1 >= c.maxRetries.value);
        if a.markApplied {
          rows := rows[row.id := ApplyMark(rows[row.id], if dead then DeadLettered else Failed)];
          if dead {
            deadLettered := deadLettered + 1;
          }
        }
        if propagate && a.parses {
          PollIsRight(c, table, batch, attempts, done + 1);
          return rows, PollResult(|batch|, processed, failed, deadLettered), done + 1, true;
        }
      } else if a.markApplied {
        rows := rows[row.id := ApplyMark(rows[row.id], Processed)];
        processed := processed + 1;
      } else {
        failed := failed + 1;
      }
      done := done + 1;
    }
    assert batch[..done] == batch && attempts[..done] == attempts;
    PollIsRight(c, table, batch, attempts, done);
    result := PollResult(|batch|, processed, failed, deadLettered);
  }
}
