/**
 Exactly when a backfill is safe.  A reader captures its epoch, reads, and compares epochs once before
 it fills the layers above the one that was hit.  A value fetched on the reader's own instance is
 stored although its key was bumped since the fetch exactly when the bump fell before the capture or
 after the comparison.
 */
module FenceBackfill {
  import opened EpochTable
  import opened FenceProtocol
  import opened FenceSafety

  // ---- Logs ----

  // What was logged from one moment to another.
  function Between<T>(log: seq<T>, from: nat, to: nat): seq<T> {
    if from <= to <= |log| then log[from..to] else []
  }

  lemma SplitAt<T>(log: seq<T>, from: nat, to: nat, x: T)
    requires from <= to <= |log|
    ensures x in Since(log, from) <==> x in Between(log, from, to) || x in Since(log, to)
  {
    assert log[from..] == log[from..to] + log[to..];
  }

  // Equal epochs rule out the time between capture and comparison, and nothing else.
  lemma BumpedOutsideWindow(log: seq<Key>, fetched: nat, captured: nat, compared: nat, key: Key)
    requires captured <= compared <= |log| && fetched <= compared
    requires EpochOf(log[..captured], key) == EpochOf(log[..compared], key)
    requires EpochOf(log[..captured], key) == 0 ==> compared - captured <= MAX_INVALIDATION_EPOCHS
    ensures key in Since(log, fetched) <==> key in Between(log, fetched, captured) || key in Since(log, compared)
  {
    var upTo := log[..compared];
    assert upTo[..captured] == log[..captured] && upTo[captured..] == log[captured..compared];
    EqualEpochMeansNoBump(upTo, captured, key);
    if fetched <= captured {
      SplitAt(log, fetched, captured, key);
      SplitAt(log, captured, compared, key);
    } else {
      SplitAt(log, fetched, compared, key);
      assert forall i :: fetched <= i < compared ==> log[i] == log[captured..compared][i - captured];
    }
  }

  // ---- What readers remember ----

  ghost predicate FetchedBefore(l: Ledger, value: Value) {
    value.bumps <= |LogOf(l, value.home)|
  }

  ghost predicate CapturedAt(l: Ledger, r: Process)
    requires r.Reader?
  {
    r.captured <= |LogOf(l, r.instance)| && r.epoch == EpochOf(LogOf(l, r.instance)[..r.captured], r.key)
  }

  ghost predicate ComparedAt(l: Ledger, r: Process, value: Value, compared: nat)
    requires r.Reader?
  {
    && r.captured <= compared <= |LogOf(l, r.instance)|
    && EpochOf(LogOf(l, r.instance)[..compared], r.key) == r.epoch
    && (value.home == r.instance ==> value.bumps <= compared)
  }

  ghost predicate ReaderInOrder(l: Ledger, r: Process)
    requires r.Reader?
  {
    CapturedAt(l, r) &&
    match r.reading
    case Reading(_) => true
    case Found(_, value) => FetchedBefore(l, value)
    case Filling(_, _, value, compared) => FetchedBefore(l, value) && ComparedAt(l, r, value, compared)
  }

  ghost predicate StoredBefore(l: Ledger, s: State) {
    && (forall key :: key in s.shared ==> FetchedBefore(l, s.shared[key]))
    && (forall at :: at in s.upper ==> FetchedBefore(l, s.upper[at]))
  }

  ghost predicate ReadersInOrder(s: State) {
    && StoredBefore(s.ledger, s)
    && (forall pid :: IsWriter(s, pid) ==> FetchedBefore(s.ledger, s.processes[pid].value))
    && (forall pid :: IsReader(s, pid) ==> ReaderInOrder(s.ledger, s.processes[pid]))
  }

  // ---- Logs only grow ----

  ghost predicate LogsGrow(l: Ledger, l': Ledger) {
    forall i: Instance :: LogOf(l, i) <= LogOf(l', i)
  }

  lemma CapturedPersists(l: Ledger, l': Ledger, r: Process)
    requires r.Reader? && LogsGrow(l, l') && CapturedAt(l, r)
    ensures CapturedAt(l', r)
  {
    assert LogOf(l, r.instance) <= LogOf(l', r.instance);
    assert LogOf(l', r.instance)[..r.captured] == LogOf(l, r.instance)[..r.captured];
  }

  lemma ComparedPersists(l: Ledger, l': Ledger, r: Process, value: Value, compared: nat)
    requires r.Reader? && LogsGrow(l, l') && ComparedAt(l, r, value, compared)
    ensures ComparedAt(l', r, value, compared)
  {
    assert LogOf(l, r.instance) <= LogOf(l', r.instance);
    assert LogOf(l', r.instance)[..compared] == LogOf(l, r.instance)[..compared];
  }

  lemma FetchedPersists(l: Ledger, l': Ledger, value: Value)
    requires LogsGrow(l, l') && FetchedBefore(l, value)
    ensures FetchedBefore(l', value)
  {
    assert LogOf(l, value.home) <= LogOf(l', value.home);
  }

  lemma ReaderPersists(l: Ledger, l': Ledger, r: Process)
    requires r.Reader? && LogsGrow(l, l') && ReaderInOrder(l, r)
    ensures ReaderInOrder(l', r)
  {
    CapturedPersists(l, l', r);
    match r.reading
    case Reading(_) =>
    case Found(_, value) => FetchedPersists(l, l', value);
    case Filling(_, _, value, compared) =>
      FetchedPersists(l, l', value);
      ComparedPersists(l, l', r, value, compared);
  }

  // A step of one process that stores nothing unknown.
  lemma StepInOrder(s: State, s': State, touched: Pid)
    requires ReadersInOrder(s) && LogsGrow(s.ledger, s'.ledger) && OthersUnchanged(s, s', touched)
    requires StoredBefore(s.ledger, s')
    requires IsWriter(s', touched) ==> FetchedBefore(s'.ledger, s'.processes[touched].value)
    requires IsReader(s', touched) ==> ReaderInOrder(s'.ledger, s'.processes[touched])
    ensures ReadersInOrder(s')
  {
    forall key | key in s'.shared ensures FetchedBefore(s'.ledger, s'.shared[key]) {
      FetchedPersists(s.ledger, s'.ledger, s'.shared[key]);
    }
    forall at | at in s'.upper ensures FetchedBefore(s'.ledger, s'.upper[at]) {
      FetchedPersists(s.ledger, s'.ledger, s'.upper[at]);
    }
    forall pid | IsWriter(s', pid) && pid != touched ensures FetchedBefore(s'.ledger, s'.processes[pid].value) {
      assert IsWriter(s, pid);
      FetchedPersists(s.ledger, s'.ledger, s'.processes[pid].value);
    }
    forall pid | IsReader(s', pid) && pid != touched ensures ReaderInOrder(s'.ledger, s'.processes[pid]) {
      assert IsReader(s, pid);
      ReaderPersists(s.ledger, s'.ledger, s'.processes[pid]);
    }
  }

  // ---- Steps of writers and deleters ----

  lemma StartWriteInOrder(s: State, instance: Instance, key: Key)
    requires ReadersInOrder(s)
    ensures ReadersInOrder(AfterStartWrite(s, instance, key))
  {
    StepInOrder(s, AfterStartWrite(s, instance, key), s.nextPid);
  }

  lemma WriterGoesOnInOrder(s: State, pid: Pid, stage: WriteStage)
    requires ReadersInOrder(s) && IsWriter(s, pid)
    ensures ReadersInOrder(Become(s, pid, s.processes[pid].(stage := stage))) && ReadersInOrder(End(s, pid))
  {
    StepInOrder(s, Become(s, pid, s.processes[pid].(stage := stage)), pid);
    StepInOrder(s, End(s, pid), pid);
  }

  lemma CompareEpochInOrder(s: State, pid: Pid)
    requires ReadersInOrder(s) && Enabled(s, CompareEpoch(pid))
    ensures ReadersInOrder(AfterCompareEpoch(s, pid))
  {
    WriterGoesOnInOrder(s, pid, Setting(s.processes[pid].stage.layer));
    WriterGoesOnInOrder(s, pid, Compensating(0));
  }

  lemma PutInOrder(s: State, instance: Instance, layer: nat, key: Key, value: Value)
    requires ReadersInOrder(s) && FetchedBefore(s.ledger, value)
    ensures ReadersInOrder(Put(s, instance, layer, key, value))
  {
  }

  lemma DropInOrder(s: State, instance: Instance, layer: nat, key: Key)
    requires ReadersInOrder(s)
    ensures ReadersInOrder(Drop(s, instance, layer, key))
  {
  }

  lemma SetEffectInOrder(s: State, pid: Pid)
    requires ReadersInOrder(s) && Enabled(s, SetEffect(pid))
    ensures ReadersInOrder(AfterSetEffect(s, pid))
  {
    var w := s.processes[pid];
    assert IsWriter(s, pid);
    PutInOrder(s, w.instance, w.stage.layer, w.key, w.value);
    WriterGoesOnInOrder(Put(s, w.instance, w.stage.layer, w.key, w.value), pid, Ready(w.stage.layer + 1));
  }

  lemma CompensatingDeleteInOrder(s: State, pid: Pid)
    requires ReadersInOrder(s) && Enabled(s, CompensatingDelete(pid))
    ensures ReadersInOrder(AfterCompensatingDelete(s, pid))
  {
    var w := s.processes[pid];
    DropInOrder(s, w.instance, w.stage.layer, w.key);
    WriterGoesOnInOrder(Drop(s, w.instance, w.stage.layer, w.key), pid, Compensating(w.stage.layer + 1));
  }

  // A deleter starts, goes on or ends, and the logs may have grown.
  lemma DeleterInOrder(s: State, s': State, pid: Pid)
    requires ReadersInOrder(s) && LogsGrow(s.ledger, s'.ledger) && OthersUnchanged(s, s', pid)
    requires pid in s'.processes ==> s'.processes[pid].Deleter?
    requires s'.shared == s.shared && s'.upper == s.upper
    ensures ReadersInOrder(s')
  {
    StepInOrder(s, s', pid);
  }

  lemma BumpGrows(l: Ledger, l': Ledger, instance: Instance, key: Key)
    requires l'.bumps == BumpAt(l, instance, key).bumps
    ensures LogsGrow(l, l')
  {
  }

  lemma InvalidateKeyInOrder(s: State, instance: Instance, key: Key)
    requires ReadersInOrder(s)
    ensures ReadersInOrder(AfterInvalidateKey(s, instance, key))
  {
    var s' := AfterInvalidateKey(s, instance, key);
    BumpGrows(s.ledger, s'.ledger, instance, key);
    DeleterInOrder(s, s', s.nextPid);
  }

  lemma InvalidateTagInOrder(s: State, instance: Instance, snapshot: seq<Key>)
    requires ReadersInOrder(s)
    ensures ReadersInOrder(AfterInvalidateTag(s, instance, snapshot))
  {
    DeleterInOrder(s, AfterInvalidateTag(s, instance, snapshot), s.nextPid);
  }

  lemma DeleteEffectInOrder(s: State, pid: Pid)
    requires ReadersInOrder(s) && Enabled(s, DeleteEffect(pid))
    ensures ReadersInOrder(AfterDeleteEffect(s, pid))
  {
    var d := s.processes[pid];
    DropInOrder(s, d.instance, d.layer, d.key);
    DeleterInOrder(Drop(s, d.instance, d.layer, d.key), AfterDeleteEffect(s, pid), pid);
  }

  lemma DeleterDoneInOrder(s: State, pid: Pid)
    requires ReadersInOrder(s) && Enabled(s, DeleterDone(pid))
    ensures ReadersInOrder(AfterDeleterDone(s, pid))
  {
    var s', d := AfterDeleterDone(s, pid), s.processes[pid];
    if d.andThen.NextKeys? && d.andThen.keys != [] {
      BumpGrows(s.ledger, s'.ledger, d.instance, d.andThen.keys[0]);
    }
    DeleterInOrder(s, s', pid);
  }

  lemma DeliverInOrder(s: State, instance: Instance, id: EventId, snapshot: seq<Key>)
    requires ReadersInOrder(s) && Enabled(s, Deliver(instance, id, snapshot))
    ensures ReadersInOrder(AfterDeliver(s, instance, id, snapshot))
  {
    var s' := AfterDeliver(s, instance, id, snapshot);
    if id in SeenBy(s.ledger, instance) {
      SameBumpsInOrder(s, s'.ledger);
    } else {
      if s.ledger.published[id].KeyEvent? {
        BumpGrows(s.ledger, s'.ledger, instance, s.ledger.published[id].key);
      }
      DeleterInOrder(s, s', s.nextPid);
    }
  }

  lemma SameBumpsInOrder(s: State, l: Ledger)
    requires ReadersInOrder(s) && l.bumps == s.ledger.bumps
    ensures ReadersInOrder(s.(ledger := l))
  {
    assert LogsGrow(s.ledger, l);
    forall pid | IsReader(s, pid) ensures ReaderInOrder(l, s.processes[pid]) {
      ReaderPersists(s.ledger, l, s.processes[pid]);
    }
  }

  // ---- Steps of readers ----

  lemma StartReadInOrder(s: State, instance: Instance, key: Key)
    requires ReadersInOrder(s)
    ensures ReadersInOrder(AfterStartRead(s, instance, key))
  {
    var log := LogOf(s.ledger, instance);
    assert log[..|log|] == log;
    StepInOrder(s, AfterStartRead(s, instance, key), s.nextPid);
  }

  lemma LayerMissInOrder(s: State, pid: Pid)
    requires ReadersInOrder(s) && Enabled(s, LayerMiss(pid))
    ensures ReadersInOrder(AfterLayerMiss(s, pid))
  {
    assert IsReader(s, pid);
    StepInOrder(s, AfterLayerMiss(s, pid), pid);
  }

  lemma LayerHitInOrder(s: State, pid: Pid)
    requires ReadersInOrder(s) && Enabled(s, LayerHit(pid))
    ensures ReadersInOrder(AfterLayerHit(s, pid))
  {
    assert IsReader(s, pid);
    StepInOrder(s, AfterLayerHit(s, pid), pid);
  }

  lemma StartBackfillInOrder(s: State, pid: Pid)
    requires ReadersInOrder(s) && Enabled(s, StartBackfill(pid))
    ensures ReadersInOrder(AfterStartBackfill(s, pid))
  {
    var log := LogOf(s.ledger, s.processes[pid].instance);
    assert IsReader(s, pid) && log[..|log|] == log;
    StepInOrder(s, AfterStartBackfill(s, pid), pid);
  }

  lemma FillingGoesOn(s: State, pid: Pid, next: nat)
    requires ReadersInOrder(s) && IsReader(s, pid) && s.processes[pid].reading.Filling?
    ensures var r := s.processes[pid]; ReadersInOrder(Become(s, pid, r.(reading := r.reading.(next := next))))
    ensures ReadersInOrder(End(s, pid))
  {
    var r := s.processes[pid];
    StepInOrder(s, Become(s, pid, r.(reading := r.reading.(next := next))), pid);
    StepInOrder(s, End(s, pid), pid);
  }

  lemma BackfillSetInOrder(s: State, pid: Pid, skipped: bool)
    requires ReadersInOrder(s) && Enabled(s, BackfillSet(pid, skipped))
    ensures ReadersInOrder(AfterBackfillSet(s, pid, skipped))
  {
    var r := s.processes[pid];
    if r.reading.next >= r.reading.layer {
      FillingGoesOn(s, pid, 0);
    } else if skipped {
      FillingGoesOn(s, pid, r.reading.next + 1);
    } else {
      KnownValue(s, pid);
      PutInOrder(s, r.instance, r.reading.next, r.key, r.reading.value);
      FillingGoesOn(Put(s, r.instance, r.reading.next, r.key, r.reading.value), pid, r.reading.next + 1);
    }
  }

  lemma KnownValue(s: State, pid: Pid)
    requires ReadersInOrder(s) && IsReader(s, pid) && s.processes[pid].reading.Filling?
    ensures FetchedBefore(s.ledger, s.processes[pid].reading.value)
  {
  }

  // ---- Every run ----

  lemma StepKeepsReaders(s: State, step: Step)
    requires ReadersInOrder(s) && Enabled(s, step)
    ensures ReadersInOrder(Apply(s, step))
  {
    match step
    case StartWrite(instance, key) => StartWriteInOrder(s, instance, key);
    case FetchDone(pid) => WriterGoesOnInOrder(s, pid, Ready(0));
    case GiveUp(pid) => WriterGoesOnInOrder(s, pid, Fetching);
    case CompareEpoch(pid) => CompareEpochInOrder(s, pid);
    case SetEffect(pid) => SetEffectInOrder(s, pid);
    case SetSkipped(pid) => WriterGoesOnInOrder(s, pid, Ready(s.processes[pid].stage.layer + 1));
    case CompensatingDelete(pid) => CompensatingDeleteInOrder(s, pid);
    case InvalidateKey(instance, key) => InvalidateKeyInOrder(s, instance, key);
    case InvalidateTag(instance, snapshot) => InvalidateTagInOrder(s, instance, snapshot);
    case DeleteEffect(pid) => DeleteEffectInOrder(s, pid);
    case DeleterDone(pid) => DeleterDoneInOrder(s, pid);
    case Deliver(instance, id, snapshot) => DeliverInOrder(s, instance, id, snapshot);
    case StartRead(instance, key) => StartReadInOrder(s, instance, key);
    case LayerMiss(pid) => LayerMissInOrder(s, pid);
    case LayerHit(pid) => LayerHitInOrder(s, pid);
    case StartBackfill(pid) => StartBackfillInOrder(s, pid);
    case BackfillSet(pid, skipped) => BackfillSetInOrder(s, pid, skipped);
    case Vanish(instance, layer, key) => DropInOrder(s, instance, layer, key);
  }

  lemma {:induction false} RunKeepsReaders(s: State, steps: seq<Step>, s': State, window: nat)
    requires ReadersInOrder(s) && Runs(s, steps, s', window)
    ensures ReadersInOrder(s')
    decreases |steps|
  {
    if steps == [] {
    } else {
      StepKeepsReaders(s, steps[0]);
      RunKeepsReaders(Apply(s, steps[0]), steps[1..], s', window);
    }
  }

  // The next backfill step of this reader stores the value it found in some layer.
  predicate StoresNext(s: State, pid: Pid) {
    Enabled(s, BackfillSet(pid, false)) && s.processes[pid].reading.next < s.processes[pid].reading.layer
  }

  // A reader that captured epoch 0 compared epochs after no more bumps than the map holds.
  predicate ComparedInWindow(r: Process)
    requires r.Reader? && r.reading.Filling?
  {
    r.epoch == 0 ==> r.reading.compared <= r.captured + MAX_INVALIDATION_EPOCHS
  }

  // Which values a backfill stores although their key was bumped since they were fetched on the
  // reader's own instance: exactly those bumped between their fetch and the capture of the epoch, or
  // after the comparison.
  lemma BackfillStoresStaleExactly(layers: nat, instances: nat, steps: seq<Step>, s: State, pid: Pid, window: nat)
    requires Runs(Initial(layers, instances), steps, s, window) && StoresNext(s, pid)
    requires s.processes[pid].reading.value.home == s.processes[pid].instance && ComparedInWindow(s.processes[pid])
    ensures var r, s' := s.processes[pid], Apply(s, BackfillSet(pid, false));
            var Filling(next, _, value, compared), log := r.reading, LogOf(s.ledger, r.instance);
            && Holds(s', r.instance, next, r.key) && Stored(s', r.instance, next, r.key) == value
            && r.captured <= compared <= |log|
            && (r.key in Since(log, value.bumps)
                <==> r.key in Between(log, value.bumps, r.captured) || r.key in Since(log, compared))
  {
    RunKeepsReaders(Initial(layers, instances), steps, s, window);
    var r := s.processes[pid];
    assert IsReader(s, pid);
    var log := LogOf(s.ledger, r.instance);
    BumpedOutsideWindow(log, r.reading.value.bumps, r.captured, r.reading.compared, r.key);
  }
}
