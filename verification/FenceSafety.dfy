/**
 Safety of the epoch fence on the shared layer, over every run.

 The invariant: a stale value in the shared layer always has someone about to remove it, namely
 a running deleter of the key, an event that the value's instance has yet to replay, or the
 value's own writer, which will find its epoch changed and compensate.
 */
module FenceSafety {
  import opened EpochTable
  import opened FenceProtocol

  // ---- Who may still be about to delete `key` from the shared layer ----

  ghost predicate Deleting(s: State, key: Key) {
    exists pid :: IsDeleter(s, pid) && s.processes[pid].key == key && s.processes[pid].layer < s.layers
  }

  ghost predicate ToBePublished(s: State, instance: Instance, key: Key) {
    exists pid :: IsDeleter(s, pid) && s.processes[pid].key == key && s.processes[pid].andThen == Publish
                  && s.processes[pid].instance != instance
  }

  ghost predicate ToBeDelivered(s: State, instance: Instance, key: Key) {
    exists id :: id in s.ledger.published && s.ledger.published[id] == KeyEvent(key) && id.source != instance
                 && (instance, id) !in s.ledger.delivered
  }

  // An invalidation of `key` that `instance` has yet to replay.
  ghost predicate Unreplayed(s: State, instance: Instance, key: Key) {
    ToBePublished(s, instance, key) || ToBeDelivered(s, instance, key)
  }

  predicate WroteLastLayer(stage: WriteStage, layers: nat) {
    match stage
    case Ready(layer) => layer == layers
    case Compensating(layer) => layer < layers
    case _ => false
  }

  predicate WillCompensate(s: State, key: Key, value: Value) {
    && IsWriter(s, value.writer)
    && var w := s.processes[value.writer];
       && w.key == key && w.value == value && WroteLastLayer(w.stage, s.layers)
       && key in Since(LogOf(s.ledger, value.home), value.bumps)
  }

  ghost predicate Guarded(s: State, key: Key, value: Value) {
    Stale(s.ledger, key, value) ==> Deleting(s, key) || Unreplayed(s, value.home, key) || WillCompensate(s, key, value)
  }

  // ---- The invariant ----

  predicate StageInOrder(stage: WriteStage, layers: nat) {
    match stage
    case Fetching => true
    case Ready(layer) => layer <= layers
    case Setting(layer) => layer < layers
    case Compensating(layer) => layer < layers
  }

  ghost predicate WriterInvariant(s: State, pid: Pid, w: Process)
    requires w.Writer?
  {
    var log := LogOf(s.ledger, w.instance);
    && w.value.writer == pid && w.value.home == w.instance && w.instance < s.instances
    && w.value.bumps <= |log| && w.value.invalidations <= |s.ledger.invalidations|
    && w.epoch == EpochOf(log[..w.value.bumps], w.key)
    && StageInOrder(w.stage, s.layers)
    && (OfKey(w.key) in Since(s.ledger.invalidations, w.value.invalidations) && w.key !in Since(log, w.value.bumps)
        ==> Unreplayed(s, w.instance, w.key))
  }

  ghost predicate Bookkeeping(s: State) {
    && s.layers >= 1
    && (forall pid :: pid in s.processes ==> pid < s.nextPid)
    && (forall id :: id in s.ledger.published ==> id.counter < MintedBy(s.ledger, id.source))
    && (forall instance: Instance, id :: (instance, id) in s.ledger.delivered ==> id in s.ledger.published)
    && (forall instance: Instance, id :: id in SeenBy(s.ledger, instance) ==> (instance, id) in s.ledger.delivered)
  }

  ghost predicate ReaderInvariant(s: State, r: Process)
    requires r.Reader?
  {
    match r.reading
    case Reading(layer) => layer < s.layers
    case Found(layer, _) => layer < s.layers
    case Filling(_, layer, _, _) => layer < s.layers
  }

  ghost predicate WritersOk(s: State) {
    forall pid :: IsWriter(s, pid) ==> WriterInvariant(s, pid, s.processes[pid])
  }

  ghost predicate ReadersOk(s: State) {
    forall pid :: IsReader(s, pid) ==> ReaderInvariant(s, s.processes[pid])
  }

  ghost predicate SharedOk(s: State) {
    forall key :: key in s.shared ==> s.shared[key].home < s.instances && Guarded(s, key, s.shared[key])
  }

  ghost predicate Invariant(s: State) {
    Bookkeeping(s) && WritersOk(s) && ReadersOk(s) && SharedOk(s)
  }

  // ---- Steps that touch one process other than a deleter, and no log ----

  predicate SameLogs(s: State, s': State) {
    s'.layers == s.layers && s'.instances == s.instances && s'.ledger == s.ledger
  }

  ghost predicate OthersUnchanged(s: State, s': State, touched: Pid) {
    forall pid :: pid != touched ==>
      (pid in s.processes <==> pid in s'.processes) && (pid in s.processes ==> s'.processes[pid] == s.processes[pid])
  }

  // No event of a key is published or delivered.
  ghost predicate SameKeyEvents(l: Ledger, l': Ledger) {
    && l'.published == l.published
    && (forall instance: Instance, id :: (instance, id) in l'.delivered && (instance, id) !in l.delivered ==>
          id in l.published && l.published[id].TagEvent?)
  }

  lemma DutiesPersist(s: State, s': State, touched: Pid, instance: Instance, key: Key)
    requires s'.layers == s.layers && SameKeyEvents(s.ledger, s'.ledger)
    requires OthersUnchanged(s, s', touched) && !IsDeleter(s, touched)
    ensures Deleting(s, key) ==> Deleting(s', key)
    ensures Unreplayed(s, instance, key) ==> Unreplayed(s', instance, key)
  {
    if Deleting(s, key) {
      var pid :| IsDeleter(s, pid) && s.processes[pid].key == key && s.processes[pid].layer < s.layers;
      assert IsDeleter(s', pid);
    }
    if ToBePublished(s, instance, key) {
      var pid :| IsDeleter(s, pid) && s.processes[pid].key == key && s.processes[pid].andThen == Publish
                 && s.processes[pid].instance != instance;
      assert IsDeleter(s', pid);
    }
  }

  lemma QuietStepKeeps(s: State, s': State, touched: Pid)
    requires Invariant(s) && SameLogs(s, s') && OthersUnchanged(s, s', touched) && !IsDeleter(s, touched)
    requires s.nextPid <= s'.nextPid && (touched in s'.processes ==> touched < s'.nextPid)
    requires IsWriter(s', touched) ==> WriterInvariant(s', touched, s'.processes[touched])
    requires IsReader(s', touched) ==> ReaderInvariant(s', s'.processes[touched])
    requires forall key :: key in s'.shared ==> key in s.shared && s'.shared[key] == s.shared[key]
    requires forall key :: key in s'.shared && s.shared[key].writer == touched && WillCompensate(s, key, s.shared[key])
                           ==> WillCompensate(s', key, s.shared[key])
    ensures Invariant(s')
  {
    forall pid | IsWriter(s', pid) && pid != touched ensures WriterInvariant(s', pid, s'.processes[pid]) {
      assert IsWriter(s, pid);
      DutiesPersist(s, s', touched, s.processes[pid].instance, s.processes[pid].key);
    }
    forall pid | IsReader(s', pid) && pid != touched ensures ReaderInvariant(s', s'.processes[pid]) {
      assert IsReader(s, pid);
    }
    forall key | key in s'.shared ensures Guarded(s', key, s'.shared[key]) {
      DutiesPersist(s, s', touched, s.shared[key].home, key);
    }
  }

  lemma StartWriteKeeps(s: State, instance: Instance, key: Key)
    requires Invariant(s) && Enabled(s, StartWrite(instance, key))
    ensures Invariant(AfterStartWrite(s, instance, key))
  {
    var log := LogOf(s.ledger, instance);
    assert log[..|log|] == log;
    QuietStepKeeps(s, AfterStartWrite(s, instance, key), s.nextPid);
  }

  lemma WriterStageInOrder(s: State, pid: Pid)
    requires Invariant(s) && IsWriter(s, pid)
    ensures StageInOrder(s.processes[pid].stage, s.layers)
    ensures var w := s.processes[pid]; w.value.writer == pid && w.value.home == w.instance < s.instances
  {
  }

  // A writer goes on to `stage`, and nothing else changes.
  lemma WriterGoesOn(s: State, pid: Pid, stage: WriteStage)
    requires Invariant(s) && IsWriter(s, pid) && StageInOrder(stage, s.layers)
    requires forall key :: key in s.shared && s.shared[key].writer == pid && WillCompensate(s, key, s.shared[key])
                           ==> WroteLastLayer(stage, s.layers)
    ensures Invariant(Become(s, pid, s.processes[pid].(stage := stage)))
  {
    var w := s.processes[pid];
    var s' := Become(s, pid, w.(stage := stage));
    assert WriterInvariant(s, pid, w);
    DutiesPersist(s, s', pid, w.instance, w.key);
    QuietStepKeeps(s, s', pid);
  }

  lemma WriterEnds(s: State, pid: Pid)
    requires Invariant(s) && IsWriter(s, pid)
    requires forall key :: key in s.shared && s.shared[key].writer == pid ==> !WillCompensate(s, key, s.shared[key])
    ensures Invariant(End(s, pid))
  {
    QuietStepKeeps(s, End(s, pid), pid);
  }

  lemma FetchDoneKeeps(s: State, pid: Pid)
    requires Invariant(s) && Enabled(s, FetchDone(pid))
    ensures Invariant(Apply(s, FetchDone(pid)))
  {
    WriterGoesOn(s, pid, Ready(0));
  }

  lemma GiveUpKeeps(s: State, pid: Pid)
    requires Invariant(s) && Enabled(s, GiveUp(pid))
    ensures Invariant(Apply(s, GiveUp(pid)))
  {
    WriterEnds(s, pid);
  }

  lemma SetSkippedKeeps(s: State, pid: Pid)
    requires Invariant(s) && Enabled(s, SetSkipped(pid))
    ensures Invariant(AfterSetSkipped(s, pid))
  {
    WriterStageInOrder(s, pid);
    WriterGoesOn(s, pid, Ready(s.processes[pid].stage.layer + 1));
  }

  // An equal epoch means that the writer was not overtaken, so its value needs no compensation.
  lemma EqualEpochMeansNotOvertaken(s: State, pid: Pid)
    requires Invariant(s) && Enabled(s, CompareEpoch(pid)) && InWindow(s, CompareEpoch(pid), MAX_INVALIDATION_EPOCHS)
    requires EpochAt(s.ledger, s.processes[pid].instance, s.processes[pid].key) == s.processes[pid].epoch
    ensures forall key :: key in s.shared && s.shared[key].writer == pid ==> !WillCompensate(s, key, s.shared[key])
  {
    var w := s.processes[pid];
    assert IsWriter(s, pid) && WriterInvariant(s, pid, w);
    EqualEpochMeansNoBump(LogOf(s.ledger, w.instance), w.value.bumps, w.key);
  }

  lemma CompareEpochKeeps(s: State, pid: Pid)
    requires Invariant(s) && Enabled(s, CompareEpoch(pid)) && InWindow(s, CompareEpoch(pid), MAX_INVALIDATION_EPOCHS)
    ensures Invariant(AfterCompareEpoch(s, pid))
  {
    var w := s.processes[pid];
    if EpochAt(s.ledger, w.instance, w.key) == w.epoch {
      EqualEpochMeansNotOvertaken(s, pid);
      if w.stage.layer < s.layers {
        WriterGoesOn(s, pid, Setting(w.stage.layer));
      } else {
        WriterEnds(s, pid);
      }
    } else if w.stage.layer < s.layers {
      WriterEnds(s, pid);
    } else {
      WriterGoesOn(s, pid, Compensating(0));
    }
  }

  lemma SetEffectKeepsWriter(s: State, pid: Pid, other: Pid)
    requires Invariant(s) && Enabled(s, SetEffect(pid)) && IsWriter(AfterSetEffect(s, pid), other)
    ensures var s' := AfterSetEffect(s, pid); WriterInvariant(s', other, s'.processes[other])
  {
    assert IsWriter(s, other) && IsWriter(s, pid);
    DutiesPersist(s, AfterSetEffect(s, pid), pid, s.processes[other].instance, s.processes[other].key);
  }

  lemma SetEffectKeepsGuard(s: State, pid: Pid, key: Key)
    requires Invariant(s) && Enabled(s, SetEffect(pid)) && s.processes[pid].stage.layer + 1 == s.layers
    requires key in AfterSetEffect(s, pid).shared
    ensures var s' := AfterSetEffect(s, pid); s'.shared[key].home < s'.instances && Guarded(s', key, s'.shared[key])
  {
    var s', w := AfterSetEffect(s, pid), s.processes[pid];
    WriterStageInOrder(s, pid);
    assert IsWriter(s, pid);
    DutiesPersist(s, s', pid, s'.shared[key].home, key);
    if key != w.key {
      assert Guarded(s, key, s.shared[key]);
    }
  }

  // The shared layer gets the value, and its writer is about to compare epochs once more.
  lemma LastSetEffectKeeps(s: State, pid: Pid)
    requires Invariant(s) && Enabled(s, SetEffect(pid)) && s.processes[pid].stage.layer + 1 == s.layers
    ensures Invariant(AfterSetEffect(s, pid))
  {
    var s' := AfterSetEffect(s, pid);
    forall other | IsWriter(s', other) ensures WriterInvariant(s', other, s'.processes[other]) {
      SetEffectKeepsWriter(s, pid, other);
    }
    forall other | IsReader(s', other) ensures ReaderInvariant(s', s'.processes[other]) {
      assert IsReader(s, other);
    }
    forall key | key in s'.shared ensures s'.shared[key].home < s'.instances && Guarded(s', key, s'.shared[key]) {
      SetEffectKeepsGuard(s, pid, key);
    }
  }

  lemma SetEffectKeeps(s: State, pid: Pid)
    requires Invariant(s) && Enabled(s, SetEffect(pid))
    ensures Invariant(AfterSetEffect(s, pid))
  {
    WriterStageInOrder(s, pid);
    if s.processes[pid].stage.layer + 1 < s.layers {
      SetEffectKeepsWriter(s, pid, pid);
      QuietStepKeeps(s, AfterSetEffect(s, pid), pid);
    } else {
      LastSetEffectKeeps(s, pid);
    }
  }

  lemma CompensatingDeleteKeeps(s: State, pid: Pid)
    requires Invariant(s) && Enabled(s, CompensatingDelete(pid))
    ensures Invariant(AfterCompensatingDelete(s, pid))
  {
    var s', w := AfterCompensatingDelete(s, pid), s.processes[pid];
    assert IsWriter(s, pid);
    DutiesPersist(s, s', pid, w.instance, w.key);
    QuietStepKeeps(s, s', pid);
  }

  lemma ReadingKeeps(s: State, step: Step)
    requires Invariant(s) && Enabled(s, step) && (step.LayerMiss? || step.LayerHit? || step.StartBackfill?)
    ensures Invariant(Apply(s, step))
  {
    assert IsReader(s, step.pid) && ReaderInvariant(s, s.processes[step.pid]);
    QuietStepKeeps(s, Apply(s, step), step.pid);
  }

  // A backfill never reaches the last layer.
  lemma BackfillSetKeeps(s: State, pid: Pid, skipped: bool)
    requires Invariant(s) && Enabled(s, BackfillSet(pid, skipped))
    ensures Invariant(AfterBackfillSet(s, pid, skipped))
  {
    assert IsReader(s, pid) && ReaderInvariant(s, s.processes[pid]);
    QuietStepKeeps(s, AfterBackfillSet(s, pid, skipped), pid);
  }

  lemma StartReadKeeps(s: State, instance: Instance, key: Key)
    requires Invariant(s) && Enabled(s, StartRead(instance, key))
    ensures Invariant(Apply(s, StartRead(instance, key)))
  {
    QuietStepKeeps(s, Apply(s, StartRead(instance, key)), s.nextPid);
  }

  lemma VanishKeeps(s: State, instance: Instance, layer: nat, key: Key)
    requires Invariant(s)
    ensures Invariant(Drop(s, instance, layer, key))
  {
    QuietStepKeeps(s, Drop(s, instance, layer, key), s.nextPid);
  }

  // ---- Passes over the snapshot of a tag ----

  lemma {:induction false} SinceAppend<T>(log: seq<T>, last: T, mark: nat, x: T)
    ensures x in Since(log, mark) ==> x in Since(log + [last], mark)
    ensures x in Since(log + [last], mark) ==> x in Since(log, mark) || x == last
    ensures mark <= |log| ==> last in Since(log + [last], mark)
  {
    if mark <= |log| {
      assert (log + [last])[mark..] == log[mark..] + [last];
    }
  }

  // A pass starts: at most the issue of its tag and the delivery of its event are new in the logs.
  ghost predicate RoundStarted(s: State, s': State) {
    && s'.layers == s.layers && s'.instances == s.instances && s'.shared == s.shared
    && s'.ledger.bumps == s.ledger.bumps && SameKeyEvents(s.ledger, s'.ledger)
    && (s'.ledger.invalidations == s.ledger.invalidations
        || exists i :: s'.ledger.invalidations == s.ledger.invalidations + [OfTag(i)])
    && OthersUnchanged(s, s', s.nextPid) && s.nextPid !in s.processes && IsDeleter(s', s.nextPid)
  }

  lemma NoKeyIssued(s: State, s': State, mark: nat, key: Key)
    requires RoundStarted(s, s') && OfKey(key) in Since(s'.ledger.invalidations, mark)
    ensures OfKey(key) in Since(s.ledger.invalidations, mark)
  {
    if s'.ledger.invalidations != s.ledger.invalidations {
      var i :| s'.ledger.invalidations == s.ledger.invalidations + [OfTag(i)];
      SinceAppend(s.ledger.invalidations, OfTag(i), mark, OfKey(key));
    }
  }

  lemma RoundStartKeepsWriter(s: State, s': State, pid: Pid)
    requires RoundStarted(s, s') && IsWriter(s, pid) && WriterInvariant(s, pid, s.processes[pid])
    ensures IsWriter(s', pid) && WriterInvariant(s', pid, s'.processes[pid])
  {
    var w := s.processes[pid];
    DutiesPersist(s, s', s.nextPid, w.instance, w.key);
    if OfKey(w.key) in Since(s'.ledger.invalidations, w.value.invalidations) {
      NoKeyIssued(s, s', w.value.invalidations, w.key);
    }
  }

  lemma RoundStartKeepsGuard(s: State, s': State, key: Key, value: Value)
    requires RoundStarted(s, s') && Guarded(s, key, value)
    ensures Guarded(s', key, value)
  {
    DutiesPersist(s, s', s.nextPid, value.home, key);
    if OfKey(key) in Since(s'.ledger.invalidations, value.invalidations) {
      NoKeyIssued(s, s', value.invalidations, key);
    }
  }

  lemma RoundStartKeeps(s: State, s': State)
    requires Invariant(s) && Bookkeeping(s') && RoundStarted(s, s')
    ensures Invariant(s')
  {
    forall pid | IsWriter(s', pid) ensures WriterInvariant(s', pid, s'.processes[pid]) {
      RoundStartKeepsWriter(s, s', pid);
    }
    forall pid | IsReader(s', pid) ensures ReaderInvariant(s', s'.processes[pid]) {
      assert IsReader(s, pid);
    }
    forall key | key in s'.shared ensures Guarded(s', key, s'.shared[key]) {
      RoundStartKeepsGuard(s, s', key, s.shared[key]);
    }
  }

  lemma InvalidateTagKeeps(s: State, instance: Instance, snapshot: seq<Key>)
    requires Invariant(s)
    ensures Invariant(AfterInvalidateTag(s, instance, snapshot))
  {
    var s' := AfterInvalidateTag(s, instance, snapshot);
    assert s'.ledger.invalidations == s.ledger.invalidations + [OfTag(instance)];
    RoundStartKeeps(s, s');
  }

  // ---- Steps of deleters ----

  lemma DeleteEffectDuties(s: State, pid: Pid, instance: Instance, key: Key)
    requires Bookkeeping(s) && Enabled(s, DeleteEffect(pid))
    ensures var s' := AfterDeleteEffect(s, pid);
            && (Deleting(s, key) && key in s'.shared ==> Deleting(s', key))
            && (Unreplayed(s, instance, key) ==> Unreplayed(s', instance, key))
  {
    var s' := AfterDeleteEffect(s, pid);
    if Deleting(s, key) {
      var p :| IsDeleter(s, p) && s.processes[p].key == key && s.processes[p].layer < s.layers;
      assert IsDeleter(s', p);
    }
    if ToBePublished(s, instance, key) {
      var p :| IsDeleter(s, p) && s.processes[p].key == key && s.processes[p].andThen == Publish
               && s.processes[p].instance != instance;
      assert IsDeleter(s', p);
    }
  }

  lemma DeleteEffectKeepsWriter(s: State, pid: Pid, other: Pid)
    requires Bookkeeping(s) && Enabled(s, DeleteEffect(pid))
    requires IsWriter(s, other) && WriterInvariant(s, other, s.processes[other])
    ensures var s' := AfterDeleteEffect(s, pid); WriterInvariant(s', other, s'.processes[other])
  {
    DeleteEffectDuties(s, pid, s.processes[other].instance, s.processes[other].key);
  }

  lemma DeleteEffectKeepsGuard(s: State, pid: Pid, key: Key)
    requires Bookkeeping(s) && Enabled(s, DeleteEffect(pid)) && key in AfterDeleteEffect(s, pid).shared
    requires key in s.shared && Guarded(s, key, s.shared[key])
    ensures var s' := AfterDeleteEffect(s, pid); Guarded(s', key, s'.shared[key])
  {
    DeleteEffectDuties(s, pid, s.shared[key].home, key);
  }

  lemma DeleteEffectKeeps(s: State, pid: Pid)
    requires Invariant(s) && Enabled(s, DeleteEffect(pid))
    ensures Invariant(AfterDeleteEffect(s, pid))
  {
    var s' := AfterDeleteEffect(s, pid);
    forall other | IsWriter(s', other) ensures WriterInvariant(s', other, s'.processes[other]) {
      assert IsWriter(s, other);
      DeleteEffectKeepsWriter(s, pid, other);
    }
    forall other | IsReader(s', other) ensures ReaderInvariant(s', s'.processes[other]) {
      assert IsReader(s, other);
    }
    forall key | key in s'.shared ensures Guarded(s', key, s'.shared[key]) {
      DeleteEffectKeepsGuard(s, pid, key);
    }
  }

  // A bump of `key` on `instance` by the deleter `pid`, which is about to delete the key.  Either
  // an invalidation issued now, whose event will follow, or the replay of delivered events.
  ghost predicate BumpedBy(s: State, s': State, instance: Instance, key: Key, pid: Pid) {
    && s'.layers == s.layers && s'.instances == s.instances && s'.shared == s.shared
    && s'.ledger.bumps == BumpAt(s.ledger, instance, key).bumps
    && s'.ledger.published == s.ledger.published
    && OthersUnchanged(s, s', pid) && !IsWriter(s, pid) && !IsReader(s, pid)
    && (IsDeleter(s, pid) ==> s.processes[pid].layer >= s.layers && s.processes[pid].andThen != Publish)
    && IsDeleter(s', pid) && s'.processes[pid].key == key && s'.processes[pid].layer == 0
    && s.ledger.delivered <= s'.ledger.delivered
    && (forall other: Instance, id :: (other, id) in s'.ledger.delivered && (other, id) !in s.ledger.delivered ==>
          other == instance && id in s.ledger.published && s.ledger.published[id] == KeyEvent(key))
    && (s'.ledger.invalidations == s.ledger.invalidations
        || (s'.ledger.invalidations == s.ledger.invalidations + [OfKey(key)]
            && s'.processes[pid].andThen == Publish && s'.processes[pid].instance == instance))
  }

  lemma BumpDuties(s: State, s': State, instance: Instance, key: Key, pid: Pid, home: Instance, other: Key)
    requires s.layers >= 1 && BumpedBy(s, s', instance, key, pid)
    ensures Deleting(s', key)
    ensures Deleting(s, other) ==> Deleting(s', other)
    ensures Unreplayed(s, home, other) && (home, other) != (instance, key) ==> Unreplayed(s', home, other)
    ensures s'.ledger.invalidations != s.ledger.invalidations && home != instance ==> Unreplayed(s', home, key)
  {
    if Deleting(s, other) {
      var p :| IsDeleter(s, p) && s.processes[p].key == other && s.processes[p].layer < s.layers;
      assert IsDeleter(s', p);
    }
    if ToBePublished(s, home, other) {
      var p :| IsDeleter(s, p) && s.processes[p].key == other && s.processes[p].andThen == Publish
               && s.processes[p].instance != home;
      assert IsDeleter(s', p);
    }
  }

  lemma BumpKeepsWriter(s: State, s': State, instance: Instance, key: Key, pid: Pid, other: Pid)
    requires s.layers >= 1 && BumpedBy(s, s', instance, key, pid)
    requires other != pid && IsWriter(s, other) && WriterInvariant(s, other, s.processes[other])
    ensures WriterInvariant(s', other, s'.processes[other])
  {
    var w := s.processes[other];
    var log := LogOf(s.ledger, w.instance);
    BumpDuties(s, s', instance, key, pid, w.instance, w.key);
    SinceAppend(log, key, w.value.bumps, w.key);
    SinceAppend(s.ledger.invalidations, OfKey(key), w.value.invalidations, OfKey(w.key));
    assert (log + [key])[..w.value.bumps] == log[..w.value.bumps];
  }

  lemma BumpKeepsGuard(s: State, s': State, instance: Instance, key: Key, pid: Pid, other: Key, value: Value)
    requires s.layers >= 1 && BumpedBy(s, s', instance, key, pid)
    requires Guarded(s, other, value)
    ensures Guarded(s', other, value)
  {
    BumpDuties(s, s', instance, key, pid, value.home, other);
    if other != key {
      SinceAppend(LogOf(s.ledger, value.home), key, value.bumps, other);
      SinceAppend(s.ledger.invalidations, OfKey(key), value.invalidations, OfKey(other));
    }
  }

  lemma BumpedStepKeeps(s: State, s': State, instance: Instance, key: Key, pid: Pid)
    requires Invariant(s) && Bookkeeping(s') && BumpedBy(s, s', instance, key, pid)
    ensures Invariant(s')
  {
    forall other | IsWriter(s', other) ensures WriterInvariant(s', other, s'.processes[other]) {
      assert IsWriter(s, other);
      BumpKeepsWriter(s, s', instance, key, pid, other);
    }
    forall other | IsReader(s', other) ensures ReaderInvariant(s', s'.processes[other]) {
      assert IsReader(s, other);
    }
    forall other | other in s'.shared ensures Guarded(s', other, s'.shared[other]) {
      BumpKeepsGuard(s, s', instance, key, pid, other, s.shared[other]);
    }
  }

  lemma InvalidateKeyKeeps(s: State, instance: Instance, key: Key)
    requires Invariant(s)
    ensures Invariant(AfterInvalidateKey(s, instance, key))
  {
    BumpedStepKeeps(s, AfterInvalidateKey(s, instance, key), instance, key, s.nextPid);
  }

  lemma NoteKeepsBookkeeping(s: State, s': State, instance: Instance, id: EventId)
    requires Bookkeeping(s) && id in s.ledger.published
    requires s'.layers == s.layers && s'.nextPid == s.nextPid + 1 && OthersUnchanged(s, s', s.nextPid)
    requires s'.ledger.published == s.ledger.published && s'.ledger.minted == s.ledger.minted
    requires var noted := Note(s.ledger, instance, id);
             s'.ledger.seen == noted.seen && s'.ledger.delivered == noted.delivered
    ensures Bookkeeping(s')
  {
    forall other: Instance, i | i in SeenBy(s'.ledger, other) ensures (other, i) in s'.ledger.delivered {
      assert i in SeenBy(s.ledger, other) || (other, i) == (instance, id);
    }
  }

  lemma DeliverTagKeeps(s: State, instance: Instance, id: EventId, snapshot: seq<Key>)
    requires Invariant(s) && Enabled(s, Deliver(instance, id, snapshot))
    requires id !in SeenBy(s.ledger, instance) && s.ledger.published[id].TagEvent?
    ensures Invariant(AfterDeliver(s, instance, id, snapshot))
  {
    var s' := AfterDeliver(s, instance, id, snapshot);
    NoteKeepsBookkeeping(s, s', instance, id);
    RoundStartKeeps(s, s');
  }

  lemma DeliverKeeps(s: State, instance: Instance, id: EventId, snapshot: seq<Key>)
    requires Invariant(s) && Enabled(s, Deliver(instance, id, snapshot))
    ensures Invariant(AfterDeliver(s, instance, id, snapshot))
  {
    if id in SeenBy(s.ledger, instance) {
      assert s.ledger.delivered + {(instance, id)} == s.ledger.delivered;
      assert AfterDeliver(s, instance, id, snapshot) == s;
    } else if s.ledger.published[id].KeyEvent? {
      var s' := AfterDeliver(s, instance, id, snapshot);
      NoteKeepsBookkeeping(s, s', instance, id);
      BumpedStepKeeps(s, s', instance, s.ledger.published[id].key, s.nextPid);
    } else {
      DeliverTagKeeps(s, instance, id, snapshot);
    }
  }

  lemma NextTagKeyKeeps(s: State, pid: Pid)
    requires Invariant(s) && Enabled(s, DeleterDone(pid))
    requires s.processes[pid].andThen.NextKeys? && s.processes[pid].andThen.keys != []
    ensures Invariant(AfterDeleterDone(s, pid))
  {
    var d := s.processes[pid];
    BumpedStepKeeps(s, AfterDeleterDone(s, pid), d.instance, d.andThen.keys[0], pid);
  }

  // A deleter that has deleted its key everywhere ends; an invalidation of a key is published then.
  ghost predicate Ended(s: State, s': State, pid: Pid) {
    && s'.layers == s.layers && s'.instances == s.instances && s'.shared == s.shared
    && s'.ledger.bumps == s.ledger.bumps && s'.ledger.invalidations == s.ledger.invalidations
    && s'.ledger.delivered == s.ledger.delivered
    && OthersUnchanged(s, s', pid) && pid !in s'.processes && IsDeleter(s, pid) && s.processes[pid].layer >= s.layers
    && (forall id :: id in s.ledger.published ==>
          id in s'.ledger.published && s'.ledger.published[id] == s.ledger.published[id])
    && (s.processes[pid].andThen == Publish ==> exists id :: NewEvent(s, s', id, s.processes[pid]))
  }

  ghost predicate NewEvent(s: State, s': State, id: EventId, d: Process)
    requires d.Deleter?
  {
    && id in s'.ledger.published && s'.ledger.published[id] == KeyEvent(d.key) && id.source == d.instance
    && forall instance: Instance :: (instance, id) !in s.ledger.delivered
  }

  lemma EndDuties(s: State, s': State, pid: Pid, instance: Instance, key: Key)
    requires Ended(s, s', pid)
    ensures Deleting(s, key) ==> Deleting(s', key)
    ensures Unreplayed(s, instance, key) ==> Unreplayed(s', instance, key)
  {
    if Deleting(s, key) {
      var p :| IsDeleter(s, p) && s.processes[p].key == key && s.processes[p].layer < s.layers;
      assert IsDeleter(s', p);
    }
    if ToBePublished(s, instance, key) {
      var p :| IsDeleter(s, p) && s.processes[p].key == key && s.processes[p].andThen == Publish
               && s.processes[p].instance != instance;
      if p == pid {
        var id :| NewEvent(s, s', id, s.processes[pid]);
        assert s'.ledger.published[id] == KeyEvent(key);
      } else {
        assert IsDeleter(s', p);
      }
    } else if ToBeDelivered(s, instance, key) {
      var id :| id in s.ledger.published && s.ledger.published[id] == KeyEvent(key) && id.source != instance
                && (instance, id) !in s.ledger.delivered;
      assert s'.ledger.published[id] == KeyEvent(key);
    }
  }

  lemma EndedKeeps(s: State, s': State, pid: Pid)
    requires Invariant(s) && Bookkeeping(s') && Ended(s, s', pid)
    ensures Invariant(s')
  {
    forall other | IsWriter(s', other) ensures WriterInvariant(s', other, s'.processes[other]) {
      assert IsWriter(s, other);
      EndDuties(s, s', pid, s.processes[other].instance, s.processes[other].key);
    }
    forall other | IsReader(s', other) ensures ReaderInvariant(s', s'.processes[other]) {
      assert IsReader(s, other);
    }
    forall key | key in s'.shared ensures Guarded(s', key, s'.shared[key]) {
      EndDuties(s, s', pid, s.shared[key].home, key);
    }
  }

  lemma AnnounceKeepsBookkeeping(s: State, s': State, instance: Instance, event: Event)
    requires Bookkeeping(s) && s'.layers == s.layers && s'.nextPid == s.nextPid
    requires forall pid :: pid in s'.processes ==> pid in s.processes
    requires s'.ledger == Announce(s.ledger, instance, event)
    ensures Bookkeeping(s')
    ensures var id := EventId(instance, MintedBy(s.ledger, instance));
            id !in s.ledger.published && forall other: Instance :: (other, id) !in s.ledger.delivered
  {
    forall other: Instance, id | id in SeenBy(s'.ledger, other) ensures (other, id) in s'.ledger.delivered {
      assert id in SeenBy(s.ledger, other);
    }
  }

  lemma PublishKeyKeeps(s: State, pid: Pid)
    requires Invariant(s) && Enabled(s, DeleterDone(pid)) && s.processes[pid].andThen == Publish
    ensures Invariant(AfterDeleterDone(s, pid))
  {
    var s', d := AfterDeleterDone(s, pid), s.processes[pid];
    AnnounceKeepsBookkeeping(s, s', d.instance, KeyEvent(d.key));
    assert NewEvent(s, s', EventId(d.instance, MintedBy(s.ledger, d.instance)), d);
    EndedKeeps(s, s', pid);
  }

  lemma PublishTagKeeps(s: State, pid: Pid)
    requires Invariant(s) && Enabled(s, DeleterDone(pid)) && s.processes[pid].andThen.NextKeys?
    requires s.processes[pid].andThen.keys == [] && s.processes[pid].andThen.publishes
    ensures Invariant(AfterDeleterDone(s, pid))
  {
    var s', d := AfterDeleterDone(s, pid), s.processes[pid];
    AnnounceKeepsBookkeeping(s, s', d.instance, TagEvent(d.andThen.issue));
    EndedKeeps(s, s', pid);
  }

  lemma ReplayEndKeeps(s: State, pid: Pid)
    requires Invariant(s) && Enabled(s, DeleterDone(pid)) && AfterDeleterDone(s, pid) == End(s, pid)
    requires s.processes[pid].andThen != Publish
    ensures Invariant(AfterDeleterDone(s, pid))
  {
    EndedKeeps(s, AfterDeleterDone(s, pid), pid);
  }

  lemma DeleterDoneKeeps(s: State, pid: Pid)
    requires Invariant(s) && Enabled(s, DeleterDone(pid))
    ensures Invariant(AfterDeleterDone(s, pid))
  {
    match s.processes[pid].andThen
    case Publish => PublishKeyKeeps(s, pid);
    case Stop => ReplayEndKeeps(s, pid);
    case NextKeys(keys, _, publishes) =>
      if keys != [] {
        NextTagKeyKeeps(s, pid);
      } else if publishes {
        PublishTagKeeps(s, pid);
      } else {
        ReplayEndKeeps(s, pid);
      }
  }

  // ---- Every step, every run ----

  lemma StepKeeps(s: State, step: Step)
    requires Invariant(s) && Enabled(s, step) && InWindow(s, step, MAX_INVALIDATION_EPOCHS)
    ensures Invariant(Apply(s, step))
  {
    match step
    case StartWrite(instance, key) => StartWriteKeeps(s, instance, key);
    case FetchDone(pid) => FetchDoneKeeps(s, pid);
    case GiveUp(pid) => GiveUpKeeps(s, pid);
    case CompareEpoch(pid) => CompareEpochKeeps(s, pid);
    case SetEffect(pid) => SetEffectKeeps(s, pid);
    case SetSkipped(pid) => SetSkippedKeeps(s, pid);
    case CompensatingDelete(pid) => CompensatingDeleteKeeps(s, pid);
    case InvalidateKey(instance, key) => InvalidateKeyKeeps(s, instance, key);
    case InvalidateTag(instance, snapshot) => InvalidateTagKeeps(s, instance, snapshot);
    case DeleteEffect(pid) => DeleteEffectKeeps(s, pid);
    case DeleterDone(pid) => DeleterDoneKeeps(s, pid);
    case Deliver(instance, id, snapshot) => DeliverKeeps(s, instance, id, snapshot);
    case StartRead(instance, key) => StartReadKeeps(s, instance, key);
    case LayerMiss(_) => ReadingKeeps(s, step);
    case LayerHit(_) => ReadingKeeps(s, step);
    case StartBackfill(_) => ReadingKeeps(s, step);
    case BackfillSet(pid, skipped) => BackfillSetKeeps(s, pid, skipped);
    case Vanish(instance, layer, key) => VanishKeeps(s, instance, layer, key);
  }

  lemma {:induction false} RunKeeps(s: State, steps: seq<Step>, s': State)
    requires Invariant(s) && Runs(s, steps, s', MAX_INVALIDATION_EPOCHS)
    ensures Invariant(s')
    decreases |steps|
  {
    if steps == [] {
    } else {
      StepKeeps(s, steps[0]);
      RunKeeps(Apply(s, steps[0]), steps[1..], s');
    }
  }

  // At every moment of every run, a stale value in the shared layer is about to be removed.
  lemma StaleValueIsAboutToBeRemoved(layers: nat, instances: nat, steps: seq<Step>, s: State, key: Key)
    requires layers >= 1 && Runs(Initial(layers, instances), steps, s, MAX_INVALIDATION_EPOCHS)
    requires key in s.shared && Stale(s.ledger, key, s.shared[key])
    ensures Deleting(s, key) || Unreplayed(s, s.shared[key].home, key) || WillCompensate(s, key, s.shared[key])
  {
    RunKeeps(Initial(layers, instances), steps, s);
  }

  // When nobody is left to remove a stale value, there is none.
  lemma SettledIsFresh(s: State)
    requires Invariant(s) && Settled(s)
    ensures forall key :: key in s.shared ==> !Stale(s.ledger, key, s.shared[key])
  {
    forall key | key in s.shared ensures !Stale(s.ledger, key, s.shared[key]) {
      assert Guarded(s, key, s.shared[key]);
    }
  }

  // Once everything has settled, the shared layer holds no value whose fetch began before an
  // invalidation of its key by any instance.
  lemma SettledSharedLayerIsFresh(layers: nat, instances: nat, steps: seq<Step>, s: State)
    requires layers >= 1 && Runs(Initial(layers, instances), steps, s, MAX_INVALIDATION_EPOCHS) && Settled(s)
    ensures forall key :: key in s.shared ==> !Stale(s.ledger, key, s.shared[key])
  {
    RunKeeps(Initial(layers, instances), steps, s);
    SettledIsFresh(s);
  }
}
