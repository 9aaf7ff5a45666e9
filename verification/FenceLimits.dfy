/**
 How far the epoch fence reaches.  The last layer is kept fresh and no other layer is: a write that
 notices the bump between two layers returns without deleting what it has already stored, so an
 invalidation that falls between its `set` call and its effect is undone.  The bound on the epoch map
 is the exact window of the fence: with one more bump, an evicted key reads as never invalidated.
 */
module FenceLimits {
  import opened EpochTable
  import opened FenceBackfillLimits
  import opened FenceProtocol
  import opened FenceTags
  import opened FenceTraces
  import opened Strings

  // In every run within the window, `layer` holds no outdated value once everything has settled.
  ghost predicate FreshWhenSettled(layers: nat, instances: nat, layer: nat, window: nat) {
    forall steps: seq<Step>, s: State, instance: Instance, key: Key ::
      Runs(Initial(layers, instances), steps, s, window) && Settled(s)
      && instance < instances && Holds(s, instance, layer, key)
      ==> !Outdated(s.ledger, key, Stored(s, instance, layer, key))
  }

  // ---- Overtaken writes ----

  // Every other instance has replayed the tag that instance 0 invalidated over `snapshot`.
  ghost predicate Replayed(s: State, snapshot: seq<Key>) {
    && LogOf(s.ledger, 0) == snapshot && Announced(s.ledger, 0)
    && forall i: Instance :: i < s.instances && i != 0 ==> (i, TagEventOf(0)) in s.ledger.delivered
  }

  // On instance 0 the invalidation of a tag, and its replay by everyone, runs from start to end
  // while the writer's call of `set` on `layer` is under way.
  lemma InvalidatedDuringSet(layers: nat, instances: nat, key: Key, layer: nat, snapshot: seq<Key>, window: nat)
    returns (s: State)
    requires instances >= 1 && layer < layers
    ensures Reaches(Initial(layers, instances), s, window) && Replayed(s, snapshot)
    ensures Scene(s, layers, instances, 0, key, Setting(layer))
  {
    var start := Initial(layers, instances);
    var setting := CallSet(layers, instances, 0, key, layer, window);
    var tagged := TagPass(start, setting, 0, snapshot, window);
    TagLedgerAnnounced(0, snapshot);
    s := DeliverToAllBut(start, tagged, 0, 0, instances, window);
  }

  // Then the value is stored, and the writer is about to compare epochs again.
  lemma StoredAfterInvalidation(layers: nat, instances: nat, key: Key, layer: nat, snapshot: seq<Key>, window: nat)
    returns (s: State)
    requires instances >= 1 && layer < layers
    ensures Reaches(Initial(layers, instances), s, window) && Replayed(s, snapshot)
    ensures Scene(s, layers, instances, 0, key, Ready(layer + 1))
    ensures Holds(s, 0, layer, key) && Stored(s, 0, layer, key) == FirstValue(0)
  {
    var setting := InvalidatedDuringSet(layers, instances, key, layer, snapshot, window);
    ReachesStep(Initial(layers, instances), setting, SetEffect(0), window);
    s := AfterSetEffect(setting, 0);
  }

  // The comparison ends the writer, and everything has settled.
  lemma ComparedAndSettled(start: State, stored: State, layers: nat, instances: nat, key: Key, layer: nat,
                           snapshot: seq<Key>, window: nat) returns (s: State)
    requires Reaches(start, stored, window) && Scene(stored, layers, instances, 0, key, Ready(layer + 1))
             && layer < layers
    requires Replayed(stored, snapshot) && |snapshot| <= window
    requires EpochAt(stored.ledger, 0, key) == 0 <==> layer + 1 == layers
    ensures Reaches(start, s, window) && Settled(s) && s == stored.(processes := map[])
  {
    ReachesStep(start, stored, CompareEpoch(0), window);
    s := AfterCompareEpoch(stored, 0);
    assert s.processes == map[];
    AllHaveIt(s, 0);
  }

  // Every layer but the last can be left with a stale value for good.
  lemma UpperLayerCanStayStale(layers: nat, instances: nat, layer: nat, window: nat) returns (s: State, key: Key)
    requires instances >= 1 && layer + 1 < layers && window >= 1
    ensures Reaches(Initial(layers, instances), s, window) && Settled(s)
    ensures Holds(s, 0, layer, key) && Stale(s.ledger, key, Stored(s, 0, layer, key))
  {
    key := "user:1";
    var stored := StoredAfterInvalidation(layers, instances, key, layer, [key], window);
    EpochAfterBump(key);
    s := ComparedAndSettled(Initial(layers, instances), stored, layers, instances, key, layer, [key], window);
    assert Since([key], 0)[0] == key;
  }

  // Beyond the window the last layer can be, too: a tag invalidation of one key more than the
  // epoch map holds evicts the first key's epoch.
  lemma LastLayerCanStayStale(layers: nat, instances: nat, window: nat) returns (s: State, key: Key)
    requires instances >= 1 && layers >= 1 && window > MAX_INVALIDATION_EPOCHS
    ensures Reaches(Initial(layers, instances), s, window) && Settled(s)
    ensures Holds(s, 0, layers - 1, key) && Stale(s.ledger, key, Stored(s, 0, layers - 1, key))
  {
    key := Filler(0);
    var snapshot := Fillers(MAX_INVALIDATION_EPOCHS + 1);
    var stored := StoredAfterInvalidation(layers, instances, key, layers - 1, snapshot, window);
    FirstFillerEvicted();
    s := ComparedAndSettled(Initial(layers, instances), stored, layers, instances, key, layers - 1, snapshot, window);
    assert Since(snapshot, 0)[0] == key;
  }

  lemma FirstFillerEvicted()
    ensures EpochOf(Fillers(MAX_INVALIDATION_EPOCHS + 1), Filler(0)) == 0
  {
    var bumps := Fillers(MAX_INVALIDATION_EPOCHS + 1);
    FillersOrder(MAX_INVALIDATION_EPOCHS + 1);
    ReplayWellFormed(bumps);
    assert Filler(0) !in Replay(bumps).order;
  }

  // ---- Which layer, and which window ----

  // A layer is fenced exactly when it is the last one, within exactly this window.
  lemma FencedExactly(layers: nat, instances: nat, layer: nat, window: nat)
    requires instances >= 1 && layer < layers
    ensures FreshWhenSettled(layers, instances, layer, window)
            <==> layer == layers - 1 && window <= MAX_INVALIDATION_EPOCHS
  {
    if layer == layers - 1 && window <= MAX_INVALIDATION_EPOCHS {
      forall steps: seq<Step>, s: State, instance: Instance, key: Key |
        Runs(Initial(layers, instances), steps, s, window) && Settled(s)
        && instance < instances && Holds(s, instance, layer, key)
        ensures !Outdated(s.ledger, key, Stored(s, instance, layer, key))
      {
        RunKeepsLayers(Initial(layers, instances), steps, s, window);
        RunInWiderWindow(Initial(layers, instances), steps, s, window, MAX_INVALIDATION_EPOCHS);
        SettledTagsAreFresh(layers, instances, steps, s);
      }
    } else {
      var s: State, key: Key;
      if layer < layers - 1 && window >= 1 {
        s, key := UpperLayerCanStayStale(layers, instances, layer, window);
      } else if layer < layers - 1 {
        var before, reader;
        before, reader, key := BackfillCanLeaveStale(layers, instances, layer, window);
        s := Apply(before, BackfillSet(reader, false));
      } else {
        s, key := LastLayerCanStayStale(layers, instances, window);
      }
      var steps :| Runs(Initial(layers, instances), steps, s, window);
    }
  }

  lemma StepKeepsLayers(s: State, step: Step)
    requires Enabled(s, step)
    ensures Apply(s, step).layers == s.layers && Apply(s, step).instances == s.instances
  {
  }

  lemma {:induction false} RunKeepsLayers(s: State, steps: seq<Step>, s': State, window: nat)
    requires Runs(s, steps, s', window)
    ensures s'.layers == s.layers && s'.instances == s.instances
    decreases |steps|
  {
    if steps == [] {
    } else {
      StepKeepsLayers(s, steps[0]);
      RunKeepsLayers(Apply(s, steps[0]), steps[1..], s', window);
    }
  }

  lemma {:induction false} RunInWiderWindow(s: State, steps: seq<Step>, s': State, window: nat, wider: nat)
    requires Runs(s, steps, s', window) && window <= wider
    ensures Runs(s, steps, s', wider)
    decreases |steps|
  {
    if steps == [] {
    } else {
      RunInWiderWindow(Apply(s, steps[0]), steps[1..], s', window, wider);
    }
  }
}
