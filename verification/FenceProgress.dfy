/**
 Progress of the fence protocol: what is in flight can always go on, and cannot go on forever.
 So a system that starts nothing new settles, and its shared layer is fresh.
 */
module FenceProgress {
  import opened EpochTable
  import opened FenceProtocol
  import opened FenceSafety
  import opened FenceTags
  import Sets

  // The step carries on what was started before: no new operation, and no event delivered again.
  predicate Moving(s: State, step: Step) {
    match step
    case StartWrite(_, _) => false
    case InvalidateKey(_, _) => false
    case InvalidateTag(_, _) => false
    case StartRead(_, _) => false
    case Vanish(_, _, _) => false
    case Deliver(instance, id, _) => (instance, id) !in s.ledger.delivered
    case _ => true
  }

  // ---- The work that is left ----

  function LayersLeft(layers: nat, layer: nat): nat {
    if layer < layers then layers - layer else 0
  }

  // No pass that the step starts is over more than `maxKeys` keys.
  predicate FewKeys(step: Step, maxKeys: nat) {
    step.Deliver? ==> |step.snapshot| <= maxKeys
  }

  function KeysWork(layers: nat, keys: nat): nat {
    keys * (layers + 1)
  }

  // A delivery, and the deletes and the end of the deleter it starts.
  function DeliveryWork(layers: nat, maxKeys: nat): nat {
    layers + 2 + KeysWork(layers, maxKeys)
  }

  function PublishWork(layers: nat, instances: nat, maxKeys: nat): nat {
    instances * DeliveryWork(layers, maxKeys)
  }

  function ThenWork(layers: nat, instances: nat, maxKeys: nat, andThen: Then): nat {
    match andThen
    case Publish => PublishWork(layers, instances, maxKeys)
    case Stop => 0
    case NextKeys(keys, _, publishes) =>
      KeysWork(layers, |keys|) + if publishes then PublishWork(layers, instances, maxKeys) else 0
  }

  // The steps this process can still take, and those that follow from them.
  function Work(layers: nat, instances: nat, maxKeys: nat, p: Process): nat {
    match p
    case Writer(_, _, _, _, Fetching) => 3 * layers + 2
    case Writer(_, _, _, _, Ready(layer)) => 2 * LayersLeft(layers, layer) + layers + 1
    case Writer(_, _, _, _, Setting(layer)) => 2 * LayersLeft(layers, layer) + layers
    case Writer(_, _, _, _, Compensating(layer)) => LayersLeft(layers, layer)
    case Deleter(_, _, layer, andThen) => LayersLeft(layers, layer) + 1 + ThenWork(layers, instances, maxKeys, andThen)
    case Reader(_, _, _, _, Reading(layer)) => LayersLeft(layers, layer) + layers + 2
    case Reader(_, _, _, _, Found(layer, _)) => layer + 2
    case Reader(_, _, _, _, Filling(next, layer, _, _)) => LayersLeft(layer, next) + 1
  }

  function WorkOf(s: State, maxKeys: nat, pid: Pid): nat {
    if pid in s.processes then Work(s.layers, s.instances, maxKeys, s.processes[pid]) else 0
  }

  function WorkBelow(s: State, maxKeys: nat, bound: Pid): nat {
    if bound == 0 then 0 else WorkBelow(s, maxKeys, bound - 1) + WorkOf(s, maxKeys, bound - 1)
  }

  ghost function Undelivered(s: State): set<(Instance, EventId)> {
    set id, instance: Instance | id in s.ledger.published && instance < s.instances && instance != id.source
                                 && (instance, id) !in s.ledger.delivered :: (instance, id)
  }

  ghost function TotalWork(s: State, maxKeys: nat): nat {
    WorkBelow(s, maxKeys, s.nextPid) + |Undelivered(s)| * DeliveryWork(s.layers, maxKeys)
  }

  lemma {:induction false} OneChanges(s: State, s': State, maxKeys: nat, touched: Pid, bound: Pid)
    requires s'.layers == s.layers && s'.instances == s.instances && OthersUnchanged(s, s', touched)
    ensures WorkBelow(s', maxKeys, bound) - WorkBelow(s, maxKeys, bound)
            == if touched < bound then WorkOf(s', maxKeys, touched) - WorkOf(s, maxKeys, touched) else 0
  {
    if bound == 0 {
    } else {
      OneChanges(s, s', maxKeys, touched, bound - 1);
    }
  }

  // A step of one process, with no new event.
  lemma ProcessStepUses(s: State, s': State, maxKeys: nat, pid: Pid)
    requires s'.layers == s.layers && s'.instances == s.instances && s'.nextPid == s.nextPid
    requires OthersUnchanged(s, s', pid) && pid < s.nextPid && WorkOf(s', maxKeys, pid) < WorkOf(s, maxKeys, pid)
    requires s'.ledger.published == s.ledger.published && s'.ledger.delivered == s.ledger.delivered
    ensures TotalWork(s', maxKeys) < TotalWork(s, maxKeys)
  {
    OneChanges(s, s', maxKeys, pid, s.nextPid);
    assert Undelivered(s') == Undelivered(s);
  }

  lemma WriterStepUses(s: State, maxKeys: nat, step: Step)
    requires Invariant(s) && Enabled(s, step) && (step.FetchDone? || step.GiveUp? || step.SetSkipped?)
    ensures TotalWork(Apply(s, step), maxKeys) < TotalWork(s, maxKeys)
  {
    assert IsWriter(s, step.pid);
    ProcessStepUses(s, Apply(s, step), maxKeys, step.pid);
  }

  lemma GoesOnUses(s: State, maxKeys: nat, pid: Pid, p: Process)
    requires Bookkeeping(s) && pid in s.processes
    requires Work(s.layers, s.instances, maxKeys, p) < Work(s.layers, s.instances, maxKeys, s.processes[pid])
    ensures TotalWork(Become(s, pid, p), maxKeys) < TotalWork(s, maxKeys)
  {
    ProcessStepUses(s, Become(s, pid, p), maxKeys, pid);
  }

  lemma EndUses(s: State, maxKeys: nat, pid: Pid)
    requires Bookkeeping(s) && pid in s.processes && WorkOf(s, maxKeys, pid) > 0
    ensures TotalWork(End(s, pid), maxKeys) < TotalWork(s, maxKeys)
  {
    ProcessStepUses(s, End(s, pid), maxKeys, pid);
  }

  lemma CompareEpochUses(s: State, maxKeys: nat, pid: Pid)
    requires Invariant(s) && Enabled(s, CompareEpoch(pid))
    ensures TotalWork(AfterCompareEpoch(s, pid), maxKeys) < TotalWork(s, maxKeys)
  {
    var w := s.processes[pid];
    if AfterCompareEpoch(s, pid) == End(s, pid) {
      EndUses(s, maxKeys, pid);
    } else if w.stage.layer < s.layers {
      GoesOnUses(s, maxKeys, pid, w.(stage := Setting(w.stage.layer)));
    } else {
      GoesOnUses(s, maxKeys, pid, w.(stage := Compensating(0)));
    }
  }

  lemma SetEffectUses(s: State, maxKeys: nat, pid: Pid)
    requires Invariant(s) && Enabled(s, SetEffect(pid))
    ensures TotalWork(AfterSetEffect(s, pid), maxKeys) < TotalWork(s, maxKeys)
  {
    assert IsWriter(s, pid);
    ProcessStepUses(s, AfterSetEffect(s, pid), maxKeys, pid);
  }

  lemma CompensatingDeleteUses(s: State, maxKeys: nat, pid: Pid)
    requires Invariant(s) && Enabled(s, CompensatingDelete(pid))
    ensures TotalWork(AfterCompensatingDelete(s, pid), maxKeys) < TotalWork(s, maxKeys)
  {
    assert IsWriter(s, pid);
    ProcessStepUses(s, AfterCompensatingDelete(s, pid), maxKeys, pid);
  }

  lemma LayerMissUses(s: State, maxKeys: nat, pid: Pid)
    requires Invariant(s) && Enabled(s, LayerMiss(pid))
    ensures TotalWork(AfterLayerMiss(s, pid), maxKeys) < TotalWork(s, maxKeys)
  {
    assert IsReader(s, pid);
    ProcessStepUses(s, AfterLayerMiss(s, pid), maxKeys, pid);
  }

  lemma LayerHitUses(s: State, maxKeys: nat, pid: Pid)
    requires Invariant(s) && Enabled(s, LayerHit(pid))
    ensures TotalWork(AfterLayerHit(s, pid), maxKeys) < TotalWork(s, maxKeys)
  {
    assert IsReader(s, pid) && ReaderInvariant(s, s.processes[pid]);
    ProcessStepUses(s, AfterLayerHit(s, pid), maxKeys, pid);
  }

  lemma StartBackfillUses(s: State, maxKeys: nat, pid: Pid)
    requires Invariant(s) && Enabled(s, StartBackfill(pid))
    ensures TotalWork(AfterStartBackfill(s, pid), maxKeys) < TotalWork(s, maxKeys)
  {
    var r := s.processes[pid];
    if AfterStartBackfill(s, pid) == End(s, pid) {
      EndUses(s, maxKeys, pid);
    } else {
      GoesOnUses(s, maxKeys, pid, AfterStartBackfill(s, pid).processes[pid]);
    }
  }

  lemma BackfillSetUses(s: State, maxKeys: nat, pid: Pid, skipped: bool)
    requires Invariant(s) && Enabled(s, BackfillSet(pid, skipped))
    ensures TotalWork(AfterBackfillSet(s, pid, skipped), maxKeys) < TotalWork(s, maxKeys)
  {
    assert IsReader(s, pid);
    ProcessStepUses(s, AfterBackfillSet(s, pid, skipped), maxKeys, pid);
  }

  lemma DeleteEffectUses(s: State, maxKeys: nat, pid: Pid)
    requires Invariant(s) && Enabled(s, DeleteEffect(pid))
    ensures TotalWork(AfterDeleteEffect(s, pid), maxKeys) < TotalWork(s, maxKeys)
  {
    ProcessStepUses(s, AfterDeleteEffect(s, pid), maxKeys, pid);
  }

  lemma OneKeyFewer(layers: nat, keys: nat)
    requires keys > 0
    ensures KeysWork(layers, keys) == KeysWork(layers, keys - 1) + layers + 1
  {
  }

  lemma NextKeyUses(s: State, maxKeys: nat, pid: Pid)
    requires Invariant(s) && Enabled(s, DeleterDone(pid))
    requires s.processes[pid].andThen.NextKeys? && s.processes[pid].andThen.keys != []
    ensures TotalWork(AfterDeleterDone(s, pid), maxKeys) < TotalWork(s, maxKeys)
  {
    OneKeyFewer(s.layers, |s.processes[pid].andThen.keys|);
    ProcessStepUses(s, AfterDeleterDone(s, pid), maxKeys, pid);
  }

  lemma ReplayEndUses(s: State, maxKeys: nat, pid: Pid)
    requires Invariant(s) && Enabled(s, DeleterDone(pid)) && AfterDeleterDone(s, pid) == End(s, pid)
    ensures TotalWork(AfterDeleterDone(s, pid), maxKeys) < TotalWork(s, maxKeys)
  {
    ProcessStepUses(s, End(s, pid), maxKeys, pid);
  }

  // ---- Events ----

  ghost function Others(instances: nat, id: EventId): set<(Instance, EventId)> {
    set instance: Instance | instance < instances && instance != id.source :: (instance, id)
  }

  lemma {:induction false} OthersAreFew(instances: nat, id: EventId)
    ensures |Others(instances, id)| <= instances
  {
    if instances > 0 {
      OthersAreFew(instances - 1, id);
      var last := (instances - 1, id);
      assert Others(instances, id) <= Others(instances - 1, id) + {last};
      Sets.SubsetSize(Others(instances, id), Others(instances - 1, id) + {last});
    } else {
      assert Others(instances, id) == {};
    }
  }

  lemma WorkOfEvents(few: nat, instances: nat, before: nat, after: nat, each: nat)
    requires after <= before + few && few <= instances
    ensures after * each <= before * each + instances * each
  {
  }

  // Publishing pays for the deliveries of its event.
  lemma PublishUses(s: State, s': State, maxKeys: nat, pid: Pid, event: Event)
    requires Bookkeeping(s) && IsDeleter(s, pid)
    requires s' == End(s, pid).(ledger := Announce(s.ledger, s.processes[pid].instance, event))
    requires WorkOf(s, maxKeys, pid) > PublishWork(s.layers, s.instances, maxKeys)
    ensures TotalWork(s', maxKeys) < TotalWork(s, maxKeys)
  {
    var instance := s.processes[pid].instance;
    var others := Others(s.instances, EventId(instance, MintedBy(s.ledger, instance)));
    OneChanges(s, s', maxKeys, pid, s.nextPid);
    assert Undelivered(s') <= Undelivered(s) + others;
    Sets.SubsetSize(Undelivered(s'), Undelivered(s) + others);
    OthersAreFew(s.instances, EventId(instance, MintedBy(s.ledger, instance)));
    WorkOfEvents(|others|, s.instances, |Undelivered(s)|, |Undelivered(s')|, DeliveryWork(s.layers, maxKeys));
  }

  lemma DeleterDoneUses(s: State, maxKeys: nat, pid: Pid)
    requires Invariant(s) && Enabled(s, DeleterDone(pid))
    ensures TotalWork(AfterDeleterDone(s, pid), maxKeys) < TotalWork(s, maxKeys)
  {
    var s', d := AfterDeleterDone(s, pid), s.processes[pid];
    match d.andThen
    case Publish => PublishUses(s, s', maxKeys, pid, KeyEvent(d.key));
    case Stop => ReplayEndUses(s, maxKeys, pid);
    case NextKeys(keys, issue, publishes) =>
      if keys != [] {
        NextKeyUses(s, maxKeys, pid);
      } else if publishes {
        PublishUses(s, s', maxKeys, pid, TagEvent(issue));
      } else {
        ReplayEndUses(s, maxKeys, pid);
      }
  }

  lemma OneFewer(left: nat, each: nat)
    requires left > 0
    ensures left * each == (left - 1) * each + each
  {
  }

  lemma FewerKeysLessWork(layers: nat, keys: nat, maxKeys: nat)
    requires keys <= maxKeys
    ensures KeysWork(layers, keys) <= KeysWork(layers, maxKeys)
  {
    assert (maxKeys - keys) * (layers + 1) >= 0;
  }

  // A delivery costs more than the process it starts.
  lemma DeliveryUses(s: State, s': State, maxKeys: nat, instance: Instance, id: EventId)
    requires s'.layers == s.layers && s'.instances == s.instances && s'.ledger.published == s.ledger.published
    requires s'.ledger.delivered == s.ledger.delivered + {(instance, id)} && (instance, id) in Undelivered(s)
    requires OthersUnchanged(s, s', s.nextPid) && s.nextPid !in s.processes && s'.nextPid == s.nextPid + 1
    requires WorkOf(s', maxKeys, s.nextPid) < DeliveryWork(s.layers, maxKeys)
    ensures TotalWork(s', maxKeys) < TotalWork(s, maxKeys)
  {
    OneChanges(s, s', maxKeys, s.nextPid, s.nextPid);
    assert Undelivered(s') == Undelivered(s) - {(instance, id)};
    OneFewer(|Undelivered(s)|, DeliveryWork(s.layers, maxKeys));
  }

  ghost predicate FirstDelivery(s: State, instance: Instance, id: EventId, snapshot: seq<Key>) {
    Enabled(s, Deliver(instance, id, snapshot)) && (instance, id) !in s.ledger.delivered
        && id !in SeenBy(s.ledger, instance)
  }

  lemma DeliverKeyUses(s: State, maxKeys: nat, instance: Instance, id: EventId, snapshot: seq<Key>)
    requires Bookkeeping(s) && FirstDelivery(s, instance, id, snapshot) && s.ledger.published[id].KeyEvent?
    ensures TotalWork(AfterDeliver(s, instance, id, snapshot), maxKeys) < TotalWork(s, maxKeys)
  {
    var s' := AfterDeliver(s, instance, id, snapshot);
    assert s'.processes[s.nextPid] == Deleter(instance, s.ledger.published[id].key, 0, Stop);
    DeliveryUses(s, s', maxKeys, instance, id);
  }

  lemma DeliverTagUses(s: State, maxKeys: nat, instance: Instance, id: EventId, snapshot: seq<Key>)
    requires Bookkeeping(s) && FirstDelivery(s, instance, id, snapshot) && s.ledger.published[id].TagEvent?
    requires |snapshot| <= maxKeys
    ensures TotalWork(AfterDeliver(s, instance, id, snapshot), maxKeys) < TotalWork(s, maxKeys)
  {
    var s' := AfterDeliver(s, instance, id, snapshot);
    FewerKeysLessWork(s.layers, |snapshot|, maxKeys);
    assert WorkOf(s', maxKeys, s.nextPid) == 1 + KeysWork(s.layers, |snapshot|);
    DeliveryUses(s, s', maxKeys, instance, id);
  }

  lemma DeliverUses(s: State, maxKeys: nat, instance: Instance, id: EventId, snapshot: seq<Key>)
    requires Bookkeeping(s) && Enabled(s, Deliver(instance, id, snapshot)) && (instance, id) !in s.ledger.delivered
    requires |snapshot| <= maxKeys
    ensures TotalWork(AfterDeliver(s, instance, id, snapshot), maxKeys) < TotalWork(s, maxKeys)
  {
    if s.ledger.published[id].KeyEvent? {
      DeliverKeyUses(s, maxKeys, instance, id, snapshot);
    } else {
      DeliverTagUses(s, maxKeys, instance, id, snapshot);
    }
  }

  // ---- Moving runs ----

  lemma MovingStepUsesWork(s: State, step: Step, maxKeys: nat)
    requires Invariant(s) && Enabled(s, step) && Moving(s, step) && FewKeys(step, maxKeys)
    ensures TotalWork(Apply(s, step), maxKeys) < TotalWork(s, maxKeys)
  {
    match step
    case CompareEpoch(pid) => CompareEpochUses(s, maxKeys, pid);
    case SetEffect(pid) => SetEffectUses(s, maxKeys, pid);
    case CompensatingDelete(pid) => CompensatingDeleteUses(s, maxKeys, pid);
    case DeleteEffect(pid) => DeleteEffectUses(s, maxKeys, pid);
    case DeleterDone(pid) => DeleterDoneUses(s, maxKeys, pid);
    case Deliver(instance, id, snapshot) => DeliverUses(s, maxKeys, instance, id, snapshot);
    case LayerMiss(pid) => LayerMissUses(s, maxKeys, pid);
    case LayerHit(pid) => LayerHitUses(s, maxKeys, pid);
    case StartBackfill(pid) => StartBackfillUses(s, maxKeys, pid);
    case BackfillSet(pid, skipped) => BackfillSetUses(s, maxKeys, pid, skipped);
    case _ => WriterStepUses(s, maxKeys, step);
  }

  ghost predicate MovingRun(s: State, steps: seq<Step>, s': State, maxKeys: nat)
    decreases |steps|
  {
    if steps == [] then s == s'
    else Enabled(s, steps[0]) && Moving(s, steps[0]) && FewKeys(steps[0], maxKeys)
         && InWindow(s, steps[0], MAX_INVALIDATION_EPOCHS) && MovingRun(Apply(s, steps[0]), steps[1..], s', maxKeys)
  }

  // However the steps interleave, what is in flight ends after a bounded number of them.
  lemma {:induction false} MovingRunIsBounded(s: State, steps: seq<Step>, s': State, maxKeys: nat)
    requires Invariant(s) && MovingRun(s, steps, s', maxKeys)
    ensures |steps| + TotalWork(s', maxKeys) <= TotalWork(s, maxKeys) && Invariant(s')
    decreases |steps|
  {
    if steps == [] {
    } else {
      StepKeeps(s, steps[0]);
      MovingStepUsesWork(s, steps[0], maxKeys);
      MovingRunIsBounded(Apply(s, steps[0]), steps[1..], s', maxKeys);
    }
  }

  // The step that a process can take next.
  function NextStep(s: State, pid: Pid): Step
    requires pid in s.processes
  {
    match s.processes[pid]
    case Writer(_, _, _, _, Fetching) => FetchDone(pid)
    case Writer(_, _, _, _, Ready(_)) => CompareEpoch(pid)
    case Writer(_, _, _, _, Setting(_)) => SetEffect(pid)
    case Writer(_, _, _, _, Compensating(_)) => CompensatingDelete(pid)
    case Deleter(_, _, layer, _) => if layer < s.layers then DeleteEffect(pid) else DeleterDone(pid)
    case Reader(_, _, _, _, Reading(_)) => LayerMiss(pid)
    case Reader(_, _, _, _, Found(_, _)) => StartBackfill(pid)
    case Reader(_, _, _, _, Filling(_, _, _, _)) => BackfillSet(pid, false)
  }

  ghost predicate AtRest(s: State) {
    forall step :: Enabled(s, step) ==> !Moving(s, step)
  }

  // Nothing deadlocks: when no step is left, every operation has ended and every event is delivered.
  lemma AtRestExactly(s: State)
    ensures AtRest(s) <==> s.processes == map[] && Settled(s)
  {
    if AtRest(s) {
      if pid :| pid in s.processes {
        assert Enabled(s, NextStep(s, pid));
        assert false;
      }
      forall id, instance: Instance | id in s.ledger.published && instance < s.instances && instance != id.source
        ensures (instance, id) in s.ledger.delivered
      {
        assert Enabled(s, Deliver(instance, id, []));
      }
    }
  }

  // From every reachable state: whatever moving steps are taken, there are at most so many of them
  // when no pass is over more than `maxKeys` keys, and once none is left the shared layer is fresh.
  lemma InFlightEndsFresh(layers: nat, instances: nat, steps: seq<Step>, s: State, more: seq<Step>, s': State,
                          maxKeys: nat)
    requires layers >= 1 && Runs(Initial(layers, instances), steps, s, MAX_INVALIDATION_EPOCHS)
    requires MovingRun(s, more, s', maxKeys)
    ensures |more| <= TotalWork(s, maxKeys)
    ensures AtRest(s') ==> forall key :: key in s'.shared ==> !Outdated(s'.ledger, key, s'.shared[key])
  {
    RunKeeps(Initial(layers, instances), steps, s);
    MovingRunIsBounded(s, more, s', maxKeys);
    if AtRest(s') {
      AtRestExactly(s');
      MovingRunIsRun(s, more, s', maxKeys);
      RunThen(Initial(layers, instances), steps, s, more, s', MAX_INVALIDATION_EPOCHS);
      SettledTagsAreFresh(layers, instances, steps + more, s');
    }
  }

  lemma {:induction false} MovingRunIsRun(s: State, steps: seq<Step>, s': State, maxKeys: nat)
    requires MovingRun(s, steps, s', maxKeys)
    ensures Runs(s, steps, s', MAX_INVALIDATION_EPOCHS)
    decreases |steps|
  {
    if steps == [] {
    } else {
      MovingRunIsRun(Apply(s, steps[0]), steps[1..], s', maxKeys);
    }
  }
}
