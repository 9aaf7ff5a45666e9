/**
 What an invalidation removes: every layer, not only the shared one.  Unless the key is written or read
 meanwhile, it is in no layer of an instance once that instance's deletion of it has ended, and in no
 layer of any instance once everything has settled.
 */
module FenceRemoval {
  import opened FenceProtocol
  import opened FenceSafety

  // ---- What holds in every run, whatever the window ----

  // Values are stored under their writer's name, and what a reader found is in a layer that exists.
  predicate ProcessOk(layers: nat, pid: Pid, p: Process) {
    match p
    case Writer(_, _, _, value, _) => value.writer == pid
    case Deleter(_, _, _, _) => true
    case Reader(_, _, _, _, Reading(layer)) => layer < layers
    case Reader(_, _, _, _, Found(layer, _)) => layer < layers
    case Reader(_, _, _, _, Filling(_, layer, _, _)) => layer < layers
  }

  ghost predicate Orderly(s: State) {
    s.layers >= 1
    && forall pid :: pid in s.processes ==> pid < s.nextPid && ProcessOk(s.layers, pid, s.processes[pid])
  }

  // The one process that a step starts, moves or ends.
  function Touched(s: State, step: Step): Pid {
    match step
    case FetchDone(pid) => pid
    case GiveUp(pid) => pid
    case CompareEpoch(pid) => pid
    case SetEffect(pid) => pid
    case SetSkipped(pid) => pid
    case CompensatingDelete(pid) => pid
    case DeleteEffect(pid) => pid
    case DeleterDone(pid) => pid
    case LayerMiss(pid) => pid
    case LayerHit(pid) => pid
    case StartBackfill(pid) => pid
    case BackfillSet(pid, _) => pid
    case _ => s.nextPid
  }

  // A process keeps its kind, and a writer or reader its instance and key; a new one is what the step says.
  predicate Follows(s: State, step: Step, p: Process) {
    var pid := Touched(s, step);
    if pid in s.processes then
      match s.processes[pid]
      case Deleter(_, _, _, _) => p.Deleter?
      case Writer(instance, key, _, _, _) => p.Writer? && p.instance == instance && p.key == key
      case Reader(instance, key, _, _, _) => p.Reader? && p.instance == instance && p.key == key
    else
      match step
      case StartWrite(_, key) => p.Writer? && p.key == key
      case StartRead(instance, key) => p.Reader? && p.instance == instance && p.key == key
      case _ => p.Deleter?
  }

  ghost predicate TouchesOne(s: State, step: Step, s': State) {
    var pid := Touched(s, step);
    && s'.layers == s.layers && s'.instances == s.instances && s.nextPid <= s'.nextPid && OthersUnchanged(s, s', pid)
    && (pid in s'.processes ==>
          && pid < s'.nextPid && ProcessOk(s.layers, pid, s'.processes[pid]) && Follows(s, step, s'.processes[pid]))
  }

  predicate IsWriterStep(step: Step) {
    step.StartWrite? || step.FetchDone? || step.GiveUp? || step.CompareEpoch? || step.SetEffect? || step.SetSkipped?
    || step.CompensatingDelete?
  }

  predicate IsReaderStep(step: Step) {
    step.StartRead? || step.LayerMiss? || step.LayerHit? || step.StartBackfill? || step.BackfillSet?
  }

  lemma WriterStepTouchesOne(s: State, step: Step)
    requires Orderly(s) && Enabled(s, step) && IsWriterStep(step)
    ensures TouchesOne(s, step, Apply(s, step))
  {
  }

  lemma ReaderStepTouchesOne(s: State, step: Step)
    requires Orderly(s) && Enabled(s, step) && IsReaderStep(step)
    ensures TouchesOne(s, step, Apply(s, step))
  {
  }

  lemma DeleterStepTouchesOne(s: State, step: Step)
    requires Orderly(s) && Enabled(s, step) && (step.DeleteEffect? || step.Vanish?)
    ensures TouchesOne(s, step, Apply(s, step))
  {
  }

  lemma DeleterDoneTouchesOne(s: State, pid: Pid)
    requires Orderly(s) && Enabled(s, DeleterDone(pid))
    ensures TouchesOne(s, DeleterDone(pid), AfterDeleterDone(s, pid))
  {
  }

  lemma InvalidationTouchesOne(s: State, step: Step)
    requires Orderly(s) && Enabled(s, step) && (step.InvalidateKey? || step.InvalidateTag?)
    ensures TouchesOne(s, step, Apply(s, step))
  {
  }

  lemma DeliverTouchesOne(s: State, instance: Instance, id: EventId, snapshot: seq<Key>)
    requires Orderly(s) && Enabled(s, Deliver(instance, id, snapshot))
    ensures TouchesOne(s, Deliver(instance, id, snapshot), AfterDeliver(s, instance, id, snapshot))
  {
  }

  lemma StepTouchesOne(s: State, step: Step)
    requires Orderly(s) && Enabled(s, step)
    ensures TouchesOne(s, step, Apply(s, step))
  {
    if IsWriterStep(step) {
      WriterStepTouchesOne(s, step);
    } else if IsReaderStep(step) {
      ReaderStepTouchesOne(s, step);
    } else {
      match step
      case DeleterDone(pid) => DeleterDoneTouchesOne(s, pid);
      case Deliver(instance, id, snapshot) => DeliverTouchesOne(s, instance, id, snapshot);
      case InvalidateKey(_, _) => InvalidationTouchesOne(s, step);
      case InvalidateTag(_, _) => InvalidationTouchesOne(s, step);
      case _ => DeleterStepTouchesOne(s, step);
    }
  }

  lemma StepOrderly(s: State, step: Step)
    requires Orderly(s) && Enabled(s, step)
    ensures Orderly(Apply(s, step))
  {
    StepTouchesOne(s, step);
  }

  // ---- Who could put the key back ----

  // Nobody writes the key, and nobody on this instance reads it.
  ghost predicate Quiet(s: State, instance: Instance, key: Key) {
    forall pid :: pid in s.processes && s.processes[pid].key == key ==>
      !s.processes[pid].Writer? && (s.processes[pid].Reader? ==> s.processes[pid].instance != instance)
  }

  // The step starts to write the key somewhere, or to read it on this instance.
  predicate Disturbs(step: Step, instance: Instance, key: Key) {
    (step.StartWrite? && step.key == key) || step == StartRead(instance, key)
  }

  ghost predicate Undisturbed(steps: seq<Step>, instance: Instance, key: Key) {
    forall i :: 0 <= i < |steps| ==> !Disturbs(steps[i], instance, key)
  }

  lemma StepKeepsQuiet(s: State, step: Step, instance: Instance, key: Key)
    requires Orderly(s) && Quiet(s, instance, key) && Enabled(s, step) && !Disturbs(step, instance, key)
    ensures Quiet(Apply(s, step), instance, key)
  {
    StepTouchesOne(s, step);
    assert Touched(s, step) in s.processes || Touched(s, step) == s.nextPid;
  }

  // The layers before `upTo` do not hold the key.
  ghost predicate Cleared(s: State, instance: Instance, key: Key, upTo: nat) {
    forall layer :: 0 <= layer < upTo && layer < s.layers ==> !Holds(s, instance, layer, key)
  }

  // No layer gains a value.
  ghost predicate OnlyLoses(s: State, s': State) {
    && (forall p :: p in s'.upper ==> p in s.upper && s'.upper[p] == s.upper[p])
    && (forall k :: k in s'.shared ==> k in s.shared && s'.shared[k] == s.shared[k])
  }

  lemma OnlySetsPut(s: State, step: Step)
    requires Enabled(s, step) && !step.SetEffect? && !step.BackfillSet?
    ensures OnlyLoses(s, Apply(s, step))
  {
  }

  lemma SetPutsOwnKey(s: State, pid: Pid, instance: Instance, key: Key, layer: nat)
    requires Enabled(s, SetEffect(pid)) && s.processes[pid].key != key
    ensures var s' := AfterSetEffect(s, pid);
            Holds(s', instance, layer, key) ==>
              Holds(s, instance, layer, key) && Stored(s', instance, layer, key) == Stored(s, instance, layer, key)
  {
  }

  lemma BackfillPutsOnOwnInstance(s: State, pid: Pid, skipped: bool, instance: Instance, key: Key, layer: nat)
    requires Orderly(s) && Enabled(s, BackfillSet(pid, skipped))
    requires s.processes[pid].key != key || s.processes[pid].instance != instance
    ensures var s' := AfterBackfillSet(s, pid, skipped);
            Holds(s', instance, layer, key) ==>
              Holds(s, instance, layer, key) && Stored(s', instance, layer, key) == Stored(s, instance, layer, key)
  {
  }

  lemma StepPutsNothing(s: State, step: Step, instance: Instance, key: Key, layer: nat)
    requires Orderly(s) && Quiet(s, instance, key) && Enabled(s, step)
    ensures Holds(Apply(s, step), instance, layer, key) ==> Holds(s, instance, layer, key)
  {
    match step
    case SetEffect(pid) => SetPutsOwnKey(s, pid, instance, key, layer);
    case BackfillSet(pid, skipped) => BackfillPutsOnOwnInstance(s, pid, skipped, instance, key, layer);
    case _ =>
      OnlySetsPut(s, step);
      StepTouchesOne(s, step);
  }

  lemma StepKeepsCleared(s: State, step: Step, instance: Instance, key: Key, upTo: nat)
    requires Orderly(s) && Quiet(s, instance, key) && Enabled(s, step)
    ensures Cleared(s, instance, key, upTo) ==> Cleared(Apply(s, step), instance, key, upTo)
  {
    StepTouchesOne(s, step);
    forall layer | 0 <= layer < upTo && layer < s.layers
      ensures Holds(Apply(s, step), instance, layer, key) ==> Holds(s, instance, layer, key)
    {
      StepPutsNothing(s, step, instance, key, layer);
    }
  }

  // ---- One instance's deletion ----

  // The process is about to delete the key on this instance from the layers that still hold it, or has
  // deleted it from all.
  ghost predicate Removes(s: State, instance: Instance, key: Key, p: Process) {
    && p.Deleter? && p.instance == instance
    && (|| (p.andThen.NextKeys? && key in p.andThen.keys)
        || (p.key == key && Cleared(s, instance, key, p.layer))
        || Cleared(s, instance, key, s.layers))
  }

  ghost predicate Removing(s: State, instance: Instance, key: Key, pid: Pid) {
    if pid in s.processes then Removes(s, instance, key, s.processes[pid]) else Cleared(s, instance, key, s.layers)
  }

  lemma DeleteEffectRemoves(s: State, instance: Instance, key: Key, pid: Pid)
    requires Orderly(s) && Quiet(s, instance, key) && Removing(s, instance, key, pid) && Enabled(s, DeleteEffect(pid))
    ensures Removing(AfterDeleteEffect(s, pid), instance, key, pid)
  {
    var s', p := AfterDeleteEffect(s, pid), s.processes[pid];
    StepKeepsCleared(s, DeleteEffect(pid), instance, key, p.layer);
    StepKeepsCleared(s, DeleteEffect(pid), instance, key, s.layers);
    assert p.key == key ==> !Holds(s', instance, p.layer, key);
  }

  lemma DeleterDoneRemoves(s: State, instance: Instance, key: Key, pid: Pid)
    requires Orderly(s) && Quiet(s, instance, key) && Removing(s, instance, key, pid) && Enabled(s, DeleterDone(pid))
    ensures Removing(AfterDeleterDone(s, pid), instance, key, pid)
  {
    StepKeepsCleared(s, DeleterDone(pid), instance, key, s.layers);
  }

  lemma StepRemoves(s: State, step: Step, instance: Instance, key: Key, pid: Pid)
    requires Orderly(s) && Quiet(s, instance, key) && Removing(s, instance, key, pid) && pid < s.nextPid
    requires Enabled(s, step)
    ensures Removing(Apply(s, step), instance, key, pid)
  {
    StepTouchesOne(s, step);
    if step == DeleteEffect(pid) && pid in s.processes {
      DeleteEffectRemoves(s, instance, key, pid);
    } else if step == DeleterDone(pid) && pid in s.processes {
      DeleterDoneRemoves(s, instance, key, pid);
    } else {
      assert Touched(s, step) != pid;
      StepKeepsCleared(s, step, instance, key, s.layers);
      if pid in s.processes {
        StepKeepsCleared(s, step, instance, key, s.processes[pid].layer);
      }
    }
  }

  lemma {:induction false} RunRemoves(s: State, steps: seq<Step>, s': State, instance: Instance, key: Key, pid: Pid,
                                      window: nat)
    requires Runs(s, steps, s', window) && Undisturbed(steps, instance, key)
    requires Orderly(s) && Quiet(s, instance, key) && Removing(s, instance, key, pid) && pid < s.nextPid
    ensures Removing(s', instance, key, pid) && s'.layers == s.layers
    decreases |steps|
  {
    if steps == [] {
    } else {
      var next := Apply(s, steps[0]);
      StepTouchesOne(s, steps[0]);
      StepOrderly(s, steps[0]);
      StepKeepsQuiet(s, steps[0], instance, key);
      StepRemoves(s, steps[0], instance, key, pid);
      assert forall i :: 0 <= i < |steps[1..]| ==> steps[1..][i] == steps[i + 1];
      RunRemoves(next, steps[1..], s', instance, key, pid, window);
    }
  }

  lemma {:induction false} RunOrderly(s: State, steps: seq<Step>, s': State, window: nat)
    requires Orderly(s) && Runs(s, steps, s', window)
    ensures Orderly(s') && s'.layers == s.layers && s'.instances == s.instances
    decreases |steps|
  {
    if steps == [] {
    } else {
      StepTouchesOne(s, steps[0]);
      StepOrderly(s, steps[0]);
      RunOrderly(Apply(s, steps[0]), steps[1..], s', window);
    }
  }

  // The step has this instance invalidate the key: as its own, as a peer's, or as one of the keys that a
  // tag resolves to here, be the tag its own or a peer's.
  ghost predicate Invalidates(s: State, step: Step, instance: Instance, key: Key) {
    match step
    case InvalidateKey(i, k) => i == instance && k == key
    case InvalidateTag(i, snapshot) => i == instance && key in snapshot
    case Deliver(i, id, snapshot) =>
      && i == instance && id in s.ledger.published && id !in SeenBy(s.ledger, i)
      && (s.ledger.published[id] == KeyEvent(key) || (s.ledger.published[id].TagEvent? && key in snapshot))
    case _ => false
  }

  lemma InvalidationStartsToRemove(s: State, step: Step, instance: Instance, key: Key)
    requires Orderly(s) && Enabled(s, step) && Invalidates(s, step, instance, key)
    ensures var s' := Apply(s, step);
            s.nextPid in s'.processes && s.nextPid < s'.nextPid && Removing(s', instance, key, s.nextPid)
  {
  }

  // Once the deletion that an invalidation starts has ended, the key is in no layer of the instance, if
  // nobody has been writing the key, or reading it there, since before the invalidation.
  lemma InvalidationEmptiesEveryLayer(layers: nat, instances: nat, before: seq<Step>, s: State, step: Step,
                                      instance: Instance, key: Key, steps: seq<Step>, s': State, window: nat)
    requires layers >= 1 && Runs(Initial(layers, instances), before, s, window) && Quiet(s, instance, key)
    requires Enabled(s, step) && Invalidates(s, step, instance, key)
    requires Runs(Apply(s, step), steps, s', window) && Undisturbed(steps, instance, key)
    requires s.nextPid !in s'.processes
    ensures forall layer :: 0 <= layer < layers ==> !Holds(s', instance, layer, key)
  {
    RunOrderly(Initial(layers, instances), before, s, window);
    InvalidationStartsToRemove(s, step, instance, key);
    StepTouchesOne(s, step);
    StepOrderly(s, step);
    StepKeepsQuiet(s, step, instance, key);
    RunRemoves(Apply(s, step), steps, s', instance, key, s.nextPid, window);
  }

  // ---- A write that compensates ----

  predicate Written(s: State, instance: Instance, layer: nat, key: Key, writer: Pid) {
    Holds(s, instance, layer, key) && Stored(s, instance, layer, key).writer == writer
  }

  // The layers before `upTo` do not hold what this writer fetched.
  ghost predicate Unwritten(s: State, instance: Instance, key: Key, writer: Pid, upTo: nat) {
    forall layer :: 0 <= layer < upTo && layer < s.layers ==> !Written(s, instance, layer, key, writer)
  }

  ghost predicate Unread(s: State, instance: Instance, key: Key) {
    forall pid :: IsReader(s, pid) && s.processes[pid].key == key ==> s.processes[pid].instance != instance
  }

  lemma StepKeepsUnread(s: State, step: Step, instance: Instance, key: Key)
    requires Orderly(s) && Unread(s, instance, key) && Enabled(s, step) && step != StartRead(instance, key)
    ensures Unread(Apply(s, step), instance, key)
  {
    StepTouchesOne(s, step);
    assert Touched(s, step) in s.processes || Touched(s, step) == s.nextPid;
  }

  lemma SetPutsOwnValue(s: State, pid: Pid, instance: Instance, key: Key, layer: nat, writer: Pid)
    requires Orderly(s) && Enabled(s, SetEffect(pid)) && pid != writer
    ensures Written(AfterSetEffect(s, pid), instance, layer, key, writer) ==> Written(s, instance, layer, key, writer)
  {
    assert ProcessOk(s.layers, pid, s.processes[pid]);
  }

  lemma StepWritesNothing(s: State, step: Step, instance: Instance, key: Key, layer: nat, writer: Pid)
    requires Orderly(s) && Unread(s, instance, key) && Enabled(s, step) && step != SetEffect(writer)
    ensures Written(Apply(s, step), instance, layer, key, writer) ==> Written(s, instance, layer, key, writer)
  {
    match step
    case SetEffect(pid) => SetPutsOwnValue(s, pid, instance, key, layer, writer);
    case BackfillSet(pid, skipped) =>
      assert IsReader(s, pid);
      BackfillPutsOnOwnInstance(s, pid, skipped, instance, key, layer);
    case _ =>
      OnlySetsPut(s, step);
      StepTouchesOne(s, step);
  }

  lemma StepKeepsUnwritten(s: State, step: Step, instance: Instance, key: Key, writer: Pid, upTo: nat)
    requires Orderly(s) && Unread(s, instance, key) && Enabled(s, step) && step != SetEffect(writer)
    ensures Unwritten(s, instance, key, writer, upTo) ==> Unwritten(Apply(s, step), instance, key, writer, upTo)
  {
    StepTouchesOne(s, step);
    forall layer | 0 <= layer < upTo && layer < s.layers
      ensures Written(Apply(s, step), instance, layer, key, writer) ==> Written(s, instance, layer, key, writer)
    {
      StepWritesNothing(s, step, instance, key, layer, writer);
    }
  }

  // The writer is deleting what it wrote from the layers that are left, or has deleted it from all.
  ghost predicate Compensates(s: State, instance: Instance, key: Key, writer: Pid) {
    if writer in s.processes then
      var p := s.processes[writer];
      && p.Writer? && p.instance == instance && p.key == key && p.stage.Compensating?
      && Unwritten(s, instance, key, writer, p.stage.layer)
    else Unwritten(s, instance, key, writer, s.layers)
  }

  lemma CompensatingDeleteCompensates(s: State, instance: Instance, key: Key, writer: Pid)
    requires Orderly(s) && Unread(s, instance, key) && Compensates(s, instance, key, writer)
    requires Enabled(s, CompensatingDelete(writer))
    ensures Compensates(AfterCompensatingDelete(s, writer), instance, key, writer)
  {
    var s', layer := AfterCompensatingDelete(s, writer), s.processes[writer].stage.layer;
    StepKeepsUnwritten(s, CompensatingDelete(writer), instance, key, writer, layer);
    assert !Holds(s', instance, layer, key);
  }

  lemma StepCompensates(s: State, step: Step, instance: Instance, key: Key, writer: Pid)
    requires Orderly(s) && Unread(s, instance, key) && Compensates(s, instance, key, writer) && writer < s.nextPid
    requires Enabled(s, step)
    ensures Compensates(Apply(s, step), instance, key, writer)
  {
    StepTouchesOne(s, step);
    if step == CompensatingDelete(writer) {
      CompensatingDeleteCompensates(s, instance, key, writer);
    } else {
      assert Touched(s, step) != writer && step != SetEffect(writer);
      StepKeepsUnwritten(s, step, instance, key, writer, s.layers);
      if writer in s.processes {
        StepKeepsUnwritten(s, step, instance, key, writer, s.processes[writer].stage.layer);
      }
    }
  }

  lemma {:induction false} RunCompensates(s: State, steps: seq<Step>, s': State, instance: Instance, key: Key,
                                          writer: Pid, window: nat)
    requires Runs(s, steps, s', window) && StartRead(instance, key) !in steps
    requires Orderly(s) && Unread(s, instance, key) && Compensates(s, instance, key, writer) && writer < s.nextPid
    ensures Compensates(s', instance, key, writer) && s'.layers == s.layers
    decreases |steps|
  {
    if steps == [] {
    } else {
      StepTouchesOne(s, steps[0]);
      StepOrderly(s, steps[0]);
      StepKeepsUnread(s, steps[0], instance, key);
      StepCompensates(s, steps[0], instance, key, writer);
      RunCompensates(Apply(s, steps[0]), steps[1..], s', instance, key, writer, window);
    }
  }

  // A write that finds its epoch changed after the last layer leaves what it fetched in no layer, if
  // nobody on its instance reads the key from then on until it has ended.
  lemma CompensationLeavesNothing(layers: nat, instances: nat, before: seq<Step>, s: State, writer: Pid,
                                  steps: seq<Step>, s': State, window: nat)
    requires layers >= 1 && Runs(Initial(layers, instances), before, s, window)
    requires Enabled(s, CompareEpoch(writer)) && s.processes[writer].stage.layer >= layers
    requires var Writer(instance, key, epoch, _, _) := s.processes[writer];
             && EpochAt(s.ledger, instance, key) != epoch
             && Unread(s, instance, key) && StartRead(instance, key) !in steps
    requires Runs(Apply(s, CompareEpoch(writer)), steps, s', window) && writer !in s'.processes
    ensures forall layer :: 0 <= layer < layers ==>
              !Written(s', s.processes[writer].instance, layer, s.processes[writer].key, writer)
  {
    var instance, key := s.processes[writer].instance, s.processes[writer].key;
    RunOrderly(Initial(layers, instances), before, s, window);
    StepTouchesOne(s, CompareEpoch(writer));
    StepOrderly(s, CompareEpoch(writer));
    StepKeepsUnread(s, CompareEpoch(writer), instance, key);
    RunCompensates(Apply(s, CompareEpoch(writer)), steps, s', instance, key, writer, window);
  }
}
