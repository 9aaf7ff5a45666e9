/**
 How far one invalidation reaches: its event carries it to every other instance, so once everything has
 settled the key is in no layer of any instance, unless it was written or read meanwhile.  And an event
 that is delivered again does nothing.
 */
module FenceReach {
  import EventDedup
  import opened FenceProtocol
  import opened FenceSafety
  import opened FenceRemoval

  // ---- Events ----

  // Ids are minted in order, and what an instance remembers it has been given.
  ghost predicate EventsOk(l: Ledger) {
    && (forall id :: id in l.published ==> id.counter < MintedBy(l, id.source))
    && (forall instance: Instance, id :: (instance, id) in l.delivered ==> id in l.published)
    && (forall instance: Instance, id :: id in SeenBy(l, instance) ==> (instance, id) in l.delivered)
  }

  lemma AnnounceKeepsEvents(l: Ledger, instance: Instance, event: Event)
    requires EventsOk(l)
    ensures EventsOk(Announce(l, instance, event))
    ensures var published := Announce(l, instance, event).published;
            forall id :: id in l.published ==> id in published && published[id] == l.published[id]
  {
  }

  lemma NoteKeepsEvents(l: Ledger, instance: Instance, id: EventId)
    requires EventsOk(l) && id in l.published
    ensures EventsOk(Note(l, instance, id))
    ensures forall other: Instance, i :: i in SeenBy(Note(l, instance, id), other) ==>
              i in SeenBy(l, other) || (other, i) == (instance, id)
  {
  }

  // The events of a step: none, one more published, or one more delivered.
  ghost predicate SameEvents(l: Ledger, l': Ledger) {
    l'.published == l.published && l'.minted == l.minted && l'.delivered == l.delivered && l'.seen == l.seen
  }

  predicate TouchesLedger(step: Step) {
    step.InvalidateKey? || step.InvalidateTag? || step.DeleterDone? || step.Deliver?
  }

  lemma MostStepsKeepLedger(s: State, step: Step)
    requires Enabled(s, step) && !TouchesLedger(step)
    ensures Apply(s, step).ledger == s.ledger
  {
  }

  lemma MostStepsKeepEvents(s: State, step: Step)
    requires Enabled(s, step) && !step.DeleterDone? && !step.Deliver?
    ensures SameEvents(s.ledger, Apply(s, step).ledger)
  {
    if !TouchesLedger(step) {
      MostStepsKeepLedger(s, step);
    }
  }

  lemma DeleterDoneKeepsEvents(s: State, pid: Pid)
    requires EventsOk(s.ledger) && Enabled(s, DeleterDone(pid))
    ensures EventsOk(AfterDeleterDone(s, pid).ledger)
  {
    var d := s.processes[pid];
    match d.andThen
    case Publish => AnnounceKeepsEvents(s.ledger, d.instance, KeyEvent(d.key));
    case Stop =>
    case NextKeys(keys, issue, publishes) =>
      if keys == [] && publishes {
        AnnounceKeepsEvents(s.ledger, d.instance, TagEvent(issue));
      }
  }

  lemma DeliverKeepsEvents(s: State, instance: Instance, id: EventId, snapshot: seq<Key>)
    requires EventsOk(s.ledger) && Enabled(s, Deliver(instance, id, snapshot))
    ensures EventsOk(AfterDeliver(s, instance, id, snapshot).ledger)
  {
    var l, l' := s.ledger, AfterDeliver(s, instance, id, snapshot).ledger;
    if id in SeenBy(l, instance) {
      assert l.delivered + {(instance, id)} == l.delivered;
    } else {
      NoteKeepsEvents(l, instance, id);
      SameEventsOk(Note(l, instance, id), l');
    }
  }

  lemma SameEventsOk(l: Ledger, l': Ledger)
    requires EventsOk(l) && SameEvents(l, l')
    ensures EventsOk(l')
  {
    forall instance: Instance ensures SeenBy(l', instance) == SeenBy(l, instance) {}
  }

  lemma StepKeepsEvents(s: State, step: Step)
    requires EventsOk(s.ledger) && Enabled(s, step)
    ensures EventsOk(Apply(s, step).ledger)
  {
    match step
    case DeleterDone(pid) => DeleterDoneKeepsEvents(s, pid);
    case Deliver(instance, id, snapshot) => DeliverKeepsEvents(s, instance, id, snapshot);
    case _ => MostStepsKeepEvents(s, step);
  }

  // ---- One invalidation on its way to an instance ----

  // Nobody writes or reads the key anywhere.
  ghost predicate AllQuiet(s: State, key: Key) {
    forall instance: Instance :: Quiet(s, instance, key)
  }

  ghost predicate LeftAlone(steps: seq<Step>, key: Key) {
    forall i :: 0 <= i < |steps| ==> forall instance: Instance :: !Disturbs(steps[i], instance, key)
  }

  // A deletion of the key that has left nothing behind it.
  predicate DeletesKey(p: Process, instance: Instance, key: Key) {
    p.Deleter? && p.instance == instance && p.key == key
  }

  ghost predicate BeingDeleted(s: State, instance: Instance, key: Key) {
    exists pid :: pid in s.processes && DeletesKey(s.processes[pid], instance, key)
                  && Cleared(s, instance, key, s.processes[pid].layer)
  }

  // The event of the key has yet to be delivered here.
  ghost predicate EventOnItsWay(s: State, instance: Instance, key: Key) {
    exists id :: id in s.ledger.published && s.ledger.published[id] == KeyEvent(key) && id.source != instance
                 && (instance, id) !in s.ledger.delivered
  }

  ghost predicate WillPublish(s: State, issuer: Instance, key: Key) {
    exists pid :: pid in s.processes && DeletesKey(s.processes[pid], issuer, key) && s.processes[pid].andThen == Publish
  }

  ghost predicate GoesAway(s: State, issuer: Instance, instance: Instance, key: Key) {
    || Cleared(s, instance, key, s.layers) || BeingDeleted(s, instance, key)
    || (instance != issuer && (EventOnItsWay(s, instance, key) || WillPublish(s, issuer, key)))
  }

  lemma StepKeepsAllQuiet(s: State, step: Step, key: Key)
    requires Orderly(s) && AllQuiet(s, key) && Enabled(s, step)
    requires forall instance: Instance :: !Disturbs(step, instance, key)
    ensures AllQuiet(Apply(s, step), key)
  {
    forall instance: Instance ensures Quiet(Apply(s, step), instance, key) {
      StepKeepsQuiet(s, step, instance, key);
    }
  }

  // A deleter of the key goes on until no layer holds it.
  lemma StepDeletes(s: State, step: Step, instance: Instance, key: Key)
    requires Orderly(s) && AllQuiet(s, key) && BeingDeleted(s, instance, key) && Enabled(s, step)
    ensures BeingDeleted(Apply(s, step), instance, key) || Cleared(Apply(s, step), instance, key, s.layers)
  {
    assert Quiet(s, instance, key);
    StepTouchesOne(s, step);
    var pid :| pid in s.processes && DeletesKey(s.processes[pid], instance, key)
               && Cleared(s, instance, key, s.processes[pid].layer);
    StepKeepsCleared(s, step, instance, key, s.processes[pid].layer);
    if step == DeleteEffect(pid) {
      DeleteEffectRemoves(s, instance, key, pid);
      assert pid in Apply(s, step).processes;
    } else if step == DeleterDone(pid) {
      StepKeepsCleared(s, step, instance, key, s.layers);
    } else {
      assert Touched(s, step) != pid;
      assert pid in Apply(s, step).processes;
    }
  }

  lemma EventArrives(s: State, instance: Instance, id: EventId, snapshot: seq<Key>, key: Key)
    requires EventsOk(s.ledger) && Enabled(s, Deliver(instance, id, snapshot))
    requires s.ledger.published[id] == KeyEvent(key) && (instance, id) !in s.ledger.delivered
    ensures BeingDeleted(AfterDeliver(s, instance, id, snapshot), instance, key)
  {
    var s' := AfterDeliver(s, instance, id, snapshot);
    assert s'.processes[s.nextPid] == Deleter(instance, key, 0, Stop);
  }

  // What is published stays published, and only its delivery delivers it.
  ghost predicate KeepsPublished(l: Ledger, l': Ledger, instance: Instance, id: EventId) {
    && id in l.published && id in l'.published && l'.published[id] == l.published[id]
    && ((instance, id) in l'.delivered ==> (instance, id) in l.delivered)
  }

  lemma DeleterDoneKeepsPublished(s: State, pid: Pid, instance: Instance, id: EventId)
    requires EventsOk(s.ledger) && Enabled(s, DeleterDone(pid)) && id in s.ledger.published
    ensures KeepsPublished(s.ledger, AfterDeleterDone(s, pid).ledger, instance, id)
  {
    var d := s.processes[pid];
    match d.andThen
    case Publish => AnnounceKeepsEvents(s.ledger, d.instance, KeyEvent(d.key));
    case Stop =>
    case NextKeys(keys, issue, publishes) =>
      if keys == [] && publishes {
        AnnounceKeepsEvents(s.ledger, d.instance, TagEvent(issue));
      }
  }

  lemma DeliverKeepsPublished(s: State, at: Instance, delivered: EventId, snapshot: seq<Key>, instance: Instance,
                              id: EventId)
    requires Enabled(s, Deliver(at, delivered, snapshot)) && id in s.ledger.published
    requires at != instance || delivered != id
    ensures KeepsPublished(s.ledger, AfterDeliver(s, at, delivered, snapshot).ledger, instance, id)
  {
  }

  lemma StepKeepsPublished(s: State, step: Step, instance: Instance, id: EventId)
    requires EventsOk(s.ledger) && Enabled(s, step) && id in s.ledger.published
    requires step.Deliver? ==> step.instance != instance || step.id != id
    ensures KeepsPublished(s.ledger, Apply(s, step).ledger, instance, id)
  {
    match step
    case DeleterDone(pid) => DeleterDoneKeepsPublished(s, pid, instance, id);
    case Deliver(at, delivered, snapshot) => DeliverKeepsPublished(s, at, delivered, snapshot, instance, id);
    case _ => MostStepsKeepEvents(s, step);
  }

  lemma StepCarriesEvent(s: State, step: Step, instance: Instance, key: Key)
    requires EventsOk(s.ledger) && EventOnItsWay(s, instance, key) && Enabled(s, step)
    ensures EventOnItsWay(Apply(s, step), instance, key) || BeingDeleted(Apply(s, step), instance, key)
  {
    var id :| id in s.ledger.published && s.ledger.published[id] == KeyEvent(key) && id.source != instance
              && (instance, id) !in s.ledger.delivered;
    if step.Deliver? && step.instance == instance && step.id == id {
      EventArrives(s, instance, id, step.snapshot, key);
    } else {
      StepKeepsPublished(s, step, instance, id);
    }
  }

  lemma PublicationIsOnItsWay(s: State, pid: Pid, issuer: Instance, instance: Instance, key: Key)
    requires EventsOk(s.ledger) && instance != issuer && Enabled(s, DeleterDone(pid))
    requires DeletesKey(s.processes[pid], issuer, key) && s.processes[pid].andThen == Publish
    ensures EventOnItsWay(AfterDeleterDone(s, pid), instance, key)
  {
    var id := EventId(issuer, MintedBy(s.ledger, issuer));
    assert AfterDeleterDone(s, pid).ledger.published[id] == KeyEvent(key);
  }

  lemma StepPublishes(s: State, step: Step, issuer: Instance, instance: Instance, key: Key)
    requires Orderly(s) && EventsOk(s.ledger) && WillPublish(s, issuer, key) && instance != issuer && Enabled(s, step)
    ensures WillPublish(Apply(s, step), issuer, key) || EventOnItsWay(Apply(s, step), instance, key)
  {
    var pid :| pid in s.processes && DeletesKey(s.processes[pid], issuer, key) && s.processes[pid].andThen == Publish;
    StepTouchesOne(s, step);
    if step == DeleterDone(pid) {
      PublicationIsOnItsWay(s, pid, issuer, instance, key);
    } else if step == DeleteEffect(pid) {
      assert pid in Apply(s, step).processes;
    } else {
      assert Touched(s, step) != pid;
      assert pid in Apply(s, step).processes;
    }
  }

  lemma StepGoesAway(s: State, step: Step, issuer: Instance, instance: Instance, key: Key)
    requires Orderly(s) && EventsOk(s.ledger) && AllQuiet(s, key) && Enabled(s, step)
    requires GoesAway(s, issuer, instance, key)
    ensures GoesAway(Apply(s, step), issuer, instance, key)
  {
    StepTouchesOne(s, step);
    if Cleared(s, instance, key, s.layers) {
      assert Quiet(s, instance, key);
      StepKeepsCleared(s, step, instance, key, s.layers);
    } else if BeingDeleted(s, instance, key) {
      StepDeletes(s, step, instance, key);
    } else if EventOnItsWay(s, instance, key) {
      StepCarriesEvent(s, step, instance, key);
    } else {
      StepPublishes(s, step, issuer, instance, key);
    }
  }

  lemma {:induction false} RunGoesAway(s: State, steps: seq<Step>, s': State, issuer: Instance, instance: Instance,
                                       key: Key, window: nat)
    requires Orderly(s) && EventsOk(s.ledger) && AllQuiet(s, key) && GoesAway(s, issuer, instance, key)
    requires Runs(s, steps, s', window) && LeftAlone(steps, key)
    ensures GoesAway(s', issuer, instance, key) && s'.layers == s.layers && s'.instances == s.instances
    decreases |steps|
  {
    if steps == [] {
    } else {
      StepTouchesOne(s, steps[0]);
      StepOrderly(s, steps[0]);
      StepKeepsEvents(s, steps[0]);
      StepKeepsAllQuiet(s, steps[0], key);
      StepGoesAway(s, steps[0], issuer, instance, key);
      assert forall i :: 0 <= i < |steps[1..]| ==> steps[1..][i] == steps[i + 1];
      RunGoesAway(Apply(s, steps[0]), steps[1..], s', issuer, instance, key, window);
    }
  }

  lemma {:induction false} RunKeepsEvents(s: State, steps: seq<Step>, s': State, window: nat)
    requires EventsOk(s.ledger) && Runs(s, steps, s', window)
    ensures EventsOk(s'.ledger)
    decreases |steps|
  {
    if steps == [] {
    } else {
      StepKeepsEvents(s, steps[0]);
      RunKeepsEvents(Apply(s, steps[0]), steps[1..], s', window);
    }
  }

  lemma SettledIsGone(s: State, issuer: Instance, instance: Instance, key: Key)
    requires Settled(s) && instance < s.instances && GoesAway(s, issuer, instance, key)
    ensures Cleared(s, instance, key, s.layers)
  {
  }

  lemma InvalidationStarts(s: State, issuer: Instance, instance: Instance, key: Key)
    requires issuer < s.instances
    ensures GoesAway(AfterInvalidateKey(s, issuer, key), issuer, instance, key)
  {
    var s' := AfterInvalidateKey(s, issuer, key);
    assert s'.processes[s.nextPid] == Deleter(issuer, key, 0, Publish);
    assert BeingDeleted(s', issuer, key) && WillPublish(s', issuer, key);
  }

  lemma InvalidationStaysOrderly(s: State, issuer: Instance, key: Key)
    requires Orderly(s) && EventsOk(s.ledger) && AllQuiet(s, key) && issuer < s.instances
    ensures var s' := AfterInvalidateKey(s, issuer, key);
            Orderly(s') && EventsOk(s'.ledger) && AllQuiet(s', key)
  {
    var step := InvalidateKey(issuer, key);
    StepOrderly(s, step);
    StepKeepsEvents(s, step);
    StepKeepsAllQuiet(s, step, key);
  }

  lemma InvalidationReaches(s: State, issuer: Instance, instance: Instance, key: Key, steps: seq<Step>, s': State,
                            window: nat)
    requires Orderly(s) && EventsOk(s.ledger) && AllQuiet(s, key) && issuer < s.instances && instance < s.instances
    requires Runs(AfterInvalidateKey(s, issuer, key), steps, s', window) && LeftAlone(steps, key) && Settled(s')
    ensures Cleared(s', instance, key, s.layers) && s'.layers == s.layers
  {
    InvalidationStaysOrderly(s, issuer, key);
    InvalidationStarts(s, issuer, instance, key);
    RunGoesAway(AfterInvalidateKey(s, issuer, key), steps, s', issuer, instance, key, window);
    SettledIsGone(s', issuer, instance, key);
  }

  // One invalidation empties every layer of every instance by the time everything has settled, if nobody
  // has been writing or reading the key since before it was issued.
  lemma InvalidationReachesEveryInstance(layers: nat, instances: nat, before: seq<Step>, s: State, issuer: Instance,
                                         key: Key, steps: seq<Step>, s': State, window: nat)
    requires layers >= 1 && Runs(Initial(layers, instances), before, s, window) && AllQuiet(s, key)
    requires Enabled(s, InvalidateKey(issuer, key)) && Runs(Apply(s, InvalidateKey(issuer, key)), steps, s', window)
    requires LeftAlone(steps, key) && Settled(s')
    ensures forall instance: Instance, layer :: instance < instances && 0 <= layer < layers ==>
              !Holds(s', instance, layer, key)
  {
    RunOrderly(Initial(layers, instances), before, s, window);
    RunKeepsEvents(Initial(layers, instances), before, s, window);
    forall instance: Instance, layer | instance < instances && 0 <= layer < layers
      ensures !Holds(s', instance, layer, key)
    {
      InvalidationReaches(s, issuer, instance, key, steps, s', window);
    }
  }

  // ---- The same event again ----

  function Deliveries(steps: seq<Step>, instance: Instance): nat {
    if steps == [] then 0
    else (if steps[0].Deliver? && steps[0].instance == instance then 1 else 0) + Deliveries(steps[1..], instance)
  }

  // The id is in mind, and at most `younger` ids that came to be known later.
  ghost predicate InMind(seen: seq<EventId>, id: EventId, younger: nat) {
    exists i: nat :: i < |seen| && seen[i] == id && |seen| - 1 - i <= younger
  }

  lemma AppendedKeepsInMind(seen: seq<EventId>, id: EventId, other: EventId, younger: nat)
    requires InMind(seen, id, younger) && younger + 1 < EventDedup.MAX_SEEN
    ensures InMind(EventDedup.Appended(seen, other, false), id, younger + 1)
  {
    var seen' := EventDedup.Appended(seen, other, false);
    var i: nat :| i < |seen| && seen[i] == id && |seen| - 1 - i <= younger;
    assert seen'[if |seen'| > |seen| then i else i - 1] == id;
  }

  lemma SeenAfterDeliver(s: State, at: Instance, id: EventId, snapshot: seq<Key>, instance: Instance)
    requires Enabled(s, Deliver(at, id, snapshot))
    ensures SeenBy(AfterDeliver(s, at, id, snapshot).ledger, instance)
            == if at != instance || id in SeenBy(s.ledger, instance) then SeenBy(s.ledger, instance)
               else EventDedup.Appended(SeenBy(s.ledger, instance), id, false)
  {
  }

  lemma DeleterDoneKeepsSeen(s: State, pid: Pid)
    requires Enabled(s, DeleterDone(pid))
    ensures AfterDeleterDone(s, pid).ledger.seen == s.ledger.seen
  {
  }

  lemma StepKeepsInMind(s: State, step: Step, instance: Instance, id: EventId, younger: nat)
    requires Enabled(s, step) && InMind(SeenBy(s.ledger, instance), id, younger)
    requires younger + Deliveries([step], instance) < EventDedup.MAX_SEEN
    ensures InMind(SeenBy(Apply(s, step).ledger, instance), id, younger + Deliveries([step], instance))
  {
    match step
    case Deliver(at, other, snapshot) =>
      SeenAfterDeliver(s, at, other, snapshot, instance);
      if at == instance {
        AppendedKeepsInMind(SeenBy(s.ledger, instance), id, other, younger);
      }
    case DeleterDone(pid) => DeleterDoneKeepsSeen(s, pid);
    case _ => MostStepsKeepEvents(s, step);
  }

  lemma {:induction false} RunKeepsInMind(s: State, steps: seq<Step>, s': State, instance: Instance, id: EventId,
                                          younger: nat, window: nat)
    requires Runs(s, steps, s', window) && InMind(SeenBy(s.ledger, instance), id, younger)
    requires younger + Deliveries(steps, instance) < EventDedup.MAX_SEEN
    ensures id in SeenBy(s'.ledger, instance)
    decreases |steps|
  {
    if steps == [] {
    } else {
      StepKeepsInMind(s, steps[0], instance, id, younger);
      RunKeepsInMind(Apply(s, steps[0]), steps[1..], s', instance, id, younger + Deliveries([steps[0]], instance),
                     window);
    }
  }

  lemma FirstDeliveryIsInMind(s: State, instance: Instance, id: EventId, snapshot: seq<Key>)
    requires Enabled(s, Deliver(instance, id, snapshot)) && id !in SeenBy(s.ledger, instance)
    ensures InMind(SeenBy(AfterDeliver(s, instance, id, snapshot).ledger, instance), id, 0)
  {
    SeenAfterDeliver(s, instance, id, snapshot, instance);
    var seen := SeenBy(AfterDeliver(s, instance, id, snapshot).ledger, instance);
    assert seen[|seen| - 1] == id;
  }

  lemma KnownIsDropped(s: State, instance: Instance, id: EventId, snapshot: seq<Key>)
    requires EventsOk(s.ledger) && Enabled(s, Deliver(instance, id, snapshot)) && id in SeenBy(s.ledger, instance)
    ensures AfterDeliver(s, instance, id, snapshot) == s
  {
    assert s.ledger.delivered + {(instance, id)} == s.ledger.delivered;
  }

  // A delivery of an event that the instance was given before, fewer than 1000 deliveries to it ago,
  // changes nothing: no epoch, no layer, no process.
  lemma RedeliveryChangesNothing(layers: nat, instances: nat, before: seq<Step>, s: State, instance: Instance,
                                 id: EventId, snapshot: seq<Key>, steps: seq<Step>, s': State, again: seq<Key>,
                                 window: nat)
    requires Runs(Initial(layers, instances), before, s, window)
    requires Enabled(s, Deliver(instance, id, snapshot)) && id !in SeenBy(s.ledger, instance)
    requires Runs(Apply(s, Deliver(instance, id, snapshot)), steps, s', window)
    requires Deliveries(steps, instance) < EventDedup.MAX_SEEN && Enabled(s', Deliver(instance, id, again))
    ensures Apply(s', Deliver(instance, id, again)) == s'
  {
    var next := AfterDeliver(s, instance, id, snapshot);
    RunKeepsEvents(Initial(layers, instances), before, s, window);
    DeliverKeepsEvents(s, instance, id, snapshot);
    RunKeepsEvents(next, steps, s', window);
    FirstDeliveryIsInMind(s, instance, id, snapshot);
    RunKeepsInMind(next, steps, s', instance, id, 0, window);
    KnownIsDropped(s', instance, id, again);
  }
}
