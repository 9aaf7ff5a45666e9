/**
 The epoch-fenced write and invalidate protocol of `SafeCache`, as a step system.

 `instances` cache processes run the same code.  Instance `i` has `layers - 1` private upper
 layers; the last layer is shared by all of them.  Every asynchronous operation is a process,
 and every provider `set` or `delete` takes effect in one step somewhere between its call and
 its return.  An operation runs to its next `await` in one step.

 Each value carries the identity of the write that produced it and, as history, how long the
 logs of bumps and of invalidations were when its fetch began.
 */
module FenceProtocol {
  import opened EpochTable
  import EventDedup

  type Key = string
  type Instance = nat
  type Pid = nat

  // `writer` fetched the value on `home`, when `bumps` bumps had happened there and `invalidations`
  // invalidations had been issued by anyone.
  datatype Value = Value(writer: Pid, home: Instance, bumps: nat, invalidations: nat)

  datatype EventId = EventId(source: Instance, counter: nat)

  datatype WriteStage =
    | Fetching
    | Ready(layer: nat)         // about to compare epochs before writing `layer`, or finally when past the last one
    | Setting(layer: nat)       // `set` called on `layer`, not yet in effect
    | Compensating(layer: nat)  // deleting what was written, from `layer` on

  // `compared` is how many bumps the instance had made when the epochs were compared.
  datatype ReadStage =
    | Reading(layer: nat)
    | Found(layer: nat, value: Value)
    | Filling(next: nat, layer: nat, value: Value, compared: nat)

  // An invalidation as it was issued, of a key or of a tag on some instance.
  datatype Issue = OfKey(key: Key) | OfTag(instance: Instance)

  // What is published: a key, or the tag of the given invalidation.
  datatype Event = KeyEvent(key: Key) | TagEvent(issue: nat)

  // What an invalidation does once its key is deleted from every layer: an invalidation of a tag
  // goes on to the next key of its snapshot, and publishes at the end if it is not a replay.
  datatype Then = Publish | Stop | NextKeys(keys: seq<Key>, issue: nat, publishes: bool)

  // One instance's pass over the keys that a tag resolved to there, begun after `bumps` of its bumps.
  datatype Round = Round(instance: Instance, issue: nat, snapshot: seq<Key>, bumps: nat)

  // A reader captured its epoch after `captured` bumps of its instance.
  datatype Process =
    | Writer(instance: Instance, key: Key, epoch: nat, value: Value, stage: WriteStage)
    | Deleter(instance: Instance, key: Key, layer: nat, andThen: Then)
    | Reader(instance: Instance, key: Key, epoch: nat, captured: nat, reading: ReadStage)

  // What the instances and the event bus remember, with the history of the run.
  datatype Ledger = Ledger(
    bumps: map<Instance, seq<Key>>,
    minted: map<Instance, nat>,
    published: map<EventId, Event>,
    seen: map<Instance, seq<EventId>>,
    invalidations: seq<Issue>,
    delivered: set<(Instance, EventId)>,
    rounds: seq<Round>)

  datatype State = State(
    layers: nat,
    instances: nat,
    processes: map<Pid, Process>,
    nextPid: Pid,
    upper: map<(Instance, nat, Key), Value>,
    shared: map<Key, Value>,
    ledger: Ledger)

  datatype Step =
    | StartWrite(instance: Instance, key: Key)
    | FetchDone(pid: Pid)
    | GiveUp(pid: Pid)
    | CompareEpoch(pid: Pid)
    | SetEffect(pid: Pid)
    | SetSkipped(pid: Pid)
    | CompensatingDelete(pid: Pid)
    | InvalidateKey(instance: Instance, key: Key)
    | InvalidateTag(instance: Instance, snapshot: seq<Key>)
    | DeleteEffect(pid: Pid)
    | DeleterDone(pid: Pid)
    | Deliver(instance: Instance, id: EventId, snapshot: seq<Key>)
    | StartRead(instance: Instance, key: Key)
    | LayerMiss(pid: Pid)
    | LayerHit(pid: Pid)
    | StartBackfill(pid: Pid)
    | BackfillSet(pid: Pid, skipped: bool)
    | Vanish(instance: Instance, layer: nat, key: Key)

  function Initial(layers: nat, instances: nat): State {
    State(layers, instances, map[], 0, map[], map[], Ledger(map[], map[], map[], map[], [], {}, []))
  }

  function LogOf(l: Ledger, instance: Instance): seq<Key> {
    if instance in l.bumps then l.bumps[instance] else []
  }

  function EpochAt(l: Ledger, instance: Instance, key: Key): nat {
    EpochOf(LogOf(l, instance), key)
  }

  function SeenBy(l: Ledger, instance: Instance): seq<EventId> {
    if instance in l.seen then l.seen[instance] else []
  }

  function MintedBy(l: Ledger, instance: Instance): nat {
    if instance in l.minted then l.minted[instance] else 0
  }

  predicate Holds(s: State, instance: Instance, layer: nat, key: Key) {
    if layer + 1 == s.layers then key in s.shared else (instance, layer, key) in s.upper
  }

  function Stored(s: State, instance: Instance, layer: nat, key: Key): Value
    requires Holds(s, instance, layer, key)
  {
    if layer + 1 == s.layers then s.shared[key] else s.upper[(instance, layer, key)]
  }

  function Put(s: State, instance: Instance, layer: nat, key: Key, value: Value): State {
    if layer + 1 == s.layers then s.(shared := s.shared[key := value])
    else s.(upper := s.upper[(instance, layer, key) := value])
  }

  function Drop(s: State, instance: Instance, layer: nat, key: Key): State {
    if layer + 1 == s.layers then s.(shared := s.shared - {key})
    else s.(upper := s.upper - {(instance, layer, key)})
  }

  function Spawn(s: State, process: Process): State {
    s.(processes := s.processes[s.nextPid := process], nextPid := s.nextPid + 1)
  }

  function Become(s: State, pid: Pid, process: Process): State {
    s.(processes := s.processes[pid := process])
  }

  function End(s: State, pid: Pid): State {
    s.(processes := s.processes - {pid})
  }

  function BumpAt(l: Ledger, instance: Instance, key: Key): Ledger {
    l.(bumps := l.bumps[instance := LogOf(l, instance) + [key]])
  }

  predicate IsWriter(s: State, pid: Pid) {
    pid in s.processes && s.processes[pid].Writer?
  }

  predicate IsDeleter(s: State, pid: Pid) {
    pid in s.processes && s.processes[pid].Deleter?
  }

  predicate IsReader(s: State, pid: Pid) {
    pid in s.processes && s.processes[pid].Reader?
  }

  predicate Enabled(s: State, step: Step) {
    match step
    case StartWrite(instance, _) => instance < s.instances
    case FetchDone(pid) => IsWriter(s, pid) && s.processes[pid].stage.Fetching?
    case GiveUp(pid) => IsWriter(s, pid) && s.processes[pid].stage.Fetching?
    case CompareEpoch(pid) => IsWriter(s, pid) && s.processes[pid].stage.Ready?
    case SetEffect(pid) => IsWriter(s, pid) && s.processes[pid].stage.Setting?
    case SetSkipped(pid) => IsWriter(s, pid) && s.processes[pid].stage.Setting?
    case CompensatingDelete(pid) => IsWriter(s, pid) && s.processes[pid].stage.Compensating?
    case InvalidateKey(instance, _) => instance < s.instances
    case InvalidateTag(instance, _) => instance < s.instances
    case DeleteEffect(pid) => IsDeleter(s, pid) && s.processes[pid].layer < s.layers
    case DeleterDone(pid) => IsDeleter(s, pid) && s.processes[pid].layer >= s.layers
    case Deliver(instance, id, _) => instance < s.instances && id in s.ledger.published && id.source != instance
    case StartRead(instance, _) => instance < s.instances
    case LayerMiss(pid) => IsReader(s, pid) && s.processes[pid].reading.Reading?
    case LayerHit(pid) =>
      && IsReader(s, pid) && s.processes[pid].reading.Reading?
      && Holds(s, s.processes[pid].instance, s.processes[pid].reading.layer, s.processes[pid].key)
    case StartBackfill(pid) => IsReader(s, pid) && s.processes[pid].reading.Found?
    case BackfillSet(pid, _) => IsReader(s, pid) && s.processes[pid].reading.Filling?
    case Vanish(_, _, _) => true
  }

  function Apply(s: State, step: Step): State
    requires Enabled(s, step)
  {
    match step
    case StartWrite(instance, key) => AfterStartWrite(s, instance, key)
    case FetchDone(pid) => Become(s, pid, s.processes[pid].(stage := Ready(0)))
    case GiveUp(pid) => End(s, pid)
    case CompareEpoch(pid) => AfterCompareEpoch(s, pid)
    case SetEffect(pid) => AfterSetEffect(s, pid)
    case SetSkipped(pid) => AfterSetSkipped(s, pid)
    case CompensatingDelete(pid) => AfterCompensatingDelete(s, pid)
    case InvalidateKey(instance, key) => AfterInvalidateKey(s, instance, key)
    case InvalidateTag(instance, snapshot) => AfterInvalidateTag(s, instance, snapshot)
    case DeleteEffect(pid) => AfterDeleteEffect(s, pid)
    case DeleterDone(pid) => AfterDeleterDone(s, pid)
    case Deliver(instance, id, snapshot) => AfterDeliver(s, instance, id, snapshot)
    case StartRead(instance, key) => AfterStartRead(s, instance, key)
    case LayerMiss(pid) => AfterLayerMiss(s, pid)
    case LayerHit(pid) => AfterLayerHit(s, pid)
    case StartBackfill(pid) => AfterStartBackfill(s, pid)
    case BackfillSet(pid, skipped) => AfterBackfillSet(s, pid, skipped)
    case Vanish(instance, layer, key) => Drop(s, instance, layer, key)
  }

  // The epoch is captured in the step that starts the fetch.
  function AfterStartWrite(s: State, instance: Instance, key: Key): State {
    var value := Value(s.nextPid, instance, |LogOf(s.ledger, instance)|, |s.ledger.invalidations|);
    Spawn(s, Writer(instance, key, EpochAt(s.ledger, instance, key), value, Fetching))
  }

  // Before each layer a changed epoch drops the rest of the write; after the last layer it
  // starts the compensating delete.
  function AfterCompareEpoch(s: State, pid: Pid): State
    requires Enabled(s, CompareEpoch(pid))
  {
    var w := s.processes[pid];
    var same := EpochAt(s.ledger, w.instance, w.key) == w.epoch;
    if w.stage.layer < s.layers then
      if same then Become(s, pid, w.(stage := Setting(w.stage.layer))) else End(s, pid)
    else
      if same then End(s, pid) else Become(s, pid, w.(stage := Compensating(0)))
  }

  function AfterSetEffect(s: State, pid: Pid): State
    requires Enabled(s, SetEffect(pid))
  {
    var w := s.processes[pid];
    Become(Put(s, w.instance, w.stage.layer, w.key, w.value), pid, w.(stage := Ready(w.stage.layer + 1)))
  }

  // The layer holds a newer version, or the circuit breaker is open.
  function AfterSetSkipped(s: State, pid: Pid): State
    requires Enabled(s, SetSkipped(pid))
  {
    var w := s.processes[pid];
    Become(s, pid, w.(stage := Ready(w.stage.layer + 1)))
  }

  function AfterCompensatingDelete(s: State, pid: Pid): State
    requires Enabled(s, CompensatingDelete(pid))
  {
    var w := s.processes[pid];
    var dropped := Drop(s, w.instance, w.stage.layer, w.key);
    if w.stage.layer + 1 < s.layers then Become(dropped, pid, w.(stage := Compensating(w.stage.layer + 1)))
    else End(dropped, pid)
  }

  // Bumping the epoch and starting to delete is one step.
  function AfterInvalidateKey(s: State, instance: Instance, key: Key): State {
    var bumped := BumpAt(s.ledger, instance, key).(invalidations := s.ledger.invalidations + [OfKey(key)]);
    Spawn(s.(ledger := bumped), Deleter(instance, key, 0, Publish))
  }

  // The pass over a snapshot starts with its first key.
  function StartRound(s: State, instance: Instance, issue: nat, snapshot: seq<Key>, publishes: bool): State {
    var round := Round(instance, issue, snapshot, |LogOf(s.ledger, instance)|);
    Spawn(s.(ledger := s.ledger.(rounds := s.ledger.rounds + [round])),
          Deleter(instance, "", s.layers, NextKeys(snapshot, issue, publishes)))
  }

  // `snapshot` is what the tag resolves to on this instance.
  function AfterInvalidateTag(s: State, instance: Instance, snapshot: seq<Key>): State {
    var issue := |s.ledger.invalidations|;
    var issued := s.ledger.(invalidations := s.ledger.invalidations + [OfTag(instance)]);
    StartRound(s.(ledger := issued), instance, issue, snapshot, true)
  }

  function AfterDeleteEffect(s: State, pid: Pid): State
    requires Enabled(s, DeleteEffect(pid))
  {
    var d := s.processes[pid];
    Become(Drop(s, d.instance, d.layer, d.key), pid, d.(layer := d.layer + 1))
  }

  function AfterDeleterDone(s: State, pid: Pid): State
    requires Enabled(s, DeleterDone(pid))
  {
    var d := s.processes[pid];
    match d.andThen
    case Stop => End(s, pid)
    case Publish => End(s, pid).(ledger := Announce(s.ledger, d.instance, KeyEvent(d.key)))
    case NextKeys(keys, issue, publishes) =>
      if keys != [] then
        var bumped := s.(ledger := BumpAt(s.ledger, d.instance, keys[0]));
        Become(bumped, pid, Deleter(d.instance, keys[0], 0, NextKeys(keys[1..], issue, publishes)))
      else if publishes then End(s, pid).(ledger := Announce(s.ledger, d.instance, TagEvent(issue)))
      else End(s, pid)
  }

  function Announce(l: Ledger, instance: Instance, event: Event): Ledger {
    var counter := MintedBy(l, instance);
    l.(published := l.published[EventId(instance, counter) := event], minted := l.minted[instance := counter + 1])
  }

  function Note(l: Ledger, instance: Instance, id: EventId): Ledger {
    var seen := EventDedup.Appended(SeenBy(l, instance), id, false);
    l.(delivered := l.delivered + {(instance, id)}, seen := l.seen[instance := seen])
  }

  // A remembered event is dropped.  Otherwise remembering it and bumping the epoch of its key is one
  // step, or it starts a pass over `snapshot`, what the event's tag resolves to on this instance.
  function AfterDeliver(s: State, instance: Instance, id: EventId, snapshot: seq<Key>): State
    requires Enabled(s, Deliver(instance, id, snapshot))
  {
    var l := s.ledger;
    if id in SeenBy(l, instance) then s.(ledger := l.(delivered := l.delivered + {(instance, id)})) else
    match l.published[id]
    case KeyEvent(key) =>
      Spawn(s.(ledger := BumpAt(Note(l, instance, id), instance, key)), Deleter(instance, key, 0, Stop))
    case TagEvent(issue) => StartRound(s.(ledger := Note(l, instance, id)), instance, issue, snapshot, false)
  }

  // The epoch is captured before the first layer is read.
  function AfterStartRead(s: State, instance: Instance, key: Key): State {
    Spawn(s, Reader(instance, key, EpochAt(s.ledger, instance, key), |LogOf(s.ledger, instance)|, Reading(0)))
  }

  // Nothing is stored there, or what is stored has expired.
  function AfterLayerMiss(s: State, pid: Pid): State
    requires Enabled(s, LayerMiss(pid))
  {
    var r := s.processes[pid];
    if r.reading.layer + 1 < s.layers then Become(s, pid, r.(reading := Reading(r.reading.layer + 1))) else End(s, pid)
  }

  // A hit in the first layer leaves nothing to backfill.
  function AfterLayerHit(s: State, pid: Pid): State
    requires Enabled(s, LayerHit(pid))
  {
    var r := s.processes[pid];
    if r.reading.layer == 0 then End(s, pid) else
    Become(s, pid, r.(reading := Found(r.reading.layer, Stored(s, r.instance, r.reading.layer, r.key))))
  }

  function AfterStartBackfill(s: State, pid: Pid): State
    requires Enabled(s, StartBackfill(pid))
  {
    var r := s.processes[pid];
    if EpochAt(s.ledger, r.instance, r.key) != r.epoch then End(s, pid) else
    Become(s, pid, r.(reading := Filling(0, r.reading.layer, r.reading.value, |LogOf(s.ledger, r.instance)|)))
  }

  // Layers below the one that was hit are filled without looking at the epoch again.
  function AfterBackfillSet(s: State, pid: Pid, skipped: bool): State
    requires Enabled(s, BackfillSet(pid, skipped))
  {
    var r := s.processes[pid];
    if r.reading.next >= r.reading.layer then End(s, pid) else
    var filled := if skipped then s else Put(s, r.instance, r.reading.next, r.key, r.reading.value);
    Become(filled, pid, r.(reading := r.reading.(next := r.reading.next + 1)))
  }

  // ---- Runs ----

  // A writer that captured epoch 0 compares epochs after at most `window` bumps of its instance.
  predicate InWindow(s: State, step: Step, window: nat) {
    step.CompareEpoch? && IsWriter(s, step.pid) && s.processes[step.pid].epoch == 0 ==>
      |LogOf(s.ledger, s.processes[step.pid].instance)| - s.processes[step.pid].value.bumps <= window
  }

  // `s'` is reached from `s` by taking `steps` in order, every comparison being within the window.
  ghost predicate Runs(s: State, steps: seq<Step>, s': State, window: nat)
    decreases |steps|
  {
    if steps == [] then s == s'
    else Enabled(s, steps[0]) && InWindow(s, steps[0], window) && Runs(Apply(s, steps[0]), steps[1..], s', window)
  }

  ghost predicate Reaches(s: State, s': State, window: nat) {
    exists steps :: Runs(s, steps, s', window)
  }

  lemma {:induction false} RunThen(s: State, steps: seq<Step>, mid: State, more: seq<Step>, s': State, window: nat)
    requires Runs(s, steps, mid, window) && Runs(mid, more, s', window)
    ensures Runs(s, steps + more, s', window)
    decreases |steps|
  {
    if steps == [] {
      assert steps + more == more;
    } else {
      assert (steps + more)[1..] == steps[1..] + more;
      RunThen(Apply(s, steps[0]), steps[1..], mid, more, s', window);
    }
  }

  // ---- What the protocol promises ----

  function Since<T>(log: seq<T>, mark: nat): seq<T> {
    if mark <= |log| then log[mark..] else []
  }

  // The fetch of `value` began before an invalidation of `key` was issued anywhere, or before the
  // value's own instance bumped the key.
  predicate Stale(l: Ledger, key: Key, value: Value) {
    OfKey(key) in Since(l.invalidations, value.invalidations) || key in Since(LogOf(l, value.home), value.bumps)
  }

  // The fetch of `value` began before the invalidation of a tag was issued, by any instance, and the
  // value's own instance has begun a pass for it over a snapshot that holds `key`.
  ghost predicate TaggedStale(l: Ledger, key: Key, value: Value) {
    exists r :: r in l.rounds && r.instance == value.home && key in r.snapshot && value.invalidations <= r.issue
  }

  ghost predicate Outdated(l: Ledger, key: Key, value: Value) {
    Stale(l, key, value) || TaggedStale(l, key, value)
  }

  // Nothing is in flight: no write or invalidation is running, and every published event has
  // reached every other instance.
  ghost predicate Settled(s: State) {
    && (forall pid :: pid in s.processes ==> s.processes[pid].Reader?)
    && (forall id, instance: Instance :: id in s.ledger.published && instance < s.instances && instance != id.source
                                         ==> (instance, id) in s.ledger.delivered)
  }
}
