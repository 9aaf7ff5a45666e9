/**
 The backfills that the epoch fence does not reach: on every layer but the last, a backfill can put a
 stale value into an empty layer when everything else has settled, by a bump after its comparison or by
 one before the read began.
 */
module FenceBackfillLimits {
  import opened FenceProtocol
  import opened FenceSafety
  import opened FenceTraces

  // A reader of the key on instance 0, beside whatever else is running.
  ghost predicate ReaderAt(s: State, pid: Pid, key: Key, epoch: nat, captured: nat, reading: ReadStage) {
    pid in s.processes && s.processes[pid] == Reader(0, key, epoch, captured, reading)
  }

  // The reader goes on, and the upper layers may have been filled.
  ghost predicate OnlyRead(s: State, s': State, pid: Pid) {
    s' == s.(processes := s'.processes, upper := s'.upper) && OthersUnchanged(s, s', pid)
  }

  // It misses every layer before this one.
  lemma {:induction false} MissUpTo(start: State, s: State, pid: Pid, key: Key, epoch: nat, captured: nat, layer: nat,
                                    window: nat) returns (s': State)
    requires Reaches(start, s, window) && ReaderAt(s, pid, key, epoch, captured, Reading(0)) && layer < s.layers
    ensures Reaches(start, s', window) && ReaderAt(s', pid, key, epoch, captured, Reading(layer))
    ensures OnlyRead(s, s', pid) && s'.upper == s.upper
    decreases layer
  {
    if layer == 0 {
      s' := s;
    } else {
      var before := MissUpTo(start, s, pid, key, epoch, captured, layer - 1, window);
      ReachesStep(start, before, LayerMiss(pid), window);
      s' := AfterLayerMiss(before, pid);
    }
  }

  // It finds the value in the last layer.
  lemma FindInLast(start: State, s: State, pid: Pid, key: Key, epoch: nat, captured: nat, window: nat)
    returns (s': State)
    requires Reaches(start, s, window) && ReaderAt(s, pid, key, epoch, captured, Reading(0))
    requires s.layers > 1 && key in s.shared
    ensures Reaches(start, s', window)
    ensures ReaderAt(s', pid, key, epoch, captured, Found(s.layers - 1, s.shared[key]))
    ensures OnlyRead(s, s', pid) && s'.upper == s.upper
  {
    var before := MissUpTo(start, s, pid, key, epoch, captured, s.layers - 1, window);
    ReachesStep(start, before, LayerHit(pid), window);
    s' := AfterLayerHit(before, pid);
  }

  // It sees its own epoch, and is about to fill the first layer.
  lemma CompareForFill(start: State, s: State, pid: Pid, key: Key, epoch: nat, captured: nat, value: Value, window: nat)
    returns (s': State)
    requires s.layers > 1 && Reaches(start, s, window) && EpochAt(s.ledger, 0, key) == epoch
    requires ReaderAt(s, pid, key, epoch, captured, Found(s.layers - 1, value))
    ensures Reaches(start, s', window) && OnlyRead(s, s', pid) && s'.upper == s.upper
    ensures ReaderAt(s', pid, key, epoch, captured, Filling(0, s.layers - 1, value, |LogOf(s.ledger, 0)|))
  {
    ReachesStep(start, s, StartBackfill(pid), window);
    s' := AfterStartBackfill(s, pid);
  }

  lemma FillOne(s: State, pid: Pid, key: Key, epoch: nat, captured: nat, value: Value, compared: nat, layer: nat)
    requires layer + 1 < s.layers
    requires ReaderAt(s, pid, key, epoch, captured, Filling(layer, s.layers - 1, value, compared))
    ensures var s' := AfterBackfillSet(s, pid, false);
            && OnlyRead(s, s', pid) && s'.upper == s.upper[(0, layer, key) := value]
            && ReaderAt(s', pid, key, epoch, captured, Filling(layer + 1, s.layers - 1, value, compared))
  {
  }

  // It fills one layer after another, up to `layer`.
  lemma {:induction false} FillUpTo(start: State, s: State, pid: Pid, key: Key, epoch: nat, captured: nat, value: Value,
                                    compared: nat, layer: nat, window: nat) returns (s': State)
    requires layer + 1 < s.layers && Reaches(start, s, window)
    requires ReaderAt(s, pid, key, epoch, captured, Filling(0, s.layers - 1, value, compared))
    ensures Reaches(start, s', window) && OnlyRead(s, s', pid)
    ensures ReaderAt(s', pid, key, epoch, captured, Filling(layer, s.layers - 1, value, compared))
    ensures forall p :: p in s'.upper ==> p in s.upper || p.1 < layer
    decreases layer
  {
    if layer == 0 {
      s' := s;
    } else {
      var before := FillUpTo(start, s, pid, key, epoch, captured, value, compared, layer - 1, window);
      FillOne(before, pid, key, epoch, captured, value, compared, layer - 1);
      ReachesStep(start, before, BackfillSet(pid, false), window);
      s' := AfterBackfillSet(before, pid, false);
    }
  }

  // Comparing and filling together.
  lemma FillFound(start: State, s: State, pid: Pid, key: Key, epoch: nat, captured: nat, value: Value, layer: nat,
                  window: nat) returns (s': State)
    requires layer + 1 < s.layers && Reaches(start, s, window) && EpochAt(s.ledger, 0, key) == epoch
    requires ReaderAt(s, pid, key, epoch, captured, Found(s.layers - 1, value))
    ensures Reaches(start, s', window) && OnlyRead(s, s', pid)
    ensures ReaderAt(s', pid, key, epoch, captured, Filling(layer, s.layers - 1, value, |LogOf(s.ledger, 0)|))
    ensures forall p :: p in s'.upper ==> p in s.upper || p.1 < layer
  {
    var comparing := CompareForFill(start, s, pid, key, epoch, captured, value, window);
    s' := FillUpTo(start, comparing, pid, key, epoch, captured, value, |LogOf(s.ledger, 0)|, layer, window);
  }

  // What both runs end with: everything but the reader has settled, the layer is empty, and the next
  // backfill step puts a stale value there.
  ghost predicate AboutToResurrect(start: State, before: State, reader: Pid, key: Key, layer: nat, window: nat) {
    && Reaches(start, before, window) && Settled(before) && layer + 1 < before.layers
    && !Holds(before, 0, layer, key) && Enabled(before, BackfillSet(reader, false))
    && var s := Apply(before, BackfillSet(reader, false));
       && Reaches(start, s, window) && Settled(s)
       && Holds(s, 0, layer, key) && Stale(s.ledger, key, Stored(s, 0, layer, key))
  }

  lemma ResurrectsNext(start: State, before: State, reader: Pid, key: Key, epoch: nat, captured: nat, value: Value,
                       compared: nat, layer: nat, window: nat)
    requires Reaches(start, before, window) && Settled(before) && layer + 1 < before.layers
    requires !Holds(before, 0, layer, key) && Stale(before.ledger, key, value)
    requires ReaderAt(before, reader, key, epoch, captured, Filling(layer, before.layers - 1, value, compared))
    ensures AboutToResurrect(start, before, reader, key, layer, window)
  {
    ReachesStep(start, before, BackfillSet(reader, false), window);
  }

  // A reader has found the value in the last layer, and nobody has interfered.
  lemma ReadAfterWrite(layers: nat, instances: nat, key: Key, window: nat) returns (s: State)
    requires instances >= 1 && layers > 1
    ensures Reaches(Initial(layers, instances), s, window) && s.layers == layers && s.instances == instances
    ensures s.processes.Keys == {1} && s.nextPid == 2 && s.ledger == EMPTY_LEDGER
    ensures ReaderAt(s, 1, key, 0, 0, Found(layers - 1, FirstValue(0)))
  {
    var start := Initial(layers, instances);
    var written := WriteAll(layers, instances, 0, key, window);
    ReachesStep(start, written, StartRead(0, key), window);
    s := FindInLast(start, AfterStartRead(written, 0, key), 1, key, 0, 0, window);
  }

  // It has compared epochs and filled the layers before this one.
  lemma FillAfterWrite(layers: nat, instances: nat, key: Key, layer: nat, window: nat) returns (s: State)
    requires instances >= 1 && layer + 1 < layers
    ensures Reaches(Initial(layers, instances), s, window) && s.layers == layers && s.instances == instances
    ensures s.processes.Keys == {1} && s.nextPid == 2 && s.ledger == EMPTY_LEDGER
    ensures ReaderAt(s, 1, key, 0, 0, Filling(layer, layers - 1, FirstValue(0), 0))
  {
    var start := Initial(layers, instances);
    var found := ReadAfterWrite(layers, instances, key, window);
    s := FillFound(start, found, 1, key, 0, 0, FirstValue(0), layer, window);
  }

  // The tag of the key is invalidated, and replayed by everyone, beside a reader.
  lemma TagBesideReader(start: State, s: State, key: Key, window: nat) returns (s': State)
    requires Reaches(start, s, window) && s.instances >= 1 && s.ledger == EMPTY_LEDGER
    requires s.processes.Keys == {1} && s.processes[1].Reader? && s.nextPid == 2
    ensures Reaches(start, s', window) && Settled(s') && s'.processes == s.processes
    ensures s'.layers == s.layers && LogOf(s'.ledger, 0) == [key] && Emptied(s', 0, 0, key)
  {
    var tagged := TagPass(start, s, 0, [key], window);
    TagLedgerAnnounced(0, [key]);
    s' := DeliverToAllBut(start, tagged, 0, 0, s.instances, window);
    StillEmptied(tagged, s', 0, [], 0, 0, key);
    AllHaveIt(s', 0);
  }

  // A backfill compares epochs once, before it fills the first layer, and the key is bumped after that.
  // So it can put a stale value into any layer but the last although the layer was empty, no write was
  // ever overtaken, and everything else had settled.
  lemma BackfillCanLeaveStale(layers: nat, instances: nat, layer: nat, window: nat)
    returns (before: State, reader: Pid, key: Key)
    requires instances >= 1 && layer + 1 < layers
    ensures before.layers == layers
    ensures AboutToResurrect(Initial(layers, instances), before, reader, key, layer, window)
  {
    key, reader := "user:1", 1;
    var start := Initial(layers, instances);
    var filling := FillAfterWrite(layers, instances, key, layer, window);
    before := TagBesideReader(start, filling, key, window);
    assert Since([key], 0)[0] == key;
    ResurrectsNext(start, before, reader, key, 0, 0, FirstValue(0), 0, layer, window);
  }

  // What the invalidation of a tag with this one key leaves in the ledger up to its bump.
  function BumpedLedger(key: Key): Ledger {
    AllBumped(EMPTY_LEDGER.(invalidations := [OfTag(0)], rounds := [Round(0, 0, [key], 0)]), 0, [key])
  }

  lemma BumpedProcesses(s: State, key: Key)
    requires s.ledger == EMPTY_LEDGER && s.processes == map[] && s.nextPid == 1
    requires Enabled(AfterInvalidateTag(s, 0, [key]), DeleterDone(1))
    ensures var s' := AfterDeleterDone(AfterInvalidateTag(s, 0, [key]), 1);
            s'.processes == map[1 := Deleter(0, key, 0, NextKeys([], 0, true))] && s'.ledger == BumpedLedger(key)
  {
    assert [] + [key] == [key] && [key][1..] == [];
  }

  // The key is written, and then bumped.
  lemma BumpAfterWrite(layers: nat, instances: nat, key: Key, window: nat) returns (s: State)
    requires instances >= 1 && layers >= 1
    ensures Reaches(Initial(layers, instances), s, window) && s.layers == layers && s.instances == instances
    ensures s.processes == map[1 := Deleter(0, key, 0, NextKeys([], 0, true))] && s.nextPid == 2
    ensures key in s.shared && s.shared[key] == FirstValue(0) && s.ledger == BumpedLedger(key)
  {
    var start := Initial(layers, instances);
    var written := WriteAll(layers, instances, 0, key, window);
    ReachesStep(start, written, InvalidateTag(0, [key]), window);
    var tagging := AfterInvalidateTag(written, 0, [key]);
    ReachesStep(start, tagging, DeleterDone(1), window);
    s := AfterDeleterDone(tagging, 1);
    BumpedProcesses(written, key);
  }

  // Before anything is deleted a read begins: it captures the bumped epoch and takes the value from the
  // last layer.
  lemma ReadBehindBump(layers: nat, instances: nat, key: Key, window: nat) returns (s: State)
    requires instances >= 1 && layers > 1
    ensures Reaches(Initial(layers, instances), s, window) && s.layers == layers && s.instances == instances
    ensures s.processes.Keys == {1, 2} && s.nextPid == 3 && s.ledger == BumpedLedger(key)
    ensures s.processes[1] == Deleter(0, key, 0, NextKeys([], 0, true))
    ensures ReaderAt(s, 2, key, 1, 1, Found(layers - 1, FirstValue(0)))
  {
    var start := Initial(layers, instances);
    var bumped := BumpAfterWrite(layers, instances, key, window);
    ReachesStep(start, bumped, StartRead(0, key), window);
    var reading := AfterStartRead(bumped, 0, key);
    BumpedLedgerEpoch(key);
    s := FindInLast(start, reading, 2, key, 1, 1, window);
  }

  lemma BumpedLedgerEpoch(key: Key)
    ensures LogOf(BumpedLedger(key), 0) == [key] && EpochAt(BumpedLedger(key), 0, key) == 1
  {
    assert [] + [key] == [key];
    EpochAfterBump(key);
  }

  // The invalidation runs to its end, and everyone replays it.
  lemma PassEnds(start: State, s: State, key: Key, window: nat) returns (s': State)
    requires Reaches(start, s, window) && s.instances >= 1 && s.processes.Keys == {1, 2} && s.nextPid == 3
    requires s.processes[1] == Deleter(0, key, 0, NextKeys([], 0, true)) && s.processes[2].Reader?
    requires s.ledger == BumpedLedger(key)
    ensures Reaches(start, s', window) && Settled(s') && s'.layers == s.layers && s'.instances == s.instances
    ensures s'.processes == map[2 := s.processes[2]]
    ensures LogOf(s'.ledger, 0) == [key] && Emptied(s', 0, 0, key)
  {
    var deleted := DeleteAll(start, s, 1, window);
    var ended := PassRuns(start, deleted, 1, window);
    assert ended.ledger == TagLedger(0, [key]);
    TagLedgerAnnounced(0, [key]);
    StillEmptied(deleted, ended, 0, [], 0, 0, key);
    s' := DeliverToAllBut(start, ended, 0, 0, s.instances, window);
    assert s'.processes == map[2 := s.processes[2]];
    StillEmptied(ended, s', 0, [], 0, 0, key);
    AllHaveIt(s', 0);
  }

  lemma StillSettled(s: State, s': State, reader: Pid)
    requires Settled(s) && OnlyRead(s, s', reader) && IsReader(s', reader)
    ensures Settled(s')
  {
  }

  // Nor does it take a bump after the read began: a read that begins between a bump and the delete from
  // the last layer captures the bumped epoch, and finds the value that is about to go.  Comparing before
  // every layer would not help.
  lemma BackfillBehindBumpCanLeaveStale(layers: nat, instances: nat, layer: nat, window: nat)
    returns (before: State, reader: Pid, key: Key)
    requires instances >= 1 && layer + 1 < layers
    ensures before.layers == layers
    ensures AboutToResurrect(Initial(layers, instances), before, reader, key, layer, window)
    ensures before.processes[reader].instance == 0
    ensures before.processes[reader].captured == |LogOf(before.ledger, 0)|
  {
    key, reader := "user:1", 2;
    var start := Initial(layers, instances);
    var found := ReadBehindBump(layers, instances, key, window);
    var ended := PassEnds(start, found, key, window);
    EpochAfterBump(key);
    before := FillFound(start, ended, reader, key, 1, 1, FirstValue(0), layer, window);
    StillSettled(ended, before, reader);
    assert !Holds(ended, 0, layer, key);
    assert Since([key], 0)[0] == key;
    ResurrectsNext(start, before, reader, key, 1, 1, FirstValue(0), 1, layer, window);
  }
}
