/**
 Runs of the fence protocol, put together from pieces: a write, a pass over the snapshot of a tag,
 the delivery of the tag's event to every other instance.
 */
module FenceTraces {
  import opened EpochTable
  import opened FenceProtocol
  import opened FenceSafety

  lemma ReachesStep(s: State, mid: State, step: Step, window: nat)
    requires Reaches(s, mid, window) && Enabled(mid, step) && InWindow(mid, step, window)
    ensures Reaches(s, Apply(mid, step), window)
  {
    var steps :| Runs(s, steps, mid, window);
    var after := Apply(mid, step);
    assert [step][1..] == [];
    assert Runs(after, [step][1..], after, window);
    assert Runs(mid, [step], after, window);
    RunThen(s, steps, mid, [step], after, window);
  }

  // ---- Deleting ----

  // Nothing changes in the layers but that the instance may lose some of these keys.
  ghost predicate OnlyDropped(s: State, s': State, instance: Instance, keys: seq<Key>) {
    && s'.layers == s.layers && s'.instances == s.instances
    && s'.shared.Keys <= s.shared.Keys && s'.upper.Keys <= s.upper.Keys
    && (forall k :: k in s.shared && k !in keys ==> k in s'.shared && s'.shared[k] == s.shared[k])
    && (forall p :: p in s.upper && (p.0 != instance || p.2 !in keys) ==> p in s'.upper && s'.upper[p] == s.upper[p])
  }

  ghost predicate Emptied(s: State, instance: Instance, from: nat, key: Key) {
    forall l :: from <= l < s.layers ==> !Holds(s, instance, l, key)
  }

  lemma StillEmptied(s: State, s': State, instance: Instance, keys: seq<Key>, at: Instance, from: nat, key: Key)
    requires OnlyDropped(s, s', instance, keys) && Emptied(s, at, from, key)
    ensures Emptied(s', at, from, key)
  {
    forall l | from <= l < s'.layers ensures !Holds(s', at, l, key) {
      assert !Holds(s, at, l, key);
    }
  }

  // The deleter goes through the layers that remain, and leaves nothing there.
  lemma {:induction false} DeleteAll(start: State, s: State, pid: Pid, window: nat) returns (s': State)
    requires Reaches(start, s, window) && IsDeleter(s, pid) && s.processes[pid].layer <= s.layers
    ensures Reaches(start, s', window) && s' == s.(processes := s'.processes, upper := s'.upper, shared := s'.shared)
    ensures s'.processes == s.processes[pid := s.processes[pid].(layer := s.layers)]
    ensures var d := s.processes[pid];
            OnlyDropped(s, s', d.instance, [d.key]) && Emptied(s', d.instance, d.layer, d.key)
    decreases s.layers - s.processes[pid].layer
  {
    var d := s.processes[pid];
    if d.layer == s.layers {
      s' := s;
    } else {
      ReachesStep(start, s, DeleteEffect(pid), window);
      var next := AfterDeleteEffect(s, pid);
      s' := DeleteAll(start, next, pid, window);
      DroppedTwice(s, next, s', d);
    }
  }

  lemma DroppedTwice(s: State, next: State, s': State, d: Process)
    requires d.Deleter? && d.layer < s.layers && next.layers == s.layers && next.instances == s.instances
    requires next.shared == Drop(s, d.instance, d.layer, d.key).shared
    requires next.upper == Drop(s, d.instance, d.layer, d.key).upper
    requires OnlyDropped(next, s', d.instance, [d.key]) && Emptied(s', d.instance, d.layer + 1, d.key)
    ensures OnlyDropped(s, s', d.instance, [d.key]) && Emptied(s', d.instance, d.layer, d.key)
  {
    assert !Holds(next, d.instance, d.layer, d.key);
  }

  // ---- Passes ----

  function AllBumped(l: Ledger, instance: Instance, keys: seq<Key>): Ledger {
    if keys == [] then l else l.(bumps := l.bumps[instance := LogOf(l, instance) + keys])
  }

  lemma BumpedOneByOne(l: Ledger, instance: Instance, keys: seq<Key>)
    requires keys != []
    ensures AllBumped(BumpAt(l, instance, keys[0]), instance, keys[1..]) == AllBumped(l, instance, keys)
  {
    var log := LogOf(l, instance);
    assert log + [keys[0]] + keys[1..] == log + keys;
    assert keys[1..] == [] ==> log + [keys[0]] == log + keys;
    assert l.bumps[instance := log + [keys[0]]][instance := log + keys] == l.bumps[instance := log + keys];
  }

  lemma DroppedOneByOne(s: State, mid: State, s': State, instance: Instance, keys: seq<Key>)
    requires keys != [] && OnlyDropped(s, mid, instance, [keys[0]]) && OnlyDropped(mid, s', instance, keys[1..])
    ensures OnlyDropped(s, s', instance, keys)
  {
    assert forall k :: k in keys <==> k == keys[0] || k in keys[1..];
  }

  predicate AtKeys(s: State, pid: Pid) {
    IsDeleter(s, pid) && s.processes[pid].layer == s.layers && s.processes[pid].andThen.NextKeys?
  }

  // The next key: bump, then delete from every layer.
  lemma NextKey(start: State, s: State, pid: Pid, window: nat) returns (s': State)
    requires Reaches(start, s, window) && AtKeys(s, pid) && s.processes[pid].andThen.keys != []
    ensures var d := s.processes[pid]; var Deleter(i, _, _, NextKeys(keys, issue, publishes)) := d;
            && Reaches(start, s', window) && s'.nextPid == s.nextPid
            && s'.processes == s.processes[pid := Deleter(i, keys[0], s.layers, NextKeys(keys[1..], issue, publishes))]
            && s'.ledger == BumpAt(s.ledger, i, keys[0])
            && OnlyDropped(s, s', i, [keys[0]]) && Emptied(s', i, 0, keys[0])
  {
    ReachesStep(start, s, DeleterDone(pid), window);
    s' := DeleteAll(start, AfterDeleterDone(s, pid), pid, window);
  }

  function LedgerAfterPass(l: Ledger, instance: Instance, andThen: Then): Ledger
    requires andThen.NextKeys?
  {
    var bumped := AllBumped(l, instance, andThen.keys);
    if andThen.publishes then Announce(bumped, instance, TagEvent(andThen.issue)) else bumped
  }

  // The pass goes through its whole snapshot and ends.
  lemma {:induction false} PassRuns(start: State, s: State, pid: Pid, window: nat) returns (s': State)
    requires Reaches(start, s, window) && AtKeys(s, pid)
    ensures var d := s.processes[pid];
            && Reaches(start, s', window) && s'.nextPid == s.nextPid && s'.processes == s.processes - {pid}
            && s'.ledger == LedgerAfterPass(s.ledger, d.instance, d.andThen)
            && OnlyDropped(s, s', d.instance, d.andThen.keys)
            && forall k :: k in d.andThen.keys ==> Emptied(s', d.instance, 0, k)
    decreases |s.processes[pid].andThen.keys|
  {
    var d := s.processes[pid];
    var keys := d.andThen.keys;
    if keys == [] {
      ReachesStep(start, s, DeleterDone(pid), window);
      s' := AfterDeleterDone(s, pid);
    } else {
      var next := NextKey(start, s, pid, window);
      s' := PassRuns(start, next, pid, window);
      BumpedOneByOne(s.ledger, d.instance, keys);
      DroppedOneByOne(s, next, s', d.instance, keys);
      StillEmptied(next, s', d.instance, keys[1..], d.instance, 0, keys[0]);
      assert next.processes - {pid} == s.processes - {pid};
      assert forall k :: k in keys <==> k == keys[0] || k in keys[1..];
    }
  }

  // ---- The invalidation of a tag, from start to end ----

  const EMPTY_LEDGER := Initial(0, 0).ledger

  // What the first invalidation of a tag leaves in an empty ledger.
  function TagLedger(issuer: Instance, snapshot: seq<Key>): Ledger {
    var issued := EMPTY_LEDGER.(invalidations := [OfTag(issuer)], rounds := [Round(issuer, 0, snapshot, 0)]);
    LedgerAfterPass(issued, issuer, NextKeys(snapshot, 0, true))
  }

  lemma TagPass(start: State, s: State, issuer: Instance, snapshot: seq<Key>, window: nat) returns (s': State)
    requires Reaches(start, s, window) && issuer < s.instances && s.ledger == EMPTY_LEDGER && s.nextPid !in s.processes
    ensures Reaches(start, s', window) && s'.processes == s.processes && s'.nextPid == s.nextPid + 1
    ensures s'.ledger == TagLedger(issuer, snapshot)
    ensures OnlyDropped(s, s', issuer, snapshot) && forall k :: k in snapshot ==> Emptied(s', issuer, 0, k)
  {
    ReachesStep(start, s, InvalidateTag(issuer, snapshot), window);
    var tagging := AfterInvalidateTag(s, issuer, snapshot);
    s' := PassRuns(start, tagging, s.nextPid, window);
    assert tagging.processes - {s.nextPid} == s.processes;
  }

  function TagEventOf(issuer: Instance): EventId {
    EventId(issuer, 0)
  }

  // The issuer's event is all that was published.
  predicate Announced(l: Ledger, issuer: Instance) {
    l.published == map[TagEventOf(issuer) := TagEvent(0)] && l.invalidations == [OfTag(issuer)]
  }

  lemma TagLedgerAnnounced(issuer: Instance, snapshot: seq<Key>)
    ensures var l := TagLedger(issuer, snapshot);
            && Announced(l, issuer) && LogOf(l, issuer) == snapshot && Round(issuer, 0, snapshot, 0) in l.rounds
            && forall i: Instance :: SeenBy(l, i) == [] && (i != issuer ==> LogOf(l, i) == [])
  {
    assert [] + snapshot == snapshot;
  }

  // One instance, to which the tag means nothing, replays it.
  lemma EmptyReplay(start: State, s: State, issuer: Instance, i: Instance, window: nat) returns (s': State)
    requires Reaches(start, s, window) && Announced(s.ledger, issuer) && SeenBy(s.ledger, i) == []
    requires i != issuer && i < s.instances && s.nextPid !in s.processes
    ensures Reaches(start, s', window) && s'.nextPid == s.nextPid + 1
    ensures s' == s.(nextPid := s.nextPid + 1, ledger := s'.ledger)
    ensures var noted := Note(s.ledger, i, TagEventOf(issuer));
            s'.ledger == noted.(rounds := s.ledger.rounds + [Round(i, 0, [], |LogOf(s.ledger, i)|)])
  {
    ReachesStep(start, s, Deliver(i, TagEventOf(issuer), []), window);
    var passing := AfterDeliver(s, i, TagEventOf(issuer), []);
    ReachesStep(start, passing, DeleterDone(s.nextPid), window);
    s' := AfterDeleterDone(passing, s.nextPid);
    assert passing.processes - {s.nextPid} == s.processes;
  }

  // Every instance below `upTo` but one replays it so.
  lemma {:induction false} DeliverToAllBut(start: State, s: State, issuer: Instance, skipped: Instance, upTo: Instance,
                                           window: nat) returns (s': State)
    requires Reaches(start, s, window) && Announced(s.ledger, issuer) && upTo <= s.instances
    requires forall i: Instance :: i != issuer && i != skipped ==> SeenBy(s.ledger, i) == []
    requires forall pid :: pid in s.processes ==> pid < s.nextPid
    ensures Reaches(start, s', window) && s'.nextPid >= s.nextPid
    ensures s' == s.(nextPid := s'.nextPid, ledger := s'.ledger) && Announced(s'.ledger, issuer)
    ensures forall i: Instance :: i < upTo && i != issuer && i != skipped ==>
              (i, TagEventOf(issuer)) in s'.ledger.delivered
    ensures s.ledger.delivered <= s'.ledger.delivered && forall r :: r in s.ledger.rounds ==> r in s'.ledger.rounds
    ensures s'.ledger.bumps == s.ledger.bumps
    ensures forall i: Instance :: upTo <= i || i == skipped ==> SeenBy(s'.ledger, i) == SeenBy(s.ledger, i)
    decreases upTo
  {
    if upTo == 0 {
      s' := s;
    } else {
      s' := DeliverToAllBut(start, s, issuer, skipped, upTo - 1, window);
      if upTo - 1 != issuer && upTo - 1 != skipped {
        s' := EmptyReplay(start, s', issuer, upTo - 1, window);
      }
    }
  }

  // Nothing but the event was published, and everyone has it.
  lemma AllHaveIt(s: State, issuer: Instance)
    requires Announced(s.ledger, issuer)
    requires forall i: Instance :: i < s.instances && i != issuer ==> (i, TagEventOf(issuer)) in s.ledger.delivered
    requires forall pid :: pid in s.processes ==> s.processes[pid].Reader?
    ensures Settled(s)
  {
  }

  // ---- Putting runs together ----

  lemma ReachesItself(s: State, window: nat)
    ensures Reaches(s, s, window)
  {
    assert Runs(s, [], s, window);
  }

  lemma ReachesThrough(s: State, mid: State, s': State, window: nat)
    requires Reaches(s, mid, window) && Reaches(mid, s', window)
    ensures Reaches(s, s', window)
  {
    var steps :| Runs(s, steps, mid, window);
    var more :| Runs(mid, more, s', window);
    RunThen(s, steps, mid, more, s', window);
  }

  // ---- A write ----

  // The value that the first process fetches on `home`, before anything else happened.
  function FirstValue(home: Instance): Value {
    Value(0, home, 0, 0)
  }

  ghost predicate Scene(s: State, layers: nat, instances: nat, home: Instance, key: Key, stage: WriteStage) {
    && s.layers == layers && s.instances == instances && s.nextPid >= 1
    && s.processes == map[0 := Writer(home, key, 0, FirstValue(home), stage)]
  }

  // The writer stores the layers before `layer` while nobody interferes.
  lemma {:induction false} WriteUpTo(layers: nat, instances: nat, home: Instance, key: Key, layer: nat, window: nat)
    returns (s: State)
    requires home < instances && layer <= layers
    ensures Reaches(Initial(layers, instances), s, window)
    ensures Scene(s, layers, instances, home, key, Ready(layer)) && s.nextPid == 1 && s.ledger == EMPTY_LEDGER
    ensures layers > 0 && layer == layers ==> key in s.shared && s.shared[key] == FirstValue(home)
    decreases layer, 0
  {
    var start := Initial(layers, instances);
    if layer == 0 {
      assert Runs(start, [], start, window);
      ReachesStep(start, start, StartWrite(home, key), window);
      var fetching := AfterStartWrite(start, home, key);
      ReachesStep(start, fetching, FetchDone(0), window);
      s := Apply(fetching, FetchDone(0));
    } else {
      var setting := CallSet(layers, instances, home, key, layer - 1, window);
      ReachesStep(start, setting, SetEffect(0), window);
      s := AfterSetEffect(setting, 0);
    }
  }

  // Then it calls `set` on `layer`.
  lemma {:induction false} CallSet(layers: nat, instances: nat, home: Instance, key: Key, layer: nat, window: nat)
    returns (s: State)
    requires home < instances && layer < layers
    ensures Reaches(Initial(layers, instances), s, window)
    ensures Scene(s, layers, instances, home, key, Setting(layer)) && s.nextPid == 1 && s.ledger == EMPTY_LEDGER
    decreases layer, 1
  {
    var ready := WriteUpTo(layers, instances, home, key, layer, window);
    ReachesStep(Initial(layers, instances), ready, CompareEpoch(0), window);
    s := AfterCompareEpoch(ready, 0);
  }

  // Or it has stored every layer, and ends.
  lemma WriteAll(layers: nat, instances: nat, home: Instance, key: Key, window: nat) returns (s: State)
    requires home < instances && layers > 0
    ensures Reaches(Initial(layers, instances), s, window)
    ensures s.layers == layers && s.instances == instances && s.processes == map[] && s.nextPid == 1
    ensures s.ledger == EMPTY_LEDGER && key in s.shared && s.shared[key] == FirstValue(home)
  {
    var written := WriteUpTo(layers, instances, home, key, layers, window);
    ReachesStep(Initial(layers, instances), written, CompareEpoch(0), window);
    s := AfterCompareEpoch(written, 0);
  }

  // The epoch that the first bump of a key leaves.
  lemma EpochAfterBump(key: Key)
    ensures EpochOf([key], key) == 1
  {
    assert [key][..0] == [];
    assert Replay([key]) == Bump(EMPTY, key);
  }
}
