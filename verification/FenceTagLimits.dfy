/**
 Which keys of a tag are fenced: an invalidation of a tag fences, on every instance, exactly the keys
 that the tag resolves to there.
 */
module FenceTagLimits {
  import opened EpochTable
  import opened FenceProtocol
  import opened FenceTags
  import opened FenceTraces

  // While the write of `key` calls `set` on the last layer, its instance passes over a snapshot.
  ghost predicate PassBesideWrite(s: State, home: Instance, key: Key, pass: Pid) {
    && s.layers >= 1 && pass != 0 && pass < s.nextPid && AtKeys(s, pass) && s.processes[pass].instance == home
    && s.processes == map[0 := Writer(home, key, 0, FirstValue(home), Setting(s.layers - 1)), pass := s.processes[pass]]
    && LogOf(s.ledger, home) == []
  }

  // The write ends before the first bump, and the snapshot lacks the key: the value stays.
  lemma WriteSlipsPastPass(s: State, home: Instance, key: Key, pass: Pid, window: nat) returns (s': State)
    requires PassBesideWrite(s, home, key, pass) && key !in s.processes[pass].andThen.keys
    ensures Reaches(s, s', window) && s'.processes == map[] && s'.nextPid == s.nextPid
    ensures s'.layers == s.layers && s'.instances == s.instances
    ensures s'.ledger == LedgerAfterPass(s.ledger, home, s.processes[pass].andThen)
    ensures key in s'.shared && s'.shared[key] == FirstValue(home)
  {
    ReachesItself(s, window);
    ReachesStep(s, s, SetEffect(0), window);
    var stored := AfterSetEffect(s, 0);
    ReachesStep(s, stored, CompareEpoch(0), window);
    var ended := AfterCompareEpoch(stored, 0);
    assert ended.processes == map[pass := s.processes[pass]];
    s' := PassRuns(s, ended, pass, window);
    assert s'.processes == map[];
  }

  // `issuer` has invalidated a tag that resolves to `key` there, and every other instance but `home` has
  // replayed it, all while a write of the key on `home` calls `set` on the last layer.
  lemma PeersReplay(layers: nat, instances: nat, home: Instance, issuer: Instance, key: Key, window: nat)
    returns (s: State)
    requires layers >= 1 && home < instances && issuer < instances && home != issuer
    ensures Reaches(Initial(layers, instances), s, window)
    ensures Scene(s, layers, instances, home, key, Setting(layers - 1))
    ensures Announced(s.ledger, issuer) && Round(issuer, 0, [key], 0) in s.ledger.rounds
    ensures SeenBy(s.ledger, home) == [] && LogOf(s.ledger, home) == []
    ensures forall i: Instance :: i < instances && i != issuer && i != home ==>
              (i, TagEventOf(issuer)) in s.ledger.delivered
  {
    var start := Initial(layers, instances);
    var writing := CallSet(layers, instances, home, key, layers - 1, window);
    var tagged := TagPass(start, writing, issuer, [key], window);
    TagLedgerAnnounced(issuer, [key]);
    s := DeliverToAllBut(start, tagged, issuer, home, instances, window);
    assert LogOf(tagged.ledger, home) == [];
  }

  lemma HomeReplays(s: State, home: Instance, issuer: Instance, key: Key, snapshot: seq<Key>)
    requires s.layers >= 1 && Scene(s, s.layers, s.instances, home, key, Setting(s.layers - 1))
    requires Enabled(s, Deliver(home, TagEventOf(issuer), snapshot)) && Announced(s.ledger, issuer)
    requires SeenBy(s.ledger, home) == [] && LogOf(s.ledger, home) == []
    ensures var s' := AfterDeliver(s, home, TagEventOf(issuer), snapshot);
            && PassBesideWrite(s', home, key, s.nextPid) && s'.nextPid == s.nextPid + 1
            && s'.layers == s.layers && s'.instances == s.instances
            && s'.processes[s.nextPid].andThen == NextKeys(snapshot, 0, false)
            && s'.ledger.published == s.ledger.published && s'.ledger.invalidations == s.ledger.invalidations
            && s'.ledger.delivered == s.ledger.delivered + {(home, TagEventOf(issuer))}
            && s'.ledger.rounds == s.ledger.rounds + [Round(home, 0, snapshot, 0)]
  {
  }

  // `issuer` invalidates a tag that resolves to `key` there.  While a write of the key on `home` calls
  // `set` on the last layer, `home` replays the invalidation over a snapshot without the key.  The shared
  // layer keeps the value, whose fetch began before the invalidation.
  lemma PeerTagCanLeaveStale(layers: nat, instances: nat, home: Instance, issuer: Instance, key: Key,
                             snapshot: seq<Key>, window: nat) returns (setting: State, s: State)
    requires layers >= 1 && home < instances && issuer < instances && home != issuer && key !in snapshot
    ensures Reaches(Initial(layers, instances), setting, window)
    ensures Scene(setting, layers, instances, home, key, Setting(layers - 1))
    ensures setting.ledger.invalidations == [OfTag(issuer)] && Round(issuer, 0, [key], 0) in setting.ledger.rounds
    ensures Enabled(setting, Deliver(home, TagEventOf(issuer), snapshot))
    ensures Reaches(Apply(setting, Deliver(home, TagEventOf(issuer), snapshot)), s, window)
    ensures Reaches(Initial(layers, instances), s, window) && Settled(s)
    ensures key in s.shared && s.shared[key] == FirstValue(home) && s.ledger.invalidations == [OfTag(issuer)]
    ensures Round(home, 0, snapshot, 0) in s.ledger.rounds
  {
    var start := Initial(layers, instances);
    setting := PeersReplay(layers, instances, home, issuer, key, window);
    ReachesStep(start, setting, Deliver(home, TagEventOf(issuer), snapshot), window);
    var passing := AfterDeliver(setting, home, TagEventOf(issuer), snapshot);
    HomeReplays(setting, home, issuer, key, snapshot);
    s := WriteSlipsPastPass(passing, home, key, setting.nextPid, window);
    ReachesThrough(start, passing, s, window);
    AllHaveIt(s, issuer);
  }

  lemma HomePasses(s: State, home: Instance, key: Key, snapshot: seq<Key>)
    requires s.layers >= 1 && Scene(s, s.layers, s.instances, home, key, Setting(s.layers - 1))
    requires s.ledger == EMPTY_LEDGER
    ensures var s' := AfterInvalidateTag(s, home, snapshot);
            && PassBesideWrite(s', home, key, s.nextPid) && s'.layers == s.layers && s'.instances == s.instances
            && s'.processes[s.nextPid].andThen == NextKeys(snapshot, 0, true)
            && LedgerAfterPass(s'.ledger, home, NextKeys(snapshot, 0, true)) == TagLedger(home, snapshot)
  {
  }

  lemma EveryoneReplays(start: State, s: State, issuer: Instance, snapshot: seq<Key>, window: nat) returns (s': State)
    requires Reaches(start, s, window) && s.processes == map[] && s.ledger == TagLedger(issuer, snapshot)
    ensures Reaches(start, s', window) && Settled(s') && s'.shared == s.shared
    ensures s'.ledger.invalidations == [OfTag(issuer)] && Round(issuer, 0, snapshot, 0) in s'.ledger.rounds
  {
    TagLedgerAnnounced(issuer, snapshot);
    s' := DeliverToAllBut(start, s, issuer, issuer, s.instances, window);
    AllHaveIt(s', issuer);
  }

  // The same on the issuing instance, for a key outside its own snapshot.
  lemma OwnTagCanLeaveStale(layers: nat, instances: nat, home: Instance, key: Key, snapshot: seq<Key>, window: nat)
    returns (setting: State, s: State)
    requires layers >= 1 && home < instances && key !in snapshot
    ensures Reaches(Initial(layers, instances), setting, window)
    ensures Scene(setting, layers, instances, home, key, Setting(layers - 1)) && setting.ledger == EMPTY_LEDGER
    ensures Reaches(AfterInvalidateTag(setting, home, snapshot), s, window)
    ensures Reaches(Initial(layers, instances), s, window) && Settled(s)
    ensures key in s.shared && s.shared[key] == FirstValue(home) && s.ledger.invalidations == [OfTag(home)]
    ensures Round(home, 0, snapshot, 0) in s.ledger.rounds
  {
    var start := Initial(layers, instances);
    setting := CallSet(layers, instances, home, key, layers - 1, window);
    ReachesStep(start, setting, InvalidateTag(home, snapshot), window);
    var passing := AfterInvalidateTag(setting, home, snapshot);
    HomePasses(setting, home, key, snapshot);
    var passed := WriteSlipsPastPass(passing, home, key, setting.nextPid, window);
    s := EveryoneReplays(passing, passed, home, snapshot, window);
    ReachesThrough(start, passing, s, window);
  }

  // Whenever `issuer` invalidates a tag and `home` passes over `snapshot` for it, no value of `key`
  // fetched on `home` before the invalidation was issued is left in the shared layer.
  ghost predicate TagFences(layers: nat, instances: nat, home: Instance, issuer: Instance, key: Key,
                            snapshot: seq<Key>) {
    forall steps: seq<Step>, s: State, r: Round ::
      Runs(Initial(layers, instances), steps, s, MAX_INVALIDATION_EPOCHS) && Settled(s)
      && r in s.ledger.rounds && r.instance == home && r.snapshot == snapshot
      && r.issue < |s.ledger.invalidations| && s.ledger.invalidations[r.issue] == OfTag(issuer)
      && key in s.shared && s.shared[key].home == home
      ==> s.shared[key].invalidations > r.issue
  }

  // The invalidation of a tag fences, on each instance, exactly the keys of that instance's snapshot.
  lemma TagFencedExactly(layers: nat, instances: nat, home: Instance, issuer: Instance, key: Key, snapshot: seq<Key>)
    requires layers >= 1 && home < instances && issuer < instances
    ensures TagFences(layers, instances, home, issuer, key, snapshot) <==> key in snapshot
  {
    if key in snapshot {
      forall steps: seq<Step>, s: State, r: Round |
        Runs(Initial(layers, instances), steps, s, MAX_INVALIDATION_EPOCHS) && Settled(s)
        && r in s.ledger.rounds && r.instance == home && r.snapshot == snapshot
        && r.issue < |s.ledger.invalidations| && s.ledger.invalidations[r.issue] == OfTag(issuer)
        && key in s.shared && s.shared[key].home == home
        ensures s.shared[key].invalidations > r.issue
      {
        SettledTagsAreFresh(layers, instances, steps, s);
        assert !TaggedStale(s.ledger, key, s.shared[key]);
      }
    } else {
      var s: State;
      if home == issuer {
        var _, stale := OwnTagCanLeaveStale(layers, instances, home, key, snapshot, MAX_INVALIDATION_EPOCHS);
        s := stale;
      } else {
        var _, stale := PeerTagCanLeaveStale(layers, instances, home, issuer, key, snapshot, MAX_INVALIDATION_EPOCHS);
        s := stale;
      }
      var steps :| Runs(Initial(layers, instances), steps, s, MAX_INVALIDATION_EPOCHS);
      assert Round(home, 0, snapshot, 0) in s.ledger.rounds;
    }
  }
}
