/**
 How far the invalidation of a tag reaches.  It is published, and every instance passes over the
 keys that the tag resolves to there: it fences a key on an instance exactly when the key is in the
 snapshot of that instance's own pass.
 */
module FenceTags {
  import opened EpochTable
  import opened FenceProtocol
  import opened FenceSafety

  // ---- The invariant of passes ----

  // A pass for an invalidation that was issued after the fetch began is begun after it, too.
  ghost predicate BeforeRounds(l: Ledger, value: Value) {
    && value.bumps <= |LogOf(l, value.home)| && value.invalidations <= |l.invalidations|
    && forall r :: r in l.rounds && r.instance == value.home && value.invalidations <= r.issue ==>
         value.bumps <= r.bumps
  }

  predicate HasYetToBump(s: State, pid: Pid, instance: Instance, key: Key) {
    && IsDeleter(s, pid) && s.processes[pid].instance == instance
    && s.processes[pid].andThen.NextKeys? && key in s.processes[pid].andThen.keys
  }

  // The pass has bumped the key, or will.
  ghost predicate Bumps(s: State, r: Round, key: Key) {
    key in Since(LogOf(s.ledger, r.instance), r.bumps) || exists pid :: HasYetToBump(s, pid, r.instance, key)
  }

  ghost predicate RoundInOrder(s: State, r: Round) {
    && r.bumps <= |LogOf(s.ledger, r.instance)|
    && forall key :: key in r.snapshot ==> Bumps(s, r, key)
  }

  ghost predicate IssuesInOrder(s: State) {
    && (forall r :: r in s.ledger.rounds ==> r.issue < |s.ledger.invalidations|)
    && (forall id :: id in s.ledger.published && s.ledger.published[id].TagEvent?
                     ==> s.ledger.published[id].issue < |s.ledger.invalidations|)
    && (forall pid :: IsDeleter(s, pid) && s.processes[pid].andThen.NextKeys?
                      ==> s.processes[pid].andThen.issue < |s.ledger.invalidations|)
  }

  ghost predicate ValuesInOrder(s: State) {
    && (forall key :: key in s.shared ==> BeforeRounds(s.ledger, s.shared[key]))
    && (forall pid :: IsWriter(s, pid) ==> BeforeRounds(s.ledger, s.processes[pid].value))
  }

  ghost predicate TagInvariant(s: State) {
    IssuesInOrder(s) && ValuesInOrder(s) && forall r :: r in s.ledger.rounds ==> RoundInOrder(s, r)
  }

  // ---- Logs only grow ----

  ghost predicate Grows(l: Ledger, l': Ledger) {
    && (forall i: Instance :: LogOf(l, i) <= LogOf(l', i))
    && l.invalidations <= l'.invalidations
    && (l'.rounds == l.rounds
        || (l'.rounds != [] && l'.rounds[..|l'.rounds| - 1] == l.rounds
            && var r := l'.rounds[|l'.rounds| - 1]; r.bumps == |LogOf(l, r.instance)|))
  }

  lemma SincePrefix<T>(log: seq<T>, log': seq<T>, mark: nat, x: T)
    requires log <= log' && x in Since(log, mark)
    ensures x in Since(log', mark)
  {
    var i :| 0 <= i < |log| - mark && log[mark..][i] == x;
    assert log'[mark..][i] == x;
  }

  lemma SinceEarlier<T>(log: seq<T>, mark: nat, earlier: nat, x: T)
    requires earlier <= mark && x in Since(log, mark)
    ensures x in Since(log, earlier)
  {
    var i :| 0 <= i < |log| - mark && log[mark..][i] == x;
    assert log[earlier..][mark - earlier + i] == x;
  }

  lemma BeforeRoundsPersists(l: Ledger, l': Ledger, value: Value)
    requires Grows(l, l') && BeforeRounds(l, value)
    ensures BeforeRounds(l', value)
  {
    assert LogOf(l, value.home) <= LogOf(l', value.home);
    forall r | r in l'.rounds && r.instance == value.home && value.invalidations <= r.issue
      ensures value.bumps <= r.bumps
    {
      assert r in l.rounds || r == l'.rounds[|l'.rounds| - 1];
    }
  }

  // What a pass has yet to bump stays so, or is bumped now.
  ghost predicate PassesGoOn(s: State, s': State) {
    forall pid, instance: Instance, key :: HasYetToBump(s, pid, instance, key) ==>
      || HasYetToBump(s', pid, instance, key)
      || key in Since(LogOf(s'.ledger, instance), |LogOf(s.ledger, instance)|)
  }

  lemma RoundPersists(s: State, s': State, r: Round)
    requires Grows(s.ledger, s'.ledger) && PassesGoOn(s, s') && RoundInOrder(s, r)
    ensures RoundInOrder(s', r)
  {
    var log, log' := LogOf(s.ledger, r.instance), LogOf(s'.ledger, r.instance);
    assert log <= log';
    forall key | key in r.snapshot ensures Bumps(s', r, key) {
      if key in Since(log, r.bumps) {
        SincePrefix(log, log', r.bumps, key);
      } else {
        var pid :| HasYetToBump(s, pid, r.instance, key);
        if !HasYetToBump(s', pid, r.instance, key) {
          SinceEarlier(log', |log|, r.bumps, key);
        }
      }
    }
  }

  lemma RoundsPersist(s: State, s': State)
    requires TagInvariant(s) && Grows(s.ledger, s'.ledger) && PassesGoOn(s, s')
    requires s'.ledger.rounds != s.ledger.rounds ==> RoundInOrder(s', s'.ledger.rounds[|s'.ledger.rounds| - 1])
    ensures forall r :: r in s'.ledger.rounds ==> RoundInOrder(s', r)
  {
    forall r | r in s'.ledger.rounds ensures RoundInOrder(s', r) {
      if r in s.ledger.rounds {
        RoundPersists(s, s', r);
      } else {
        assert r == s'.ledger.rounds[|s'.ledger.rounds| - 1];
      }
    }
  }

  // Every value was there before, or is a writer's, or was fetched just now.
  ghost predicate ValuesKnown(s: State, s': State) {
    && (forall key :: key in s'.shared ==> BeforeRounds(s.ledger, s'.shared[key]))
    && (forall pid :: IsWriter(s', pid) ==> BeforeRounds(s.ledger, s'.processes[pid].value))
  }

  lemma StepInOrder(s: State, s': State)
    requires TagInvariant(s) && Grows(s.ledger, s'.ledger) && PassesGoOn(s, s') && ValuesKnown(s, s')
             && IssuesInOrder(s')
    requires s'.ledger.rounds != s.ledger.rounds ==> RoundInOrder(s', s'.ledger.rounds[|s'.ledger.rounds| - 1])
    ensures TagInvariant(s')
  {
    RoundsPersist(s, s');
    forall key | key in s'.shared ensures BeforeRounds(s'.ledger, s'.shared[key]) {
      BeforeRoundsPersists(s.ledger, s'.ledger, s'.shared[key]);
    }
    forall pid | IsWriter(s', pid) ensures BeforeRounds(s'.ledger, s'.processes[pid].value) {
      BeforeRoundsPersists(s.ledger, s'.ledger, s'.processes[pid].value);
    }
  }

  // ---- Steps that touch no log ----

  lemma QuietStepInOrder(s: State, s': State, touched: Pid)
    requires TagInvariant(s) && s'.ledger == s.ledger && OthersUnchanged(s, s', touched) && ValuesKnown(s, s')
    requires IsDeleter(s', touched) ==> IsDeleter(s, touched)
    requires IsDeleter(s, touched) ==>
               && IsDeleter(s', touched) && s'.processes[touched].instance == s.processes[touched].instance
               && s'.processes[touched].andThen == s.processes[touched].andThen
    ensures TagInvariant(s')
  {
    forall pid, instance: Instance, key | HasYetToBump(s, pid, instance, key)
      ensures HasYetToBump(s', pid, instance, key)
    {
    }
    forall pid | IsDeleter(s', pid) && s'.processes[pid].andThen.NextKeys?
      ensures s'.processes[pid].andThen.issue < |s'.ledger.invalidations|
    {
      assert IsDeleter(s, pid);
    }
    StepInOrder(s, s');
  }

  lemma StartWriteInOrder(s: State, instance: Instance, key: Key)
    requires Bookkeeping(s) && TagInvariant(s)
    ensures TagInvariant(AfterStartWrite(s, instance, key))
  {
    QuietStepInOrder(s, AfterStartWrite(s, instance, key), s.nextPid);
  }

  lemma WriterMovesInOrder(s: State, step: Step)
    requires TagInvariant(s) && Enabled(s, step) && (step.FetchDone? || step.GiveUp? || step.SetSkipped?)
    ensures TagInvariant(Apply(s, step))
  {
    QuietStepInOrder(s, Apply(s, step), step.pid);
  }

  lemma WriterGoesOnInOrder(s: State, pid: Pid, stage: WriteStage)
    requires TagInvariant(s) && IsWriter(s, pid)
    ensures TagInvariant(Become(s, pid, s.processes[pid].(stage := stage))) && TagInvariant(End(s, pid))
  {
    QuietStepInOrder(s, Become(s, pid, s.processes[pid].(stage := stage)), pid);
    QuietStepInOrder(s, End(s, pid), pid);
  }

  lemma CompareEpochInOrder(s: State, pid: Pid)
    requires TagInvariant(s) && Enabled(s, CompareEpoch(pid))
    ensures TagInvariant(AfterCompareEpoch(s, pid))
  {
    WriterGoesOnInOrder(s, pid, Setting(s.processes[pid].stage.layer));
    WriterGoesOnInOrder(s, pid, Compensating(0));
  }

  lemma CompensatingDeleteInOrder(s: State, pid: Pid)
    requires TagInvariant(s) && Enabled(s, CompensatingDelete(pid))
    ensures TagInvariant(AfterCompensatingDelete(s, pid))
  {
    QuietStepInOrder(s, AfterCompensatingDelete(s, pid), pid);
  }

  lemma SetEffectInOrder(s: State, pid: Pid)
    requires TagInvariant(s) && Enabled(s, SetEffect(pid))
    ensures TagInvariant(AfterSetEffect(s, pid))
  {
    assert IsWriter(s, pid);
    QuietStepInOrder(s, AfterSetEffect(s, pid), pid);
  }

  lemma ReaderGoesOnInOrder(s: State, pid: Pid, reading: ReadStage)
    requires TagInvariant(s) && IsReader(s, pid)
    ensures TagInvariant(Become(s, pid, s.processes[pid].(reading := reading))) && TagInvariant(End(s, pid))
  {
    QuietStepInOrder(s, Become(s, pid, s.processes[pid].(reading := reading)), pid);
    QuietStepInOrder(s, End(s, pid), pid);
  }

  lemma ReaderMovesInOrder(s: State, step: Step)
    requires TagInvariant(s) && Enabled(s, step) && (step.LayerMiss? || step.LayerHit? || step.StartBackfill?)
    ensures TagInvariant(Apply(s, step))
  {
    var s' := Apply(s, step);
    var reading := if IsReader(s', step.pid) then s'.processes[step.pid].reading else Reading(0);
    ReaderGoesOnInOrder(s, step.pid, reading);
  }

  lemma BackfillSetInOrder(s: State, pid: Pid, skipped: bool)
    requires ReadersOk(s) && TagInvariant(s) && Enabled(s, BackfillSet(pid, skipped))
    ensures TagInvariant(AfterBackfillSet(s, pid, skipped))
  {
    assert IsReader(s, pid) && ReaderInvariant(s, s.processes[pid]);
    QuietStepInOrder(s, AfterBackfillSet(s, pid, skipped), pid);
  }

  lemma StartReadInOrder(s: State, instance: Instance, key: Key)
    requires Bookkeeping(s) && TagInvariant(s) && Enabled(s, StartRead(instance, key))
    ensures TagInvariant(Apply(s, StartRead(instance, key)))
  {
    QuietStepInOrder(s, Apply(s, StartRead(instance, key)), s.nextPid);
  }

  lemma VanishInOrder(s: State, instance: Instance, layer: nat, key: Key)
    requires Bookkeeping(s) && TagInvariant(s)
    ensures TagInvariant(Drop(s, instance, layer, key))
  {
    QuietStepInOrder(s, Drop(s, instance, layer, key), s.nextPid);
  }

  lemma DeleteEffectInOrder(s: State, pid: Pid)
    requires TagInvariant(s) && Enabled(s, DeleteEffect(pid))
    ensures TagInvariant(AfterDeleteEffect(s, pid))
  {
    QuietStepInOrder(s, AfterDeleteEffect(s, pid), pid);
  }

  // ---- Bumps, starts and ends ----

  lemma BumpGrows(l: Ledger, l': Ledger, instance: Instance, key: Key)
    requires l'.bumps == BumpAt(l, instance, key).bumps && l'.rounds == l.rounds && l.invalidations <= l'.invalidations
    ensures Grows(l, l')
    ensures key in Since(LogOf(l', instance), |LogOf(l, instance)|)
  {
    assert LogOf(l', instance)[|LogOf(l, instance)|..] == [key];
  }

  // A bump by a process that is new, or that does not have to bump anything else any more.
  lemma BumpInOrder(s: State, s': State, instance: Instance, key: Key, pid: Pid)
    requires TagInvariant(s) && OthersUnchanged(s, s', pid) && !IsWriter(s', pid) && s'.shared == s.shared
    requires s'.ledger.bumps == BumpAt(s.ledger, instance, key).bumps && s'.ledger.rounds == s.ledger.rounds
    requires s.ledger.invalidations <= s'.ledger.invalidations && s'.ledger.published == s.ledger.published
    requires forall i: Instance, k :: HasYetToBump(s, pid, i, k) ==>
               HasYetToBump(s', pid, i, k) || (i == instance && k == key)
    requires IsDeleter(s', pid) && s'.processes[pid].andThen.NextKeys? ==>
               s'.processes[pid].andThen.issue < |s.ledger.invalidations|
    ensures TagInvariant(s')
  {
    BumpGrows(s.ledger, s'.ledger, instance, key);
    forall p, i: Instance, k | HasYetToBump(s, p, i, k)
      ensures HasYetToBump(s', p, i, k) || k in Since(LogOf(s'.ledger, i), |LogOf(s.ledger, i)|)
    {
    }
    forall p | IsWriter(s', p) ensures BeforeRounds(s.ledger, s'.processes[p].value) {
      assert IsWriter(s, p);
    }
    forall p | IsDeleter(s', p) && s'.processes[p].andThen.NextKeys?
      ensures s'.processes[p].andThen.issue < |s'.ledger.invalidations|
    {
      assert p != pid ==> IsDeleter(s, p);
    }
    StepInOrder(s, s');
  }

  lemma InvalidateKeyInOrder(s: State, instance: Instance, key: Key)
    requires Invariant(s) && TagInvariant(s)
    ensures TagInvariant(AfterInvalidateKey(s, instance, key))
  {
    BumpInOrder(s, AfterInvalidateKey(s, instance, key), instance, key, s.nextPid);
  }

  lemma DeliverKeyInOrder(s: State, instance: Instance, id: EventId, snapshot: seq<Key>)
    requires Invariant(s) && TagInvariant(s) && Enabled(s, Deliver(instance, id, snapshot))
    requires id !in SeenBy(s.ledger, instance) && s.ledger.published[id].KeyEvent?
    ensures TagInvariant(AfterDeliver(s, instance, id, snapshot))
  {
    BumpInOrder(s, AfterDeliver(s, instance, id, snapshot), instance, s.ledger.published[id].key, s.nextPid);
  }

  lemma NextKeyInOrder(s: State, pid: Pid)
    requires TagInvariant(s) && Enabled(s, DeleterDone(pid))
    requires s.processes[pid].andThen.NextKeys? && s.processes[pid].andThen.keys != []
    ensures TagInvariant(AfterDeleterDone(s, pid))
  {
    var s', d := AfterDeleterDone(s, pid), s.processes[pid];
    forall i: Instance, k | HasYetToBump(s, pid, i, k)
      ensures HasYetToBump(s', pid, i, k) || (i == d.instance && k == d.andThen.keys[0])
    {
      assert d.andThen.keys == [d.andThen.keys[0]] + d.andThen.keys[1..];
    }
    BumpInOrder(s, s', d.instance, d.andThen.keys[0], pid);
  }

  // A pass starts with every key of its snapshot yet to be bumped.
  lemma StartRoundInOrder(s: State, instance: Instance, issue: nat, snapshot: seq<Key>, publishes: bool)
    requires Bookkeeping(s) && TagInvariant(s) && issue < |s.ledger.invalidations|
    ensures TagInvariant(StartRound(s, instance, issue, snapshot, publishes))
  {
    var s' := StartRound(s, instance, issue, snapshot, publishes);
    var round := Round(instance, issue, snapshot, |LogOf(s.ledger, instance)|);
    assert s'.ledger.rounds[..|s'.ledger.rounds| - 1] == s.ledger.rounds;
    forall p, i: Instance, k | HasYetToBump(s, p, i, k) ensures HasYetToBump(s', p, i, k) {
    }
    forall key | key in snapshot ensures Bumps(s', round, key) {
      assert HasYetToBump(s', s.nextPid, instance, key);
    }
    forall p | IsWriter(s', p) ensures BeforeRounds(s.ledger, s'.processes[p].value) {
      assert IsWriter(s, p);
    }
    forall p | IsDeleter(s', p) && s'.processes[p].andThen.NextKeys?
      ensures s'.processes[p].andThen.issue < |s'.ledger.invalidations|
    {
      assert p != s.nextPid ==> IsDeleter(s, p);
    }
    StepInOrder(s, s');
  }

  // What an instance has seen, and what has been delivered or issued, matters to no pass so far.
  lemma LedgerNoteInOrder(s: State, l: Ledger)
    requires TagInvariant(s) && l.bumps == s.ledger.bumps && l.rounds == s.ledger.rounds
             && l.published == s.ledger.published
    requires s.ledger.invalidations <= l.invalidations
    ensures TagInvariant(s.(ledger := l))
  {
    var s' := s.(ledger := l);
    forall p, i: Instance, k | HasYetToBump(s, p, i, k) ensures HasYetToBump(s', p, i, k) {
    }
    StepInOrder(s, s');
  }

  lemma InvalidateTagInOrder(s: State, instance: Instance, snapshot: seq<Key>)
    requires Invariant(s) && TagInvariant(s)
    ensures TagInvariant(AfterInvalidateTag(s, instance, snapshot))
  {
    var issued := s.ledger.(invalidations := s.ledger.invalidations + [OfTag(instance)]);
    LedgerNoteInOrder(s, issued);
    StartRoundInOrder(s.(ledger := issued), instance, |s.ledger.invalidations|, snapshot, true);
  }

  lemma DeliverTagInOrder(s: State, instance: Instance, id: EventId, snapshot: seq<Key>)
    requires Invariant(s) && TagInvariant(s) && Enabled(s, Deliver(instance, id, snapshot))
    requires id !in SeenBy(s.ledger, instance) && s.ledger.published[id].TagEvent?
    ensures TagInvariant(AfterDeliver(s, instance, id, snapshot))
  {
    var noted := s.(ledger := Note(s.ledger, instance, id));
    LedgerNoteInOrder(s, noted.ledger);
    NoteBookkeeping(s, instance, id);
    StartRoundInOrder(noted, instance, s.ledger.published[id].issue, snapshot, false);
  }

  lemma NoteBookkeeping(s: State, instance: Instance, id: EventId)
    requires Bookkeeping(s) && id in s.ledger.published
    ensures Bookkeeping(s.(ledger := Note(s.ledger, instance, id)))
  {
    var l := Note(s.ledger, instance, id);
    forall other: Instance, i | i in SeenBy(l, other) ensures (other, i) in l.delivered {
      assert i in SeenBy(s.ledger, other) || (other, i) == (instance, id);
    }
  }

  lemma DeliverInOrder(s: State, instance: Instance, id: EventId, snapshot: seq<Key>)
    requires Invariant(s) && TagInvariant(s) && Enabled(s, Deliver(instance, id, snapshot))
    ensures TagInvariant(AfterDeliver(s, instance, id, snapshot))
  {
    if id in SeenBy(s.ledger, instance) {
      LedgerNoteInOrder(s, s.ledger.(delivered := s.ledger.delivered + {(instance, id)}));
    } else if s.ledger.published[id].KeyEvent? {
      DeliverKeyInOrder(s, instance, id, snapshot);
    } else {
      DeliverTagInOrder(s, instance, id, snapshot);
    }
  }

  // A deleter with no key left ends, and may publish.
  lemma EndedInOrder(s: State, s': State, pid: Pid)
    requires TagInvariant(s) && OthersUnchanged(s, s', pid) && pid !in s'.processes && s'.shared == s.shared
    requires s'.ledger.bumps == s.ledger.bumps && s'.ledger.rounds == s.ledger.rounds
    requires s'.ledger.invalidations == s.ledger.invalidations && IssuesInOrder(s')
    requires forall i: Instance, k :: !HasYetToBump(s, pid, i, k)
    ensures TagInvariant(s')
  {
    forall p, i: Instance, k | HasYetToBump(s, p, i, k) ensures HasYetToBump(s', p, i, k) {
      assert p != pid;
    }
    forall p | IsWriter(s', p) ensures BeforeRounds(s.ledger, s'.processes[p].value) {
      assert IsWriter(s, p);
    }
    StepInOrder(s, s');
  }

  lemma EndInOrder(s: State, pid: Pid)
    requires TagInvariant(s) && Enabled(s, DeleterDone(pid))
    requires s.processes[pid].andThen.NextKeys? ==> s.processes[pid].andThen.keys == []
    ensures TagInvariant(AfterDeleterDone(s, pid))
  {
    var s' := AfterDeleterDone(s, pid);
    forall p | IsDeleter(s', p) && s'.processes[p].andThen.NextKeys?
      ensures s'.processes[p].andThen.issue < |s'.ledger.invalidations|
    {
      assert IsDeleter(s, p);
    }
    EndedInOrder(s, s', pid);
  }

  lemma DeleterDoneInOrder(s: State, pid: Pid)
    requires Invariant(s) && TagInvariant(s) && Enabled(s, DeleterDone(pid))
    ensures TagInvariant(AfterDeleterDone(s, pid))
  {
    if s.processes[pid].andThen.NextKeys? && s.processes[pid].andThen.keys != [] {
      NextKeyInOrder(s, pid);
    } else {
      EndInOrder(s, pid);
    }
  }

  // ---- Every step, every run ----

  lemma StepInvariant(s: State, step: Step)
    requires Invariant(s) && TagInvariant(s) && Enabled(s, step)
    ensures TagInvariant(Apply(s, step))
  {
    match step
    case StartWrite(instance, key) => StartWriteInOrder(s, instance, key);
    case FetchDone(_) => WriterMovesInOrder(s, step);
    case GiveUp(_) => WriterMovesInOrder(s, step);
    case CompareEpoch(pid) => CompareEpochInOrder(s, pid);
    case SetEffect(pid) => SetEffectInOrder(s, pid);
    case SetSkipped(_) => WriterMovesInOrder(s, step);
    case CompensatingDelete(pid) => CompensatingDeleteInOrder(s, pid);
    case InvalidateKey(instance, key) => InvalidateKeyInOrder(s, instance, key);
    case InvalidateTag(instance, snapshot) => InvalidateTagInOrder(s, instance, snapshot);
    case DeleteEffect(pid) => DeleteEffectInOrder(s, pid);
    case DeleterDone(pid) => DeleterDoneInOrder(s, pid);
    case Deliver(instance, id, snapshot) => DeliverInOrder(s, instance, id, snapshot);
    case StartRead(instance, key) => StartReadInOrder(s, instance, key);
    case LayerMiss(_) => ReaderMovesInOrder(s, step);
    case LayerHit(_) => ReaderMovesInOrder(s, step);
    case StartBackfill(_) => ReaderMovesInOrder(s, step);
    case BackfillSet(pid, skipped) => BackfillSetInOrder(s, pid, skipped);
    case Vanish(instance, layer, key) => VanishInOrder(s, instance, layer, key);
  }

  lemma {:induction false} RunInOrder(s: State, steps: seq<Step>, s': State)
    requires Invariant(s) && TagInvariant(s) && Runs(s, steps, s', MAX_INVALIDATION_EPOCHS)
    ensures Invariant(s') && TagInvariant(s')
    decreases |steps|
  {
    if steps == [] {
    } else {
      StepKeeps(s, steps[0]);
      StepInvariant(s, steps[0]);
      RunInOrder(Apply(s, steps[0]), steps[1..], s');
    }
  }

  // Once everything has settled, every pass has bumped its whole snapshot.
  lemma SettledPassIsDone(s: State, r: Round, key: Key, value: Value)
    requires TagInvariant(s) && Settled(s) && BeforeRounds(s.ledger, value)
    requires r in s.ledger.rounds && r.instance == value.home && key in r.snapshot && value.invalidations <= r.issue
    ensures Stale(s.ledger, key, value)
  {
    assert RoundInOrder(s, r) && Bumps(s, r, key);
    SinceEarlier(LogOf(s.ledger, r.instance), r.bumps, value.bumps, key);
  }

  // Then the shared layer holds no value whose fetch began before the invalidation of a tag, by any
  // instance, for which the value's own instance passed over a snapshot with its key.
  lemma SettledTagsAreFresh(layers: nat, instances: nat, steps: seq<Step>, s: State)
    requires layers >= 1 && Runs(Initial(layers, instances), steps, s, MAX_INVALIDATION_EPOCHS) && Settled(s)
    ensures forall key :: key in s.shared ==> !Outdated(s.ledger, key, s.shared[key])
  {
    RunInOrder(Initial(layers, instances), steps, s);
    SettledIsFresh(s);
    forall key | key in s.shared ensures !TaggedStale(s.ledger, key, s.shared[key]) {
      var value := s.shared[key];
      if TaggedStale(s.ledger, key, value) {
        var r :| r in s.ledger.rounds && r.instance == value.home && key in r.snapshot
            && value.invalidations <= r.issue;
        SettledPassIsDone(s, r, key, value);
      }
    }
  }
}
