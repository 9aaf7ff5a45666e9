/**
 The invalidation-epoch map of `SafeCache`: a counter and an insertion-ordered map of the
 latest stamp given to each scoped key, bounded by evicting the oldest insertions.

 `Epochs` is the value of the map, `Replay` the map left behind by a whole log of bumps, and
 `EpochStamps` the object that updates it in place.  The lemmas say when comparing two readings
 of the map is a sound test for "this key was not bumped in between".
 */
module EpochTable {
  import opened Strings

  const MAX_INVALIDATION_EPOCHS: nat := 5000

  // A JavaScript Map: `order` lists its keys in insertion order.
  datatype Epochs = Epochs(order: seq<string>, stamps: map<string, nat>, counter: nat)

  const EMPTY := Epochs([], map[], 0)

  function Current(e: Epochs, key: string): nat {
    if key in e.stamps then e.stamps[key] else 0
  }

  // A key that is already present keeps its place in the insertion order.
  function Bump(e: Epochs, key: string): Epochs {
    var stamp := e.counter + 1;
    if key in e.stamps then
      Epochs(e.order, e.stamps[key := stamp], stamp)
    else if |e.order| < MAX_INVALIDATION_EPOCHS then
      Epochs(e.order + [key], e.stamps[key := stamp], stamp)
    else
      Epochs(e.order[1..] + [key], (e.stamps - {e.order[0]})[key := stamp], stamp)
  }

  // The map after every bump of `bumps`, oldest first.
  function Replay(bumps: seq<string>): Epochs {
    if bumps == [] then EMPTY else Bump(Replay(bumps[..|bumps| - 1]), bumps[|bumps| - 1])
  }

  function EpochOf(bumps: seq<string>, key: string): nat {
    Current(Replay(bumps), key)
  }

  ghost predicate Distinct(keys: seq<string>) {
    forall i, j :: 0 <= i < j < |keys| ==> keys[i] != keys[j]
  }

  ghost predicate WellFormed(e: Epochs) {
    && Distinct(e.order)
    && (forall key :: key in e.stamps <==> key in e.order)
    && |e.order| <= MAX_INVALIDATION_EPOCHS
  }

  class EpochStamps {
    var epochCounter: nat
    var order: seq<string>
    var stamps: map<string, nat>
    ghost var bumps: seq<string>

    ghost predicate Valid()
      reads this
    {
      Epochs(order, stamps, epochCounter) == Replay(bumps)
    }

    constructor ()
      ensures Valid() && bumps == []
    {
      epochCounter, order, stamps, bumps := 0, [], map[], [];
    }

    method CurrentEpoch(key: string) returns (epoch: nat)
      requires Valid()
      ensures epoch == EpochOf(bumps, key)
    {
      epoch := if key in stamps then stamps[key] else 0;
    }

    method BumpEpoch(key: string)
      requires Valid()
      modifies this
      ensures Valid() && bumps == old(bumps) + [key]
      ensures |stamps| <= MAX_INVALIDATION_EPOCHS
    {
      ghost var e := Replay(bumps);
      ghost var stamped := Stamp(e, key);
      ReplayWellFormed(bumps);
      StampThenEvict(e, key);
      epochCounter := epochCounter + 1;
      if key !in stamps {
        order := order + [key];
      }
      stamps := stamps[key := epochCounter];
      var overflow := |stamps| - MAX_INVALIDATION_EPOCHS;
      var removed := 0;
      while removed < overflow
        invariant (removed == 0 || removed == overflow) && overflow == |stamped.stamps| - MAX_INVALIDATION_EPOCHS
        invariant bumps == old(bumps) && epochCounter == stamped.counter
        invariant removed == 0 ==> order == stamped.order && stamps == stamped.stamps
        invariant removed == overflow ==> Epochs(order, stamps, epochCounter) == Bump(e, key)
      {
        stamps := stamps - {order[0]};
        order := order[1..];
        removed := removed + 1;
      }
      bumps := bumps + [key];
      assert bumps[..|bumps| - 1] == old(bumps);
    }
  }

  // The map between stamping the key and evicting the overflow.
  ghost function Stamp(e: Epochs, key: string): Epochs {
    Epochs(if key in e.stamps then e.order else e.order + [key], e.stamps[key := e.counter + 1], e.counter + 1)
  }

  lemma StampThenEvict(e: Epochs, key: string)
    requires WellFormed(e)
    ensures var stamped, bumped := Stamp(e, key), Bump(e, key);
            && |stamped.stamps| == |stamped.order| <= MAX_INVALIDATION_EPOCHS + 1
            && |bumped.stamps| <= MAX_INVALIDATION_EPOCHS
            && bumped == if |stamped.stamps| <= MAX_INVALIDATION_EPOCHS then stamped
                         else Epochs(stamped.order[1..], stamped.stamps - {stamped.order[0]}, stamped.counter)
  {
    var stamped, bumped := Stamp(e, key), Bump(e, key);
    SizeOf(e);
    assert |bumped.stamps| <= MAX_INVALIDATION_EPOCHS by {
      BumpWellFormed(e, key);
      SizeOf(bumped);
    }
    assert stamped.stamps.Keys == e.stamps.Keys + {key};
    if |stamped.stamps| > MAX_INVALIDATION_EPOCHS {
      EvictAfterStamp(e, key);
    }
  }

  lemma EvictAfterStamp(e: Epochs, key: string)
    requires key !in e.stamps && |e.order| == MAX_INVALIDATION_EPOCHS && e.order[0] in e.stamps
    ensures Bump(e, key) == Epochs(Stamp(e, key).order[1..], Stamp(e, key).stamps - {Stamp(e, key).order[0]},
                                   e.counter + 1)
  {
    assert (e.order + [key])[1..] == e.order[1..] + [key];
    assert (e.stamps - {e.order[0]})[key := e.counter + 1] == e.stamps[key := e.counter + 1] - {e.order[0]};
  }

  lemma {:induction false} DistinctSize(keys: seq<string>)
    requires Distinct(keys)
    ensures |set key | key in keys| == |keys|
  {
    if keys == [] {
    } else {
      var front, last := keys[..|keys| - 1], keys[|keys| - 1];
      DistinctSize(front);
      assert (set key | key in keys) == (set key | key in front) + {last};
    }
  }

  lemma SizeOf(e: Epochs)
    requires WellFormed(e)
    ensures |e.stamps| == |e.order|
  {
    DistinctSize(e.order);
    assert (set key | key in e.order) == e.stamps.Keys;
  }

  lemma BumpWellFormed(e: Epochs, key: string)
    requires WellFormed(e)
    ensures WellFormed(Bump(e, key))
  {
    var e' := Bump(e, key);
    if key !in e.stamps && |e.order| >= MAX_INVALIDATION_EPOCHS {
      forall other ensures other in e'.stamps <==> other in e'.order {
        assert other in e.order <==> other == e.order[0] || other in e.order[1..];
        assert e.order[0] !in e.order[1..];
      }
    }
  }

  lemma {:induction false} ReplayWellFormed(bumps: seq<string>)
    ensures WellFormed(Replay(bumps)) && Replay(bumps).counter == |bumps|
  {
    if bumps == [] {
    } else {
      ReplayWellFormed(bumps[..|bumps| - 1]);
      BumpWellFormed(Replay(bumps[..|bumps| - 1]), bumps[|bumps| - 1]);
    }
  }

  // A bump leaves other keys their stamp, or evicts it.
  lemma StampAfterBump(e: Epochs, bumped: string, key: string)
    requires WellFormed(e)
    ensures var e' := Bump(e, bumped);
            if key == bumped then Current(e', key) == e.counter + 1 && key in e'.stamps
            else if key in e'.stamps then key in e.stamps && Current(e', key) == Current(e, key)
            else Current(e', key) == 0
  {
  }

  // A stamp that is still in the map is the position of the latest bump of its key.
  lemma {:induction false} StampIsLatestBump(bumps: seq<string>, key: string)
    ensures var stamp := EpochOf(bumps, key);
            && stamp <= |bumps|
            && (stamp > 0 ==> bumps[stamp - 1] == key && key !in bumps[stamp..])
            && (stamp > 0 <==> key in Replay(bumps).stamps)
  {
    if bumps == [] {
    } else {
      var front, last := bumps[..|bumps| - 1], bumps[|bumps| - 1];
      StampIsLatestBump(front, key);
      ReplayWellFormed(front);
      StampAfterBump(Replay(front), last, key);
      var stamp := EpochOf(bumps, key);
      if last != key && 0 < stamp {
        assert bumps[stamp..] == front[stamp..] + [last];
      }
    }
  }

  // Bumps of other keys never bring an absent key back.
  lemma {:induction false} AbsentUntilBumped(bumps: seq<string>, mark: nat, key: string)
    requires mark <= |bumps| && key !in bumps[mark..]
    requires EpochOf(bumps[..mark], key) == 0
    ensures EpochOf(bumps, key) == 0
    decreases |bumps| - mark
  {
    if mark == |bumps| {
      assert bumps[..mark] == bumps;
    } else {
      var front := bumps[..|bumps| - 1];
      assert front[..mark] == bumps[..mark];
      assert forall i :: mark <= i < |bumps| ==> bumps[i] == bumps[mark..][i - mark];
      AbsentUntilBumped(front, mark, key);
    }
  }

  // `key` is still in the map, with no more than `younger` keys inserted after it.
  ghost predicate Resident(e: Epochs, key: string, younger: nat) {
    exists i: nat :: i < |e.order| && e.order[i] == key && |e.order| - 1 - i <= younger
  }

  // A key that was absent and is then bumped survives the next MAX_INVALIDATION_EPOCHS - 1 bumps.
  lemma {:induction false} BumpedStaysResident(bumps: seq<string>, at: nat, key: string)
    requires at < |bumps| && bumps[at] == key && EpochOf(bumps[..at], key) == 0
    requires |bumps| - at <= MAX_INVALIDATION_EPOCHS
    ensures Resident(Replay(bumps), key, |bumps| - at - 1)
    decreases |bumps|
  {
    var front := bumps[..|bumps| - 1];
    var e, e' := Replay(front), Replay(bumps);
    ReplayWellFormed(front);
    if at == |bumps| - 1 {
      StampIsLatestBump(front, key);
      assert front == bumps[..at];
      assert e'.order[|e'.order| - 1] == key;
    } else {
      assert front[..at] == bumps[..at];
      BumpedStaysResident(front, at, key);
      var i: nat :| i < |e.order| && e.order[i] == key && |e.order| - 1 - i <= |front| - at - 1;
      assert e'.order[if e'.order == e.order || |e'.order| > |e.order| then i else i - 1] == key;
    }
  }

  // Equal readings of the epoch before and after mean the key was not bumped in between:
  // always for a positive epoch, and for epoch 0 as long as the window is not too long.
  lemma {:induction false} EqualEpochMeansNoBump(bumps: seq<string>, mark: nat, key: string)
    requires mark <= |bumps|
    requires EpochOf(bumps, key) == EpochOf(bumps[..mark], key)
    requires EpochOf(bumps[..mark], key) > 0 || |bumps| - mark <= MAX_INVALIDATION_EPOCHS
    ensures key !in bumps[mark..]
  {
    StampIsLatestBump(bumps, key);
    StampIsLatestBump(bumps[..mark], key);
    if EpochOf(bumps[..mark], key) == 0 && key in bumps[mark..] {
      var at := FirstBump(bumps, mark, key);
      assert bumps[..at][..mark] == bumps[..mark];
      AbsentUntilBumped(bumps[..at], mark, key);
      BumpedStaysResident(bumps, at, key);
      ReplayWellFormed(bumps);
    }
  }

  lemma {:induction false} FirstBump(bumps: seq<string>, mark: nat, key: string) returns (at: nat)
    requires mark <= |bumps| && key in bumps[mark..]
    ensures mark <= at < |bumps| && bumps[at] == key && key !in bumps[..at][mark..]
    decreases |bumps| - mark
  {
    if bumps[mark] == key {
      at := mark;
    } else {
      assert bumps[mark..] == [bumps[mark]] + bumps[mark + 1..];
      at := FirstBump(bumps, mark + 1, key);
      assert bumps[..at][mark..] == [bumps[mark]] + bumps[..at][mark + 1..];
    }
  }

  // Without a bump the epoch either stays or, after an eviction, reads as 0.
  lemma {:induction false} NoBumpKeepsEpochOrEvicts(bumps: seq<string>, mark: nat, key: string)
    requires mark <= |bumps| && key !in bumps[mark..]
    ensures EpochOf(bumps, key) in {EpochOf(bumps[..mark], key), 0}
    decreases |bumps| - mark
  {
    if mark == |bumps| {
      assert bumps[..mark] == bumps;
    } else {
      var front := bumps[..|bumps| - 1];
      assert front[..mark] == bumps[..mark];
      assert forall i :: mark <= i < |bumps| ==> bumps[i] == bumps[mark..][i - mark];
      NoBumpKeepsEpochOrEvicts(front, mark, key);
    }
  }

  // ---- The window is exact ----

  // The fence of a writer that read epoch 0 is sound over every window of `length` bumps.
  ghost predicate SoundWindow(length: nat) {
    forall bumps: seq<string>, mark: nat, key: string ::
      mark <= |bumps| && |bumps| - mark == length && EpochOf(bumps[..mark], key) == 0 && EpochOf(bumps, key) == 0
      ==> key !in bumps[mark..]
  }

  function Fillers(count: nat): (keys: seq<string>)
    ensures |keys| == count
  {
    seq(count, i requires 0 <= i => Filler(i))
  }

  // Distinct keys sit in the map in the order they were bumped, the latest ones surviving.
  ghost predicate LatestFillers(order: seq<string>, count: nat) {
    && |order| == (if count < MAX_INVALIDATION_EPOCHS then count else MAX_INVALIDATION_EPOCHS)
    && forall i :: 0 <= i < |order| ==> order[i] == Filler(count - |order| + i)
  }

  lemma OneMoreFiller(e: Epochs, count: nat)
    requires WellFormed(e) && LatestFillers(e.order, count)
    ensures LatestFillers(Bump(e, Filler(count)).order, count + 1)
  {
    assert Filler(count) !in e.order;
  }

  lemma {:induction false} FillersOrder(count: nat)
    ensures LatestFillers(Replay(Fillers(count)).order, count)
  {
    if count == 0 {
    } else {
      FillersOrder(count - 1);
      ReplayWellFormed(Fillers(count - 1));
      OneMoreFiller(Replay(Fillers(count - 1)), count - 1);
      assert Fillers(count)[..count - 1] == Fillers(count - 1);
    }
  }

  lemma EpochZeroWindowIsExact(length: nat)
    ensures SoundWindow(length) <==> length <= 5000
  {
    if length <= MAX_INVALIDATION_EPOCHS {
      forall bumps: seq<string>, mark: nat, key: string |
        mark <= |bumps| && |bumps| - mark == length && EpochOf(bumps[..mark], key) == 0 && EpochOf(bumps, key) == 0
        ensures key !in bumps[mark..]
      {
        EqualEpochMeansNoBump(bumps, mark, key);
      }
    } else {
      var bumps, mark, key := Fillers(length), 0, Filler(0);
      FillersOrder(length);
      ReplayWellFormed(bumps);
      assert key !in Replay(bumps).order;
      assert EpochOf(bumps[..mark], key) == 0 && EpochOf(bumps, key) == 0;
      assert bumps[mark..][0] == key;
    }
  }

  // The map evicts by first insertion, not by recency: bumping the oldest key again does not save it from
  // being evicted by the very next new key.
  lemma RebumpDoesNotProtect()
    ensures var bumps := Fillers(MAX_INVALIDATION_EPOCHS) + [Filler(0)];
            && EpochOf(bumps, Filler(0)) == MAX_INVALIDATION_EPOCHS + 1
            && EpochOf(bumps + [Filler(MAX_INVALIDATION_EPOCHS)], Filler(0)) == 0
  {
    var full := Fillers(MAX_INVALIDATION_EPOCHS);
    var bumps := full + [Filler(0)];
    var again := bumps + [Filler(MAX_INVALIDATION_EPOCHS)];
    FillersOrder(MAX_INVALIDATION_EPOCHS);
    ReplayWellFormed(full);
    assert bumps[..|full|] == full && again[..|bumps|] == bumps;
    ReplayWellFormed(bumps);
    ReplayWellFormed(again);
    assert Filler(MAX_INVALIDATION_EPOCHS) !in Replay(bumps).order;
    assert Filler(0) == Replay(full).order[0];
  }
}
