/**
 Event identity: the id stamped on a published event, and the bounded memory of the ids an
 instance has already processed.
 */
module EventDedup {
  import Strings

  const MAX_SEEN: nat := 1000

  // ---- The id of a published event ----

  function Digit(d: nat): char
    requires d < 10
  {
    "0123456789"[d]
  }

  function Decimal(n: nat): string {
    if n < 10 then [Digit(n)] else Decimal(n / 10) + [Digit(n % 10)]
  }

  function MintId(source: string, now: nat, counter: nat): string {
    source + ":" + Decimal(now) + ":" + Decimal(counter)
  }

  lemma {:induction false} DecimalHasNoColon(n: nat)
    ensures ':' !in Decimal(n) && Decimal(n) != ""
  {
    if n < 10 {
    } else {
      DecimalHasNoColon(n / 10);
    }
  }

  lemma LastDigit(n: nat)
    ensures var s := Decimal(n);
            && s != "" && s[|s| - 1] == Digit(n % 10)
            && (if n < 10 then |s| == 1 else |s| > 1 && s[..|s| - 1] == Decimal(n / 10))
  {
    DecimalHasNoColon(n / 10);
  }

  lemma {:induction false} DecimalInjective(m: nat, n: nat)
    requires Decimal(m) == Decimal(n)
    ensures m == n
  {
    LastDigit(m);
    LastDigit(n);
    if m < 10 {
    } else {
      DecimalInjective(m / 10, n / 10);
    }
  }

  // Two events get the same id only if they come from the same source with the same counter.
  lemma MintIdInjective(source: string, now: nat, counter: nat, source': string, now': nat, counter': nat)
    requires MintId(source, now, counter) == MintId(source', now', counter')
    ensures source == source' && now == now' && counter == counter'
  {
    DecimalHasNoColon(now);
    DecimalHasNoColon(now');
    DecimalHasNoColon(counter);
    DecimalHasNoColon(counter');
    Strings.SplitAtLast(source + ":" + Decimal(now), Decimal(counter),
                        source' + ":" + Decimal(now'), Decimal(counter'), ':');
    Strings.SplitAtLast(source, Decimal(now), source', Decimal(now'), ':');
    DecimalInjective(now, now');
    DecimalInjective(counter, counter');
  }

  // ---- The ids already processed ----

  // A Set in insertion order after one more addition.  The oldest entry goes when there are too many,
  // unless it has to stay.
  function Appended<T>(ids: seq<T>, id: T, oldestStays: bool): seq<T> {
    if |ids| < MAX_SEEN || oldestStays then ids + [id] else ids[1..] + [id]
  }

  // The empty string is never evicted: the source mistakes it for an absent entry.
  function Remember(ids: seq<string>, id: string): seq<string> {
    if id in ids then ids else Appended(ids, id, ids != [] && ids[0] == "")
  }

  // The memory after a series of arrivals.
  function Memory(arrivals: seq<string>): seq<string> {
    if arrivals == [] then [] else Remember(Memory(arrivals[..|arrivals| - 1]), arrivals[|arrivals| - 1])
  }

  // An arrival is processed only when the memory does not hold its id.
  predicate Processed(arrivals: seq<string>, at: nat)
    requires at < |arrivals|
  {
    arrivals[at] !in Memory(arrivals[..at])
  }

  class SeenEvents {
    var seenEventIds: seq<string>
    ghost var arrivals: seq<string>

    ghost predicate Valid()
      reads this
    {
      seenEventIds == Memory(arrivals)
    }

    constructor ()
      ensures Valid() && arrivals == []
    {
      seenEventIds, arrivals := [], [];
    }

    method HasSeenEvent(id: string) returns (seen: bool)
      requires Valid()
      modifies this
      ensures Valid() && arrivals == old(arrivals) + [id]
      ensures !seen <==> Processed(arrivals, |old(arrivals)|)
    {
      arrivals := arrivals + [id];
      assert arrivals[..|arrivals| - 1] == old(arrivals);
      if id in seenEventIds {
        return true;
      }
      seenEventIds := seenEventIds + [id];
      if |seenEventIds| > MAX_SEEN {
        var first := seenEventIds[0];
        if first != "" {
          seenEventIds := seenEventIds[1..];
        }
      }
      seen := false;
    }
  }

  ghost predicate NearEnd(ids: seq<string>, id: string, younger: nat) {
    exists i: nat :: i < |ids| && ids[i] == id && |ids| - 1 - i <= younger
  }

  // A processed event is remembered through the next MAX_SEEN - 1 arrivals, so none of its
  // duplicates among them is processed again.
  lemma {:induction false} ProcessedIsRemembered(arrivals: seq<string>, at: nat)
    requires at < |arrivals| && Processed(arrivals, at) && |arrivals| - at <= MAX_SEEN
    ensures NearEnd(Memory(arrivals), arrivals[at], |arrivals| - at - 1)
    decreases |arrivals|
  {
    var front, last := arrivals[..|arrivals| - 1], arrivals[|arrivals| - 1];
    var ids, ids' := Memory(front), Memory(arrivals);
    if at == |front| {
      assert front == arrivals[..at];
      assert ids'[|ids'| - 1] == last;
    } else {
      assert front[..at] == arrivals[..at];
      ProcessedIsRemembered(front, at);
      var i: nat :| i < |ids| && ids[i] == arrivals[at] && |ids| - 1 - i <= |front| - at - 1;
      assert ids'[if ids' == ids || |ids'| > |ids| then i else i - 1] == arrivals[at];
    }
  }

  lemma DuplicateIsDropped(arrivals: seq<string>, at: nat, again: nat)
    requires at < again < |arrivals| && arrivals[again] == arrivals[at]
    requires Processed(arrivals, at) && again - at <= MAX_SEEN
    ensures !Processed(arrivals, again)
  {
    assert arrivals[..again][..at] == arrivals[..at];
    ProcessedIsRemembered(arrivals[..again], at);
  }

  // Whether no duplicate that arrives `distance` after a processed event is ever processed again.
  ghost predicate SoundDistance(distance: nat) {
    forall arrivals: seq<string>, at: nat, again: nat ::
      at < again < |arrivals| && again - at == distance && arrivals[again] == arrivals[at] && Processed(arrivals, at)
      ==> !Processed(arrivals, again)
  }

  // Distinct ids, none of them empty.
  function DistinctIds(count: nat): (ids: seq<string>)
    ensures |ids| == count
  {
    seq(count, i requires 0 <= i => Strings.Filler(i + 1))
  }

  // The distinct ids before `count`, oldest first, as far as they fit.
  ghost predicate LatestOf(ids: seq<string>, count: nat) {
    && |ids| == (if count < MAX_SEEN then count else MAX_SEEN)
    && forall i :: 0 <= i < |ids| ==> ids[i] == Strings.Filler(count - |ids| + i + 1)
  }

  lemma OneMoreDistinct(ids: seq<string>, count: nat)
    requires LatestOf(ids, count)
    ensures LatestOf(Remember(ids, Strings.Filler(count + 1)), count + 1)
  {
    assert Strings.Filler(count + 1) !in ids;
    assert ids != [] ==> ids[0] != "";
  }

  // Of distinct ids the latest survive.
  lemma {:induction false} LatestSurvive(count: nat)
    ensures LatestOf(Memory(DistinctIds(count)), count)
  {
    if count == 0 {
    } else {
      LatestSurvive(count - 1);
      OneMoreDistinct(Memory(DistinctIds(count - 1)), count - 1);
      assert DistinctIds(count)[..count - 1] == DistinctIds(count - 1);
    }
  }

  // 1000 is the exact distance.
  lemma DedupDistanceIsExact(distance: nat)
    requires distance >= 1
    ensures SoundDistance(distance) <==> distance <= 1000
  {
    if distance <= MAX_SEEN {
      forall arrivals: seq<string>, at: nat, again: nat |
        at < again < |arrivals| && again - at == distance && arrivals[again] == arrivals[at] && Processed(arrivals, at)
        ensures !Processed(arrivals, again)
      {
        DuplicateIsDropped(arrivals, at, again);
      }
    } else {
      var ids := DistinctIds(distance);
      var arrivals := ids + [Strings.Filler(1)];
      LatestSurvive(distance);
      assert arrivals[..distance] == ids && arrivals[..0] == [];
      assert Processed(arrivals, 0) && Processed(arrivals, distance);
    }
  }

  // ---- How much is remembered ----

  // The arrivals that were processed, in order.
  function Kept(arrivals: seq<string>): seq<string> {
    if arrivals == [] then []
    else
      var front := arrivals[..|arrivals| - 1];
      Kept(front) + if Processed(arrivals, |front|) then [arrivals[|front|]] else []
  }

  // What was dropped before `memory`: no empty id, and nothing before the memory was full, which is
  // overfull only with an empty id as the oldest.
  ghost predicate DroppedBefore(dropped: seq<string>, memory: seq<string>) {
    && "" !in dropped
    && (dropped != [] ==> |memory| >= MAX_SEEN)
    && (|memory| > MAX_SEEN ==> memory[0] == "")
  }

  lemma SuffixStep(dropped: seq<string>, memory: seq<string>, id: string) returns (dropped': seq<string>)
    requires DroppedBefore(dropped, memory) && id !in memory
    ensures DroppedBefore(dropped', Remember(memory, id))
    ensures dropped' + Remember(memory, id) == dropped + memory + [id]
  {
    if Remember(memory, id) == memory + [id] {
      dropped' := dropped;
    } else {
      dropped' := dropped + [memory[0]];
      assert memory == [memory[0]] + memory[1..];
    }
  }

  // The memory is a suffix of what was processed.
  lemma {:induction false} MemoryIsSuffix(arrivals: seq<string>) returns (dropped: seq<string>)
    ensures Kept(arrivals) == dropped + Memory(arrivals) && DroppedBefore(dropped, Memory(arrivals))
  {
    if arrivals == [] {
      dropped := [];
    } else {
      var front, last := arrivals[..|arrivals| - 1], arrivals[|arrivals| - 1];
      dropped := MemoryIsSuffix(front);
      if last !in Memory(front) {
        dropped := SuffixStep(dropped, Memory(front), last);
      }
    }
  }

  function Recent(kept: seq<string>): seq<string> {
    if |kept| <= MAX_SEEN then kept else kept[|kept| - MAX_SEEN..]
  }

  // Every empty id that was processed is among the last MAX_SEEN processed ones.
  ghost predicate EmptyIdsAreRecent(kept: seq<string>) {
    forall k :: 0 <= k < |kept| && kept[k] == "" ==> |kept| - k <= MAX_SEEN
  }

  // The memory is the last MAX_SEEN processed ids, as promised, exactly while no empty id has to go.
  lemma MemoryIsRecentExactly(arrivals: seq<string>)
    ensures |Memory(arrivals)| <= MAX_SEEN <==> EmptyIdsAreRecent(Kept(arrivals))
    ensures Memory(arrivals) == Recent(Kept(arrivals)) <==> EmptyIdsAreRecent(Kept(arrivals))
  {
    var dropped := MemoryIsSuffix(arrivals);
    RecentExactly(dropped, Memory(arrivals));
  }

  lemma RecentExactly(dropped: seq<string>, memory: seq<string>)
    requires DroppedBefore(dropped, memory)
    ensures |memory| <= MAX_SEEN <==> EmptyIdsAreRecent(dropped + memory)
    ensures memory == Recent(dropped + memory) <==> EmptyIdsAreRecent(dropped + memory)
  {
    var kept := dropped + memory;
    assert forall i :: 0 <= i < |dropped| ==> kept[i] == dropped[i];
    if |memory| > MAX_SEEN {
      assert kept[|dropped|] == "";
    }
  }

  // In particular while no event carries an empty id.
  lemma {:induction false} MemoryIsBounded(arrivals: seq<string>)
    requires "" !in arrivals
    ensures |Memory(arrivals)| <= MAX_SEEN && "" !in Memory(arrivals)
  {
    if arrivals == [] {
    } else {
      MemoryIsBounded(arrivals[..|arrivals| - 1]);
    }
  }

  // Once an empty id is the oldest, nothing is ever forgotten.
  lemma {:induction false} EmptyIdStopsEviction(arrivals: seq<string>, more: seq<string>)
    requires Memory(arrivals) != [] && Memory(arrivals)[0] == ""
    ensures Memory(arrivals) <= Memory(arrivals + more)
    ensures forall id :: id in more ==> id in Memory(arrivals + more)
    decreases |more|
  {
    if more == [] {
      assert arrivals + more == arrivals;
    } else {
      var front, last := more[..|more| - 1], more[|more| - 1];
      EmptyIdStopsEviction(arrivals, front);
      assert (arrivals + more)[..|arrivals + more| - 1] == arrivals + front;
      assert forall id :: id in more <==> id in front || id == last;
    }
  }
}
