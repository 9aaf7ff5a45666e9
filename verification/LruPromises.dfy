/**
 What a series of calls promises about the next answer of the memory provider, told from the calls
 alone: an answer is the last value set, and only before its expiry; without a capacity it is always
 given; and with one the least recently used keys are the ones that go.
 */
module LruPromises {
  import opened Options
  import opened LruStore
  import Sets

  // ---- Expiry ----

  predicate Overwrites<V>(call: Call<V>, key: string) {
    match call
    case Get(_) => false
    case Set(k, _, _) => k == key
    case Delete(k) => k == key
    case Clear => true
  }

  // The i-th call set the key to the value, and no later call sets or deletes it, or clears all.
  ghost predicate LastSet<V>(calls: seq<Timed<V>>, i: nat, key: string, value: V, ttlMs: int) {
    && i < |calls| && calls[i].call == Set(key, value, ttlMs)
    && forall j :: i < j < |calls| ==> !Overwrites(calls[j].call, key)
  }

  lemma LastSetPersists<V>(calls: seq<Timed<V>>, i: nat, key: string, value: V, ttlMs: int)
    requires calls != [] && LastSet(calls[..|calls| - 1], i, key, value, ttlMs)
    requires !Overwrites(calls[|calls| - 1].call, key)
    ensures LastSet(calls, i, key, value, ttlMs)
  {
    var front := calls[..|calls| - 1];
    assert forall j :: i < j < |front| ==> front[j] == calls[j];
  }

  // What is stored after a call was stored before, or has just been set.
  lemma StoredBefore<V>(s: Store<V>, maxEntries: Option<int>, call: Call<V>, now: int, item: Item<V>)
    requires item in After(s, maxEntries, call, now)
    ensures if item in s && !Overwrites(call, item.key) then true
            else call.Set? && call.ttlMs > 0 && item == Item(call.key, call.value, now + call.ttlMs)
  {
    if !call.Clear? {
      RemoveKeeps(s, call.key, item);
    }
    if call.Get? && Find(s, call.key).Some? {
      assert Find(s, call.key).value in s;
    }
  }

  // Every stored item is what the last `set` of its key stored, with that call's own expiry.
  lemma {:induction false} StoredWasSet<V>(maxEntries: Option<int>, calls: seq<Timed<V>>, item: Item<V>)
    returns (i: nat, ttlMs: int)
    requires item in Contents(maxEntries, calls)
    ensures LastSet(calls, i, item.key, item.value, ttlMs)
    ensures ttlMs > 0 && item.expiresAt == calls[i].now + ttlMs
  {
    var front, last := calls[..|calls| - 1], calls[|calls| - 1];
    StoredBefore(Contents(maxEntries, front), maxEntries, last.call, last.now, item);
    if item in Contents(maxEntries, front) && !Overwrites(last.call, item.key) {
      i, ttlMs := StoredWasSet(maxEntries, front, item);
      LastSetPersists(calls, i, item.key, item.value, ttlMs);
    } else {
      i, ttlMs := |front|, last.call.ttlMs;
    }
  }

  // Whatever the capacity: an answer was set by the last `set` of the key, less than its lifetime ago.
  lemma AnswersAreUnexpired<V>(maxEntries: Option<int>, calls: seq<Timed<V>>, key: string, now: int, value: V)
    returns (i: nat, ttlMs: int)
    requires Answer(Contents(maxEntries, calls), key, now) == Some(value)
    ensures LastSet(calls, i, key, value, ttlMs) && ttlMs > 0 && now < calls[i].now + ttlMs
  {
    i, ttlMs := StoredWasSet(maxEntries, calls, Find(Contents(maxEntries, calls), key).value);
  }

  // The last value set for the key, still unexpired at `now`.
  ghost predicate Unexpired<V>(calls: seq<Timed<V>>, key: string, value: V, now: int) {
    exists i: nat, ttlMs: int :: LastSet(calls, i, key, value, ttlMs) && ttlMs > 0 && now < calls[i].now + ttlMs
  }

  // No lookup of the key has read a later clock than `now`.
  ghost predicate NoLaterGet<V>(calls: seq<Timed<V>>, key: string, now: int) {
    forall j :: 0 <= j < |calls| && calls[j].call == Get(key) ==> calls[j].now <= now
  }

  lemma {:induction false} UnexpiredIsStored<V>(calls: seq<Timed<V>>, i: nat, key: string, value: V, ttlMs: int)
    requires LastSet(calls, i, key, value, ttlMs) && ttlMs > 0
    requires forall j :: i < j < |calls| && calls[j].call == Get(key) ==> calls[j].now < calls[i].now + ttlMs
    ensures PlainMap(calls, key) == Some(Item(key, value, calls[i].now + ttlMs))
    decreases |calls|
  {
    var front := calls[..|calls| - 1];
    if i < |front| {
      assert forall j :: 0 <= j < |front| ==> front[j] == calls[j];
      UnexpiredIsStored(front, i, key, value, ttlMs);
    }
  }

  // Without a capacity: exactly the unexpired values are answered, on a clock that does not go back.
  lemma UnboundedAnswersExactlyUnexpired<V>(maxEntries: Option<int>, calls: seq<Timed<V>>, key: string, now: int,
                                            value: V)
    requires !Bounded(maxEntries) && NoLaterGet(calls, key, now)
    ensures Answer(Contents(maxEntries, calls), key, now) == Some(value) <==> Unexpired(calls, key, value, now)
  {
    if Answer(Contents(maxEntries, calls), key, now) == Some(value) {
      var i, ttlMs := AnswersAreUnexpired(maxEntries, calls, key, now, value);
    }
    if Unexpired(calls, key, value, now) {
      var i: nat, ttlMs: int :| LastSet(calls, i, key, value, ttlMs) && ttlMs > 0 && now < calls[i].now + ttlMs;
      UnexpiredIsStored(calls, i, key, value, ttlMs);
      UnboundedIsPlainMap(maxEntries, calls, key);
    }
  }

  lemma AnswerIsUnexpired<V>(maxEntries: Option<int>, calls: seq<Timed<V>>, key: string, now: int)
    ensures var answer := Answer(Contents(maxEntries, calls), key, now);
            && (answer.Some? ==> Unexpired(calls, key, answer.value, now))
            && (!Bounded(maxEntries) && NoLaterGet(calls, key, now) ==>
                  forall value :: answer == Some(value) <==> Unexpired(calls, key, value, now))
  {
    var answer := Answer(Contents(maxEntries, calls), key, now);
    if answer.Some? {
      var i, ttlMs := AnswersAreUnexpired(maxEntries, calls, key, now, answer.value);
    }
    if !Bounded(maxEntries) && NoLaterGet(calls, key, now) {
      forall value ensures answer == Some(value) <==> Unexpired(calls, key, value, now) {
        UnboundedAnswersExactlyUnexpired(maxEntries, calls, key, now, value);
      }
    }
  }

  // A capacity of 0 is none.
  lemma {:induction false} ZeroCapacityIsNone<V>(calls: seq<Timed<V>>)
    ensures Contents(Some(0), calls) == Contents(None, calls)
  {
    if calls != [] {
      ZeroCapacityIsNone(calls[..|calls| - 1]);
    }
  }

  // A lookup drops its key if that has expired, and nothing else.
  lemma LookupDropsExpired<V>(s: Store<V>, key: string, now: int, item: Item<V>)
    requires UniqueKeys(s)
    ensures item in AfterGet(s, key, now) <==> item in s && (item.key == key ==> now < item.expiresAt)
  {
    RemoveKeeps(s, key, item);
    if item in s {
      var i: nat :| i < |s| && s[i] == item;
      FindUnique(s, i);
    }
  }

  // ---- Recency ----

  // The other keys that these calls set or look up.
  function OtherKeys<V>(calls: seq<Timed<V>>, key: string): set<string> {
    if calls == [] then {} else OtherKeys(calls[..|calls| - 1], key) + UsedKey(calls[|calls| - 1].call, key)
  }

  function UsedKey<V>(call: Call<V>, key: string): set<string> {
    if (call.Set? || call.Get?) && call.key != key then {call.key} else {}
  }

  lemma {:induction false} RemoveConcat<V>(a: Store<V>, b: Store<V>, key: string)
    ensures Remove(a + b, key) == Remove(a, key) + Remove(b, key)
  {
    if a == [] {
      assert a + b == b;
    } else {
      assert (a + b)[1..] == a[1..] + b;
      RemoveConcat(a[1..], b, key);
    }
  }

  lemma RemoveAround<V>(a: Store<V>, item: Item<V>, b: Store<V>, key: string)
    requires key != item.key
    ensures Remove(a + [item] + b, key) == Remove(a, key) + [item] + Remove(b, key)
  {
    RemoveConcat(a + [item], b, key);
    RemoveConcat(a, [item], key);
    assert [item][1..] == [];
    assert Remove([item], key) == [item];
  }

  // The item is stored, and only these keys have been used since it was.
  ghost predicate UsedAfter<V>(s: Store<V>, item: Item<V>, others: set<string>) {
    exists p: nat :: p < |s| && s[p] == item && Keys(s[p + 1..]) <= others
  }

  lemma AtPlace<V>(a: Store<V>, item: Item<V>, b: Store<V>, others: set<string>)
    requires Keys(b) <= others
    ensures UsedAfter(a + [item] + b, item, others)
  {
    var s := a + [item] + b;
    assert s[|a|] == item && s[|a| + 1..] == b;
  }

  lemma RemoveKeepsPlace<V>(s: Store<V>, item: Item<V>, others: set<string>, key: string)
    requires UsedAfter(s, item, others) && key != item.key
    ensures UsedAfter(Remove(s, key), item, others)
  {
    var p: nat :| p < |s| && s[p] == item && Keys(s[p + 1..]) <= others;
    var a, b := s[..p], s[p + 1..];
    assert s == a + [item] + b;
    RemoveAround(a, item, b, key);
    forall i: Item<V> {
      RemoveKeeps(b, key, i);
    }
    AtPlace(Remove(a, key), item, Remove(b, key), others);
  }

  lemma AppendKeepsPlace<V>(s: Store<V>, item: Item<V>, others: set<string>, newer: Item<V>)
    requires UsedAfter(s, item, others)
    ensures UsedAfter(s + [newer], item, others + {newer.key})
  {
    var p: nat :| p < |s| && s[p] == item && Keys(s[p + 1..]) <= others;
    KeysAfterAppend(s[p + 1..], newer);
    assert (s + [newer])[p + 1..] == s[p + 1..] + [newer];
    assert (s + [newer])[p] == item;
  }

  lemma TailKeepsPlace<V>(s: Store<V>, item: Item<V>, others: set<string>)
    requires UniqueKeys(s) && UsedAfter(s, item, others) && |others| + 1 < |s|
    ensures UsedAfter(s[1..], item, others)
  {
    var p: nat :| p < |s| && s[p] == item && Keys(s[p + 1..]) <= others;
    KeysSize(s[p + 1..]);
    Sets.SubsetSize(Keys(s[p + 1..]), others);
    assert s[1..][p - 1] == item;
    assert s[1..][p..] == s[p + 1..];
  }

  lemma TrimKeepsPlace<V>(s: Store<V>, item: Item<V>, others: set<string>, maxEntries: Option<int>)
    requires UniqueKeys(s) && UsedAfter(s, item, others)
    requires Bounded(maxEntries) ==> |s| <= maxEntries.value + 1 && |others| < maxEntries.value
    ensures UsedAfter(Trim(s, maxEntries), item, others)
  {
    if Trim(s, maxEntries) != s {
      TrimOne(s, maxEntries);
      TailKeepsPlace(s, item, others);
    }
  }

  // ---- Recently used keys stay ----

  // The latest call used this item last.
  ghost predicate JustUsed<V>(s: Store<V>, item: Item<V>) {
    s != [] && s[|s| - 1] == item
  }

  // One of the calls that set or find a key.
  ghost predicate Uses<V>(s: Store<V>, call: Call<V>, now: int, item: Item<V>) {
    match call
    case Set(key, value, ttlMs) => ttlMs > 0 && item == Item(key, value, now + ttlMs)
    case Get(key) => Find(s, key) == Some(item) && now < item.expiresAt
    case _ => false
  }

  lemma UsedIsLast<V>(s: Store<V>, maxEntries: Option<int>, call: Call<V>, now: int, item: Item<V>)
    requires Uses(s, call, now, item) && (Bounded(maxEntries) ==> maxEntries.value >= 1)
    ensures JustUsed(After(s, maxEntries, call, now), item)
  {
  }

  // The other calls leave the item alone.
  ghost predicate Spares<V>(call: Timed<V>, item: Item<V>) {
    !Overwrites(call.call, item.key) && (call.call == Get(item.key) ==> call.now < item.expiresAt)
  }

  lemma GetKeepsPlace<V>(s: Store<V>, item: Item<V>, others: set<string>, key: string, now: int)
    requires UniqueKeys(s) && UsedAfter(s, item, others) && (key == item.key ==> now < item.expiresAt)
    ensures UsedAfter(AfterGet(s, key, now), item, others + if key != item.key then {key} else {})
  {
    var p: nat :| p < |s| && s[p] == item && Keys(s[p + 1..]) <= others;
    FindUnique(s, p);
    if key == item.key {
      AtPlace(Remove(s, key), item, [], others);
      assert Remove(s, key) + [item] + [] == Remove(s, key) + [item];
    } else {
      RemoveKeepsPlace(s, item, others, key);
      if Find(s, key).Some? {
        AppendKeepsPlace(Remove(s, key), item, others, Find(s, key).value);
      }
      assert Keys(s[p + 1..]) <= others + {key};
    }
  }

  lemma SetKeepsPlace<V>(s: Store<V>, maxEntries: Option<int>, item: Item<V>, others: set<string>, call: Call<V>,
                         now: int)
    requires call.Set? && call.key != item.key && UniqueKeys(s) && UsedAfter(s, item, others)
    requires Bounded(maxEntries) ==> |s| <= maxEntries.value && |others + {call.key}| < maxEntries.value
    ensures UsedAfter(After(s, maxEntries, call, now), item, others + {call.key})
  {
    RemoveKeepsPlace(s, item, others, call.key);
    RemoveUnique(s, call.key);
    if call.ttlMs > 0 {
      var newer := Item(call.key, call.value, now + call.ttlMs);
      AppendKeepsPlace(Remove(s, call.key), item, others, newer);
      AppendUnique(Remove(s, call.key), newer);
      TrimKeepsPlace(Remove(s, call.key) + [newer], item, others + {call.key}, maxEntries);
    } else {
      PlaceAmongMore(Remove(s, call.key), item, others, others + {call.key});
    }
  }

  lemma PlaceAmongMore<V>(s: Store<V>, item: Item<V>, others: set<string>, more: set<string>)
    requires UsedAfter(s, item, others) && others <= more
    ensures UsedAfter(s, item, more)
  {
  }

  lemma CallKeepsPlace<V>(s: Store<V>, maxEntries: Option<int>, item: Item<V>, others: set<string>, call: Timed<V>)
    requires UniqueKeys(s) && UsedAfter(s, item, others) && Spares(call, item)
    requires Bounded(maxEntries) ==>
               |s| <= maxEntries.value && |others + UsedKey(call.call, item.key)| < maxEntries.value
    ensures UsedAfter(After(s, maxEntries, call.call, call.now), item, others + UsedKey(call.call, item.key))
  {
    match call.call
    case Get(key) => GetKeepsPlace(s, item, others, key, call.now);
    case Set(_, _, _) => SetKeepsPlace(s, maxEntries, item, others, call.call, call.now);
    case Delete(key) =>
      RemoveKeepsPlace(s, item, others, key);
      PlaceAmongMore(Remove(s, key), item, others, others + {});
    case Clear =>
  }

  lemma LastIsInPlace<V>(s: Store<V>, item: Item<V>)
    requires JustUsed(s, item)
    ensures UsedAfter(s, item, {})
  {
    assert s[|s| - 1 + 1..] == [];
    assert Keys(s[|s| - 1 + 1..]) == {};
  }

  lemma {:induction false} StaysInPlace<V>(maxEntries: Option<int>, before: seq<Timed<V>>, after: seq<Timed<V>>,
                                           item: Item<V>)
    requires JustUsed(Contents(maxEntries, before), item)
    requires Bounded(maxEntries) ==> maxEntries.value > |OtherKeys(after, item.key)|
    requires forall j :: 0 <= j < |after| ==> Spares(after[j], item)
    ensures UsedAfter(Contents(maxEntries, before + after), item, OtherKeys(after, item.key))
    decreases |after|
  {
    if after == [] {
      LastIsInPlace(Contents(maxEntries, before), item);
      assert before + after == before;
    } else {
      var front, last := after[..|after| - 1], after[|after| - 1];
      var s, others := Contents(maxEntries, before + front), OtherKeys(front, item.key);
      assert OtherKeys(after, item.key) == others + UsedKey(last.call, item.key);
      Sets.SubsetSize(others, OtherKeys(after, item.key));
      StaysInPlace(maxEntries, before, front, item);
      StoreIsSound(maxEntries, before + front);
      CallKeepsPlace(s, maxEntries, item, others, last);
      OneCallMore(maxEntries, before, after);
    }
  }

  lemma StoreIsSound<V>(maxEntries: Option<int>, calls: seq<Timed<V>>)
    requires Bounded(maxEntries) ==> maxEntries.value >= 1
    ensures UniqueKeys(Contents(maxEntries, calls))
    ensures Bounded(maxEntries) ==> |Contents(maxEntries, calls)| <= maxEntries.value
  {
    ContentsUnique(maxEntries, calls);
    if Bounded(maxEntries) {
      ContentsFit(maxEntries, calls);
    }
  }

  lemma OneCallMore<V>(maxEntries: Option<int>, before: seq<Timed<V>>, after: seq<Timed<V>>)
    requires after != []
    ensures var last := after[|after| - 1];
            Contents(maxEntries, before + after)
            == After(Contents(maxEntries, before + after[..|after| - 1]), maxEntries, last.call, last.now)
  {
    assert (before + after)[..|before + after| - 1] == before + after[..|after| - 1];
  }

  // A key that was set or found is still answered after any calls that use fewer other keys than the
  // capacity, and do not overwrite it, until its expiry.
  lemma RecentlyUsedIsAnswered<V>(maxEntries: Option<int>, before: seq<Timed<V>>, use: Timed<V>, after: seq<Timed<V>>,
                                  item: Item<V>, now: int)
    requires Uses(Contents(maxEntries, before), use.call, use.now, item) && now < item.expiresAt
    requires Bounded(maxEntries) ==> maxEntries.value > |OtherKeys(after, item.key)|
    requires forall j :: 0 <= j < |after| ==> Spares(after[j], item)
    ensures Answer(Contents(maxEntries, before + [use] + after), item.key, now) == Some(item.value)
  {
    var calls := before + [use] + after;
    assert (before + [use])[..|before + [use]| - 1] == before;
    UsedIsLast(Contents(maxEntries, before), maxEntries, use.call, use.now, item);
    StaysInPlace(maxEntries, before + [use], after, item);
    ContentsUnique(maxEntries, calls);
    var s := Contents(maxEntries, calls);
    var p: nat :| p < |s| && s[p] == item;
    FindUnique(s, p);
  }

  // ---- Least recently used keys go ----

  // Where the key is stored, these others are stored after it.
  ghost predicate FollowedBy<V>(s: Store<V>, key: string, others: set<string>) {
    forall p :: 0 <= p < |s| && s[p].key == key ==> others <= Keys(s[p + 1..])
  }

  lemma FollowedAround<V>(a: Store<V>, item: Item<V>, b: Store<V>, others: set<string>)
    requires UniqueKeys(a + [item] + b) && others <= Keys(b)
    ensures FollowedBy(a + [item] + b, item.key, others)
  {
    var s := a + [item] + b;
    assert s[|a|] == item && s[|a| + 1..] == b;
  }

  lemma InsertAround<V>(a: Store<V>, item: Item<V>, b: Store<V>, others: set<string>, newer: Item<V>)
    requires UniqueKeys(a + [item] + b) && others <= Keys(b) && newer.key != item.key
    ensures FollowedBy(Remove(a + [item] + b, newer.key) + [newer], item.key, others + {newer.key})
  {
    var s, a', b' := a + [item] + b, Remove(a, newer.key), Remove(b, newer.key) + [newer];
    SuffixUnique(a + [item], b);
    KeysAfterReinsert(b, newer);
    RemoveAround(a, item, b, newer.key);
    assert Remove(s, newer.key) + [newer] == a' + [item] + b';
    ReinsertUnique(s, newer);
    FollowedAround(a', item, b', others + {newer.key});
  }

  lemma InsertFollows<V>(s: Store<V>, key: string, others: set<string>, newer: Item<V>)
    requires UniqueKeys(s) && FollowedBy(s, key, others) && newer.key != key
    ensures FollowedBy(Remove(s, newer.key) + [newer], key, others + {newer.key})
  {
    var s' := Remove(s, newer.key) + [newer];
    if p: nat :| p < |s| && s[p].key == key {
      assert s == s[..p] + [s[p]] + s[p + 1..];
      InsertAround(s[..p], s[p], s[p + 1..], others, newer);
    } else {
      RemoveAddsNoKey(s, newer.key, key);
    }
  }

  lemma SuffixUnique<V>(a: Store<V>, b: Store<V>)
    requires UniqueKeys(a + b)
    ensures UniqueKeys(b)
  {
    assert forall i :: 0 <= i < |b| ==> b[i] == (a + b)[|a| + i];
  }

  lemma TrimFollows<V>(s: Store<V>, maxEntries: Option<int>, key: string, others: set<string>)
    requires FollowedBy(s, key, others)
    ensures FollowedBy(Trim(s, maxEntries), key, others)
  {
    var s' := Trim(s, maxEntries);
    var dropped := |s| - |s'|;
    forall p | 0 <= p < |s'| && s'[p].key == key ensures others <= Keys(s'[p + 1..]) {
      assert s'[p + 1..] == s[dropped + p + 1..];
    }
  }

  // The call stores another key.
  predicate StoresOther<V>(call: Call<V>, key: string) {
    call.Set? && call.key != key && call.ttlMs > 0
  }

  lemma {:induction false} OthersFollow<V>(maxEntries: Option<int>, before: seq<Timed<V>>, after: seq<Timed<V>>,
                                           key: string)
    requires forall j :: 0 <= j < |after| ==> StoresOther(after[j].call, key)
    ensures FollowedBy(Contents(maxEntries, before + after), key, OtherKeys(after, key))
    decreases |after|
  {
    if after == [] {
      assert before + after == before;
    } else {
      var front, last := after[..|after| - 1], after[|after| - 1];
      var s := Contents(maxEntries, before + front);
      OthersFollow(maxEntries, before, front, key);
      ContentsUnique(maxEntries, before + front);
      var newer := Item(last.call.key, last.call.value, last.now + last.call.ttlMs);
      InsertFollows(s, key, OtherKeys(front, key), newer);
      TrimFollows(Remove(s, newer.key) + [newer], maxEntries, key, OtherKeys(front, key) + {newer.key});
      OneCallMore(maxEntries, before, after);
    }
  }

  // The least recently used key is the one that goes: when nothing but other keys is stored after its
  // last use, it is kept exactly as long as they are fewer than the capacity.
  lemma EvictedExactlyByCapacity<V>(maxEntries: Option<int>, before: seq<Timed<V>>, use: Timed<V>,
                                    after: seq<Timed<V>>, item: Item<V>)
    requires Bounded(maxEntries) && maxEntries.value >= 1
    requires Uses(Contents(maxEntries, before), use.call, use.now, item)
    requires forall j :: 0 <= j < |after| ==> StoresOther(after[j].call, item.key)
    ensures Find(Contents(maxEntries, before + [use] + after), item.key).Some?
            <==> |OtherKeys(after, item.key)| < maxEntries.value
  {
    var s, others := Contents(maxEntries, before + [use] + after), OtherKeys(after, item.key);
    if |others| < maxEntries.value {
      RecentlyUsedIsAnswered(maxEntries, before, use, after, item, item.expiresAt - 1);
    }
    if Find(s, item.key).Some? {
      var p: nat :| p < |s| && s[p].key == item.key;
      OthersFollow(maxEntries, before + [use], after, item.key);
      ContentsFit(maxEntries, before + [use] + after);
      ContentsUnique(maxEntries, before + [use] + after);
      KeysSize(s[p + 1..]);
      Sets.SubsetSize(others, Keys(s[p + 1..]));
    }
  }
}
