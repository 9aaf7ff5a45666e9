/**
 The contents of the memory provider as a value: the stored items, least recently used first.

 The main result is LRU inclusion: fed the same calls, a provider with a smaller capacity always
 holds a subsequence of what one with a larger capacity (or none) holds.
 */
module LruStore {
  import opened Options

  datatype Item<V> = Item(key: string, value: V, expiresAt: int)

  type Store<V> = seq<Item<V>>

  ghost predicate UniqueKeys<V>(s: Store<V>) {
    forall i, j :: 0 <= i < j < |s| ==> s[i].key != s[j].key
  }

  function Find<V>(s: Store<V>, key: string): (found: Option<Item<V>>)
    ensures found.Some? ==> found.value.key == key && found.value in s
    ensures found.None? <==> forall i :: 0 <= i < |s| ==> s[i].key != key
  {
    if s == [] then None
    else if s[0].key == key then Some(s[0])
    else
      var rest := Find(s[1..], key);
      assert forall i :: 0 < i < |s| ==> s[i] == s[1..][i - 1];
      rest
  }

  function Remove<V>(s: Store<V>, key: string): Store<V> {
    if s == [] then [] else (if s[0].key == key then [] else [s[0]]) + Remove(s[1..], key)
  }

  // No capacity, or a capacity of 0, means no bound.
  predicate Bounded(maxEntries: Option<int>) {
    maxEntries.Some? && maxEntries.value != 0
  }

  // Evicts the least recently used items beyond the capacity.
  function Trim<V>(s: Store<V>, maxEntries: Option<int>): Store<V> {
    if !Bounded(maxEntries) || |s| <= maxEntries.value then s
    else if maxEntries.value <= 0 then []
    else s[|s| - maxEntries.value..]
  }

  datatype Call<V> =
    | Get(key: string)
    | Set(key: string, value: V, ttlMs: int)
    | Delete(key: string)
    | Clear

  // An item is alive strictly before its expiry.
  predicate Alive<V>(item: Item<V>, now: int) {
    item.expiresAt > now
  }

  function Answer<V>(s: Store<V>, key: string, now: int): Option<V> {
    match Find(s, key)
    case Some(item) => if Alive(item, now) then Some(item.value) else None
    case None => None
  }

  function AfterGet<V>(s: Store<V>, key: string, now: int): Store<V> {
    match Find(s, key)
    case Some(item) => if Alive(item, now) then Remove(s, key) + [item] else Remove(s, key)
    case None => s
  }

  function AfterSet<V>(s: Store<V>, maxEntries: Option<int>, key: string, value: V, ttlMs: int, now: int): Store<V> {
    if ttlMs <= 0 then Remove(s, key)
    else Trim(Remove(s, key) + [Item(key, value, now + ttlMs)], maxEntries)
  }

  function After<V>(s: Store<V>, maxEntries: Option<int>, call: Call<V>, now: int): Store<V> {
    match call
    case Get(key) => AfterGet(s, key, now)
    case Set(key, value, ttlMs) => AfterSet(s, maxEntries, key, value, ttlMs, now)
    case Delete(key) => Remove(s, key)
    case Clear => []
  }

  // A call and the clock reading it is made at.
  datatype Timed<V> = Timed(call: Call<V>, now: int)

  function Contents<V>(maxEntries: Option<int>, calls: seq<Timed<V>>): Store<V> {
    if calls == [] then []
    else
      var last := calls[|calls| - 1];
      After(Contents(maxEntries, calls[..|calls| - 1]), maxEntries, last.call, last.now)
  }

  // ---- Removing ----

  lemma {:induction false} FindUnique<V>(s: Store<V>, i: nat)
    requires UniqueKeys(s) && i < |s|
    ensures Find(s, s[i].key) == Some(s[i])
  {
    if i == 0 {
    } else {
      FindUnique(s[1..], i - 1);
    }
  }

  lemma {:induction false} RemoveKeeps<V>(s: Store<V>, key: string, item: Item<V>)
    ensures item in Remove(s, key) <==> item in s && item.key != key
  {
    if s == [] {
    } else {
      RemoveKeeps(s[1..], key, item);
    }
  }

  lemma {:induction false} RemoveAddsNoKey<V>(s: Store<V>, removed: string, key: string)
    requires Find(s, key) == None
    ensures Find(Remove(s, removed), key) == None
  {
    forall i | 0 <= i < |Remove(s, removed)| ensures Remove(s, removed)[i].key != key {
      RemoveKeeps(s, removed, Remove(s, removed)[i]);
    }
  }

  lemma PrependUnique<V>(first: Item<V>, rest: Store<V>)
    requires UniqueKeys(rest) && Find(rest, first.key) == None
    ensures UniqueKeys([first] + rest)
  {
  }

  lemma TailUnique<V>(s: Store<V>)
    requires UniqueKeys(s) && s != []
    ensures UniqueKeys(s[1..]) && Find(s[1..], s[0].key) == None
  {
  }

  lemma {:induction false} RemoveUnique<V>(s: Store<V>, key: string)
    requires UniqueKeys(s)
    ensures UniqueKeys(Remove(s, key)) && Find(Remove(s, key), key) == None
    ensures |Remove(s, key)| == if Find(s, key).Some? then |s| - 1 else |s|
  {
    if s == [] {
    } else {
      var rest := Remove(s[1..], key);
      TailUnique(s);
      RemoveUnique(s[1..], key);
      if s[0].key == key {
        assert Remove(s, key) == rest;
      } else {
        RemoveAddsNoKey(s[1..], key, s[0].key);
        PrependUnique(s[0], rest);
        assert Remove(s, key) == [s[0]] + rest && ([s[0]] + rest)[1..] == rest;
      }
    }
  }

  // ---- Subsequences ----

  ghost predicate Subsequence<T>(a: seq<T>, b: seq<T>) {
    a == [] || (b != [] && ((a[0] == b[0] && Subsequence(a[1..], b[1..])) || Subsequence(a, b[1..])))
  }

  lemma {:induction false} SubsequenceMember<T>(a: seq<T>, b: seq<T>, x: T)
    requires Subsequence(a, b) && x in a
    ensures x in b
    decreases |b|
  {
    if a[0] == b[0] && Subsequence(a[1..], b[1..]) {
      if x != a[0] {
        SubsequenceMember(a[1..], b[1..], x);
      }
    } else {
      SubsequenceMember(a, b[1..], x);
    }
  }

  lemma {:induction false} SubsequenceAppend<T>(a: seq<T>, b: seq<T>, x: T)
    requires Subsequence(a, b)
    ensures Subsequence(a + [x], b + [x])
    decreases |b|
  {
    if b == [] {
      assert Subsequence([x][1..], [x][1..]);
    } else {
      assert (b + [x])[1..] == b[1..] + [x];
      if a != [] && a[0] == b[0] && Subsequence(a[1..], b[1..]) {
        SubsequenceAppend(a[1..], b[1..], x);
        assert (a + [x])[1..] == a[1..] + [x];
      } else {
        SubsequenceAppend(a, b[1..], x);
      }
    }
  }

  // Dropping the head of the shorter one, or of both.
  lemma {:induction false} SubsequenceTail<T>(a: seq<T>, b: seq<T>)
    requires Subsequence(a, b) && a != []
    ensures Subsequence(a[1..], b) && Subsequence(a[1..], b[1..])
    decreases |b|
  {
    if !(a[0] == b[0] && Subsequence(a[1..], b[1..])) {
      SubsequenceTail(a, b[1..]);
    }
  }

  lemma {:induction false} SubsequenceDrop<T>(a: seq<T>, b: seq<T>, n: nat)
    requires Subsequence(a, b) && n <= |a|
    ensures Subsequence(a[n..], b)
    decreases n
  {
    if n > 0 {
      SubsequenceTail(a, b);
      SubsequenceDrop(a[1..], b, n - 1);
      assert a[1..][n - 1..] == a[n..];
    } else {
      assert a[0..] == a;
    }
  }

  lemma {:induction false} SubsequenceSize<T>(a: seq<T>, b: seq<T>)
    requires Subsequence(a, b)
    ensures |a| <= |b|
    decreases |b|
  {
    if a == [] {
    } else {
      if a[0] == b[0] && Subsequence(a[1..], b[1..]) {
        SubsequenceSize(a[1..], b[1..]);
      } else {
        SubsequenceSize(a, b[1..]);
      }
    }
  }

  lemma {:induction false} SubsequenceRemove<V>(a: Store<V>, b: Store<V>, key: string)
    requires Subsequence(a, b)
    ensures Subsequence(Remove(a, key), Remove(b, key))
    decreases |b|
  {
    if a == [] {
    } else {
      if a[0] == b[0] && Subsequence(a[1..], b[1..]) {
        SubsequenceRemove(a[1..], b[1..], key);
        SubsequencePrepend(if a[0].key == key then [] else [a[0]], Remove(a[1..], key), Remove(b[1..], key));
      } else {
        SubsequenceRemove(a, b[1..], key);
        SubsequenceWidenFront(Remove(a, key), if b[0].key == key then [] else [b[0]], Remove(b[1..], key));
      }
    }
  }

  lemma SubsequencePrepend<T>(prefix: seq<T>, a: seq<T>, b: seq<T>)
    requires Subsequence(a, b) && |prefix| <= 1
    ensures Subsequence(prefix + a, prefix + b)
  {
    if prefix == [] {
      assert prefix + a == a && prefix + b == b;
    } else {
      assert (prefix + a)[1..] == a && (prefix + b)[1..] == b;
    }
  }

  lemma SubsequenceWidenFront<T>(a: seq<T>, prefix: seq<T>, b: seq<T>)
    requires Subsequence(a, b) && |prefix| <= 1
    ensures Subsequence(a, prefix + b)
  {
    if prefix == [] {
      assert prefix + b == b;
    } else {
      assert (prefix + b)[1..] == b;
    }
  }

  lemma {:induction false} SubsequenceWidenEnd<T>(a: seq<T>, b: seq<T>, x: T)
    requires Subsequence(a, b)
    ensures Subsequence(a, b + [x])
    decreases |b|
  {
    if a == [] {
    } else {
      assert (b + [x])[1..] == b[1..] + [x];
      if a[0] == b[0] && Subsequence(a[1..], b[1..]) {
        SubsequenceWidenEnd(a[1..], b[1..], x);
      } else {
        SubsequenceWidenEnd(a, b[1..], x);
      }
    }
  }

  // ---- Unique keys ----

  lemma AppendUnique<V>(s: Store<V>, item: Item<V>)
    requires UniqueKeys(s) && Find(s, item.key) == None
    ensures UniqueKeys(s + [item])
  {
  }

  lemma TrimUnique<V>(s: Store<V>, maxEntries: Option<int>)
    requires UniqueKeys(s)
    ensures UniqueKeys(Trim(s, maxEntries))
  {
  }

  // Moving an item to the end, or putting a new one there.
  lemma ReinsertUnique<V>(s: Store<V>, item: Item<V>)
    requires UniqueKeys(s)
    ensures UniqueKeys(Remove(s, item.key) + [item])
  {
    RemoveUnique(s, item.key);
    AppendUnique(Remove(s, item.key), item);
  }

  lemma GetUnique<V>(s: Store<V>, key: string, now: int)
    requires UniqueKeys(s)
    ensures UniqueKeys(AfterGet(s, key, now))
  {
    RemoveUnique(s, key);
    if Find(s, key).Some? {
      ReinsertUnique(s, Find(s, key).value);
    }
  }

  lemma SetUnique<V>(s: Store<V>, maxEntries: Option<int>, key: string, value: V, ttlMs: int, now: int)
    requires UniqueKeys(s)
    ensures UniqueKeys(AfterSet(s, maxEntries, key, value, ttlMs, now))
  {
    if ttlMs <= 0 {
      RemoveUnique(s, key);
    } else {
      var item := Item(key, value, now + ttlMs);
      ReinsertUnique(s, item);
      TrimUnique(Remove(s, key) + [item], maxEntries);
    }
  }

  lemma AfterUnique<V>(s: Store<V>, maxEntries: Option<int>, call: Call<V>, now: int)
    requires UniqueKeys(s)
    ensures UniqueKeys(After(s, maxEntries, call, now))
  {
    match call
    case Get(key) => GetUnique(s, key, now);
    case Set(key, value, ttlMs) => SetUnique(s, maxEntries, key, value, ttlMs, now);
    case Delete(key) => RemoveUnique(s, key);
    case Clear =>
  }

  lemma {:induction false} ContentsUnique<V>(maxEntries: Option<int>, calls: seq<Timed<V>>)
    ensures UniqueKeys(Contents(maxEntries, calls))
  {
    if calls == [] {
    } else {
      var front, last := calls[..|calls| - 1], calls[|calls| - 1];
      ContentsUnique(maxEntries, front);
      AfterUnique(Contents(maxEntries, front), maxEntries, last.call, last.now);
    }
  }

  // ---- The stored keys ----

  ghost function Keys<V>(s: Store<V>): set<string> {
    set item | item in s :: item.key
  }

  lemma KeysAfterReinsert<V>(s: Store<V>, item: Item<V>)
    requires UniqueKeys(s)
    ensures Keys(Remove(s, item.key) + [item]) == Keys(s) + {item.key}
  {
    KeysAfterRemove(s, item.key);
    KeysAfterAppend(Remove(s, item.key), item);
  }

  lemma KeysAfterRemove<V>(s: Store<V>, key: string)
    requires UniqueKeys(s)
    ensures Keys(Remove(s, key)) == Keys(s) - {key}
    ensures Find(s, key).Some? <==> key in Keys(s)
  {
    RemoveUnique(s, key);
    forall item: Item<V> {
      RemoveKeeps(s, key, item);
    }
    forall k ensures k in Keys(Remove(s, key)) <==> k in Keys(s) - {key} {
      if k in Keys(s) - {key} {
        var item :| item in s && item.key == k;
        assert item in Remove(s, key);
      }
    }
    if key in Keys(s) {
      var item :| item in s && item.key == key;
      assert Find(s, key).Some?;
    }
  }

  lemma KeysAfterAppend<V>(s: Store<V>, item: Item<V>)
    ensures Keys(s + [item]) == Keys(s) + {item.key}
  {
    forall k ensures k in Keys(s + [item]) <==> k in Keys(s) + {item.key} {
      if k in Keys(s) {
        var i :| i in s && i.key == k;
        assert i in s + [item];
      }
      if k == item.key {
        assert item in s + [item];
      }
    }
  }

  lemma KeysAfterTail<V>(s: Store<V>)
    requires UniqueKeys(s) && s != []
    ensures Keys(s[1..]) == Keys(s) - {s[0].key} && s[0].key in Keys(s)
  {
    forall k ensures k in Keys(s[1..]) <==> k in Keys(s) - {s[0].key} {
      if k in Keys(s) - {s[0].key} {
        var item :| item in s && item.key == k;
        assert item in s[1..];
      }
    }
    assert s[0] in s;
  }

  lemma {:induction false} KeysSize<V>(s: Store<V>)
    requires UniqueKeys(s)
    ensures |Keys(s)| == |s|
  {
    if s == [] {
      assert Keys(s) == {};
    } else {
      TailUnique(s);
      KeysSize(s[1..]);
      KeysAfterTail(s);
    }
  }

  // ---- LRU inclusion ----

  // The capacities of two providers, the first one bounded by the second.
  predicate NoLarger(small: Option<int>, large: Option<int>) {
    Bounded(small) && small.value >= 1 && (Bounded(large) ==> small.value <= large.value)
  }

  // What holds between the two stores: the small one is a subsequence of the large one, both fit
  // their capacity, and the small one lags behind by no more than the capacities differ.
  ghost predicate Included<V>(a: Store<V>, small: Option<int>, b: Store<V>, large: Option<int>) {
    && UniqueKeys(a) && UniqueKeys(b) && Subsequence(a, b)
    && Bounded(small) && |a| <= small.value
    && (Bounded(large) ==> |b| <= large.value && |b| - |a| <= large.value - small.value)
  }

  lemma SameItem<V>(a: Store<V>, b: Store<V>, key: string)
    requires UniqueKeys(a) && UniqueKeys(b) && Subsequence(a, b)
    ensures Find(a, key).Some? ==> Find(b, key) == Find(a, key)
  {
    if Find(a, key).Some? {
      var item := Find(a, key).value;
      SubsequenceMember(a, b, item);
      var i :| 0 <= i < |b| && b[i] == item;
      FindUnique(b, i);
    }
  }

  lemma RemoveKeepsInclusion<V>(a: Store<V>, small: Option<int>, b: Store<V>, large: Option<int>, key: string)
    requires NoLarger(small, large) && Included(a, small, b, large)
    ensures Included(Remove(a, key), small, Remove(b, key), large)
  {
    SameItem(a, b, key);
    RemoveUnique(a, key);
    RemoveUnique(b, key);
    SubsequenceRemove(a, b, key);
    SubsequenceSize(Remove(a, key), Remove(b, key));
  }

  // One item too many, and the least recently used one goes.
  lemma TrimOne<V>(s: Store<V>, maxEntries: Option<int>)
    requires Bounded(maxEntries) && maxEntries.value >= 1 && |s| <= maxEntries.value + 1
    ensures Trim(s, maxEntries) == if |s| <= maxEntries.value then s else s[1..]
  {
  }

  lemma TrimKeepsSubsequence<V>(a: Store<V>, small: Option<int>, b: Store<V>, large: Option<int>)
    requires NoLarger(small, large) && Subsequence(a, b) && |a| <= small.value + 1
    requires Bounded(large) ==> |b| <= large.value + 1 && |b| - |a| <= large.value - small.value
    ensures Subsequence(Trim(a, small), Trim(b, large))
    ensures Bounded(large) ==> |Trim(b, large)| - |Trim(a, small)| <= large.value - small.value
  {
    SubsequenceSize(a, b);
    TrimOne(a, small);
    if Bounded(large) {
      TrimOne(b, large);
    }
    if |a| > small.value {
      SubsequenceTail(a, b);
    }
  }

  lemma TrimKeepsInclusion<V>(a: Store<V>, small: Option<int>, b: Store<V>, large: Option<int>, item: Item<V>)
    requires NoLarger(small, large) && Included(a, small, b, large)
    requires Find(a, item.key) == None && Find(b, item.key) == None
    ensures Included(Trim(a + [item], small), small, Trim(b + [item], large), large)
  {
    AppendUnique(a, item);
    AppendUnique(b, item);
    TrimUnique(a + [item], small);
    TrimUnique(b + [item], large);
    SubsequenceAppend(a, b, item);
    TrimKeepsSubsequence(a + [item], small, b + [item], large);
    TrimOne(a + [item], small);
    if Bounded(large) {
      TrimOne(b + [item], large);
    }
  }

  lemma {:induction false} RemoveAbsent<V>(s: Store<V>, key: string)
    requires Find(s, key) == None
    ensures Remove(s, key) == s
  {
    if s == [] {
    } else {
      RemoveAbsent(s[1..], key);
    }
  }

  // Moving a key to the end of the large store, and of the small one if it is there.
  lemma TouchKeepsInclusion<V>(a: Store<V>, small: Option<int>, b: Store<V>, large: Option<int>, item: Item<V>)
    requires NoLarger(small, large) && Included(a, small, b, large) && Find(b, item.key) == Some(item)
    ensures Included(if Find(a, item.key).Some? then Remove(a, item.key) + [item] else a, small,
                     Remove(b, item.key) + [item], large)
  {
    var a', b' := Remove(a, item.key), Remove(b, item.key);
    RemoveUnique(a, item.key);
    RemoveUnique(b, item.key);
    SubsequenceRemove(a, b, item.key);
    AppendUnique(a', item);
    AppendUnique(b', item);
    if Find(a, item.key).Some? {
      SubsequenceAppend(a', b', item);
    } else {
      RemoveAbsent(a, item.key);
      SubsequenceWidenEnd(a, b', item);
    }
  }

  lemma GetKeepsInclusion<V>(a: Store<V>, small: Option<int>, b: Store<V>, large: Option<int>, key: string, now: int)
    requires NoLarger(small, large) && Included(a, small, b, large)
    ensures Included(AfterGet(a, key, now), small, AfterGet(b, key, now), large)
  {
    SameItem(a, b, key);
    if Find(a, key) == None {
      RemoveAbsent(a, key);
    }
    match Find(b, key)
    case None =>
    case Some(item) =>
      if Alive(item, now) {
        TouchKeepsInclusion(a, small, b, large, item);
      } else {
        RemoveKeepsInclusion(a, small, b, large, key);
      }
  }

  lemma SetKeepsInclusion<V>(a: Store<V>, small: Option<int>, b: Store<V>, large: Option<int>,
                             key: string, value: V, ttlMs: int, now: int)
    requires NoLarger(small, large) && Included(a, small, b, large)
    ensures Included(AfterSet(a, small, key, value, ttlMs, now), small, AfterSet(b, large, key, value, ttlMs, now),
                     large)
  {
    RemoveKeepsInclusion(a, small, b, large, key);
    if ttlMs > 0 {
      RemoveUnique(a, key);
      RemoveUnique(b, key);
      TrimKeepsInclusion(Remove(a, key), small, Remove(b, key), large, Item(key, value, now + ttlMs));
    }
  }

  lemma CallKeepsInclusion<V>(a: Store<V>, small: Option<int>, b: Store<V>, large: Option<int>, call: Call<V>, now: int)
    requires NoLarger(small, large) && Included(a, small, b, large)
    ensures Included(After(a, small, call, now), small, After(b, large, call, now), large)
  {
    match call
    case Get(key) => GetKeepsInclusion(a, small, b, large, key, now);
    case Set(key, value, ttlMs) => SetKeepsInclusion(a, small, b, large, key, value, ttlMs, now);
    case Delete(key) => RemoveKeepsInclusion(a, small, b, large, key);
    case Clear =>
  }

  // Fed the same calls, the small provider holds a subsequence of what the large one holds: the
  // same values and expiries, in the same order of use.
  lemma {:induction false} LruInclusion<V>(small: Option<int>, large: Option<int>, calls: seq<Timed<V>>)
    requires NoLarger(small, large)
    ensures Included(Contents(small, calls), small, Contents(large, calls), large)
  {
    if calls == [] {
    } else {
      var front, last := calls[..|calls| - 1], calls[|calls| - 1];
      LruInclusion(small, large, front);
      CallKeepsInclusion(Contents(small, front), small, Contents(large, front), large, last.call, last.now);
    }
  }

  // Whatever a bounded provider answers, a larger one answers too.
  lemma BoundedAnswersAgree<V>(small: Option<int>, large: Option<int>, calls: seq<Timed<V>>, key: string, now: int)
    requires NoLarger(small, large)
    ensures var answer := Answer(Contents(small, calls), key, now);
            answer.Some? ==> Answer(Contents(large, calls), key, now) == answer
  {
    LruInclusion(small, large, calls);
    SameItem(Contents(small, calls), Contents(large, calls), key);
  }

  // ---- The capacity ----

  lemma AfterFits<V>(values: Store<V>, maxEntries: Option<int>, call: Call<V>, now: int)
    requires UniqueKeys(values) && Bounded(maxEntries) && maxEntries.value >= 1 && |values| <= maxEntries.value
    ensures |After(values, maxEntries, call, now)| <= maxEntries.value
  {
    if !call.Clear? {
      RemoveUnique(values, call.key);
    }
  }

  lemma {:induction false} ContentsFit<V>(maxEntries: Option<int>, calls: seq<Timed<V>>)
    requires Bounded(maxEntries) && maxEntries.value >= 1
    ensures |Contents(maxEntries, calls)| <= maxEntries.value
  {
    if calls == [] {
    } else {
      var front, last := calls[..|calls| - 1], calls[|calls| - 1];
      ContentsFit(maxEntries, front);
      ContentsUnique(maxEntries, front);
      AfterFits(Contents(maxEntries, front), maxEntries, last.call, last.now);
    }
  }

  // ---- The plain map with expiry ----

  function PlainGet<V>(before: Option<Item<V>>, key: string, k: string, now: int): Option<Item<V>> {
    if k == key && before.Some? && !Alive(before.value, now) then None else before
  }

  function PlainSet<V>(before: Option<Item<V>>, key: string, k: string, value: V, ttlMs: int,
                       now: int): Option<Item<V>> {
    if k != key then before else if ttlMs > 0 then Some(Item(key, value, now + ttlMs)) else None
  }

  // What a plain map with expiry holds under `key` after one more call.
  function PlainStep<V>(before: Option<Item<V>>, key: string, call: Call<V>, now: int): Option<Item<V>> {
    match call
    case Get(k) => PlainGet(before, key, k, now)
    case Set(k, value, ttlMs) => PlainSet(before, key, k, value, ttlMs, now)
    case Delete(k) => if k == key then None else before
    case Clear => None
  }

  function PlainMap<V>(calls: seq<Timed<V>>, key: string): Option<Item<V>> {
    if calls == [] then None
    else
      var last := calls[|calls| - 1];
      PlainStep(PlainMap(calls[..|calls| - 1], key), key, last.call, last.now)
  }

  lemma FindInCons<V>(first: Item<V>, rest: Store<V>, key: string)
    ensures Find([first] + rest, key) == if first.key == key then Some(first) else Find(rest, key)
  {
    assert ([first] + rest)[1..] == rest;
  }

  lemma {:induction false} FindAfterRemove<V>(s: Store<V>, removed: string, key: string)
    requires removed != key
    ensures Find(Remove(s, removed), key) == Find(s, key)
  {
    if s == [] {
    } else {
      var rest := Remove(s[1..], removed);
      FindAfterRemove(s[1..], removed, key);
      FindInCons(s[0], rest, key);
      assert [] + rest == rest;
    }
  }

  lemma {:induction false} FindAfterAppend<V>(s: Store<V>, item: Item<V>, key: string)
    ensures Find(s + [item], key)
            == if Find(s, key).Some? then Find(s, key) else if item.key == key then Some(item) else None
  {
    if s == [] {
    } else {
      FindAfterAppend(s[1..], item, key);
      assert (s + [item])[1..] == s[1..] + [item];
    }
  }

  lemma FindAfterMove<V>(s: Store<V>, item: Item<V>, key: string)
    requires UniqueKeys(s)
    ensures Find(Remove(s, item.key) + [item], key) == if key == item.key then Some(item) else Find(s, key)
  {
    RemoveUnique(s, item.key);
    FindAfterAppend(Remove(s, item.key), item, key);
    if key != item.key {
      FindAfterRemove(s, item.key, key);
    }
  }

  lemma FindAfterDelete<V>(s: Store<V>, deleted: string, key: string)
    requires UniqueKeys(s)
    ensures Find(Remove(s, deleted), key) == if key == deleted then None else Find(s, key)
  {
    RemoveUnique(s, deleted);
    if key != deleted {
      FindAfterRemove(s, deleted, key);
    }
  }

  lemma GetIsPlain<V>(s: Store<V>, k: string, now: int, key: string)
    requires UniqueKeys(s)
    ensures Find(AfterGet(s, k, now), key) == PlainGet(Find(s, key), key, k, now)
  {
    FindAfterDelete(s, k, key);
    if Find(s, k).Some? {
      FindAfterMove(s, Find(s, k).value, key);
    }
  }

  lemma SetIsPlain<V>(s: Store<V>, maxEntries: Option<int>, k: string, value: V, ttlMs: int, now: int, key: string)
    requires UniqueKeys(s) && !Bounded(maxEntries)
    ensures Find(AfterSet(s, maxEntries, k, value, ttlMs, now), key)
            == PlainSet(Find(s, key), key, k, value, ttlMs, now)
  {
    if ttlMs > 0 {
      FindAfterMove(s, Item(k, value, now + ttlMs), key);
    } else {
      FindAfterDelete(s, k, key);
    }
  }

  // Without a capacity the provider is the plain map.
  lemma {:induction false} UnboundedIsPlainMap<V>(maxEntries: Option<int>, calls: seq<Timed<V>>, key: string)
    requires !Bounded(maxEntries)
    ensures Find(Contents(maxEntries, calls), key) == PlainMap(calls, key)
  {
    if calls == [] {
    } else {
      var front, last := calls[..|calls| - 1], calls[|calls| - 1];
      var s := Contents(maxEntries, front);
      UnboundedIsPlainMap(maxEntries, front, key);
      ContentsUnique(maxEntries, front);
      match last.call
      case Get(k) => GetIsPlain(s, k, last.now, key);
      case Set(k, value, ttlMs) => SetIsPlain(s, maxEntries, k, value, ttlMs, last.now, key);
      case Delete(k) => FindAfterDelete(s, k, key);
      case Clear =>
    }
  }

  // A bounded provider differs from the plain map only by missing.
  lemma BoundedOnlyMisses<V>(maxEntries: Option<int>, calls: seq<Timed<V>>, key: string, now: int)
    requires Bounded(maxEntries) && maxEntries.value >= 1
    ensures var answer, stored := Answer(Contents(maxEntries, calls), key, now), PlainMap(calls, key);
            answer.Some? ==> stored.Some? && Alive(stored.value, now) && stored.value.value == answer.value
  {
    BoundedAnswersAgree(maxEntries, None, calls, key, now);
    UnboundedIsPlainMap(None, calls, key);
  }
}
