/**
 The memory provider and its tag index, updated in place.

 `MemoryTagIndex` adds to the core index the scopes each bare key was tagged under, so that the
 provider can purge a key from all of them.  `MemoryProvider` keeps an insertion-ordered map whose
 order is the recency of use, and purges the tags of every key it drops.
 */
module MemoryProviders {
  import opened Options
  import opened LruPromises
  import opened LruStore
  import opened TagIndex
  import Sets

  // ---- The tag index of the provider ----

  // Every reverse entry belongs to a tracked (key, scope).
  ghost predicate Covered(reverse: map<string, set<string>>, scopesByKey: map<string, set<string>>) {
    forall f :: f in reverse ==> ValuePart(f) in scopesByKey && ScopePart(f) in scopesByKey[ValuePart(f)]
  }

  ghost predicate TrackedScopesNulFree(scopesByKey: map<string, set<string>>) {
    forall key, scope :: key in scopesByKey && scope in scopesByKey[key] ==> NulFree(scope)
  }

  function TriplesOfKey(related: set<Triple>, key: string): set<Triple> {
    set r | r in related && r.1 == key
  }

  function TriplesOfKeys(related: set<Triple>, keys: set<string>): set<Triple> {
    set r | r in related && r.1 in keys
  }

  function TriplesInScopes(related: set<Triple>, key: string, scopes: set<string>): set<Triple> {
    set r | r in related && r.1 == key && r.0 in scopes
  }

  class MemoryTagIndex {
    const base: InMemoryTagIndex
    var scopesByKey: map<string, set<string>>

    // As long as no scope contains the delimiter, the tracked scopes cover every association.
    ghost predicate Valid()
      reads this, base
    {
      base.Valid() && (base.sound ==> Covered(base.reverse, scopesByKey) && TrackedScopesNulFree(scopesByKey))
    }

    constructor ()
      ensures Valid() && fresh(base) && base.sound && base.related == {}
    {
      base := new InMemoryTagIndex();
      scopesByKey := map[];
    }

    method AddTags(scope: string, key: string, tags: seq<string>)
      requires Valid()
      modifies this, base
      ensures Valid() && base.sound == (old(base.sound) && NulFree(scope))
      ensures base.sound ==> base.related == old(base.related) + KeyWithTags(scope, key, Members(tags))
      ensures Gained(old(base.forward), base.forward, scope, Members(tags), {key})
      ensures scopesByKey == old(scopesByKey)[key := Lookup(old(scopesByKey), key) + {scope}]
    {
      ghost var reverse0 := base.reverse;
      base.AddTags(scope, key, tags);
      var scopes := if key in scopesByKey then scopesByKey[key] else {};
      if base.sound {
        CoveredAfterAdd(reverse0, base.reverse, scopesByKey, scope, key);
      }
      scopesByKey := scopesByKey[key := scopes + {scope}];
    }

    // Forgets the scope only when every tag of the key in it is gone.
    method RemoveKey(scope: string, key: string, tags: Option<seq<string>>)
      requires Valid()
      modifies this, base
      ensures Valid() && base.sound == (old(base.sound) && NulFree(scope))
      ensures base.sound && tags.None? ==> base.related == old(base.related) - TriplesOf(old(base.related), scope, key)
      ensures base.sound && tags.Some? ==>
                base.related == old(base.related) - KeyWithTags(scope, key, Members(tags.value))
      ensures var gone := if tags.Some? then Members(tags.value) else Lookup(old(base.reverse), Composite(scope, key));
              Lost(old(base.forward), base.forward, scope, gone, {key})
      ensures scopesByKey == if tags.None? then Forgotten(old(scopesByKey), key, scope) else old(scopesByKey)
    {
      base.RemoveKey(scope, key, tags);
      if tags.None? {
        if base.sound {
          UncoveredAfterForget(base.reverse, scopesByKey, scope, key);
        }
        ForgetScope(key, scope);
      }
    }

    method ForgetScope(key: string, scope: string)
      modifies this
      ensures scopesByKey == Forgotten(old(scopesByKey), key, scope)
    {
      if key in scopesByKey {
        var scopes := scopesByKey[key] - {scope};
        scopesByKey := if scopes == {} then scopesByKey - {key} else scopesByKey[key := scopes];
      }
    }

    method RemoveTag(scope: string, tag: string)
      requires Valid()
      modifies base
      ensures Valid() && base.sound == (old(base.sound) && NulFree(scope))
      ensures base.sound ==> base.related == old(base.related) - TriplesTagged(old(base.related), scope, tag)
      ensures base.forward == old(base.forward) - {Composite(scope, tag)}
    {
      base.RemoveTag(scope, tag);
    }

    method RemoveKeyFromAllScopes(key: string)
      requires Valid()
      modifies this, base
      ensures Valid() && base.sound == old(base.sound) && scopesByKey == old(scopesByKey) - {key}
      ensures base.sound ==> base.related == old(base.related) - TriplesOfKey(old(base.related), key)
    {
      if base.sound {
        CoveredTriples(base.forward, base.reverse, base.related, scopesByKey, key);
      }
      if key !in scopesByKey {
        return;
      }
      RemoveKeyFromScopes(key, scopesByKey[key]);
      if base.sound {
        KeyGone(base.reverse, scopesByKey, key);
      }
      scopesByKey := scopesByKey - {key};
    }

    // The loop over the scopes of one key.
    method RemoveKeyFromScopes(key: string, scopes: set<string>)
      requires Valid() && (base.sound ==> forall scope :: scope in scopes ==> NulFree(scope))
      modifies base
      ensures Valid() && base.sound == old(base.sound) && base.reverse.Keys <= old(base.reverse).Keys
      ensures base.sound ==> base.related == old(base.related) - TriplesInScopes(old(base.related), key, scopes)
      ensures base.sound ==> forall scope :: scope in scopes ==> Composite(scope, key) !in base.reverse
    {
      var rest := scopes;
      while rest != {}
        invariant Valid() && base.sound == old(base.sound)
        invariant rest <= scopes && base.reverse.Keys <= old(base.reverse).Keys
        invariant base.sound ==>
                    base.related == old(base.related) - TriplesInScopes(old(base.related), key, scopes - rest)
        invariant base.sound ==> forall scope :: scope in scopes - rest ==> Composite(scope, key) !in base.reverse
      {
        var scope :| scope in rest;
        OneScopeMore(old(base.related), key, scopes - rest, scope);
        RemoveKeyFromScope(key, scope);
        assert scopes - (rest - {scope}) == (scopes - rest) + {scope};
        rest := rest - {scope};
      }
      assert scopes - rest == scopes;
    }

    // The body of that loop.
    method RemoveKeyFromScope(key: string, scope: string)
      requires Valid() && (base.sound ==> NulFree(scope))
      modifies base
      ensures Valid() && base.sound == old(base.sound)
              && base.reverse.Keys <= old(base.reverse).Keys - {Composite(scope, key)}
      ensures base.sound ==> base.related == old(base.related) - TriplesOf(old(base.related), scope, key)
    {
      base.RemoveKey(scope, key, None);
    }

    method Clear()
      requires Valid()
      modifies this, base
      ensures Valid() && base.sound == old(base.sound) && scopesByKey == map[]
      ensures base.sound ==> base.related == {} && base.forward == map[] && base.reverse == map[]
    {
      while scopesByKey != map[]
        invariant Valid() && base.sound == old(base.sound)
        decreases |scopesByKey|
      {
        var key :| key in scopesByKey;
        ghost var before := scopesByKey;
        RemoveKeyFromAllScopes(key);
        SmallerMap(before, key);
      }
      if base.sound {
        NothingCovered(base.forward, base.reverse, base.related, scopesByKey);
      }
    }
  }

  // The scope is dropped from those of the key, and the key with its last scope.
  function Forgotten(scopesByKey: map<string, set<string>>, key: string, scope: string): map<string, set<string>> {
    if key !in scopesByKey then scopesByKey
    else if scopesByKey[key] - {scope} == {} then scopesByKey - {key}
    else scopesByKey[key := scopesByKey[key] - {scope}]
  }

  lemma CoveredAfterAdd(reverse: map<string, set<string>>, reverse': map<string, set<string>>,
                        scopesByKey: map<string, set<string>>, scope: string, key: string)
    requires Covered(reverse, scopesByKey) && reverse'.Keys == reverse.Keys + {Composite(scope, key)} && NulFree(scope)
    ensures Covered(reverse', scopesByKey[key := Lookup(scopesByKey, key) + {scope}])
  {
    PartsOfComposite(scope, key);
  }

  lemma UncoveredAfterForget(reverse: map<string, set<string>>, scopesByKey: map<string, set<string>>, scope: string,
                             key: string)
    requires Covered(reverse, scopesByKey) && Composite(scope, key) !in reverse
    requires forall f {:trigger f in reverse} :: f in reverse ==> NUL in f
    ensures Covered(reverse, Forgotten(scopesByKey, key, scope))
  {
    var forgotten := Forgotten(scopesByKey, key, scope);
    forall f | f in reverse ensures ValuePart(f) in forgotten && ScopePart(f) in forgotten[ValuePart(f)] {
      CompositeOfParts(f);
      if ValuePart(f) == key {
        assert ScopePart(f) in scopesByKey[key] - {scope};
      }
    }
  }

  lemma OneScopeMore(related: set<Triple>, key: string, scopes: set<string>, scope: string)
    ensures var before := related - TriplesInScopes(related, key, scopes);
            before - TriplesOf(before, scope, key) == related - TriplesInScopes(related, key, scopes + {scope})
  {
  }

  lemma KeyGone(reverse: map<string, set<string>>, scopesByKey: map<string, set<string>>, key: string)
    requires Covered(reverse, scopesByKey) && key in scopesByKey
    requires forall f {:trigger f in reverse} :: f in reverse ==> NUL in f
    requires forall scope :: scope in scopesByKey[key] ==> Composite(scope, key) !in reverse
    ensures Covered(reverse, scopesByKey - {key})
  {
    forall f | f in reverse ensures ValuePart(f) != key {
      CompositeOfParts(f);
    }
  }

  // The tracked scopes of a key cover all its triples.
  lemma CoveredTriples(forward: map<string, set<string>>, reverse: map<string, set<string>>, related: set<Triple>,
                       scopesByKey: map<string, set<string>>, key: string)
    requires Encodes(forward, reverse, related) && Covered(reverse, scopesByKey)
    ensures key in scopesByKey ==> TriplesOfKey(related, key) == TriplesInScopes(related, key, scopesByKey[key])
    ensures key !in scopesByKey ==> TriplesOfKey(related, key) == {}
  {
    forall r | r in related && r.1 == key ensures key in scopesByKey && r.0 in scopesByKey[key] {
      assert r == (r.0, r.1, r.2);
      assert r.2 in Lookup(reverse, Composite(r.0, r.1));
      PartsOfComposite(r.0, r.1);
    }
  }

  lemma NothingCovered(forward: map<string, set<string>>, reverse: map<string, set<string>>, related: set<Triple>,
                       scopesByKey: map<string, set<string>>)
    requires Encodes(forward, reverse, related) && Covered(reverse, scopesByKey) && scopesByKey == map[]
    ensures related == {} && forward == map[] && reverse == map[]
  {
    assert reverse == map[];
    forall key: string {
      CoveredTriples(forward, reverse, related, scopesByKey, key);
    }
    assert forall r :: r in related ==> r in TriplesOfKey(related, r.1);
    EncodesForwardEmpty(related);
    forall f ensures f !in forward {
      RelationDecidesForward(forward, map[], related, f);
    }
  }

  lemma EncodesForwardEmpty(related: set<Triple>)
    requires related == {}
    ensures EncodesForward(map[], related)
  {
  }

  lemma SmallerMap(m: map<string, set<string>>, key: string)
    requires key in m
    ensures |m - {key}| < |m|
  {
    assert (m - {key}).Keys == m.Keys - {key};
  }

  // ---- The provider ----

  class MemoryProvider<V> {
    const maxEntries: Option<int>
    const defaultTtlMs: int
    const tagIndex: MemoryTagIndex
    // Insertion order doubles as recency: the first item is the least recently used.
    var values: Store<V>
    // Every call so far.
    ghost var calls: seq<Timed<V>>

    ghost predicate Valid()
      reads this, tagIndex, tagIndex.base
    {
      UniqueKeys(values) && tagIndex.Valid()
    }

    // What is stored is what the calls so far have left.
    ghost predicate Faithful()
      reads this
    {
      values == Contents(maxEntries, calls)
    }

    // The call is now the last one.
    ghost method Record(call: Call<V>, now: int, before: Store<V>)
      requires before == Contents(maxEntries, calls) && values == After(before, maxEntries, call, now)
      modifies this`calls
      ensures calls == old(calls) + [Timed(call, now)] && Faithful()
    {
      calls := calls + [Timed(call, now)];
      assert calls[..|calls| - 1] == old(calls);
    }

    // The tags of exactly these keys are gone, as far as no scope contains the delimiter.
    twostate predicate TagsPurged(keys: set<string>)
      reads this, tagIndex, tagIndex.base
    {
      && tagIndex.base.sound == old(tagIndex.base.sound)
      && (tagIndex.base.sound ==> Purged(old(tagIndex.base.related), tagIndex.base.related, keys))
    }

    constructor (maxEntries: Option<int>, defaultTtlMs: int)
      ensures Valid() && Faithful() && calls == [] && values == []
      ensures tagIndex.base.related == {} && tagIndex.base.sound
      ensures this.maxEntries == maxEntries && this.defaultTtlMs == defaultTtlMs
    {
      this.maxEntries, this.defaultTtlMs := maxEntries, defaultTtlMs;
      tagIndex := new MemoryTagIndex();
      values, calls := [], [];
    }

    // What is answered was set by the last `set` of the key, less than its lifetime ago; without a
    // capacity, and on a clock that does not go back, that is always answered.
    method Get(key: string, now: int) returns (value: Option<V>)
      requires Valid() && Faithful()
      modifies this, tagIndex, tagIndex.base
      ensures Valid() && values == After(old(values), maxEntries, Call.Get(key), now)
      ensures Faithful() && calls == old(calls) + [Timed(Call.Get(key), now)]
      ensures value.Some? ==> Unexpired(old(calls), key, value.value, now)
      ensures !Bounded(maxEntries) && NoLaterGet(old(calls), key, now) ==>
                forall v :: value == Some(v) <==> Unexpired(old(calls), key, v, now)
      ensures value == Answer(old(values), key, now)
      ensures forall item :: item in values <==> item in old(values) && (item.key == key ==> now < item.expiresAt)
      ensures TagsPurged(Dropped(old(values), Call.Get(key), values))
    {
      ghost var before := values;
      forall item: Item<V> {
        LookupDropsExpired(values, key, now, item);
      }
      AnswerIsUnexpired(maxEntries, calls, key, now);
      value := LookUp(key, now);
      Record(Call.Get(key), now, before);
    }

    method LookUp(key: string, now: int) returns (value: Option<V>)
      requires Valid()
      modifies this`values, tagIndex, tagIndex.base
      ensures Valid() && values == After(old(values), maxEntries, Call.Get(key), now)
      ensures value == Answer(old(values), key, now)
      ensures TagsPurged(Dropped(old(values), Call.Get(key), values))
    {
      NothingToPurge(tagIndex.base.related);
      match Find(values, key)
      case None =>
        return None;
      case Some(item) =>
        if item.expiresAt <= now {
          KeyDropped(values, key);
          Drop(key);
          return None;
        }
        Touch(item);
        return Some(item.value);
    }

    // Re-inserting a stored item makes it the most recently used one.
    method Touch(item: Item<V>)
      requires Valid() && Find(values, item.key) == Some(item)
      modifies this`values
      ensures Valid() && values == Remove(old(values), item.key) + [item] && Keys(values) == Keys(old(values))
    {
      KeysAfterRemove(values, item.key);
      ReinsertUnique(values, item);
      KeysAfterAppend(Remove(values, item.key), item);
      values := Remove(values, item.key);
      values := values + [item];
    }

    // Drops the key, if it is there, and its tags.
    method Drop(key: string)
      requires Valid()
      modifies this`values, tagIndex, tagIndex.base
      ensures Valid() && values == Remove(old(values), key)
      ensures TagsPurged(Keys(old(values)) + {key} - Keys(values))
    {
      KeysAfterRemove(values, key);
      RemoveUnique(values, key);
      OnlyKeyDropped(values, key);
      OneKeyPurged(tagIndex.base.related, key);
      values := Remove(values, key);
      tagIndex.RemoveKeyFromAllScopes(key);
    }

    // `ttlMs` falls back to the provider's own; a lifetime that is not positive stores nothing.
    method Set(key: string, value: V, ttlMs: Option<int>, now: int)
      requires Valid() && Faithful()
      modifies this, tagIndex, tagIndex.base
      ensures var effective := if ttlMs.Some? then ttlMs.value else defaultTtlMs;
              && Faithful() && calls == old(calls) + [Timed(Call.Set(key, value, effective), now)]
              && Valid() && values == After(old(values), maxEntries, Call.Set(key, value, effective), now)
              && TagsPurged(Dropped(old(values), Call.Set(key, value, effective), values))
    {
      var effective := if ttlMs.Some? then ttlMs.value else defaultTtlMs;
      ghost var before := values;
      if effective <= 0 {
        Drop(key);
      } else {
        Reinsert(Item(key, value, now + effective));
      }
      Record(Call.Set(key, value, effective), now, before);
    }

    // Re-inserting makes the key the most recently used one.
    method Reinsert(item: Item<V>)
      requires Valid()
      modifies this`values, tagIndex, tagIndex.base
      ensures Valid() && values == Trim(Remove(old(values), item.key) + [item], maxEntries)
      ensures TagsPurged(Keys(old(values)) + {item.key} - Keys(values))
    {
      KeysAfterReinsert(values, item);
      ReinsertUnique(values, item);
      values := Remove(values, item.key);
      values := values + [item];
      EnforceMaxEntries();
    }

    method EnforceMaxEntries()
      requires Valid()
      modifies this`values, tagIndex, tagIndex.base
      ensures Valid() && values == Trim(old(values), maxEntries)
      ensures TagsPurged(Keys(old(values)) - Keys(values))
    {
      NothingToPurge(tagIndex.base.related);
      if !Bounded(maxEntries) {
        return;
      }
      var removed: nat := 0;
      while |values| > maxEntries.value
        invariant Valid() && removed <= |old(values)| && values == old(values)[removed..]
        invariant removed > 0 ==> |values| >= maxEntries.value
        invariant TagsPurged(Keys(old(values)) - Keys(values)) && Keys(values) <= Keys(old(values))
        decreases |values|
      {
        if values == [] {
          return;
        }
        KeysAfterTail(values);
        if tagIndex.base.sound {
          PurgeOneMore(old(tagIndex.base.related), tagIndex.base.related, Keys(old(values)), values);
        }
        EvictLru();
        removed := removed + 1;
      }
    }

    method EvictLru()
      requires Valid() && values != []
      modifies this`values, tagIndex, tagIndex.base
      ensures Valid() && values == old(values)[1..] && tagIndex.base.sound == old(tagIndex.base.sound)
      ensures tagIndex.base.sound ==>
                tagIndex.base.related == old(tagIndex.base.related)
                    - TriplesOfKey(old(tagIndex.base.related), old(values)[0].key)
    {
      var lru := values[0].key;
      values := values[1..];
      tagIndex.RemoveKeyFromAllScopes(lru);
    }

    // Deleting and clearing read no clock; 0 stands for that.
    method Delete(key: string)
      requires Valid() && Faithful()
      modifies this, tagIndex, tagIndex.base
      ensures Faithful() && calls == old(calls) + [Timed(Call.Delete(key), 0)]
      ensures Valid() && values == After(old(values), maxEntries, Call.Delete(key), 0)
      ensures TagsPurged(Dropped(old(values), Call.Delete(key), values))
    {
      ghost var before := values;
      Drop(key);
      Record(Call.Delete(key), 0, before);
    }

    method Clear()
      requires Valid() && Faithful()
      modifies this, tagIndex, tagIndex.base
      ensures Faithful() && calls == old(calls) + [Timed(Call.Clear, 0)]
      ensures Valid() && values == [] && tagIndex.scopesByKey == map[]
              && tagIndex.base.sound == old(tagIndex.base.sound)
      ensures tagIndex.base.sound ==>
                tagIndex.base.related == {} && tagIndex.base.forward == map[] && tagIndex.base.reverse == map[]
    {
      ghost var before := values;
      values := [];
      tagIndex.Clear();
      Record(Call.Clear, 0, before);
    }
  }

  // Exactly the tags of `keys` are gone.
  ghost predicate Purged(before: set<Triple>, after: set<Triple>, keys: set<string>) {
    after == before - TriplesOfKeys(before, keys)
  }

  lemma NothingToPurge(related: set<Triple>)
    ensures Purged(related, related, {})
  {
    assert TriplesOfKeys(related, {}) == {};
  }

  lemma OneKeyPurged(related: set<Triple>, key: string)
    ensures Purged(related, related - TriplesOfKey(related, key), {key})
  {
    assert TriplesOfKeys(related, {key}) == TriplesOfKey(related, key);
  }

  lemma OnlyKeyDropped<V>(s: Store<V>, key: string)
    requires UniqueKeys(s)
    ensures Keys(s) + {key} - Keys(Remove(s, key)) == {key}
  {
    KeysAfterRemove(s, key);
  }

  lemma KeyDropped<V>(s: Store<V>, key: string)
    requires UniqueKeys(s) && Find(s, key).Some?
    ensures Keys(s) + {key} == Keys(s)
  {
    KeysAfterRemove(s, key);
  }

  lemma PurgeOneMore<V>(before: set<Triple>, after: set<Triple>, all: set<string>, s: Store<V>)
    requires UniqueKeys(s) && s != [] && Keys(s) <= all && Purged(before, after, all - Keys(s))
    ensures Purged(before, after - TriplesOfKey(after, s[0].key), all - Keys(s[1..])) && Keys(s[1..]) <= all
  {
    KeysAfterTail(s);
    assert all - Keys(s[1..]) == (all - Keys(s)) + {s[0].key};
  }

  // ---- The provider and its tags agree ----

  ghost predicate NoDangling<V>(related: set<Triple>, values: Store<V>) {
    forall r :: r in related ==> r.1 in Keys(values)
  }

  // The keys whose tags a call purges: those it drops, and the one a removal names.
  ghost function Dropped<V>(values: Store<V>, call: Call<V>, values': Store<V>): set<string> {
    match call
    case Get(_) => Keys(values) - Keys(values')
    case Set(key, _, _) => Keys(values) + {key} - Keys(values')
    case Delete(key) => Keys(values) + {key} - Keys(values')
    case Clear => Keys(values)
  }

  // What happens to a provider and its tag index.
  datatype ProviderStep<V> =
    | Data(call: Call<V>, now: int)
    | Tag(scope: string, key: string, tags: set<string>)
    | Untag(removed: set<Triple>)

  ghost function RelatedAfter<V>(related: set<Triple>, values: Store<V>, maxEntries: Option<int>,
                                 step: ProviderStep<V>): set<Triple> {
    match step
    case Data(call, now) =>
      if call.Clear? then {}
      else related - TriplesOfKeys(related, Dropped(values, call, After(values, maxEntries, call, now)))
    case Tag(scope, key, tags) => related + KeyWithTags(scope, key, tags)
    case Untag(removed) => related - removed
  }

  function ValuesAfter<V>(values: Store<V>, maxEntries: Option<int>, step: ProviderStep<V>): Store<V> {
    if step.Data? then After(values, maxEntries, step.call, step.now) else values
  }

  // The provider and its tags after `steps`, from empty.
  ghost function ValuesIn<V>(steps: seq<ProviderStep<V>>, maxEntries: Option<int>): Store<V> {
    if steps == [] then [] else ValuesAfter(ValuesIn(steps[..|steps| - 1], maxEntries), maxEntries, steps[|steps| - 1])
  }

  ghost function RelatedIn<V>(steps: seq<ProviderStep<V>>, maxEntries: Option<int>): set<Triple> {
    if steps == [] then {}
    else
      var front := steps[..|steps| - 1];
      RelatedAfter(RelatedIn(front, maxEntries), ValuesIn(front, maxEntries), maxEntries, steps[|steps| - 1])
  }

  lemma {:induction false} ValuesUnique<V>(steps: seq<ProviderStep<V>>, maxEntries: Option<int>)
    ensures UniqueKeys(ValuesIn(steps, maxEntries))
  {
    if steps == [] {
    } else {
      var front, step := steps[..|steps| - 1], steps[|steps| - 1];
      ValuesUnique(front, maxEntries);
      if step.Data? {
        AfterUnique(ValuesIn(front, maxEntries), maxEntries, step.call, step.now);
      }
    }
  }

  // The step drops the key: by name, or because it had expired or was evicted.
  ghost predicate Drops<V>(values: Store<V>, maxEntries: Option<int>, step: ProviderStep<V>, key: string) {
    step.Data? &&
    match step.call
    case Clear => true
    case Delete(k) => k == key
    case Set(k, _, ttlMs) =>
      || (k == key && ttlMs <= 0)
      || ((k == key || key in Keys(values)) && key !in Keys(ValuesAfter(values, maxEntries, step)))
    case Get(_) => key in Keys(values) - Keys(ValuesAfter(values, maxEntries, step))
  }

  lemma DropPurges<V>(related: set<Triple>, values: Store<V>, maxEntries: Option<int>, step: ProviderStep<V>,
                      scope: string, key: string, tag: string)
    requires UniqueKeys(values) && Drops(values, maxEntries, step, key)
    ensures (scope, key, tag) !in RelatedAfter(related, values, maxEntries, step)
  {
    KeysAfterRemove(values, key);
  }

  // From the drop on until the key is tagged again, no tag in any scope leads to it.
  lemma {:induction false} DroppedKeyHasNoTags<V>(steps: seq<ProviderStep<V>>, maxEntries: Option<int>, at: nat,
                                                  scope: string, key: string, tag: string)
    requires at < |steps| && Drops(ValuesIn(steps[..at], maxEntries), maxEntries, steps[at], key)
    requires forall i :: at < i < |steps| && steps[i].Tag? ==> steps[i].key != key
    ensures (scope, key, tag) !in RelatedIn(steps, maxEntries)
    decreases |steps|
  {
    var front := steps[..|steps| - 1];
    if at == |front| {
      assert front == steps[..at];
      ValuesUnique(front, maxEntries);
      DropPurges(RelatedIn(front, maxEntries), ValuesIn(front, maxEntries), maxEntries, steps[at], scope, key, tag);
    } else {
      assert front[..at] == steps[..at];
      DroppedKeyHasNoTags(front, maxEntries, at, scope, key, tag);
    }
  }

  // The step takes the tag from the key, or drops the key.
  ghost predicate TakesTag<V>(values: Store<V>, maxEntries: Option<int>, step: ProviderStep<V>, scope: string,
                              key: string, tag: string) {
    Drops(values, maxEntries, step, key) || (step.Untag? && (scope, key, tag) in step.removed)
  }

  ghost predicate TagTakenAt<V>(steps: seq<ProviderStep<V>>, maxEntries: Option<int>, j: nat, scope: string,
                                key: string, tag: string)
    requires j < |steps|
  {
    TakesTag(ValuesIn(steps[..j], maxEntries), maxEntries, steps[j], scope, key, tag)
  }

  predicate GivesTag<V>(step: ProviderStep<V>, scope: string, key: string, tag: string) {
    step.Tag? && step.scope == scope && step.key == key && tag in step.tags
  }

  // The i-th step gave the key the tag, and no later one took it or dropped the key.
  ghost predicate StillTagged<V>(steps: seq<ProviderStep<V>>, maxEntries: Option<int>, i: nat, scope: string,
                                 key: string, tag: string) {
    && i < |steps| && GivesTag(steps[i], scope, key, tag)
    && forall j :: i < j < |steps| ==> !TagTakenAt(steps, maxEntries, j, scope, key, tag)
  }

  lemma OneStepTagged<V>(related: set<Triple>, values: Store<V>, maxEntries: Option<int>, step: ProviderStep<V>,
                         scope: string, key: string, tag: string)
    requires UniqueKeys(values)
    ensures (scope, key, tag) in RelatedAfter(related, values, maxEntries, step)
            <==> || GivesTag(step, scope, key, tag)
                 || ((scope, key, tag) in related && !TakesTag(values, maxEntries, step, scope, key, tag))
  {
    if step.Data? && !step.call.Clear? {
      KeysAfterRemove(values, step.call.key);
    }
  }

  lemma TagTakenBefore<V>(steps: seq<ProviderStep<V>>, maxEntries: Option<int>, j: nat, scope: string, key: string,
                          tag: string)
    requires j + 1 < |steps|
    ensures TagTakenAt(steps[..|steps| - 1], maxEntries, j, scope, key, tag)
            == TagTakenAt(steps, maxEntries, j, scope, key, tag)
  {
    assert steps[..|steps| - 1][..j] == steps[..j];
  }

  lemma StillTaggedBefore<V>(steps: seq<ProviderStep<V>>, maxEntries: Option<int>, i: nat, scope: string, key: string,
                             tag: string)
    requires i + 1 < |steps|
    ensures StillTagged(steps, maxEntries, i, scope, key, tag)
            <==> && StillTagged(steps[..|steps| - 1], maxEntries, i, scope, key, tag)
                 && !TagTakenAt(steps, maxEntries, |steps| - 1, scope, key, tag)
  {
    var front := steps[..|steps| - 1];
    forall j: nat | j < |front|
      ensures TagTakenAt(front, maxEntries, j, scope, key, tag) == TagTakenAt(steps, maxEntries, j, scope, key, tag)
    {
      TagTakenBefore(steps, maxEntries, j, scope, key, tag);
    }
  }

  // A key has a tag exactly when it was given the tag and neither the tag was taken nor the key dropped
  // since: dropping one key takes the tags of no other.
  lemma {:induction false} TaggedUntilDropped<V>(steps: seq<ProviderStep<V>>, maxEntries: Option<int>, scope: string,
                                                 key: string, tag: string)
    ensures (scope, key, tag) in RelatedIn(steps, maxEntries)
            <==> exists i: nat :: StillTagged(steps, maxEntries, i, scope, key, tag)
  {
    if steps == [] {
    } else {
      var front, last := steps[..|steps| - 1], steps[|steps| - 1];
      TaggedUntilDropped(front, maxEntries, scope, key, tag);
      ValuesUnique(front, maxEntries);
      OneStepTagged(RelatedIn(front, maxEntries), ValuesIn(front, maxEntries), maxEntries, last, scope, key, tag);
      if GivesTag(last, scope, key, tag) {
        assert StillTagged(steps, maxEntries, |front|, scope, key, tag);
      } else {
        if i: nat :| StillTagged(steps, maxEntries, i, scope, key, tag) {
          StillTaggedBefore(steps, maxEntries, i, scope, key, tag);
        }
        if i: nat :| StillTagged(front, maxEntries, i, scope, key, tag) {
          StillTaggedBefore(steps, maxEntries, i, scope, key, tag);
        }
      }
    }
  }

  // Every step that adds tags adds them to a key that is stored at that moment.
  ghost predicate TagsStoredKeys<V>(steps: seq<ProviderStep<V>>, maxEntries: Option<int>) {
    forall i :: 0 <= i < |steps| && steps[i].Tag? ==> steps[i].key in Keys(ValuesIn(steps[..i], maxEntries))
  }

  // In every such run each tag points at a stored key, so the indexed keys fit the capacity.
  lemma {:induction false} TagsNeverDangle<V>(steps: seq<ProviderStep<V>>, maxEntries: Option<int>)
    requires TagsStoredKeys(steps, maxEntries)
    ensures NoDangling(RelatedIn(steps, maxEntries), ValuesIn(steps, maxEntries))
  {
    if steps == [] {
    } else {
      var front, step := steps[..|steps| - 1], steps[|steps| - 1];
      forall i | 0 <= i < |front| && front[i].Tag? ensures front[i].key in Keys(ValuesIn(front[..i], maxEntries)) {
        assert front[..i] == steps[..i] && steps[i].Tag?;
      }
      TagsNeverDangle(front, maxEntries);
    }
  }

  lemma {:induction false} ValuesFit<V>(steps: seq<ProviderStep<V>>, maxEntries: Option<int>)
    requires Bounded(maxEntries) && maxEntries.value >= 1
    ensures |ValuesIn(steps, maxEntries)| <= maxEntries.value
  {
    if steps == [] {
    } else {
      var front, step := steps[..|steps| - 1], steps[|steps| - 1];
      ValuesFit(front, maxEntries);
      ValuesUnique(front, maxEntries);
      if step.Data? {
        AfterFits(ValuesIn(front, maxEntries), maxEntries, step.call, step.now);
      }
    }
  }

  function IndexedKeys(related: set<Triple>): set<string> {
    set r | r in related :: r.1
  }

  lemma IndexedKeysFit<V>(steps: seq<ProviderStep<V>>, maxEntries: Option<int>)
    requires TagsStoredKeys(steps, maxEntries) && Bounded(maxEntries) && maxEntries.value >= 1
    ensures |IndexedKeys(RelatedIn(steps, maxEntries))| <= |ValuesIn(steps, maxEntries)| <= maxEntries.value
  {
    TagsNeverDangle(steps, maxEntries);
    ValuesFit(steps, maxEntries);
    Sets.SubsetSize(IndexedKeys(RelatedIn(steps, maxEntries)), Keys(ValuesIn(steps, maxEntries)));
    ValuesUnique(steps, maxEntries);
    KeysSize(ValuesIn(steps, maxEntries));
  }
}
