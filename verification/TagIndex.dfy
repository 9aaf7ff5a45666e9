/**
 The in-memory tag index: a forward map from (scope, tag) to keys and a reverse map from
 (scope, key) to tags, both addressed by one flat composite string.  Over scopes without NUL the
 two maps encode one relation of (scope, key, tag).
 */
module TagIndex {
  import opened Options

  const NUL: char := '\0'

  // (scope, key, tag)
  type Triple = (string, string, string)

  function Composite(scope: string, value: string): string {
    scope + [NUL] + value
  }

  predicate NulFree(s: string) {
    NUL !in s
  }

  // ---- Composites ----

  // The text before, and after, the first NUL.
  function ScopePart(s: string): string {
    if s == "" || s[0] == NUL then "" else [s[0]] + ScopePart(s[1..])
  }

  function ValuePart(s: string): string {
    if s == "" then "" else if s[0] == NUL then s[1..] else ValuePart(s[1..])
  }

  lemma {:induction false} PartsOfComposite(scope: string, value: string)
    requires NulFree(scope)
    ensures ScopePart(Composite(scope, value)) == scope && ValuePart(Composite(scope, value)) == value
  {
    var s := Composite(scope, value);
    if scope == "" {
    } else {
      PartsOfComposite(scope[1..], value);
      assert s[1..] == Composite(scope[1..], value);
    }
  }

  lemma {:induction false} CompositeOfParts(s: string)
    requires NUL in s
    ensures Composite(ScopePart(s), ValuePart(s)) == s
  {
    if s[0] == NUL {
    } else {
      CompositeOfParts(s[1..]);
      assert [s[0]] + Composite(ScopePart(s[1..]), ValuePart(s[1..])) == Composite(ScopePart(s), ValuePart(s));
    }
  }

  // Whether some values of the two scopes share a composite.
  ghost predicate ScopesCollide(s1: string, s2: string) {
    exists v1, v2 :: Composite(s1, v1) == Composite(s2, v2)
  }

  // The delimiter separates two scopes exactly when neither continues the other with a NUL.
  lemma ScopesCollideExactly(s1: string, s2: string)
    requires s1 != s2
    ensures ScopesCollide(s1, s2) <==> s1 + [NUL] <= s2 || s2 + [NUL] <= s1
  {
    if ScopesCollide(s1, s2) {
      var v1, v2 :| Composite(s1, v1) == Composite(s2, v2);
      var whole := Composite(s1, v1);
      assert whole[..|s1|] == s1 && whole[..|s2|] == s2 && whole[|s1|] == NUL && whole[|s2|] == NUL;
      if |s1| < |s2| {
        assert s2[..|s1| + 1] == whole[..|s1| + 1] == s1 + [NUL];
      } else if |s2| < |s1| {
        assert s1[..|s2| + 1] == whole[..|s2| + 1] == s2 + [NUL];
      }
    }
    if s1 + [NUL] <= s2 {
      assert Composite(s1, s2[|s1| + 1..] + [NUL]) == Composite(s2, "");
    }
    if s2 + [NUL] <= s1 {
      assert Composite(s1, "") == Composite(s2, s1[|s2| + 1..] + [NUL]);
    }
  }

  // The very pair the source names as kept apart.
  lemma DelimiterInScopeCollides()
    ensures Composite("a", "b\0c") == Composite("a\0b", "c")
  {
    assert Composite("a", "b\0c") == "a\0b\0c" == Composite("a\0b", "c");
  }

  // ---- The relation ----

  function Lookup(m: map<string, set<string>>, at: string): set<string> {
    if at in m then m[at] else {}
  }

  ghost predicate EncodesForward(forward: map<string, set<string>>, related: set<Triple>) {
    && (forall f {:trigger f in forward} :: f in forward ==> NUL in f && forward[f] != {})
    && forall scope, key, tag :: NulFree(scope) ==>
         ((scope, key, tag) in related <==> key in Lookup(forward, Composite(scope, tag)))
  }

  ghost predicate EncodesReverse(reverse: map<string, set<string>>, related: set<Triple>) {
    && (forall f {:trigger f in reverse} :: f in reverse ==> NUL in f)
    && forall scope, key, tag :: NulFree(scope) ==>
         ((scope, key, tag) in related <==> tag in Lookup(reverse, Composite(scope, key)))
  }

  ghost predicate ScopesNulFree(related: set<Triple>) {
    forall r :: r in related ==> NulFree(r.0)
  }

  // Both maps encode one and the same relation.
  ghost predicate Encodes(forward: map<string, set<string>>, reverse: map<string, set<string>>, related: set<Triple>) {
    ScopesNulFree(related) && EncodesForward(forward, related) && EncodesReverse(reverse, related)
  }

  // The maps hold no address without a delimiter, and the forward map no empty set.
  ghost predicate Shaped(forward: map<string, set<string>>, reverse: map<string, set<string>>) {
    && (forall f {:trigger f in forward} :: f in forward ==> NUL in f && forward[f] != {})
    && (forall f {:trigger f in reverse} :: f in reverse ==> NUL in f)
  }

  lemma CompositeInjective(s1: string, v1: string, s2: string, v2: string)
    requires NulFree(s1) && NulFree(s2)
    ensures Composite(s1, v1) == Composite(s2, v2) <==> s1 == s2 && v1 == v2
  {
    PartsOfComposite(s1, v1);
    PartsOfComposite(s2, v2);
  }

  lemma {:induction false} ScopePartIsNulFree(s: string)
    ensures NulFree(ScopePart(s))
  {
    if s == "" || s[0] == NUL {
    } else {
      ScopePartIsNulFree(s[1..]);
    }
  }

  // The relation alone decides the forward map, and the reverse map up to empty sets.
  lemma RelationDecidesForward(forward: map<string, set<string>>, forward': map<string, set<string>>,
                               related: set<Triple>, f: string)
    requires EncodesForward(forward, related) && EncodesForward(forward', related)
    ensures Lookup(forward, f) == Lookup(forward', f) && (f in forward <==> f in forward')
  {
    if NUL in f {
      CompositeOfParts(f);
      ScopePartIsNulFree(f);
      forall key ensures key in Lookup(forward, f) <==> key in Lookup(forward', f) {
        assert (ScopePart(f), key, ValuePart(f)) in related
               <==> key in Lookup(forward, Composite(ScopePart(f), ValuePart(f)));
      }
    }
  }

  lemma RelationDecidesReverse(reverse: map<string, set<string>>, reverse': map<string, set<string>>,
                               related: set<Triple>, f: string)
    requires EncodesReverse(reverse, related) && EncodesReverse(reverse', related)
    ensures Lookup(reverse, f) == Lookup(reverse', f)
  {
    if NUL in f {
      CompositeOfParts(f);
      ScopePartIsNulFree(f);
      forall tag ensures tag in Lookup(reverse, f) <==> tag in Lookup(reverse', f) {
        assert (ScopePart(f), ValuePart(f), tag) in related
               <==> tag in Lookup(reverse, Composite(ScopePart(f), ValuePart(f)));
      }
    }
  }

  // ---- Changes at addresses ----

  // The address of one of these tags or keys in the scope.
  predicate AtAddress(f: string, scope: string, values: set<string>) {
    scope + [NUL] <= f && f[|scope| + 1..] in values
  }

  // Exactly the sets at these addresses gain, or lose, these members.
  ghost predicate Gained(m: map<string, set<string>>, m': map<string, set<string>>, scope: string, values: set<string>,
                         members: set<string>) {
    forall f {:trigger Lookup(m', f)} ::
      Lookup(m', f) == if AtAddress(f, scope, values) then Lookup(m, f) + members else Lookup(m, f)
  }

  ghost predicate Lost(m: map<string, set<string>>, m': map<string, set<string>>, scope: string, values: set<string>,
                       members: set<string>) {
    forall f {:trigger Lookup(m', f)} ::
      Lookup(m', f) == if AtAddress(f, scope, values) then Lookup(m, f) - members else Lookup(m, f)
  }

  lemma GainedMore(m: map<string, set<string>>, mid: map<string, set<string>>, m': map<string, set<string>>,
                   scope: string, values: set<string>, more: set<string>, members: set<string>)
    requires Gained(m, mid, scope, values, members) && Gained(mid, m', scope, more, members)
    ensures Gained(m, m', scope, values + more, members)
  {
  }

  lemma GainedAlso(m: map<string, set<string>>, mid: map<string, set<string>>, m': map<string, set<string>>,
                   scope: string, values: set<string>, members: set<string>, also: set<string>)
    requires Gained(m, mid, scope, values, members) && Gained(mid, m', scope, values, also)
    ensures Gained(m, m', scope, values, members + also)
  {
  }

  lemma LostMore(m: map<string, set<string>>, mid: map<string, set<string>>, m': map<string, set<string>>,
                 scope: string, values: set<string>, more: set<string>, members: set<string>)
    requires Lost(m, mid, scope, values, members) && Lost(mid, m', scope, more, members)
    ensures Lost(m, m', scope, values + more, members)
  {
  }

  lemma LostAlso(m: map<string, set<string>>, mid: map<string, set<string>>, m': map<string, set<string>>,
                 scope: string, values: set<string>, members: set<string>, also: set<string>)
    requires Lost(m, mid, scope, values, members) && Lost(mid, m', scope, values, also)
    ensures Lost(m, m', scope, values, members + also)
  {
  }

  // Dropping an empty set loses no member.
  lemma LostAndPruned(m: map<string, set<string>>, m': map<string, set<string>>, scope: string, values: set<string>,
                      members: set<string>, f: string)
    requires Lost(m, m', scope, values, members) && Lookup(m', f) == {}
    ensures Lost(m, m' - {f}, scope, values, members)
  {
    forall g ensures Lookup(m' - {f}, g) == if AtAddress(g, scope, values) then Lookup(m, g) - members else Lookup(m, g)
    {
      assert Lookup(m' - {f}, g) == Lookup(m', g);
    }
  }

  // One address is that of its own value only.
  lemma OneAddress(scope: string, value: string, f: string)
    ensures AtAddress(f, scope, {value}) <==> f == Composite(scope, value)
  {
    if AtAddress(f, scope, {value}) {
      assert f == f[..|scope| + 1] + f[|scope| + 1..];
    }
  }

  // A change at one address.
  lemma GainedThere(m: map<string, set<string>>, m': map<string, set<string>>, scope: string, value: string,
                    members: set<string>)
    requires m' == m[Composite(scope, value) := Lookup(m, Composite(scope, value)) + members]
    ensures Gained(m, m', scope, {value}, members)
  {
    forall f ensures Lookup(m', f) == if AtAddress(f, scope, {value}) then Lookup(m, f) + members else Lookup(m, f) {
      OneAddress(scope, value, f);
    }
  }

  lemma LostThere(m: map<string, set<string>>, m': map<string, set<string>>, scope: string, value: string,
                  members: set<string>)
    requires var f := Composite(scope, value);
             if f !in m then m' == m
             else m' == m[f := m[f] - members] || (m[f] - members == {} && m' == m - {f})
    ensures Lost(m, m', scope, {value}, members)
  {
    forall f ensures Lookup(m', f) == if AtAddress(f, scope, {value}) then Lookup(m, f) - members else Lookup(m, f) {
      OneAddress(scope, value, f);
    }
  }

  lemma AddressIn(scope: string, values: set<string>, s: string, value: string)
    requires NulFree(scope) && NulFree(s)
    ensures AtAddress(Composite(s, value), scope, values) <==> s == scope && value in values
  {
    var f := Composite(s, value);
    if AtAddress(f, scope, values) {
      assert f == Composite(scope, f[|scope| + 1..]);
      CompositeInjective(scope, f[|scope| + 1..], s, value);
    }
  }

  // ---- What they mean for the relation ----

  function Members(tags: seq<string>): set<string> {
    set tag | tag in tags
  }

  function KeyWithTags(scope: string, key: string, tags: set<string>): set<Triple> {
    set tag | tag in tags :: (scope, key, tag)
  }

  function TriplesOf(related: set<Triple>, scope: string, key: string): set<Triple> {
    set r | r in related && r.0 == scope && r.1 == key
  }

  function TriplesTagged(related: set<Triple>, scope: string, tag: string): set<Triple> {
    set r | r in related && r.0 == scope && r.2 == tag
  }

  lemma GainedForward(forward: map<string, set<string>>, forward': map<string, set<string>>, related: set<Triple>,
                      scope: string, key: string, tags: set<string>)
    requires EncodesForward(forward, related) && NulFree(scope)
    requires Shaped(forward', map[]) && Gained(forward, forward', scope, tags, {key})
    ensures EncodesForward(forward', related + KeyWithTags(scope, key, tags))
  {
    var related' := related + KeyWithTags(scope, key, tags);
    forall s, k, t | NulFree(s) ensures (s, k, t) in related' <==> k in Lookup(forward', Composite(s, t)) {
      AddressIn(scope, tags, s, t);
    }
  }

  lemma GainedReverse(reverse: map<string, set<string>>, reverse': map<string, set<string>>, related: set<Triple>,
                      scope: string, key: string, tags: set<string>)
    requires EncodesReverse(reverse, related) && NulFree(scope)
    requires Shaped(map[], reverse') && Gained(reverse, reverse', scope, {key}, tags)
    ensures EncodesReverse(reverse', related + KeyWithTags(scope, key, tags))
  {
    var related' := related + KeyWithTags(scope, key, tags);
    forall s, k, t | NulFree(s) ensures (s, k, t) in related' <==> t in Lookup(reverse', Composite(s, k)) {
      AddressIn(scope, {key}, s, k);
    }
  }

  lemma LostForward(forward: map<string, set<string>>, forward': map<string, set<string>>, related: set<Triple>,
                    scope: string, key: string, tags: set<string>)
    requires EncodesForward(forward, related) && NulFree(scope)
    requires Shaped(forward', map[]) && Lost(forward, forward', scope, tags, {key})
    ensures EncodesForward(forward', related - KeyWithTags(scope, key, tags))
  {
    var related' := related - KeyWithTags(scope, key, tags);
    forall s, k, t | NulFree(s) ensures (s, k, t) in related' <==> k in Lookup(forward', Composite(s, t)) {
      AddressIn(scope, tags, s, t);
    }
  }

  lemma LostReverse(reverse: map<string, set<string>>, reverse': map<string, set<string>>, related: set<Triple>,
                    scope: string, key: string, tags: set<string>)
    requires EncodesReverse(reverse, related) && NulFree(scope)
    requires Shaped(map[], reverse') && Lost(reverse, reverse', scope, {key}, tags)
    ensures EncodesReverse(reverse', related - KeyWithTags(scope, key, tags))
  {
    var related' := related - KeyWithTags(scope, key, tags);
    forall s, k, t | NulFree(s) ensures (s, k, t) in related' <==> t in Lookup(reverse', Composite(s, k)) {
      AddressIn(scope, {key}, s, k);
    }
  }

  // All members at one forward address are gone.
  lemma TagGoneForward(forward: map<string, set<string>>, related: set<Triple>, scope: string, tag: string)
    requires EncodesForward(forward, related) && NulFree(scope)
    ensures EncodesForward(forward - {Composite(scope, tag)}, related - TriplesTagged(related, scope, tag))
  {
    var f, related' := Composite(scope, tag), related - TriplesTagged(related, scope, tag);
    forall s, k, t | NulFree(s) ensures (s, k, t) in related' <==> k in Lookup(forward - {f}, Composite(s, t)) {
      CompositeInjective(s, t, scope, tag);
    }
  }

  lemma TagGoneReverse(forward: map<string, set<string>>,
                       reverse: map<string, set<string>>, reverse': map<string, set<string>>,
                       related: set<Triple>, scope: string, tag: string)
    requires EncodesForward(forward, related) && EncodesReverse(reverse, related) && NulFree(scope)
             && Shaped(map[], reverse')
    requires Lost(reverse, reverse', scope, Lookup(forward, Composite(scope, tag)), {tag})
    ensures EncodesReverse(reverse', related - TriplesTagged(related, scope, tag))
  {
    forall s, k, t | NulFree(s)
      ensures (s, k, t) in related - TriplesTagged(related, scope, tag) <==> t in Lookup(reverse', Composite(s, k))
    {
      TagGoneAt(forward, reverse, reverse', related, scope, tag, s, k, t);
    }
  }

  lemma TagGoneAt(forward: map<string, set<string>>,
                  reverse: map<string, set<string>>, reverse': map<string, set<string>>,
                  related: set<Triple>, scope: string, tag: string, s: string, k: string, t: string)
    requires EncodesForward(forward, related) && EncodesReverse(reverse, related) && NulFree(scope) && NulFree(s)
    requires Lost(reverse, reverse', scope, Lookup(forward, Composite(scope, tag)), {tag})
    ensures (s, k, t) in related - TriplesTagged(related, scope, tag) <==> t in Lookup(reverse', Composite(s, k))
  {
    var keys := Lookup(forward, Composite(scope, tag));
    AddressIn(scope, keys, s, k);
    assert (scope, k, tag) in related <==> k in keys;
    assert (s, k, t) in related <==> t in Lookup(reverse, Composite(s, k));
  }

  lemma TagsOfKey(reverse: map<string, set<string>>, related: set<Triple>, scope: string, key: string)
    requires EncodesReverse(reverse, related) && NulFree(scope)
    ensures KeyWithTags(scope, key, Lookup(reverse, Composite(scope, key))) == TriplesOf(related, scope, key)
  {
    forall r ensures r in KeyWithTags(scope, key, Lookup(reverse, Composite(scope, key)))
        <==> r in TriplesOf(related, scope, key) {
      assert r == (r.0, r.1, r.2);
    }
  }

  lemma TagsAdded(forward: map<string, set<string>>, forward': map<string, set<string>>,
                  reverse: map<string, set<string>>, reverse': map<string, set<string>>,
                  related: set<Triple>, scope: string, key: string, tags: set<string>)
    requires Encodes(forward, reverse, related) && NulFree(scope) && Shaped(forward', reverse')
    requires Gained(forward, forward', scope, tags, {key})
    requires Gained(reverse, reverse', scope, {key}, tags)
    ensures Encodes(forward', reverse', related + KeyWithTags(scope, key, tags))
  {
    GainedForward(forward, forward', related, scope, key, tags);
    GainedReverse(reverse, reverse', related, scope, key, tags);
  }

  lemma TagsRemoved(forward: map<string, set<string>>, forward': map<string, set<string>>,
                    reverse: map<string, set<string>>, reverse': map<string, set<string>>,
                    related: set<Triple>, scope: string, key: string, tags: set<string>)
    requires Encodes(forward, reverse, related) && NulFree(scope) && Shaped(forward', reverse')
    requires Lost(forward, forward', scope, tags, {key})
    requires Lost(reverse, reverse', scope, {key}, tags)
    ensures Encodes(forward', reverse', related - KeyWithTags(scope, key, tags))
  {
    LostForward(forward, forward', related, scope, key, tags);
    LostReverse(reverse, reverse', related, scope, key, tags);
  }

  lemma TagGone(forward: map<string, set<string>>, forward': map<string, set<string>>,
                reverse: map<string, set<string>>, reverse': map<string, set<string>>,
                related: set<Triple>, scope: string, tag: string)
    requires Encodes(forward, reverse, related) && NulFree(scope) && Shaped(forward', reverse')
    requires forward' == forward - {Composite(scope, tag)}
    requires Lost(reverse, reverse', scope, Lookup(forward, Composite(scope, tag)), {tag})
    ensures Encodes(forward', reverse', related - TriplesTagged(related, scope, tag))
  {
    TagGoneForward(forward, related, scope, tag);
    TagGoneReverse(forward, reverse, reverse', related, scope, tag);
  }

  lemma OneMoreTag(forward: map<string, set<string>>, forward0: map<string, set<string>>,
                   forward': map<string, set<string>>, reverse: map<string, set<string>>,
                   reverse0: map<string, set<string>>, reverse': map<string, set<string>>,
                   scope: string, key: string, tags: seq<string>, i: nat)
    requires i < |tags|
    requires Gained(forward, forward0, scope, Members(tags[..i]), {key})
    requires Gained(forward0, forward', scope, {tags[i]}, {key})
    requires Gained(reverse, reverse0, scope, {key}, Members(tags[..i]))
    requires Gained(reverse0, reverse', scope, {key}, {tags[i]})
    ensures Gained(forward, forward', scope, Members(tags[..i + 1]), {key})
    ensures Gained(reverse, reverse', scope, {key}, Members(tags[..i + 1]))
  {
    var before := Members(tags[..i]);
    assert tags[..i + 1] == tags[..i] + [tags[i]];
    assert Members(tags[..i + 1]) == before + {tags[i]};
    GainedMore(forward, forward0, forward', scope, before, {tags[i]}, {key});
    GainedAlso(reverse, reverse0, reverse', scope, {key}, before, {tags[i]});
  }

  // ---- Series of calls ----

  datatype TagCall =
    | AddCall(scope: string, key: string, tags: seq<string>)
    | RemoveKeyCall(scope: string, key: string, which: Option<seq<string>>)
    | RemoveTagCall(scope: string, tag: string)

  // What a call makes of the relation.
  function RelatedAfterCall(related: set<Triple>, call: TagCall): set<Triple> {
    match call
    case AddCall(scope, key, tags) => related + KeyWithTags(scope, key, Members(tags))
    case RemoveKeyCall(scope, key, Some(tags)) => related - KeyWithTags(scope, key, Members(tags))
    case RemoveKeyCall(scope, key, None) => related - TriplesOf(related, scope, key)
    case RemoveTagCall(scope, tag) => related - TriplesTagged(related, scope, tag)
  }

  function RelatedAfterCalls(calls: seq<TagCall>): set<Triple> {
    if calls == [] then {} else RelatedAfterCall(RelatedAfterCalls(calls[..|calls| - 1]), calls[|calls| - 1])
  }

  // The call gives the key the tag.
  predicate Tags(call: TagCall, scope: string, key: string, tag: string) {
    call.AddCall? && call.scope == scope && call.key == key && tag in call.tags
  }

  // The call takes the tag from the key: by name, with all its tags, or with all keys of the tag.
  predicate Untags(call: TagCall, scope: string, key: string, tag: string) {
    match call
    case AddCall(_, _, _) => false
    case RemoveKeyCall(s, k, tags) => s == scope && k == key && (tags.None? || tag in tags.value)
    case RemoveTagCall(s, t) => s == scope && t == tag
  }

  // The i-th call gave the key the tag, and no later one took it.
  ghost predicate TaggedAt(calls: seq<TagCall>, i: nat, scope: string, key: string, tag: string) {
    && i < |calls| && Tags(calls[i], scope, key, tag)
    && forall j :: i < j < |calls| ==> !Untags(calls[j], scope, key, tag)
  }

  // A key has a tag exactly when some call gave it and no later call took it.
  lemma {:induction false} TaggedExactly(calls: seq<TagCall>, scope: string, key: string, tag: string)
    ensures (scope, key, tag) in RelatedAfterCalls(calls) <==> exists i: nat :: TaggedAt(calls, i, scope, key, tag)
  {
    if calls == [] {
    } else {
      var front, last := calls[..|calls| - 1], calls[|calls| - 1];
      TaggedExactly(front, scope, key, tag);
      assert forall j :: 0 <= j < |front| ==> front[j] == calls[j];
      if Tags(last, scope, key, tag) {
        assert TaggedAt(calls, |front|, scope, key, tag);
      } else if Untags(last, scope, key, tag) {
        assert forall i: nat :: !TaggedAt(calls, i, scope, key, tag);
      } else {
        assert forall i: nat :: TaggedAt(calls, i, scope, key, tag) <==> TaggedAt(front, i, scope, key, tag);
      }
    }
  }

  // ---- The index ----

  class InMemoryTagIndex {
    var forward: map<string, set<string>>
    var reverse: map<string, set<string>>
    // `sound` says that no scope used so far contains the delimiter: then both maps encode `related`.
    ghost var sound: bool
    ghost var related: set<Triple>

    ghost predicate Valid()
      reads this
    {
      Shaped(forward, reverse) && (sound ==> Encodes(forward, reverse, related))
    }

    constructor ()
      ensures Valid() && sound && related == {} && forward == map[] && reverse == map[]
    {
      forward, reverse, sound, related := map[], map[], true, {};
    }

    method AddTags(scope: string, key: string, tags: seq<string>)
      requires Valid()
      modifies this
      ensures Valid() && reverse.Keys == old(reverse).Keys + {Composite(scope, key)}
      ensures Gained(old(forward), forward, scope, Members(tags), {key})
      ensures Gained(old(reverse), reverse, scope, {key}, Members(tags))
      ensures sound == (old(sound) && NulFree(scope))
      ensures sound ==> related == old(related) + KeyWithTags(scope, key, Members(tags))
    {
      ghost var forward0, reverse0, related0, members := forward, reverse, related, Members(tags);
      LinkAll(scope, key, tags);
      ghost var stillSound := sound && NulFree(scope);
      ghost var related' := if stillSound then related0 + KeyWithTags(scope, key, members) else related0;
      if stillSound {
        TagsAdded(forward0, forward, reverse0, reverse, related0, scope, key, members);
      }
      sound, related := stillSound, related';
    }

    // The reverse entry, and the loop that adds `tags` to (scope, key).
    method LinkAll(scope: string, key: string, tags: seq<string>)
      requires Shaped(forward, reverse)
      modifies this`forward, this`reverse
      ensures Shaped(forward, reverse) && reverse.Keys == old(reverse).Keys + {Composite(scope, key)}
      ensures Gained(old(forward), forward, scope, Members(tags), {key})
      ensures Gained(old(reverse), reverse, scope, {key}, Members(tags))
    {
      var reverseKey := Composite(scope, key);
      if reverseKey !in reverse {
        reverse := reverse[reverseKey := {}];
      }
      for i := 0 to |tags|
        invariant Shaped(forward, reverse) && reverse.Keys == old(reverse).Keys + {reverseKey}
        invariant Gained(old(forward), forward, scope, Members(tags[..i]), {key})
        invariant Gained(old(reverse), reverse, scope, {key}, Members(tags[..i]))
      {
        ghost var forward0, reverse0 := forward, reverse;
        Link(scope, key, tags[i]);
        OneMoreTag(old(forward), forward0, forward, old(reverse), reverse0, reverse, scope, key, tags, i);
      }
      assert tags[..|tags|] == tags;
    }

    // The body of that loop.
    method Link(scope: string, key: string, tag: string)
      requires Shaped(forward, reverse) && Composite(scope, key) in reverse
      modifies this`forward, this`reverse
      ensures Shaped(forward, reverse) && reverse.Keys == old(reverse).Keys
      ensures Gained(old(forward), forward, scope, {tag}, {key})
      ensures Gained(old(reverse), reverse, scope, {key}, {tag})
    {
      var reverseKey, forwardKey := Composite(scope, key), Composite(scope, tag);
      reverse := reverse[reverseKey := reverse[reverseKey] + {tag}];
      var keys := if forwardKey in forward then forward[forwardKey] else {};
      forward := forward[forwardKey := keys + {key}];
      GainedThere(old(forward), forward, scope, tag, {key});
      GainedThere(old(reverse), reverse, scope, key, {tag});
    }

    method GetKeysByTag(scope: string, tag: string) returns (keys: set<string>)
      requires Valid()
      ensures keys == Lookup(forward, Composite(scope, tag))
      ensures sound && NulFree(scope) ==> forall key :: key in keys <==> (scope, key, tag) in related
    {
      var forwardKey := Composite(scope, tag);
      keys := if forwardKey in forward then forward[forwardKey] else {};
    }

    // The tags that go: the given ones, or all those of the reverse entry.
    method RemoveKey(scope: string, key: string, tags: Option<seq<string>>)
      requires Valid()
      modifies this
      ensures Valid() && reverse.Keys <= old(reverse).Keys
      ensures var gone := if tags.Some? then Members(tags.value) else Lookup(old(reverse), Composite(scope, key));
              && Lost(old(forward), forward, scope, gone, {key})
              && Lost(old(reverse), reverse, scope, {key}, gone)
      ensures tags.None? ==> Composite(scope, key) !in reverse
      ensures sound == (old(sound) && NulFree(scope))
      ensures sound && tags.Some? ==> related == old(related) - KeyWithTags(scope, key, Members(tags.value))
      ensures sound && tags.None? ==> related == old(related) - TriplesOf(old(related), scope, key)
    {
      var reverseKey := Composite(scope, key);
      var tagsToRemove := match tags
        case Some(list) => Members(list)
        case None => if reverseKey in reverse then reverse[reverseKey] else {};
      if sound && NulFree(scope) {
        TagsOfKey(reverse, related, scope, key);
      }
      RemoveTags(scope, key, tagsToRemove);
      assert Lookup(reverse, reverseKey) == Lookup(old(reverse), reverseKey) - tagsToRemove;
    }

    method RemoveTags(scope: string, key: string, tags: set<string>)
      requires Valid()
      modifies this
      ensures Valid() && reverse.Keys <= old(reverse).Keys
      ensures Lost(old(forward), forward, scope, tags, {key})
      ensures Lost(old(reverse), reverse, scope, {key}, tags)
      ensures Composite(scope, key) in reverse ==> reverse[Composite(scope, key)] != {}
      ensures sound == (old(sound) && NulFree(scope))
      ensures sound ==> related == old(related) - KeyWithTags(scope, key, tags)
    {
      ghost var forward0, reverse0, related0 := forward, reverse, related;
      StripAndPrune(scope, key, tags);
      ghost var stillSound := sound && NulFree(scope);
      ghost var related' := if stillSound then related0 - KeyWithTags(scope, key, tags) else related0;
      if stillSound {
        TagsRemoved(forward0, forward, reverse0, reverse, related0, scope, key, tags);
      }
      sound, related := stillSound, related';
    }

    method StripAndPrune(scope: string, key: string, tags: set<string>)
      requires Shaped(forward, reverse)
      modifies this`forward, this`reverse
      ensures Shaped(forward, reverse) && reverse.Keys <= old(reverse).Keys
      ensures Lost(old(forward), forward, scope, tags, {key})
      ensures Lost(old(reverse), reverse, scope, {key}, tags)
      ensures Composite(scope, key) in reverse ==> reverse[Composite(scope, key)] != {}
    {
      var reverseKey := Composite(scope, key);
      Strip(scope, key, tags);
      if reverseKey in reverse && reverse[reverseKey] == {} {
        LostAndPruned(old(reverse), reverse, scope, {key}, tags, reverseKey);
        reverse := reverse - {reverseKey};
      }
    }

    // The loop that removes `tags` from (scope, key).
    method Strip(scope: string, key: string, tags: set<string>)
      requires Shaped(forward, reverse)
      modifies this`forward, this`reverse
      ensures Shaped(forward, reverse) && reverse.Keys == old(reverse).Keys
      ensures Lost(old(forward), forward, scope, tags, {key})
      ensures Lost(old(reverse), reverse, scope, {key}, tags)
    {
      var rest := tags;
      while rest != {}
        invariant Shaped(forward, reverse) && rest <= tags && reverse.Keys == old(reverse).Keys
        invariant Lost(old(forward), forward, scope, tags - rest, {key})
        invariant Lost(old(reverse), reverse, scope, {key}, tags - rest)
      {
        var tag :| tag in rest;
        ghost var forward0, reverse0, before := forward, reverse, tags - rest;
        Unlink(scope, key, tag);
        rest := rest - {tag};
        assert tags - rest == before + {tag};
        LostMore(old(forward), forward0, forward, scope, before, {tag}, {key});
        LostAlso(old(reverse), reverse0, reverse, scope, {key}, before, {tag});
      }
      assert tags - rest == tags;
    }

    // The body of that loop.
    method Unlink(scope: string, key: string, tag: string)
      requires Shaped(forward, reverse)
      modifies this`forward, this`reverse
      ensures Shaped(forward, reverse) && reverse.Keys == old(reverse).Keys
      ensures Lost(old(forward), forward, scope, {tag}, {key})
      ensures Lost(old(reverse), reverse, scope, {key}, {tag})
    {
      var reverseKey, forwardKey := Composite(scope, key), Composite(scope, tag);
      if forwardKey in forward {
        var keys := forward[forwardKey] - {key};
        forward := if keys == {} then forward - {forwardKey} else forward[forwardKey := keys];
      }
      if reverseKey in reverse {
        reverse := reverse[reverseKey := reverse[reverseKey] - {tag}];
      }
      LostThere(old(forward), forward, scope, tag, {key});
      LostThere(old(reverse), reverse, scope, key, {tag});
    }

    method RemoveTag(scope: string, tag: string)
      requires Valid()
      modifies this
      ensures Valid() && reverse.Keys <= old(reverse).Keys
      ensures forward == old(forward) - {Composite(scope, tag)}
      ensures Lost(old(reverse), reverse, scope, Lookup(old(forward), Composite(scope, tag)), {tag})
      ensures sound == (old(sound) && NulFree(scope))
      ensures sound ==> related == old(related) - TriplesTagged(old(related), scope, tag)
    {
      ghost var forward0, reverse0, related0 := forward, reverse, related;
      var forwardKey := Composite(scope, tag);
      if forwardKey in forward {
        StripReverse(scope, tag, forward[forwardKey]);
        forward := forward - {forwardKey};
      }
      ghost var stillSound := sound && NulFree(scope);
      ghost var related' := if stillSound then related0 - TriplesTagged(related0, scope, tag) else related0;
      if stillSound {
        TagGone(forward0, forward, reverse0, reverse, related0, scope, tag);
      }
      sound, related := stillSound, related';
    }

    // The loop that strips `tag` from the reverse sets of `keys`.
    method StripReverse(scope: string, tag: string, keys: set<string>)
      requires Shaped(forward, reverse)
      modifies this`reverse
      ensures Shaped(forward, reverse) && reverse.Keys <= old(reverse).Keys
      ensures Lost(old(reverse), reverse, scope, keys, {tag})
    {
      var rest := keys;
      while rest != {}
        invariant Shaped(forward, reverse) && rest <= keys && reverse.Keys <= old(reverse).Keys
        invariant Lost(old(reverse), reverse, scope, keys - rest, {tag})
      {
        var key :| key in rest;
        ghost var reverse0, before := reverse, keys - rest;
        var reverseKey := Composite(scope, key);
        if reverseKey in reverse {
          var tags := reverse[reverseKey] - {tag};
          reverse := if tags == {} then reverse - {reverseKey} else reverse[reverseKey := tags];
        }
        rest := rest - {key};
        assert keys - rest == before + {key};
        LostThere(reverse0, reverse, scope, key, {tag});
        LostMore(old(reverse), reverse0, reverse, scope, before, {key}, {tag});
      }
      assert keys - rest == keys;
    }
  }
}
