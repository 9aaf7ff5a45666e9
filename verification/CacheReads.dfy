/**
 Reading through the layers: how an entry is classified, when a stale one may be served, what
 lifetimes a stored entry gets, and how old a served value can be over a whole run.
 */
module CacheReads {
  import opened Options

  type Key = string

  // `staleUntil` is absent unless the query asked for stale-while-revalidate.
  datatype Entry = Entry(value: int, createdAt: int, expiresAt: int, staleUntil: Option<int>)

  // The `staleWhileRevalidate` option: a flag, a number of milliseconds, or a duration text.
  datatype Stale = Flag(on: bool) | Millis(ms: nat) | Text(ms: nat)

  datatype Consistency = Performance | Balanced | Strict

  // A number 0 counts as false, a text never does.
  predicate Truthy(stale: Stale) {
    match stale
    case Flag(on) => on
    case Millis(ms) => ms != 0
    case Text(_) => true
  }

  predicate CanServeStale(consistency: Consistency, query: Option<Stale>, safety: Option<bool>) {
    if consistency == Strict then false
    else if query.Some? then Truthy(query.value)
    else safety == Some(true)
  }

  function StaleMs(stale: Stale, ttlMs: nat): nat {
    if stale.Flag? then ttlMs else stale.ms
  }

  function ResolveStaleUntil(query: Option<Stale>, ttlMs: nat, now: int): Option<int> {
    if query.Some? && Truthy(query.value) then Some(now + ttlMs + StaleMs(query.value, ttlMs)) else None
  }

  function ResolvePhysicalTtl(now: int, ttlMs: nat, staleUntil: Option<int>): int {
    if staleUntil.None? then ttlMs
    else if staleUntil.value - now > ttlMs then staleUntil.value - now
    else ttlMs
  }

  // ---- Classifying ----

  predicate IsFresh(entry: Entry, now: int) {
    entry.expiresAt > now
  }

  // A stale window that ends at 0 counts as none.
  predicate IsStale(entry: Entry, now: int) {
    !IsFresh(entry, now) && entry.staleUntil.Some? && entry.staleUntil.value != 0 && entry.staleUntil.value > now
  }

  // What a layer gave, and the clock when it was looked at; `Broken` throws, `Garbled` does not
  // deserialize.
  datatype Raw = Nothing | Broken | Garbled | Stored(entry: Entry)

  datatype Probe = Probe(raw: Raw, now: int)

  datatype ReadResult = Hit(entry: Entry, layer: nat) | StaleHit(entry: Entry, layer: nat) | Miss | Threw(layer: nat)

  predicate Useful(probe: Probe) {
    probe.raw.Stored? && (IsFresh(probe.raw.entry, probe.now) || IsStale(probe.raw.entry, probe.now))
  }

  predicate Fails(probe: Probe) {
    probe.raw.Broken? || probe.raw.Garbled?
  }

  // Where reading stops: at a useful entry, or at a failure unless reads fail open.
  predicate Stops(probe: Probe, failOpen: bool) {
    Useful(probe) || (Fails(probe) && !failOpen)
  }

  // What the result says: which layer stopped the reading, and why.
  predicate StoppedAt(result: ReadResult, probes: seq<Probe>) {
    match result
    case Miss => true
    case Threw(layer) => layer < |probes| && Fails(probes[layer])
    case Hit(entry, layer) =>
      layer < |probes| && probes[layer].raw == Stored(entry) && IsFresh(entry, probes[layer].now)
    case StaleHit(entry, layer) =>
      layer < |probes| && probes[layer].raw == Stored(entry) && IsStale(entry, probes[layer].now)
  }

  function ClassifyFrom(probes: seq<Probe>, index: nat, failOpen: bool): (result: ReadResult)
    requires index <= |probes|
    ensures StoppedAt(result, probes)
    ensures result == Miss <==> forall i :: index <= i < |probes| ==> !Stops(probes[i], failOpen)
    ensures result != Miss ==>
              && index <= result.layer < |probes| && Stops(probes[result.layer], failOpen)
              && forall i :: index <= i < result.layer ==> !Stops(probes[i], failOpen)
    decreases |probes| - index
  {
    if index == |probes| then Miss
    else
      var Probe(raw, now) := probes[index];
      if raw.Stored? && IsFresh(raw.entry, now) then Hit(raw.entry, index)
      else if raw.Stored? && IsStale(raw.entry, now) then StaleHit(raw.entry, index)
      else if Fails(probes[index]) && !failOpen then Threw(index)
      else ClassifyFrom(probes, index + 1, failOpen)
  }

  function Classify(probes: seq<Probe>, breakerOpen: bool, failOpen: bool): (result: ReadResult)
    ensures StoppedAt(result, probes)
  {
    if breakerOpen then Miss else ClassifyFrom(probes, 0, failOpen)
  }

  method ReadLayers(probes: seq<Probe>, breakerOpen: bool, failOpen: bool) returns (result: ReadResult)
    ensures result == Classify(probes, breakerOpen, failOpen) && StoppedAt(result, probes)
    ensures result == Miss <==> breakerOpen || forall i :: 0 <= i < |probes| ==> !Stops(probes[i], failOpen)
    ensures result != Miss ==>
              && result.layer < |probes| && Stops(probes[result.layer], failOpen)
              && forall i :: 0 <= i < result.layer ==> !Stops(probes[i], failOpen)
  {
    if breakerOpen {
      return Miss;
    }
    for index := 0 to |probes|
      invariant ClassifyFrom(probes, 0, failOpen) == ClassifyFrom(probes, index, failOpen)
    {
      var Probe(raw, now) := probes[index];
      match raw {
        case Nothing =>
        case Broken => if !failOpen { return Threw(index); }
        case Garbled => if !failOpen { return Threw(index); }
        case Stored(entry) =>
          if entry.expiresAt > now {
            return Hit(entry, index);
          }
          if entry.staleUntil.Some? && entry.staleUntil.value != 0 && entry.staleUntil.value > now {
            return StaleHit(entry, index);
          }
      }
    }
    return Miss;
  }

  // ---- Lifetimes ----

  // What a fetch that ended at `now` stores; the stale window is measured by a later clock reading.
  function BuildEntry(value: int, query: Option<Stale>, ttlMs: nat, now: int, later: int): Entry {
    Entry(value, now, now + ttlMs, ResolveStaleUntil(query, ttlMs, later))
  }

  // A copy stored at any later time outlives both the expiry and the stale window, by as long as storing
  // it took.
  lemma StoredCopyOutlivesEntry(value: int, query: Option<Stale>, ttlMs: nat, now: int, later: int, storedAt: int)
    requires now <= later <= storedAt
    ensures var entry := BuildEntry(value, query, ttlMs, now, later);
            var physicalUntil := storedAt + ResolvePhysicalTtl(now, ttlMs, entry.staleUntil);
            && entry.expiresAt <= physicalUntil
            && (entry.staleUntil.Some? ==> entry.staleUntil.value <= physicalUntil)
            && physicalUntil - (storedAt - now)
               == (if entry.staleUntil.Some? && entry.staleUntil.value > entry.expiresAt then entry.staleUntil.value
                   else entry.expiresAt)
  {
  }

  // At some time a reader with these options is served the entry although it has expired.
  ghost predicate ServableStale(entry: Entry, consistency: Consistency, reader: Option<Stale>, safety: Option<bool>) {
    exists at :: IsStale(entry, at) && CanServeStale(consistency, reader, safety)
  }

  // The life of a fetched entry by the clock: fresh for its lifetime, then servable as stale for the window
  // its query asked for, measured from the later clock reading, then gone.
  lemma FreshThenStaleThenGone(value: int, query: Option<Stale>, ttlMs: nat, now: int, later: int, at: int,
                               failOpen: bool)
    requires 0 <= now <= later
    ensures var entry := BuildEntry(value, query, ttlMs, now, later);
            var asked := query.Some? && query != Some(Flag(false)) && query != Some(Millis(0));
            var windowMs := if query == Some(Flag(true)) then ttlMs else if asked then query.value.ms else 0;
            Classify([Probe(Stored(entry), at)], false, failOpen)
            == if at < now + ttlMs then Hit(entry, 0)
               else if asked && at < later + ttlMs + windowMs then StaleHit(entry, 0)
               else Miss
  {
    var probes := [Probe(Stored(BuildEntry(value, query, ttlMs, now, later)), at)];
    assert ClassifyFrom(probes, 1, failOpen) == Miss;
  }

  // The cache-wide option alone serves nothing stale: besides the reader's permission it takes an entry
  // whose own query asked for a stale window, by a flag or a number or text that counts as true, and
  // got one of some length.
  lemma StaleTakesOwnWindow(value: int, query: Option<Stale>, ttlMs: nat, now: int, later: int,
                            consistency: Consistency, reader: Option<Stale>, safety: Option<bool>)
    requires 0 <= now <= later
    ensures ServableStale(BuildEntry(value, query, ttlMs, now, later), consistency, reader, safety)
            <==> && consistency != Strict
                 && reader != Some(Flag(false)) && reader != Some(Millis(0))
                 && (reader == None ==> safety == Some(true))
                 && query.Some? && query != Some(Flag(false)) && query != Some(Millis(0))
                 && later + (if query.value.Flag? then ttlMs else query.value.ms) > now
  {
    var entry := BuildEntry(value, query, ttlMs, now, later);
    if CanServeStale(consistency, reader, safety) && query.Some? && Truthy(query.value)
       && later + StaleMs(query.value, ttlMs) > now {
      assert IsStale(entry, entry.expiresAt);
    }
  }

  // ---- Runs ----

  // A fetch and what it stores; `staleMs` is the stale window it asked for.
  datatype Fetched = Fetched(key: Key, entry: Entry, ttlMs: nat, staleMs: Option<nat>, settledAt: int,
                             physicalTtlMs: int)

  // A copy in a layer, kept by the provider until `physicalUntil`.
  datatype Copy = Copy(entry: Entry, physicalUntil: int)

  datatype Refill = Refill(key: Key, entry: Entry, ttlMs: int)

  // What a query may do with a stale value: its own option comes before the cache-wide one.
  datatype Policy = Policy(consistency: Consistency, query: Option<Stale>, safety: Option<bool>)

  datatype Served = Served(key: Key, entry: Entry, at: int, stale: bool, policy: Policy)

  // `inHand` are entries that a provider has returned, and `looked` those among them that a reader has
  // looked at, with the clock reading it took; `refills` are backfills under way; `served` is the
  // history of values returned to callers.
  datatype State = State(
    now: int,
    fetched: set<Fetched>,
    copies: map<(nat, Key), Copy>,
    inHand: set<(Key, Entry)>,
    looked: set<(Key, Probe)>,
    refills: set<Refill>,
    served: set<Served>)

  datatype Step =
    | Tick(ms: nat)
    | EndFetch(key: Key, value: int, query: Option<Stale>, ttlMs: nat, clockMoves: nat)
    | StoreCopy(fetch: Fetched, layer: nat)
    | Get(layer: nat, key: Key)
    | Look(key: Key, entry: Entry)
    | Serve(key: Key, probes: seq<Probe>, breakerOpen: bool, failOpen: bool, policy: Policy)
    | StartRefill(hit: Served)
    | StoreRefill(refill: Refill, layer: nat)
    | Remove(layer: nat, key: Key)

  predicate Enabled(s: State, step: Step) {
    match step
    case Tick(_) => true
    case EndFetch(_, _, _, _, _) => true
    case StoreCopy(fetch, _) => fetch in s.fetched && fetch.settledAt <= s.now
    case Get(layer, key) => (layer, key) in s.copies && s.now < s.copies[(layer, key)].physicalUntil
    case Look(key, entry) => (key, entry) in s.inHand
    case Serve(key, probes, _, _, _) =>
      forall i :: 0 <= i < |probes| && probes[i].raw.Stored? ==> (key, probes[i]) in s.looked
    case StartRefill(hit) => hit in s.served && !hit.stale && hit.entry.expiresAt - s.now > 0
    case StoreRefill(refill, _) => refill in s.refills
    case Remove(_, _) => true
  }

  // The layers decide: a fresh entry is served, a stale one if the policy allows it, and otherwise the
  // caller goes on to the origin or gets the error.
  function AfterServe(s: State, key: Key, probes: seq<Probe>, result: ReadResult, policy: Policy): State
    requires StoppedAt(result, probes)
  {
    match result
    case Hit(entry, layer) =>
      s.(served := s.served + {Served(key, entry, probes[layer].now, false, policy)})
    case StaleHit(entry, layer) =>
      if CanServeStale(policy.consistency, policy.query, policy.safety) then
        s.(served := s.served + {Served(key, entry, probes[layer].now, true, policy)})
      else s
    case _ => s
  }

  function Apply(s: State, step: Step): State
    requires Enabled(s, step)
  {
    match step
    case Tick(ms) => s.(now := s.now + ms)
    case EndFetch(key, value, query, ttlMs, clockMoves) =>
      var entry := BuildEntry(value, query, ttlMs, s.now, s.now + clockMoves);
      var staleMs := if query.Some? && Truthy(query.value) then Some(StaleMs(query.value, ttlMs)) else None;
      s.(fetched := s.fetched + {Fetched(key, entry, ttlMs, staleMs, s.now + clockMoves,
                                         ResolvePhysicalTtl(s.now, ttlMs, entry.staleUntil))})
    case StoreCopy(fetch, layer) =>
      s.(copies := s.copies[(layer, fetch.key) := Copy(fetch.entry, s.now + fetch.physicalTtlMs)])
    case Get(layer, key) => s.(inHand := s.inHand + {(key, s.copies[(layer, key)].entry)})
    case Look(key, entry) => s.(looked := s.looked + {(key, Probe(Stored(entry), s.now))})
    case Serve(key, probes, breakerOpen, failOpen, policy) =>
      AfterServe(s, key, probes, Classify(probes, breakerOpen, failOpen), policy)
    case StartRefill(hit) =>
      s.(refills := s.refills + {Refill(hit.key, hit.entry, hit.entry.expiresAt - s.now)})
    case StoreRefill(refill, layer) =>
      s.(copies := s.copies[(layer, refill.key) := Copy(refill.entry, s.now + refill.ttlMs)])
    case Remove(layer, key) => s.(copies := s.copies - {(layer, key)})
  }

  ghost predicate Runs(s: State, steps: seq<Step>, s': State)
    decreases |steps|
  {
    if steps == [] then s == s'
    else Enabled(s, steps[0]) && Runs(Apply(s, steps[0]), steps[1..], s')
  }

  const START := State(0, {}, map[], {}, {}, {}, {})

  // The entry came from some fetch of the key.
  ghost predicate Original(s: State, key: Key, entry: Entry) {
    exists f :: f in s.fetched && f.key == key && f.entry == entry
  }

  ghost predicate FetchedRight(f: Fetched) {
    && f.entry.expiresAt == f.entry.createdAt + f.ttlMs && f.entry.createdAt <= f.settledAt
    && (f.entry.staleUntil.Some? <==> f.staleMs.Some?)
    && (f.staleMs.Some? ==> f.entry.staleUntil.value == f.settledAt + f.ttlMs + f.staleMs.value)
    && f.entry.expiresAt <= f.settledAt + f.physicalTtlMs
    && (f.staleMs.Some? ==> f.entry.staleUntil.value <= f.settledAt + f.physicalTtlMs)
  }

  predicate ServedInTime(v: Served) {
    if v.stale then CanServeStale(v.policy.consistency, v.policy.query, v.policy.safety) && IsStale(v.entry, v.at)
    else IsFresh(v.entry, v.at)
  }

  ghost predicate Invariant(s: State) {
    && (forall f :: f in s.fetched ==> FetchedRight(f))
    && (forall p :: p in s.copies ==>
          Original(s, p.1, s.copies[p].entry) && s.copies[p].entry.expiresAt <= s.copies[p].physicalUntil)
    && (forall p :: p in s.inHand ==> Original(s, p.0, p.1))
    && (forall p :: p in s.looked && p.1.raw.Stored? ==> Original(s, p.0, p.1.raw.entry))
    && (forall r :: r in s.refills ==> Original(s, r.key, r.entry) && r.entry.expiresAt <= s.now + r.ttlMs)
    && (forall v :: v in s.served ==> Original(s, v.key, v.entry) && ServedInTime(v))
  }

  lemma OriginalPersists(s: State, s': State, key: Key, entry: Entry)
    requires Original(s, key, entry) && s.fetched <= s'.fetched
    ensures Original(s', key, entry)
  {
  }

  lemma ServedKeeps(s: State, v: Served)
    requires Invariant(s) && Original(s, v.key, v.entry) && ServedInTime(v)
    ensures Invariant(s.(served := s.served + {v}))
  {
    OriginalsPersist(s, s.(served := s.served + {v}));
  }

  // Only the classification makes a served value one in time.
  lemma ServeKeeps(s: State, key: Key, probes: seq<Probe>, breakerOpen: bool, failOpen: bool, policy: Policy)
    requires Invariant(s) && Enabled(s, Serve(key, probes, breakerOpen, failOpen, policy))
    ensures Invariant(AfterServe(s, key, probes, Classify(probes, breakerOpen, failOpen), policy))
  {
    match Classify(probes, breakerOpen, failOpen)
    case Hit(entry, layer) =>
      assert (key, probes[layer]) in s.looked;
      ServedKeeps(s, Served(key, entry, probes[layer].now, false, policy));
    case StaleHit(entry, layer) =>
      assert (key, probes[layer]) in s.looked;
      if CanServeStale(policy.consistency, policy.query, policy.safety) {
        ServedKeeps(s, Served(key, entry, probes[layer].now, true, policy));
      }
    case _ =>
  }

  lemma OriginalsPersist(s: State, s': State)
    requires s.fetched <= s'.fetched
    ensures forall key, entry :: Original(s, key, entry) ==> Original(s', key, entry)
  {
    forall key, entry | Original(s, key, entry) ensures Original(s', key, entry) {
      OriginalPersists(s, s', key, entry);
    }
  }

  lemma StepKeeps(s: State, step: Step)
    requires Invariant(s) && Enabled(s, step)
    ensures Invariant(Apply(s, step))
  {
    if step.Serve? {
      ServeKeeps(s, step.key, step.probes, step.breakerOpen, step.failOpen, step.policy);
    } else {
      OriginalsPersist(s, Apply(s, step));
    }
  }

  lemma {:induction false} RunKeeps(s: State, steps: seq<Step>, s': State)
    requires Invariant(s) && Runs(s, steps, s')
    ensures Invariant(s')
    decreases |steps|
  {
    if steps == [] {
    } else {
      StepKeeps(s, steps[0]);
      RunKeeps(Apply(s, steps[0]), steps[1..], s');
    }
  }

  // Every value served from the layers, through whatever copies and backfills, was fetched for that
  // key, and is younger than its own lifetime, or than its own stale window where stale values may
  // be served; under "strict" it is always the former.
  lemma ServedValuesAreInTime(steps: seq<Step>, s: State, v: Served) returns (f: Fetched)
    requires Runs(START, steps, s) && v in s.served
    ensures f in s.fetched && f.key == v.key && f.entry == v.entry
    ensures !v.stale ==> v.at < v.entry.createdAt + f.ttlMs
    ensures v.stale ==> f.staleMs.Some? && v.at < f.settledAt + f.ttlMs + f.staleMs.value
                        && v.policy.consistency != Strict
  {
    RunKeeps(START, steps, s);
    f :| f in s.fetched && f.key == v.key && f.entry == v.entry;
  }

  // A value served stale was asked for: by the reader, or by the cache where the reader says nothing.
  lemma StaleWasAskedFor(steps: seq<Step>, s: State, v: Served)
    requires Runs(START, steps, s) && v in s.served && v.stale
    ensures v.policy.consistency != Strict
    ensures v.policy.query != Some(Flag(false)) && v.policy.query != Some(Millis(0))
    ensures v.policy.query == None ==> v.policy.safety == Some(true)
  {
    RunKeeps(START, steps, s);
  }

  // A fresh value is served, a stale one exactly when it is asked for, and nothing else.
  lemma ServesExactly(s: State, key: Key, probes: seq<Probe>, breakerOpen: bool, failOpen: bool, policy: Policy)
    requires Enabled(s, Serve(key, probes, breakerOpen, failOpen, policy))
    ensures var served := Apply(s, Serve(key, probes, breakerOpen, failOpen, policy)).served;
            var asked := && policy.consistency != Strict
                         && policy.query != Some(Flag(false)) && policy.query != Some(Millis(0))
                         && (policy.query == None ==> policy.safety == Some(true));
            match Classify(probes, breakerOpen, failOpen)
            case Hit(entry, layer) => served == s.served + {Served(key, entry, probes[layer].now, false, policy)}
            case StaleHit(entry, layer) =>
              served == s.served + if asked then {Served(key, entry, probes[layer].now, true, policy)} else {}
            case _ => served == s.served
  {
  }

  // No copy disappears for its age before its entry has expired, and a copy stored by a write not
  // before its stale window is over.
  lemma CopiesLastLongEnough(steps: seq<Step>, s: State, layer: nat, key: Key)
    requires Runs(START, steps, s) && (layer, key) in s.copies
    ensures s.copies[(layer, key)].entry.expiresAt <= s.copies[(layer, key)].physicalUntil
  {
    RunKeeps(START, steps, s);
  }

  lemma WrittenCopyOutlivesStaleWindow(steps: seq<Step>, s: State, fetch: Fetched, layer: nat)
    requires Runs(START, steps, s) && Enabled(s, StoreCopy(fetch, layer)) && fetch.entry.staleUntil.Some?
    ensures fetch.entry.staleUntil.value <= Apply(s, StoreCopy(fetch, layer)).copies[(layer, fetch.key)].physicalUntil
  {
    RunKeeps(START, steps, s);
  }

  // A backfilled copy is the same entry, and outlasts the original expiry by exactly the time that
  // the backfill took.
  lemma RefilledCopyKeepsExpiry(s: State, hit: Served, steps: seq<Step>, s': State, layer: nat)
    requires Enabled(s, StartRefill(hit)) && Runs(Apply(s, StartRefill(hit)), steps, s')
    ensures var step := StoreRefill(Refill(hit.key, hit.entry, hit.entry.expiresAt - s.now), layer);
            && Enabled(s', step) && s'.now >= s.now
            && Apply(s', step).copies[(layer, hit.key)]
               == Copy(hit.entry, hit.entry.expiresAt + (s'.now - s.now))
  {
    RefillsPersist(Apply(s, StartRefill(hit)), steps, s');
  }

  lemma {:induction false} RefillsPersist(s: State, steps: seq<Step>, s': State)
    requires Runs(s, steps, s')
    ensures s.refills <= s'.refills && s.now <= s'.now
    decreases |steps|
  {
    if steps == [] {
    } else {
      RefillsPersist(Apply(s, steps[0]), steps[1..], s');
    }
  }
}
