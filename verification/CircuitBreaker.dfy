/**
 The circuit breaker: the object that the cache updates, and what its states mean for whole
 series of recorded outcomes and state reads.
 */
module CircuitBreakers {
  import opened Options

  datatype CircuitState = Closed | Open | HalfOpen

  datatype Settings = Settings(enabled: bool, failureThreshold: int, resetAfterMs: nat)

  // The `circuitBreaker` option: absent, `true`, or an object with some of the fields.
  datatype BreakerOption =
    | Absent
    | Defaults
    | Given(enabled: Option<bool>, failureThreshold: Option<int>, resetAfterMs: Option<nat>)

  function Configure(option: BreakerOption): Settings {
    match option
    case Absent => Settings(false, 0, 0)
    case Defaults => Settings(true, 5, 30000)
    case Given(enabled, failureThreshold, resetAfterMs) =>
      Settings(
        if enabled.Some? then enabled.value else true,
        if failureThreshold.Some? then failureThreshold.value else 5,
        if resetAfterMs.Some? then resetAfterMs.value else 30000)
  }

  // `openedUntil == 0` stands for "not opened".
  datatype Breaker = Breaker(failures: nat, firstFailureAt: int, openedUntil: int, halfOpen: bool)

  const FRESH := Breaker(0, 0, 0, false)

  function StateOf(c: Settings, b: Breaker, now: int): CircuitState {
    if !c.enabled then Closed
    else if b.halfOpen then HalfOpen
    else if b.openedUntil == 0 then Closed
    else if now >= b.openedUntil then HalfOpen
    else Open
  }

  datatype Event = Read(at: int) | Success(at: int) | Failure(at: int)

  function AfterRead(c: Settings, b: Breaker, now: int): Breaker {
    if c.enabled && !b.halfOpen && b.openedUntil != 0 && now >= b.openedUntil then
      b.(halfOpen := true, openedUntil := 0)
    else b
  }

  function AfterSuccess(c: Settings, b: Breaker): Breaker {
    if !c.enabled then b
    else if b.halfOpen then FRESH
    else if b.failures == 0 then b
    else b.(failures := b.failures - 1, firstFailureAt := if b.failures == 1 then 0 else b.firstFailureAt)
  }

  function AfterFailure(c: Settings, b: Breaker, now: int): Breaker {
    if !c.enabled then b
    else if b.halfOpen then b.(halfOpen := false, openedUntil := now + c.resetAfterMs)
    else
      var restart := b.failures == 0 || now - b.firstFailureAt >= c.resetAfterMs;
      var failures := if restart then 1 else b.failures + 1;
      if failures >= c.failureThreshold then b.(failures := 0, firstFailureAt := 0, openedUntil := now + c.resetAfterMs)
      else b.(failures := failures, firstFailureAt := if restart then now else b.firstFailureAt)
  }

  function AfterEvent(c: Settings, b: Breaker, event: Event): Breaker {
    match event
    case Read(now) => AfterRead(c, b, now)
    case Success(_) => AfterSuccess(c, b)
    case Failure(now) => AfterFailure(c, b, now)
  }

  function AfterEvents(c: Settings, b: Breaker, events: seq<Event>): Breaker {
    if events == [] then b
    else AfterEvent(c, AfterEvents(c, b, events[..|events| - 1]), events[|events| - 1])
  }

  class CircuitBreaker {
    const settings: Settings
    var failures: nat
    var firstFailureAt: int
    var openedUntil: int
    var halfOpen: bool

    function Now(): Breaker
      reads this
    {
      Breaker(failures, firstFailureAt, openedUntil, halfOpen)
    }

    constructor (option: BreakerOption)
      ensures Now() == FRESH && settings == Configure(option)
    {
      settings := Configure(option);
      failures, firstFailureAt, openedUntil, halfOpen := 0, 0, 0, false;
    }

    // Reading the state moves an elapsed open window to half-open.
    method State(now: int) returns (state: CircuitState)
      modifies this
      ensures state == StateOf(settings, old(Now()), now)
      ensures Now() == AfterEvent(settings, old(Now()), Read(now))
    {
      if !settings.enabled {
        return Closed;
      }
      if halfOpen {
        return HalfOpen;
      }
      if openedUntil == 0 {
        return Closed;
      }
      if now >= openedUntil {
        halfOpen := true;
        openedUntil := 0;
        return HalfOpen;
      }
      return Open;
    }

    method IsOpen(now: int) returns (open: bool)
      modifies this
      ensures open <==> StateOf(settings, old(Now()), now) == Open
      ensures Now() == AfterEvent(settings, old(Now()), Read(now))
    {
      var state := State(now);
      open := state == Open;
    }

    method RecordSuccess()
      modifies this
      ensures Now() == AfterSuccess(settings, old(Now()))
    {
      if !settings.enabled {
        return;
      }
      if halfOpen {
        Reset();
        return;
      }
      if failures > 0 {
        failures := failures - 1;
        if failures == 0 {
          firstFailureAt := 0;
        }
      }
    }

    method RecordFailure(now: int)
      modifies this
      ensures Now() == AfterFailure(settings, old(Now()), now)
    {
      if !settings.enabled {
        return;
      }
      if halfOpen {
        halfOpen := false;
        openedUntil := now + settings.resetAfterMs;
        return;
      }
      if failures == 0 || now - firstFailureAt >= settings.resetAfterMs {
        failures := 0;
        firstFailureAt := now;
      }
      failures := failures + 1;
      if failures >= settings.failureThreshold {
        openedUntil := now + settings.resetAfterMs;
        failures := 0;
        firstFailureAt := 0;
      }
    }

    method Reset()
      modifies this
      ensures Now() == FRESH
    {
      failures, firstFailureAt, openedUntil, halfOpen := 0, 0, 0, false;
    }
  }

  // ---- When a fresh breaker trips ----

  ghost predicate Monotone(events: seq<Event>) {
    forall i, j :: 0 <= i <= j < |events| ==> events[i].at <= events[j].at
  }

  // Failures minus successes.
  function Balance(events: seq<Event>): int {
    if events == [] then 0
    else Balance(events[..|events| - 1]) + match events[|events| - 1]
      case Read(_) => 0
      case Success(_) => -1
      case Failure(_) => 1
  }

  // Some contiguous run of the events has at least `threshold` more failures than successes.
  ghost predicate HasBadRun(events: seq<Event>, threshold: int) {
    exists i, j :: 0 <= i <= j <= |events| && Balance(events[i..j]) >= threshold
  }

  // The breaker has opened at some point.
  ghost predicate Trips(c: Settings, events: seq<Event>) {
    exists n :: 0 <= n <= |events| && AfterEvents(c, FRESH, events[..n]).openedUntil != 0
  }

  // A threshold below 1 acts like 1.
  function Threshold(c: Settings): int {
    if c.failureThreshold < 1 then 1 else c.failureThreshold
  }

  // The largest balance of a suffix; the empty suffix counts.
  function WorstSuffix(events: seq<Event>): nat {
    if events == [] then 0
    else
      var before := WorstSuffix(events[..|events| - 1]);
      match events[|events| - 1]
      case Read(_) => before
      case Success(_) => if before == 0 then 0 else before - 1
      case Failure(_) => before + 1
  }

  lemma {:induction false} WorstSuffixIsLargest(events: seq<Event>, i: nat)
    requires i <= |events|
    ensures Balance(events[i..]) <= WorstSuffix(events)
    decreases |events|
  {
    if i == |events| {
      assert events[i..] == [];
    } else {
      var front := events[..|events| - 1];
      WorstSuffixIsLargest(front, i);
      assert events[i..][..|events[i..]| - 1] == front[i..];
    }
  }

  lemma {:induction false} WorstSuffixIsReached(events: seq<Event>) returns (i: nat)
    ensures i <= |events| && Balance(events[i..]) == WorstSuffix(events)
  {
    if events == [] {
      i := 0;
    } else {
      var front := events[..|events| - 1];
      i := WorstSuffixIsReached(front);
      assert events[i..][..|events[i..]| - 1] == front[i..];
      if WorstSuffix(front) == 0 && events[|events| - 1].Success? {
        i := |events|;
        assert events[i..] == [];
      }
    }
  }

  // A bad run is one that ends a prefix whose worst suffix reaches the threshold.
  lemma BadRunIsWorstSuffix(events: seq<Event>, threshold: int)
    ensures HasBadRun(events, threshold) <==> exists n :: 0 <= n <= |events| && WorstSuffix(events[..n]) >= threshold
  {
    if HasBadRun(events, threshold) {
      var i, j :| 0 <= i <= j <= |events| && Balance(events[i..j]) >= threshold;
      assert events[..j][i..] == events[i..j];
      WorstSuffixIsLargest(events[..j], i);
    }
    if n :| 0 <= n <= |events| && WorstSuffix(events[..n]) >= threshold {
      var i := WorstSuffixIsReached(events[..n]);
      assert events[..n][i..] == events[i..n];
    }
  }

  // The conditions of the characterisation: a monotone clock, read after time 0, and events that
  // span less than the reset window.
  ghost predicate WithinWindow(c: Settings, events: seq<Event>) {
    && Monotone(events)
    && (forall i :: 0 <= i < |events| ==> events[i].at >= 0)
    && (events != [] ==> events[|events| - 1].at - events[0].at < c.resetAfterMs)
  }

  // Up to the first trip the failure counter is the worst suffix.
  lemma {:induction false} CounterIsWorstSuffix(c: Settings, events: seq<Event>)
    requires c.enabled && WithinWindow(c, events)
    requires forall n :: 0 <= n <= |events| ==> WorstSuffix(events[..n]) < Threshold(c)
    ensures var b := AfterEvents(c, FRESH, events);
            && b.failures == WorstSuffix(events) && b.openedUntil == 0 && !b.halfOpen
            && (b.failures > 0 ==> events != [] && events[0].at <= b.firstFailureAt <= events[|events| - 1].at)
  {
    if events == [] {
    } else {
      var front := events[..|events| - 1];
      assert forall n :: 0 <= n <= |front| ==> front[..n] == events[..n];
      CounterIsWorstSuffix(c, front);
      assert events[..|events|] == events;
    }
  }

  // Within one reset window, a fresh breaker trips exactly when some run of outcomes is bad.
  lemma {:induction false} TripsExactlyOnBadRun(c: Settings, events: seq<Event>)
    requires c.enabled && WithinWindow(c, events)
    ensures Trips(c, events) <==> HasBadRun(events, Threshold(c))
  {
    BadRunIsWorstSuffix(events, Threshold(c));
    if n :| 0 <= n <= |events| && WorstSuffix(events[..n]) >= Threshold(c) {
      var first := FirstBadPrefix(c, events, n);
      assert forall m :: 0 <= m <= first ==> events[..first][..m] == events[..m];
      TripAtBadPrefix(c, events[..first]);
    } else {
      forall n | 0 <= n <= |events| ensures AfterEvents(c, FRESH, events[..n]).openedUntil == 0 {
        assert forall m :: 0 <= m <= n ==> events[..n][..m] == events[..m];
        CounterIsWorstSuffix(c, events[..n]);
      }
    }
  }

  lemma {:induction false} FirstBadPrefix(c: Settings, events: seq<Event>, n: nat) returns (first: nat)
    requires n <= |events| && WorstSuffix(events[..n]) >= Threshold(c)
    ensures 0 < first <= n && WorstSuffix(events[..first]) >= Threshold(c)
    ensures forall m :: 0 <= m < first ==> WorstSuffix(events[..m]) < Threshold(c)
    decreases n
  {
    if m :| 0 <= m < n && WorstSuffix(events[..m]) >= Threshold(c) {
      first := FirstBadPrefix(c, events, m);
    } else {
      first := n;
    }
  }

  lemma TripAtBadPrefix(c: Settings, events: seq<Event>)
    requires c.enabled && WithinWindow(c, events) && events != []
    requires WorstSuffix(events) >= Threshold(c)
    requires forall m :: 0 <= m < |events| ==> WorstSuffix(events[..m]) < Threshold(c)
    ensures AfterEvents(c, FRESH, events).openedUntil == events[|events| - 1].at + c.resetAfterMs > 0
  {
    var front := events[..|events| - 1];
    assert forall m :: 0 <= m <= |front| ==> front[..m] == events[..m];
    CounterIsWorstSuffix(c, front);
  }

  // Failures in a row within one window trip it exactly when they reach the threshold.
  lemma FailuresInARow(c: Settings, events: seq<Event>)
    requires c.enabled && WithinWindow(c, events) && forall i :: 0 <= i < |events| ==> events[i].Failure?
    ensures Trips(c, events) <==> |events| >= Threshold(c)
  {
    TripsExactlyOnBadRun(c, events);
    forall i, j | 0 <= i <= j <= |events| ensures Balance(events[i..j]) == j - i {
      BalanceOfFailures(events[i..j]);
    }
    assert events[0..|events|] == events;
  }

  lemma {:induction false} BalanceOfFailures(events: seq<Event>)
    requires forall i :: 0 <= i < |events| ==> events[i].Failure?
    ensures Balance(events) == |events|
  {
    if events == [] {
    } else {
      BalanceOfFailures(events[..|events| - 1]);
    }
  }

  // By default there is no breaker; a bare `true` makes one that the fifth failure within 30 seconds trips;
  // and what an object leaves out is taken from there.
  lemma DefaultsTripAtFive(events: seq<Event>, enabled: Option<bool>)
    requires WithinWindow(Settings(true, 5, 30000), events) && enabled != Some(false)
    requires forall i :: 0 <= i < |events| ==> events[i].Failure?
    ensures !Trips(Configure(Absent), events) && !Trips(Configure(Given(Some(false), None, None)), events)
    ensures Trips(Configure(Defaults), events) <==> |events| >= 5
    ensures Trips(Configure(Given(enabled, None, None)), events) <==> |events| >= 5
  {
    FailuresInARow(Settings(true, 5, 30000), events);
    forall n | 0 <= n <= |events|
      ensures AfterEvents(Configure(Absent), FRESH, events[..n]) == FRESH
      ensures AfterEvents(Configure(Given(Some(false), None, None)), FRESH, events[..n]) == FRESH
    {
      DisabledNeverOpens(Configure(Absent), events[..n], 0);
      DisabledNeverOpens(Configure(Given(Some(false), None, None)), events[..n], 0);
    }
  }

  // ---- Any series of events ----

  // The i-th event is the failure that opened the current window, and the counter is the balance since.
  ghost predicate CountsSince(events: seq<Event>, b: Breaker, i: nat) {
    i < |events| && events[i] == Failure(b.firstFailureAt) && Balance(events[i..]) == b.failures
  }

  ghost predicate Untripped(c: Settings, events: seq<Event>) {
    forall n :: 0 <= n <= |events| ==> AfterEvents(c, FRESH, events[..n]).openedUntil == 0
  }

  lemma BalanceOfOneMore(events: seq<Event>, i: nat)
    requires i < |events|
    ensures Balance(events[i..])
            == Balance(events[..|events| - 1][i..]) + match events[|events| - 1]
                 case Read(_) => 0
                 case Success(_) => -1
                 case Failure(_) => 1
  {
    assert events[i..][..|events[i..]| - 1] == events[..|events| - 1][i..];
  }

  lemma UntrippedFront(c: Settings, events: seq<Event>)
    requires Untripped(c, events) && events != []
    ensures Untripped(c, events[..|events| - 1]) && AfterEvents(c, FRESH, events).openedUntil == 0
  {
    var front := events[..|events| - 1];
    assert forall n :: 0 <= n <= |front| ==> front[..n] == events[..n];
    assert events[..|events|] == events;
  }

  lemma {:induction false} CounterCountsSince(c: Settings, events: seq<Event>) returns (i: nat)
    requires c.enabled && Untripped(c, events)
    ensures var b := AfterEvents(c, FRESH, events); !b.halfOpen && (b.failures > 0 ==> CountsSince(events, b, i))
  {
    i := 0;
    if events != [] {
      var front := events[..|events| - 1];
      UntrippedFront(c, events);
      i := CounterCountsSince(c, front);
      var before, b := AfterEvents(c, FRESH, front), AfterEvents(c, FRESH, events);
      UntrippedFront(c, events);
      assert front[..|front|] == front && before.openedUntil == 0;
      if before.failures == 0 || b.firstFailureAt != before.firstFailureAt || b.failures == 1 {
        if events[|events| - 1].Failure? && b.failures == 1 {
          i := |front|;
          assert events[i..] == [events[i]] && events[i..][..0] == [];
        } else if b.failures > 0 {
          BalanceOfOneMore(events, i);
        }
      } else {
        BalanceOfOneMore(events, i);
      }
    }
  }

  // A run of events from one failure to another with a balance that reaches the threshold, within one
  // reset window.
  ghost predicate BadRunInWindow(c: Settings, events: seq<Event>, i: nat, j: nat) {
    && i < j <= |events| && events[i].Failure? && events[j - 1].Failure? && Balance(events[i..j]) >= Threshold(c)
    && (j == i + 1 || events[j - 1].at - events[i].at < c.resetAfterMs)
  }

  lemma FirstTripNeedsBadRun(c: Settings, events: seq<Event>) returns (i: nat)
    requires c.enabled && events != [] && Untripped(c, events[..|events| - 1])
    requires AfterEvents(c, FRESH, events).openedUntil != 0
    ensures BadRunInWindow(c, events, i, |events|)
  {
    var front := events[..|events| - 1];
    assert front[..|front|] == front;
    var before := AfterEvents(c, FRESH, front);
    assert before.openedUntil == 0;
    i := CounterCountsSince(c, front);
    var now := events[|events| - 1].at;
    if before.failures == 0 || now - before.firstFailureAt >= c.resetAfterMs {
      i := |front|;
      assert events[i..] == [events[i]] && events[i..][..0] == [];
    } else {
      BalanceOfOneMore(events, i);
    }
    assert events[i..|events|] == events[i..];
  }

  // Whatever the clock does, and however long the series: the breaker trips only on a bad run that falls
  // within one reset window.
  lemma {:induction false} TripNeedsBadRunInWindow(c: Settings, events: seq<Event>) returns (i: nat, j: nat)
    requires c.enabled && Trips(c, events)
    ensures BadRunInWindow(c, events, i, j)
    decreases |events|
  {
    assert events[..0] == [];
    var n :| 0 <= n <= |events| && AfterEvents(c, FRESH, events[..n]).openedUntil != 0;
    var shorter := events[..n];
    if m :| 0 <= m < n && AfterEvents(c, FRESH, events[..m]).openedUntil != 0 {
      assert events[..m][..m] == events[..m];
      i, j := TripNeedsBadRunInWindow(c, events[..m]);
      assert events[..m][i..j] == events[i..j];
    } else {
      var front := shorter[..n - 1];
      forall m | 0 <= m <= |front| ensures AfterEvents(c, FRESH, front[..m]).openedUntil == 0 {
        assert front[..m] == events[..m];
      }
      i := FirstTripNeedsBadRun(c, shorter);
      j := n;
      assert shorter[i..j] == events[i..j];
    }
  }

  ghost predicate Spaced(c: Settings, events: seq<Event>) {
    forall i, j :: 0 <= i < j < |events| && events[i].Failure? && events[j].Failure? ==>
      events[j].at - events[i].at >= c.resetAfterMs
  }

  lemma NoBadRunWhenSpaced(c: Settings, events: seq<Event>, i: nat, j: nat)
    requires c.failureThreshold >= 2 && Spaced(c, events)
    ensures !BadRunInWindow(c, events, i, j)
  {
    if j == i + 1 && j <= |events| {
      assert events[i..j] == [events[i]] && [events[i]][..0] == [];
      assert Balance([events[i]]) <= 1;
    }
  }

  // So failures that are at least a window apart never trip a threshold of 2 or more.
  lemma SpacedFailuresNeverTrip(c: Settings, events: seq<Event>)
    requires c.failureThreshold >= 2 && Spaced(c, events)
    ensures !Trips(c, events)
  {
    if !c.enabled {
      forall n | 0 <= n <= |events| ensures AfterEvents(c, FRESH, events[..n]) == FRESH {
        DisabledNeverOpens(c, events[..n], 0);
      }
    } else if Trips(c, events) {
      var i, j := TripNeedsBadRunInWindow(c, events);
      NoBadRunWhenSpaced(c, events, i, j);
    }
  }

  // A bad run within a window need not trip it: the window may have been opened by an earlier failure.
  lemma BadRunAfterRestartNeedNotTrip()
    ensures var c := Settings(true, 3, 100);
            var events := [Failure(0), Failure(90), Failure(110), Failure(120)];
            BadRunInWindow(c, events, 1, 4) && !Trips(c, events)
  {
    var c := Settings(true, 3, 100);
    var events := [Failure(0), Failure(90), Failure(110), Failure(120)];
    BalanceOfFailures(events[1..4]);
    assert events[..1] == [Failure(0)] && events[..2] == [Failure(0), Failure(90)];
    assert events[..3] == [Failure(0), Failure(90), Failure(110)] && events[..4] == events;
    assert AfterEvents(c, FRESH, events[..0]) == FRESH;
    assert events[..1][..0] == [] && AfterEvents(c, FRESH, events[..1]) == Breaker(1, 0, 0, false);
    assert events[..2][..1] == events[..1] && AfterEvents(c, FRESH, events[..2]) == Breaker(2, 0, 0, false);
    assert events[..3][..2] == events[..2] && AfterEvents(c, FRESH, events[..3]) == Breaker(1, 110, 0, false);
    assert events[..4][..3] == events[..3] && AfterEvents(c, FRESH, events[..4]) == Breaker(2, 110, 0, false);
    forall n | 0 <= n <= |events| ensures AfterEvents(c, FRESH, events[..n]).openedUntil == 0 {
      assert n == 0 || n == 1 || n == 2 || n == 3 || n == 4;
    }
  }

  // An open breaker goes on counting: as many failures in a row as the threshold put its deadline off.
  lemma {:induction false} FailuresExtend(c: Settings, b: Breaker, events: seq<Event>)
    requires c.enabled && !b.halfOpen && b.failures == 0 && Monotone(events) && 0 < |events| <= Threshold(c)
    requires forall i :: 0 <= i < |events| ==> events[i].Failure?
    requires |events| > 1 ==> events[|events| - 1].at - events[0].at < c.resetAfterMs
    ensures var after := AfterEvents(c, b, events);
            if |events| < Threshold(c) then after == Breaker(|events|, events[0].at, b.openedUntil, false)
            else after == Breaker(0, 0, events[|events| - 1].at + c.resetAfterMs, false)
  {
    var front := events[..|events| - 1];
    if front == [] {
      assert AfterEvents(c, b, front) == b;
    } else {
      FailuresExtend(c, b, front);
    }
  }

  // ---- While open ----

  // An open breaker stays open until its deadline, and the deadline never moves earlier.
  lemma {:induction false} OpenHolds(c: Settings, b: Breaker, trippedAt: int, events: seq<Event>)
    requires c.enabled && !b.halfOpen && trippedAt >= 0 && 0 < b.openedUntil <= trippedAt + c.resetAfterMs
    requires Monotone(events) && (events != [] ==> trippedAt <= events[0].at)
    requires forall i :: 0 <= i < |events| ==> events[i].at < b.openedUntil
    ensures var b' := AfterEvents(c, b, events);
            && !b'.halfOpen && b.openedUntil <= b'.openedUntil
            && b'.openedUntil <= (if events == [] then trippedAt else events[|events| - 1].at) + c.resetAfterMs
    ensures forall now :: now < b.openedUntil ==> StateOf(c, AfterEvents(c, b, events), now) == Open
  {
    if events == [] {
    } else {
      OpenHolds(c, b, trippedAt, events[..|events| - 1]);
    }
  }

  // ---- Half-open ----

  lemma {:induction false} ReadsKeepHalfOpen(c: Settings, b: Breaker, probes: seq<Event>)
    requires c.enabled && b.halfOpen && forall i :: 0 <= i < |probes| ==> probes[i].Read?
    ensures AfterEvents(c, b, probes) == b
  {
    if probes == [] {
    } else {
      ReadsKeepHalfOpen(c, b, probes[..|probes| - 1]);
    }
  }

  // However often the state is read, the first recorded outcome decides: a success clears
  // everything, and a failure opens a full new window.
  lemma FirstOutcomeDecides(c: Settings, b: Breaker, probes: seq<Event>, outcome: Event)
    requires c.enabled && b.halfOpen && !outcome.Read?
    requires forall i :: 0 <= i < |probes| ==> probes[i].Read?
    ensures var b' := AfterEvents(c, b, probes + [outcome]);
            if outcome.Success? then b' == FRESH
            else !b'.halfOpen && b'.openedUntil == outcome.at + c.resetAfterMs
  {
    assert (probes + [outcome])[..|probes|] == probes;
    ReadsKeepHalfOpen(c, b, probes);
  }

  // From a trip on: open until the deadline, half-open from the first read after it, and open
  // again for a full window if the first outcome after that is a failure.
  lemma TripToProbe(c: Settings, b: Breaker, during: seq<Event>, trippedAt: int, probeRead: int, outcome: Event)
    requires c.enabled && !b.halfOpen && trippedAt >= 0 && 0 < b.openedUntil <= trippedAt + c.resetAfterMs
    requires Monotone(during) && (during != [] ==> trippedAt <= during[0].at)
    requires forall i :: 0 <= i < |during| ==> during[i].at < b.openedUntil
    requires probeRead >= AfterEvents(c, b, during).openedUntil && outcome.Failure? && outcome.at >= probeRead
    ensures var b' := AfterEvents(c, AfterRead(c, AfterEvents(c, b, during), probeRead), [outcome]);
            && StateOf(c, AfterEvents(c, b, during), probeRead) == HalfOpen
            && (forall now :: now < outcome.at + c.resetAfterMs ==> StateOf(c, b', now) == Open)
  {
    OpenHolds(c, b, trippedAt, during);
    assert [] + [outcome] == [outcome];
    FirstOutcomeDecides(c, AfterRead(c, AfterEvents(c, b, during), probeRead), [], outcome);
  }

  // ---- How many probes ----

  // How many reads are answered "half-open": each lets its caller through.
  function ProbesAdmitted(c: Settings, b: Breaker, events: seq<Event>): nat {
    if events == [] then 0
    else
      var front, last := events[..|events| - 1], events[|events| - 1];
      ProbesAdmitted(c, b, front)
      + if last.Read? && StateOf(c, AfterEvents(c, b, front), last.at) == HalfOpen then 1 else 0
  }

  function ReadsFrom(events: seq<Event>, deadline: int): nat {
    if events == [] then 0
    else
      var last := events[|events| - 1];
      ReadsFrom(events[..|events| - 1], deadline) + if last.Read? && last.at >= deadline then 1 else 0
  }

  ghost predicate OnlyReads(events: seq<Event>) {
    Monotone(events) && forall i :: 0 <= i < |events| ==> events[i].Read?
  }

  // Until an outcome is recorded, every read from the deadline on is answered "half-open".
  lemma {:induction false} ProbesAreReadsFromDeadline(c: Settings, b: Breaker, probes: seq<Event>)
    requires c.enabled && !b.halfOpen && b.openedUntil != 0 && OnlyReads(probes)
    ensures ProbesAdmitted(c, b, probes) == ReadsFrom(probes, b.openedUntil)
    ensures var b' := AfterEvents(c, b, probes);
            if ReadsFrom(probes, b.openedUntil) == 0 then b' == b
            else b'.halfOpen && probes[|probes| - 1].at >= b.openedUntil
  {
    if probes == [] {
    } else {
      ProbesAreReadsFromDeadline(c, b, probes[..|probes| - 1]);
    }
  }

  lemma {:induction false} NoReadsFrom(probes: seq<Event>, deadline: int)
    requires OnlyReads(probes)
    ensures ReadsFrom(probes, deadline) == 0 <==> forall i :: 0 <= i < |probes| ==> probes[i].at < deadline
  {
    if probes == [] {
    } else {
      NoReadsFrom(probes[..|probes| - 1], deadline);
    }
  }

  // Exactly one trial probe is let through when exactly one read falls between the deadline and the
  // first outcome.
  lemma OneProbeExactly(c: Settings, b: Breaker, probes: seq<Event>)
    requires c.enabled && !b.halfOpen && b.openedUntil != 0 && OnlyReads(probes)
    ensures ProbesAdmitted(c, b, probes) == 1
            <==> probes != [] && probes[|probes| - 1].at >= b.openedUntil
                 && forall i :: 0 <= i < |probes| - 1 ==> probes[i].at < b.openedUntil
  {
    ProbesAreReadsFromDeadline(c, b, probes);
    if probes != [] {
      NoReadsFrom(probes[..|probes| - 1], b.openedUntil);
    }
    NoReadsFrom(probes, b.openedUntil);
  }

  // Nothing limits them: any number of callers at the deadline is let through.
  lemma {:induction false} AnyNumberOfProbes(c: Settings, b: Breaker, n: nat)
    requires c.enabled && !b.halfOpen && b.openedUntil != 0
    ensures ProbesAdmitted(c, b, seq(n, _ => Read(b.openedUntil))) == n
  {
    var probes := seq(n, _ => Read(b.openedUntil));
    ProbesAreReadsFromDeadline(c, b, probes);
    AllReadsFrom(probes, b.openedUntil);
  }

  lemma {:induction false} AllReadsFrom(probes: seq<Event>, deadline: int)
    requires forall i :: 0 <= i < |probes| ==> probes[i].Read? && probes[i].at >= deadline
    ensures ReadsFrom(probes, deadline) == |probes|
  {
    if probes == [] {
    } else {
      AllReadsFrom(probes[..|probes| - 1], deadline);
    }
  }

  // A breaker that is not enabled never opens.
  lemma {:induction false} DisabledNeverOpens(c: Settings, events: seq<Event>, now: int)
    requires !c.enabled
    ensures AfterEvents(c, FRESH, events) == FRESH && StateOf(c, AfterEvents(c, FRESH, events), now) == Closed
  {
    if events == [] {
    } else {
      DisabledNeverOpens(c, events[..|events| - 1], now);
    }
  }
}
