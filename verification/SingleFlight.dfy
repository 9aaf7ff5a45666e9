/**
 Single-flight: concurrent calls for one slot share one execution.  The object, and its runs over
 any number of callers; then the cache's use of it, with one slot for foreground loads of a key and
 one for background refreshes.
 */
module SingleFlights {
  import opened Options
  import opened ScopedKeys

  type TaskId = nat

  // The slots with a task in flight, and the number of tasks started so far.
  datatype Flights = Flights(inFlight: map<string, TaskId>, started: nat)

  // The task a caller gets: the one in flight, or a new one.
  function TaskFor(f: Flights, slot: string): TaskId {
    if slot in f.inFlight then f.inFlight[slot] else f.started
  }

  function AfterCall(f: Flights, slot: string): Flights {
    if slot in f.inFlight then f else Flights(f.inFlight[slot := f.started], f.started + 1)
  }

  class SingleFlight {
    var inFlight: map<string, TaskId>
    var started: nat

    function Now(): Flights
      reads this
    {
      Flights(inFlight, started)
    }

    constructor ()
      ensures Now() == Flights(map[], 0)
    {
      inFlight, started := map[], 0;
    }

    // Joins the task in flight, or runs a new one.
    method Run(slot: string) returns (task: TaskId, joined: bool)
      modifies this
      ensures task == TaskFor(old(Now()), slot) && (joined <==> slot in old(inFlight))
      ensures Now() == AfterCall(old(Now()), slot)
    {
      if slot in inFlight {
        return inFlight[slot], true;
      }
      task, joined := started, false;
      started := started + 1;
      inFlight := inFlight[slot := task];
    }

    // The `finally` of a task: the slot is cleared once it has settled.
    method Settled(slot: string)
      modifies this
      ensures Now() == Flights(old(inFlight) - {slot}, old(started))
    {
      inFlight := inFlight - {slot};
    }
  }

  // ---- Runs ----

  datatype Outcome = Resolved(value: int) | Rejected(error: int)

  // `name` is the key that a task loads; `callers` are the tasks that the calls so far were given.
  datatype Task = Task(name: Name, background: bool, outcome: Option<Outcome>)

  datatype State = State(flights: Flights, tasks: seq<Task>, callers: seq<TaskId>)

  datatype Step =
    | Call(name: Name, background: bool)
    | Settle(task: TaskId, outcome: Outcome)

  const INITIAL := State(Flights(map[], 0), [], [])

  function Slot(name: Name, background: bool): string {
    if background then RefreshSlot(Scoped(name)) else Scoped(name)
  }

  function SlotOf(task: Task): string {
    Slot(task.name, task.background)
  }

  predicate Running(s: State, task: TaskId) {
    task < |s.tasks| && s.tasks[task].outcome.None?
  }

  predicate Enabled(s: State, step: Step) {
    match step
    case Call(name, _) => name.KeyName?
    case Settle(task, _) => Running(s, task)
  }

  function After(s: State, step: Step): State
    requires Enabled(s, step)
  {
    match step
    case Call(name, background) =>
      var slot := Slot(name, background);
      var tasks := if slot in s.flights.inFlight then s.tasks else s.tasks + [Task(name, background, None)];
      State(AfterCall(s.flights, slot), tasks, s.callers + [TaskFor(s.flights, slot)])
    case Settle(task, outcome) =>
      var t := s.tasks[task];
      State(Flights(s.flights.inFlight - {SlotOf(t)}, s.flights.started), s.tasks[task := t.(outcome := Some(outcome))],
            s.callers)
  }

  ghost predicate Runs(s: State, steps: seq<Step>, s': State)
    decreases |steps|
  {
    if steps == [] then s == s'
    else Enabled(s, steps[0]) && Runs(After(s, steps[0]), steps[1..], s')
  }

  // The slots in flight are those of the running tasks, one for each.
  ghost predicate Consistent(s: State) {
    && s.flights.started == |s.tasks|
    && (forall slot :: slot in s.flights.inFlight ==>
          Running(s, s.flights.inFlight[slot]) && SlotOf(s.tasks[s.flights.inFlight[slot]]) == slot)
    && (forall task: TaskId :: Running(s, task) ==>
          SlotOf(s.tasks[task]) in s.flights.inFlight && s.flights.inFlight[SlotOf(s.tasks[task])] == task)
    && (forall i :: 0 <= i < |s.tasks| ==> s.tasks[i].name.KeyName?)
    && (forall i :: 0 <= i < |s.callers| ==> s.callers[i] < |s.tasks|)
  }

  lemma StepKeepsConsistent(s: State, step: Step)
    requires Consistent(s) && Enabled(s, step)
    ensures Consistent(After(s, step))
  {
    var s' := After(s, step);
    forall task: TaskId | Running(s', task)
      ensures SlotOf(s'.tasks[task]) in s'.flights.inFlight && s'.flights.inFlight[SlotOf(s'.tasks[task])] == task
    {
      assert task < |s.tasks| ==> Running(s, task);
    }
  }

  lemma {:induction false} RunKeepsConsistent(s: State, steps: seq<Step>, s': State)
    requires Consistent(s) && Runs(s, steps, s')
    ensures Consistent(s')
    decreases |steps|
  {
    if steps == [] {
    } else {
      StepKeepsConsistent(s, steps[0]);
      RunKeepsConsistent(After(s, steps[0]), steps[1..], s');
    }
  }

  // At most one task runs per slot.
  lemma OneTaskPerSlot(steps: seq<Step>, s: State, a: TaskId, b: TaskId)
    requires Runs(INITIAL, steps, s) && Running(s, a) && Running(s, b) && SlotOf(s.tasks[a]) == SlotOf(s.tasks[b])
    ensures a == b
  {
    RunKeepsConsistent(INITIAL, steps, s);
  }

  // A task's outcome, once there, never changes, and a caller keeps its task: everyone who joined a
  // task, early or late, gets the outcome of that one execution.
  lemma {:induction false} OutcomesAreFinal(s: State, steps: seq<Step>, s': State)
    requires Consistent(s) && Runs(s, steps, s')
    ensures |s.tasks| <= |s'.tasks| && s.callers <= s'.callers
    ensures forall task :: 0 <= task < |s.tasks| ==>
              && s'.tasks[task].name == s.tasks[task].name && s'.tasks[task].background == s.tasks[task].background
              && (s.tasks[task].outcome.Some? ==> s'.tasks[task].outcome == s.tasks[task].outcome)
    decreases |steps|
  {
    if steps == [] {
    } else {
      StepKeepsConsistent(s, steps[0]);
      OutcomesAreFinal(After(s, steps[0]), steps[1..], s');
    }
  }

  // While a task runs, every call for its slot joins it, and all of them see its outcome.
  lemma JoinersShareOutcome(before: State, name: Name, background: bool, running: TaskId, steps: seq<Step>, s: State)
    requires Consistent(before) && name.KeyName? && Running(before, running)
    requires SlotOf(before.tasks[running]) == Slot(name, background)
    requires Runs(After(before, Call(name, background)), steps, s)
    ensures |before.callers| < |s.callers| && s.callers[|before.callers|] == running
    ensures |After(before, Call(name, background)).tasks| == |before.tasks|
    ensures Meaning(before.tasks[running].name) == Meaning(name) && before.tasks[running].background == background
  {
    var after := After(before, Call(name, background));
    StepKeepsConsistent(before, Call(name, background));
    OutcomesAreFinal(after, steps, s);
    assert after.callers[|before.callers|] == running;
    SameSlotSameKey(before.tasks[running].name, before.tasks[running].background, name, background);
  }

  // A call starts a load exactly when no task runs for its slot: once that task has settled, whichever
  // way, the next call loads anew.
  lemma CallStartsExactlyWhenNoneRuns(steps: seq<Step>, s: State, name: Name, background: bool)
    requires Runs(INITIAL, steps, s) && name.KeyName?
    ensures var s' := After(s, Call(name, background));
            if exists task: TaskId :: Running(s, task) && SlotOf(s.tasks[task]) == Slot(name, background)
            then s'.tasks == s.tasks && Running(s, s'.callers[|s.callers|])
            else s'.tasks == s.tasks + [Task(name, background, None)] && s'.callers == s.callers + [|s.tasks|]
  {
    RunKeepsConsistent(INITIAL, steps, s);
  }

  lemma SameSlotSameKey(a: Name, aBackground: bool, b: Name, bBackground: bool)
    requires a.KeyName? && b.KeyName?
    ensures Slot(a, aBackground) == Slot(b, bBackground) <==> Meaning(a) == Meaning(b) && aBackground == bBackground
  {
    SlotsDisjoint(a, b);
    SlotsDisjoint(b, a);
    ScopedInjective(a, b);
  }

  // The running tasks that load one key.
  function Loading(s: State, name: Name): set<TaskId> {
    set task | 0 <= task < |s.tasks| && s.tasks[task].outcome.None? && Meaning(s.tasks[task].name) == Meaning(name)
  }

  // At most two loads of a key run at a time: one in the foreground, one in the background.
  lemma AtMostTwoLoads(steps: seq<Step>, s: State, name: Name)
    requires Runs(INITIAL, steps, s) && name.KeyName?
    ensures |Loading(s, name)| <= 2
  {
    RunKeepsConsistent(INITIAL, steps, s);
    var loading := Loading(s, name);
    var background := set task | task in loading && s.tasks[task].background;
    SameKindIsOne(s, name, background, true);
    SameKindIsOne(s, name, loading - background, false);
    assert |loading| == |background| + |loading - background| by {
      assert loading == background + (loading - background);
    }
  }

  lemma SameKindIsOne(s: State, name: Name, tasks: set<TaskId>, background: bool)
    requires Consistent(s) && name.KeyName? && tasks <= Loading(s, name)
    requires forall task :: task in tasks ==> s.tasks[task].background == background
    ensures |tasks| <= 1
  {
    forall a, b | a in tasks && b in tasks ensures a == b {
      SameSlotSameKey(s.tasks[a].name, background, s.tasks[b].name, background);
      assert Running(s, a) && Running(s, b);
    }
    if a :| a in tasks {
      assert tasks == {a};
    }
  }
}
