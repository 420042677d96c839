/** The scheduler's task list, shared by the main loop, direct triggers and running tasks
    (scheduler/scheduler.go). Every section under the mutex is one step; between steps, anything that is
    waiting may go on. */
module SchedulerTasks {
  import opened DataRequest
  import Runs
  import opened Wrappers

  datatype Task = Task(
    name: string,
    isSystemTask: bool,
    running: bool,
    runNextUnix: int,
    pgFunctionId: Id,
    scheduleIds: set<Id>,
    scheduleIdNext: Id)

  const STOPPED := -1

  // an execution on its way: the list position it was started for, the load counter at its start and
  // its own copy of the task
  datatype Execution = Execution(index: nat, loadCounterPre: nat, task: Task)

  // spawned: positions that have been handed to new goroutines which have not taken the mutex yet
  datatype State = State(
    tasks: seq<Task>,
    loadTasks: bool,
    loadCounter: nat,
    nextExecutionUnix: int,
    spawned: multiset<nat>,
    inFlight: set<Execution>)

  // ---- the steps

  // the earliest planned run of all idle tasks, 0 for none, looking at tasks after an earlier choice
  function Earliest(tasks: seq<Task>, next: int): int {
    if tasks == [] then next
    else
      var t := tasks[0];
      Earliest(tasks[1..],
               if !t.running && t.runNextUnix != STOPPED && (next == 0 || t.runNextUnix < next) then t.runNextUnix
               else next)
  }

  predicate IsDue(t: Task, now: int) {
    now >= t.runNextUnix && t.runNextUnix != STOPPED
  }

  function Due(tasks: seq<Task>, now: int): set<nat> {
    set i: nat | i < |tasks| && IsDue(tasks[i], now)
  }

  function Load(s: State, loaded: seq<Task>): State {
    s.(tasks := loaded, loadTasks := false, loadCounter := s.loadCounter + 1, nextExecutionUnix := 0)
  }

  // a tick of the main loop; loaded is what the database holds, should the list be reloaded
  function Tick(s: State, now: int, loaded: seq<Task>): State {
    var s1 := if s.loadTasks then Load(s, loaded) else s;
    if s1.tasks == [] then s1
    else
      var next := if s1.nextExecutionUnix == 0 then Earliest(s1.tasks, 0) else s1.nextExecutionUnix;
      if next != 0 && now >= next then s1.(nextExecutionUnix := 0, spawned := s1.spawned + multiset(Due(s1.tasks, now)))
      else s1.(nextExecutionUnix := next)
  }

  function FirstSystemTask(tasks: seq<Task>, name: string, i: nat): Option<nat>
    requires i <= |tasks|
    decreases |tasks| - i
  {
    if i == |tasks| then None
    else if tasks[i].isSystemTask && tasks[i].name == name then Some(i)
    else FirstSystemTask(tasks, name, i + 1)
  }

  predicate HasSchedule(t: Task, pgFunctionId: Id, scheduleId: Id) {
    !t.isSystemTask && t.pgFunctionId == pgFunctionId && scheduleId in t.scheduleIds
  }

  function LastWithSchedule(tasks: seq<Task>, pgFunctionId: Id, scheduleId: Id): Option<nat> {
    if tasks == [] then None
    else
      var n := |tasks| - 1;
      if HasSchedule(tasks[n], pgFunctionId, scheduleId) then Some(n)
          else LastWithSchedule(tasks[..n], pgFunctionId, scheduleId)
  }

  function WithSchedule(tasks: seq<Task>, pgFunctionId: Id, scheduleId: Id): seq<Task> {
    seq(|tasks|, i requires 0 <= i < |tasks| =>
      if HasSchedule(tasks[i], pgFunctionId, scheduleId) then tasks[i].(scheduleIdNext := scheduleId) else tasks[i])
  }

  // a task triggered directly, by its name or by a schedule of its function
  function Trigger(s: State, systemTaskName: string, pgFunctionId: Id, scheduleId: Id): State {
    var index :=
      if systemTaskName != "" then FirstSystemTask(s.tasks, systemTaskName, 0)
      else LastWithSchedule(s.tasks, pgFunctionId, scheduleId);
    var tasks := if systemTaskName != "" then s.tasks else WithSchedule(s.tasks, pgFunctionId, scheduleId);
    s.(tasks := tasks, spawned := s.spawned + if index.Some? then multiset{index.value} else multiset{})
  }

  // a spawned goroutine takes the mutex: it gives up if the task is running
  function Begin(s: State, index: nat): State
    requires index in s.spawned && index < |s.tasks|
  {
    var spawned := s.spawned - multiset{index};
    if s.tasks[index].running then s.(spawned := spawned)
    else
      var t := s.tasks[index].(running := true);
      s.(tasks := s.tasks[index := t], spawned := spawned,
         inFlight := s.inFlight + {Execution(index, s.loadCounter, t)})
  }

  // an execution ends with its next planned run; its copy replaces the task unless the list was reloaded
  function Finish(s: State, x: Execution, runNextUnix: int, scheduleIdNext: Id): State
    requires x in s.inFlight
    requires x.loadCounterPre == s.loadCounter ==> x.index < |s.tasks|
  {
    var t := x.task.(running := false, runNextUnix := runNextUnix, scheduleIdNext := scheduleIdNext);
    s.(tasks := if x.loadCounterPre == s.loadCounter then s.tasks[x.index := t] else s.tasks,
       inFlight := s.inFlight - {x})
  }

  // ---- the program's own sections

  class Scheduler {
    var tasks: seq<Task>
    var loadTasks: bool
    var loadCounter: nat
    var nextExecutionUnix: int
    ghost var spawned: multiset<nat>
    ghost var inFlight: set<Execution>

    constructor ()
      ensures Now() == State([], true, 0, 0, multiset{}, {})
    {
      tasks, loadTasks, loadCounter, nextExecutionUnix := [], true, 0, 0;
      spawned, inFlight := multiset{}, {};
    }

    ghost function Now(): State
      reads this
    {
      State(tasks, loadTasks, loadCounter, nextExecutionUnix, spawned, inFlight)
    }

    method RequestReload()
      modifies this
      ensures Now() == old(Now()).(loadTasks := true)
    {
      loadTasks := true;
    }

    method RunTasksBySchedule(now: int, loaded: seq<Task>)
      modifies this
      ensures Now() == Tick(old(Now()), now, loaded)
      ensures tasks == [] ==> spawned == old(spawned) && (nextExecutionUnix != 0 ==> !old(loadTasks))
    {
      if loadTasks {
        tasks, loadTasks, loadCounter := loaded, false, loadCounter + 1;
        nextExecutionUnix := 0;
      }
      if |tasks| == 0 {
        return;
      }
      if nextExecutionUnix == 0 {
        FindEarliest();
      }
      if nextExecutionUnix != 0 && now >= nextExecutionUnix {
        nextExecutionUnix := 0;
        SpawnDue(now);
      }
    }

    method FindEarliest()
      requires nextExecutionUnix == 0
      modifies this`nextExecutionUnix
      ensures nextExecutionUnix == Earliest(tasks, 0)
    {
      for i := 0 to |tasks|
        invariant Earliest(tasks[i..], nextExecutionUnix) == Earliest(tasks, 0)
      {
        var t := tasks[i];
        assert tasks[i..][1..] == tasks[i + 1..];
        if t.running || t.runNextUnix == STOPPED {
          continue;
        }
        if nextExecutionUnix == 0 || t.runNextUnix < nextExecutionUnix {
          nextExecutionUnix := t.runNextUnix;
        }
      }
    }

    method SpawnDue(now: int)
      modifies this`spawned
      ensures spawned == old(spawned) + multiset(Due(tasks, now))
    {
      ghost var started: set<nat> := {};
      for i := 0 to |tasks|
        invariant spawned == old(spawned) + multiset(started)
        invariant started == set k: nat | k < i && IsDue(tasks[k], now)
      {
        if now >= tasks[i].runNextUnix && tasks[i].runNextUnix != STOPPED {
          Spawn(i);
          ghost var more: set<nat> := started + {i};
          ghost var one: multiset<nat> := multiset{i};
          assert multiset(more) == multiset(started) + one;
          started := more;
        }
      }
      assert started == Due(tasks, now);
    }

    // go runTaskByIndex(index)
    ghost method Spawn(index: nat)
      modifies this`spawned
      ensures spawned == old(spawned) + multiset{index}
    {
      spawned := spawned + multiset{index};
    }

    method RunTaskDirectly(systemTaskName: string, pgFunctionId: Id, scheduleId: Id)
      modifies this
      ensures Now() == Trigger(old(Now()), systemTaskName, pgFunctionId, scheduleId)
    {
      var taskIndexToRun := None;
      if systemTaskName != "" {
        for i := 0 to |tasks|
          invariant Now() == old(Now())
          invariant FirstSystemTask(tasks, systemTaskName, 0) == FirstSystemTask(tasks, systemTaskName, i)
          invariant taskIndexToRun == None
        {
          if tasks[i].isSystemTask && tasks[i].name == systemTaskName {
            taskIndexToRun := Some(i);
            break;
          }
        }
      } else {
        for i := 0 to |tasks|
          invariant Now() == old(Now()).(tasks := tasks) && |tasks| == |old(tasks)|
          invariant forall k :: 0 <= k < |tasks| ==>
                      tasks[k] == if k < i && HasSchedule(old(tasks)[k], pgFunctionId, scheduleId)
                                  then old(tasks)[k].(scheduleIdNext := scheduleId) else old(tasks)[k]
          invariant taskIndexToRun == LastWithSchedule(old(tasks)[..i], pgFunctionId, scheduleId)
        {
          assert old(tasks)[..i + 1][..i] == old(tasks)[..i];
          if tasks[i].isSystemTask || tasks[i].pgFunctionId != pgFunctionId {
            continue;
          }
          if scheduleId in tasks[i].scheduleIds {
            tasks := tasks[i := tasks[i].(scheduleIdNext := scheduleId)];
            taskIndexToRun := Some(i);
          }
        }
        assert old(tasks)[..|tasks|] == old(tasks);
      }
      if taskIndexToRun.Some? {
        Spawn(taskIndexToRun.value);
      }
    }

    // runTaskByIndex up to the first release of the mutex; None if the task is running
    method BeginTask(taskIndex: nat) returns (x: Option<Execution>)
      requires taskIndex in spawned && taskIndex < |tasks|
      modifies this
      ensures Now() == Begin(old(Now()), taskIndex)
      ensures x == if old(tasks)[taskIndex].running then None
              else Some(Execution(taskIndex, loadCounter, tasks[taskIndex]))
    {
      spawned := spawned - multiset{taskIndex};
      var loadCounterPre := loadCounter;
      if tasks[taskIndex].running {
        return None;
      }
      tasks := tasks[taskIndex := tasks[taskIndex].(running := true)];
      var t := tasks[taskIndex];
      inFlight := inFlight + {Execution(taskIndex, loadCounterPre, t)};
      return Some(Execution(taskIndex, loadCounterPre, t));
    }

    // the rest of runTaskByIndex, after the task itself has run
    method FinishTask(x: Execution, runNextUnix: int, scheduleIdNext: Id)
      requires x in inFlight
      requires x.loadCounterPre == loadCounter ==> x.index < |tasks|
      modifies this
      ensures Now() == Finish(old(Now()), x, runNextUnix, scheduleIdNext)
    {
      var t := x.task.(runNextUnix := runNextUnix, scheduleIdNext := scheduleIdNext);
      t := t.(running := false);
      if x.loadCounterPre == loadCounter {
        tasks := tasks[x.index := t];
      }
      inFlight := inFlight - {x};
    }
  }

  // ---- any interleaving

  datatype Event =
    | ReloadRequested
    | Ticked(now: int, loaded: seq<Task>)
    | Triggered(systemTaskName: string, pgFunctionId: Id, scheduleId: Id)
    | Begun(index: nat)
    | Finished(execution: Execution, runNextUnix: int, scheduleIdNext: Id)

  // A reload delivers idle tasks; a goroutine takes the mutex while its position exists.
  ghost predicate Enabled(s: State, e: Event) {
    match e
    case Ticked(_, loaded) => forall t :: t in loaded ==> !t.running
    case Begun(index) => index in s.spawned && index < |s.tasks|
    case Finished(x, _, _) => x in s.inFlight && (x.loadCounterPre == s.loadCounter ==> x.index < |s.tasks|)
    case _ => true
  }

  ghost function Apply(s: State, e: Event): State
    requires Enabled(s, e)
  {
    match e
    case ReloadRequested => s.(loadTasks := true)
    case Ticked(now, loaded) => Tick(s, now, loaded)
    case Triggered(name, fnc, id) => Trigger(s, name, fnc, id)
    case Begun(index) => Begin(s, index)
    case Finished(x, next, id) => Finish(s, x, next, id)
  }

  const START := State([], true, 0, 0, multiset{}, {})

  ghost function Next(s: State, e: Event): State {
    if Enabled(s, e) then Apply(s, e) else s
  }

  ghost const SYSTEM: Runs.System<State, Event> := Runs.System(Enabled, Next)

  ghost predicate IsRun(es: seq<Event>) {
    Runs.IsRun(SYSTEM, START, es)
  }

  ghost function After(es: seq<Event>): State {
    Runs.After(SYSTEM, START, es)
  }

  // x is an execution for position i of the list as it was loaded last
  ghost predicate RunsNow(s: State, x: Execution, i: nat) {
    x in s.inFlight && x.index == i && x.loadCounterPre == s.loadCounter
  }

  ghost predicate Consistent(s: State) {
    && (forall i: nat :: i < |s.tasks| ==> (s.tasks[i].running <==> exists x :: RunsNow(s, x, i)))
    && (forall x :: x in s.inFlight ==> x.loadCounterPre <= s.loadCounter)
    && (forall x :: x in s.inFlight && x.loadCounterPre == s.loadCounter ==> x.index < |s.tasks|)
    && (forall x, y :: x in s.inFlight && y in s.inFlight ==>
          x.index == y.index && x.loadCounterPre == y.loadCounterPre ==> x == y)
  }

  lemma TickKeeps(s: State, now: int, loaded: seq<Task>)
    requires Consistent(s) && forall t :: t in loaded ==> !t.running
    ensures Consistent(Tick(s, now, loaded))
  {
    var t := Tick(s, now, loaded);
    if s.loadTasks {
      assert t.tasks == loaded && t.inFlight == s.inFlight && t.loadCounter == s.loadCounter + 1;
      forall i: nat | i < |t.tasks|
        ensures t.tasks[i].running <==> exists x :: RunsNow(t, x, i)
      {
        assert loaded[i] in loaded;
      }
    } else {
      assert t.tasks == s.tasks && t.inFlight == s.inFlight && t.loadCounter == s.loadCounter;
      assert forall x, i: nat :: RunsNow(t, x, i) <==> RunsNow(s, x, i);
    }
  }

  lemma TriggerKeeps(s: State, name: string, fnc: Id, id: Id)
    requires Consistent(s)
    ensures Consistent(Trigger(s, name, fnc, id))
  {
    var t := Trigger(s, name, fnc, id);
    assert forall x, i: nat :: RunsNow(t, x, i) <==> RunsNow(s, x, i);
    assert forall i: nat :: i < |s.tasks| ==> t.tasks[i].running == s.tasks[i].running;
  }

  lemma BeginKeeps(s: State, index: nat)
    requires Consistent(s) && index in s.spawned && index < |s.tasks|
    ensures Consistent(Begin(s, index))
  {
    var t := Begin(s, index);
    if s.tasks[index].running {
      assert forall x, i: nat :: RunsNow(t, x, i) <==> RunsNow(s, x, i);
    } else {
      var x0 := Execution(index, s.loadCounter, t.tasks[index]);
      assert forall x :: !RunsNow(s, x, index);
      forall i: nat | i < |t.tasks|
        ensures t.tasks[i].running <==> exists x :: RunsNow(t, x, i)
      {
        if i == index {
          assert RunsNow(t, x0, i);
        } else {
          assert forall x :: RunsNow(t, x, i) <==> RunsNow(s, x, i);
        }
      }
      forall x, y | x in t.inFlight && y in t.inFlight && x.index == y.index && x.loadCounterPre == y.loadCounterPre
        ensures x == y
      {
        assert x != x0 && x.index == index ==> x.loadCounterPre != s.loadCounter || RunsNow(s, x, index);
        assert y != x0 && y.index == index ==> y.loadCounterPre != s.loadCounter || RunsNow(s, y, index);
      }
    }
  }

  lemma FinishKeeps(s: State, x0: Execution, next: int, id: Id)
    requires Consistent(s) && x0 in s.inFlight
    ensures Consistent(Finish(s, x0, next, id))
  {
    var t := Finish(s, x0, next, id);
    forall i: nat | i < |t.tasks|
      ensures t.tasks[i].running <==> exists x :: RunsNow(t, x, i)
    {
      if x0.loadCounterPre == s.loadCounter && i == x0.index {
        assert forall x :: RunsNow(s, x, i) ==> x == x0;
      } else {
        assert forall x :: RunsNow(t, x, i) <==> RunsNow(s, x, i);
      }
    }
  }

  lemma StepKeeps(s: State, e: Event)
    requires Consistent(s) && Enabled(s, e)
    ensures Consistent(Apply(s, e))
  {
    match e
    case ReloadRequested =>
      assert forall x, i: nat :: RunsNow(Apply(s, e), x, i) <==> RunsNow(s, x, i);
    case Ticked(now, loaded) => TickKeeps(s, now, loaded);
    case Triggered(name, fnc, id) => TriggerKeeps(s, name, fnc, id);
    case Begun(index) => BeginKeeps(s, index);
    case Finished(x, next, id) => FinishKeeps(s, x, next, id);
  }

  // After any interleaving of ticks, triggers, starts, ends and reloads: a task is marked as running
  // exactly if one execution of the current load is in flight for its position, and never two. Whatever is
  // in flight can end, and leaves the list alone if it is from an older load.
  lemma RunningMeansOneExecution(es: seq<Event>)
    requires IsRun(es)
    ensures Consistent(After(es))
    ensures forall i: nat :: i < |After(es).tasks| ==>
              (After(es).tasks[i].running <==> exists x :: RunsNow(After(es), x, i))
    ensures forall i: nat, x, y :: RunsNow(After(es), x, i) && RunsNow(After(es), y, i) ==> x == y
    ensures forall x, next, id :: x in After(es).inFlight ==>
              && x.loadCounterPre <= After(es).loadCounter && Enabled(After(es), Finished(x, next, id))
              && (x.loadCounterPre < After(es).loadCounter ==> Finish(After(es), x, next, id).tasks == After(es).tasks)
  {
    forall s, e | Consistent(s) && Enabled(s, e)
      ensures Consistent(Next(s, e))
    {
      StepKeeps(s, e);
    }
    Runs.RunKeeps(SYSTEM, Consistent, START, es);
  }

  // the start of an execution for a position that has another one in flight
  ghost predicate StartsBeside(s: State, t: State, i: nat) {
    exists x, y :: x in s.inFlight && y in t.inFlight - s.inFlight && x.index == y.index == i
  }

  // In every reachable state, a goroutine that takes the mutex for a position starts a second execution of
  // it if and only if one of an older load is still in flight, and none of the current load is.
  lemma SecondExecutionIffOlderInFlight(es: seq<Event>, i: nat)
    requires IsRun(es) && Enabled(After(es), Begun(i))
    ensures StartsBeside(After(es), Begin(After(es), i), i) <==>
            && (exists x :: x in After(es).inFlight && x.index == i && x.loadCounterPre < After(es).loadCounter)
            && !exists x :: RunsNow(After(es), x, i)
  {
    RunningMeansOneExecution(es);
    var s := After(es);
    var t := Begin(s, i);
    if s.tasks[i].running {
      assert t.inFlight == s.inFlight;
    } else {
      assert forall x :: !RunsNow(s, x, i);
      var started := Execution(i, s.loadCounter, t.tasks[i]);
      assert !RunsNow(s, started, i) && started in t.inFlight - s.inFlight;
      if x :| x in s.inFlight && x.index == i && x.loadCounterPre < s.loadCounter {
        assert x in s.inFlight && started in t.inFlight - s.inFlight && x.index == started.index == i;
      }
      if StartsBeside(s, t, i) {
        var x, y :| x in s.inFlight && y in t.inFlight - s.inFlight && x.index == y.index == i;
        assert !RunsNow(s, x, i);
      }
    }
  }

  // One idle task that is due: loaded and spawned by one tick.
  lemma LoadAndSpawn(s: State, t: Task)
    requires s.loadTasks && !t.running && t.runNextUnix == 1 && s.spawned == multiset{}
    ensures Tick(s, 1, [t]) == State([t], false, s.loadCounter + 1, 0, multiset{0}, s.inFlight)
  {
    assert [t][1..] == [];
    assert Earliest([t], 0) == Earliest([], 1) == 1;
    assert Due([t], 1) == {0} by {
      assert IsDue([t][0], 1);
    }
  }

  // And it does happen: a task that is still running is loaded as an idle one.
  lemma ReloadAllowsSecondExecution(t: Task) returns (es: seq<Event>, x: Execution, y: Execution)
    requires !t.running && t.runNextUnix == 1
    ensures IsRun(es)
    ensures x in After(es).inFlight && y in After(es).inFlight
    ensures x != y && x.index == y.index && x.task == y.task == t.(running := true)
  {
    x, y := Execution(0, 1, t.(running := true)), Execution(0, 2, t.(running := true));
    var tick := Ticked(1, [t]);
    LoadAndSpawn(START, t);
    Runs.OneMoreStep(SYSTEM, START, [], tick);
    es := [] + [tick];
    assert After(es) == State([t], false, 1, 0, multiset{0}, {});
    Runs.OneMoreStep(SYSTEM, START, es, Begun(0));
    es := es + [Begun(0)];
    assert After(es) == State([x.task], false, 1, 0, multiset{}, {x});
    Runs.OneMoreStep(SYSTEM, START, es, ReloadRequested);
    es := es + [ReloadRequested];
    LoadAndSpawn(After(es), t);
    Runs.OneMoreStep(SYSTEM, START, es, tick);
    es := es + [tick];
    assert After(es) == State([t], false, 2, 0, multiset{0}, {x});
    Runs.OneMoreStep(SYSTEM, START, es, Begun(0));
    es := es + [Begun(0)];
  }

  // ---- when a tick starts what is due

  lemma {:induction false} EarliestIsLowest(tasks: seq<Task>, next: int)
    requires next >= 0 && forall t :: t in tasks && !t.running && t.runNextUnix != STOPPED ==> t.runNextUnix > 0
    ensures var r := Earliest(tasks, next);
            r >= 0 && (next != 0 ==> 0 < r <= next) &&
            forall i :: 0 <= i < |tasks| && !tasks[i].running && tasks[i].runNextUnix != STOPPED ==>
                  0 < r <= tasks[i].runNextUnix
    decreases tasks
  {
    if tasks != [] {
      var t := tasks[0];
      assert t in tasks && forall u :: u in tasks[1..] ==> u in tasks;
      var chosen := if !t.running && t.runNextUnix != STOPPED && (next == 0 || t.runNextUnix < next)
                    then t.runNextUnix else next;
      EarliestIsLowest(tasks[1..], chosen);
      assert forall i :: 0 < i < |tasks| ==> tasks[i] == tasks[1..][i - 1];
    }
  }

  // A tick hands an idle, due task to a goroutine if and only if no later time is remembered from an
  // earlier tick.
  lemma DueTaskStarts(s: State, now: int, i: nat)
    requires !s.loadTasks && i < |s.tasks|
    requires forall t :: t in s.tasks && !t.running && t.runNextUnix != STOPPED ==> t.runNextUnix > 0
    requires !s.tasks[i].running && IsDue(s.tasks[i], now)
    ensures Tick(s, now, []).spawned[i] == s.spawned[i] + 1 <==> s.nextExecutionUnix <= now
  {
    EarliestIsLowest(s.tasks, 0);
    var due := Due(s.tasks, now);
    assert i in due;
    var started: multiset<nat> := multiset(due);
    assert started[i] == 1;
    assert s.nextExecutionUnix == 0 ==> Earliest(s.tasks, 0) <= s.tasks[i].runNextUnix <= now;
  }

  // A due task that does not start: the earliest run was remembered while it was running, and it was planned
  // for an earlier one when it ended.
  lemma DueTaskIsDelayed(a: Task, b: Task) returns (es: seq<Event>)
    requires !a.running && a.runNextUnix == 1 && !b.running && b.runNextUnix == 100
    ensures IsRun(es) && |After(es).tasks| == 2
    ensures !After(es).tasks[0].running && IsDue(After(es).tasks[0], 3)
    ensures Tick(After(es), 3, []) == After(es) && After(es).nextExecutionUnix == 100
  {
    var running := a.(running := true);
    var x := Execution(0, 1, running);
    var loaded := Ticked(1, [a, b]);
    TwoTasks(a, b);
    Runs.OneMoreStep(SYSTEM, START, [], loaded);
    es := [] + [loaded];
    assert After(es) == State([a, b], false, 1, 0, multiset{0}, {});
    Runs.OneMoreStep(SYSTEM, START, es, Begun(0));
    es := es + [Begun(0)];
    assert After(es) == State([running, b], false, 1, 0, multiset{}, {x});
    TwoTasks(running, b);
    Runs.OneMoreStep(SYSTEM, START, es, Ticked(2, []));
    es := es + [Ticked(2, [])];
    assert After(es) == State([running, b], false, 1, 100, multiset{}, {x});
    Runs.OneMoreStep(SYSTEM, START, es, Finished(x, 3, NIL));
    es := es + [Finished(x, 3, NIL)];
  }

  lemma TwoTasks(a: Task, b: Task)
    requires a.runNextUnix == 1 && !b.running && b.runNextUnix == 100
    ensures Earliest([a, b], 0) == if a.running then 100 else 1
    ensures Due([a, b], 1) == {0}
  {
    assert [a, b][1..] == [b] && [b][1..] == [];
    assert Earliest([b], 0) == Earliest([], 100) == 100 && Earliest([b], 1) == Earliest([], 1) == 1;
    assert IsDue([a, b][0], 1) && !IsDue([a, b][1], 1);
    assert forall i: nat :: i in Due([a, b], 1) <==> i == 0;
  }

  // ---- what a direct trigger starts

  // i is the first system task of the name, or, without a name, the last other task of the function that has
  // the schedule
  ghost predicate Wanted(tasks: seq<Task>, name: string, pgFunctionId: Id, scheduleId: Id, i: nat) {
    && i < |tasks|
    && if name != "" then
         && tasks[i].isSystemTask && tasks[i].name == name
         && forall k :: 0 <= k < i && tasks[k].isSystemTask ==> tasks[k].name != name
       else
         && ByFunction(tasks[i], pgFunctionId, scheduleId)
         && forall k :: i < k < |tasks| ==> !ByFunction(tasks[k], pgFunctionId, scheduleId)
  }

  predicate ByFunction(t: Task, pgFunctionId: Id, scheduleId: Id) {
    !t.isSystemTask && t.pgFunctionId == pgFunctionId && scheduleId in t.scheduleIds
  }

  lemma {:induction false} FirstSystemTaskIsFirst(tasks: seq<Task>, name: string, i: nat)
    requires i <= |tasks|
    requires forall k :: 0 <= k < i && tasks[k].isSystemTask ==> tasks[k].name != name
    ensures var r := FirstSystemTask(tasks, name, i);
            if r.Some? then
              && r.value < |tasks| && tasks[r.value].isSystemTask && tasks[r.value].name == name
              && forall k :: 0 <= k < r.value && tasks[k].isSystemTask ==> tasks[k].name != name
            else
              forall k :: 0 <= k < |tasks| && tasks[k].isSystemTask ==> tasks[k].name != name
    decreases |tasks| - i
  {
    if i < |tasks| && !(tasks[i].isSystemTask && tasks[i].name == name) {
      FirstSystemTaskIsFirst(tasks, name, i + 1);
    }
  }

  lemma {:induction false} LastWithScheduleIsLast(tasks: seq<Task>, fnc: Id, id: Id)
    ensures var r := LastWithSchedule(tasks, fnc, id);
            if r.Some? then
              && r.value < |tasks| && ByFunction(tasks[r.value], fnc, id)
              && forall k :: r.value < k < |tasks| ==> !ByFunction(tasks[k], fnc, id)
            else
              forall k :: 0 <= k < |tasks| ==> !ByFunction(tasks[k], fnc, id)
  {
    if tasks != [] {
      LastWithScheduleIsLast(tasks[..|tasks| - 1], fnc, id);
      assert forall k :: 0 <= k < |tasks| - 1 ==> tasks[..|tasks| - 1][k] == tasks[k];
    }
  }

  // A trigger spawns the one task it wants, if there is any. A trigger by schedule notes the schedule at every
  // task that has it, and nothing else changes.
  lemma TriggerStartsWanted(s: State, name: string, fnc: Id, id: Id)
    ensures var t := Trigger(s, name, fnc, id);
            && (forall i: nat :: Wanted(s.tasks, name, fnc, id, i) ==> t.spawned == s.spawned + multiset{i})
            && ((forall i: nat :: !Wanted(s.tasks, name, fnc, id, i)) ==> t.spawned == s.spawned)
    ensures var t := Trigger(s, name, fnc, id);
            && t == s.(tasks := t.tasks, spawned := t.spawned) && |t.tasks| == |s.tasks|
            && forall i :: 0 <= i < |s.tasks| ==>
                 t.tasks[i] == if name == "" && ByFunction(s.tasks[i], fnc, id) then s.tasks[i].(scheduleIdNext := id)
                               else s.tasks[i]
  {
    var t := Trigger(s, name, fnc, id);
    var index;
    if name != "" {
      FirstSystemTaskIsFirst(s.tasks, name, 0);
      index := FirstSystemTask(s.tasks, name, 0);
    } else {
      LastWithScheduleIsLast(s.tasks, fnc, id);
      index := LastWithSchedule(s.tasks, fnc, id);
    }
    if index.Some? {
      assert Wanted(s.tasks, name, fnc, id, index.value);
      forall i: nat | Wanted(s.tasks, name, fnc, id, i)
        ensures i == index.value
      {
        OneIsWanted(s.tasks, name, fnc, id, i, index.value);
      }
    } else {
      assert t.spawned == s.spawned + multiset{} == s.spawned;
      assert forall i: nat :: !Wanted(s.tasks, name, fnc, id, i);
    }
  }

  lemma OneIsWanted(tasks: seq<Task>, name: string, fnc: Id, id: Id, i: nat, j: nat)
    requires Wanted(tasks, name, fnc, id, i) && Wanted(tasks, name, fnc, id, j)
    ensures i == j
  {
  }

  // A tick that reloads the list starts from what was loaded, and hands every idle task that is due then to a
  // goroutine, whatever time was remembered before.
  lemma ReloadStartsDue(s: State, now: int, loaded: seq<Task>, i: nat)
    requires s.loadTasks && i < |loaded|
    requires forall t :: t in loaded ==> !t.running && (t.runNextUnix > 0 || t.runNextUnix == STOPPED)
    ensures var t := Tick(s, now, loaded);
            && t.tasks == loaded && !t.loadTasks && t.inFlight == s.inFlight
            && t.spawned[i] ==
               s.spawned[i] + if loaded[i].runNextUnix != STOPPED && loaded[i].runNextUnix <= now then 1 else 0
  {
    EarliestIsLowest(loaded, 0);
    assert loaded[i] in loaded;
    var due := Due(loaded, now);
    var started: multiset<nat> := multiset(due);
    assert i in due <==> IsDue(loaded[i], now);
    assert started[i] == if i in due then 1 else 0;
  }
}
