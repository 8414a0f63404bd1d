/** The task scheduler: a table of 64 tasks shared by up to 64 processors under one lock.

    `State` is what the lock protects. Each critical section is one step, a function on states;
    going to sleep or exiting and the yield that follows are one step. The class `Kernel` holds
    the tables and its methods are proved to take exactly these steps. The machine `Real` takes the
    two halves of a sleep or an exit apart, as the code does, and says when that goes wrong. */
module Scheduler {
  import opened Basics

  const MAX_TASKS := 64
  const MAX_CPUS := 64
  const NONE := -1

  datatype TaskState = Unused | Ready | Running | Sleeping | Zombie

  datatype Task = Task(state: TaskState, wakeTick: nat, stack: bool, affinity: int, runningCpu: int, idle: bool)

  const NoTask := Task(Unused, 0, false, NONE, NONE, false)

  /** The scheduler's tables. `lapic[c]` is the hardware number of processor `c`. */
  datatype State = State(tasks: seq<Task>, current: seq<int>, lastPick: seq<int>, idleIndex: seq<int>, lapic: seq<int>)

  /** `task_pick_next` looks for ready tasks that nobody runs and that may run here. */
  predicate Eligible(t: Task, cpu: nat)
  {
    t.state == Ready && t.runningCpu == NONE && (t.affinity < 0 || t.affinity == cpu)
  }

  predicate Wanted(t: Task, cpu: nat, idle: bool) { Eligible(t, cpu) && t.idle == idle }

  /** The table slot at cyclic distance `n` from `start`. */
  function Slot(start: nat, n: nat): (i: nat)
    ensures i < MAX_TASKS
  {
    (start + n) % MAX_TASKS
  }

  /** The first wanted task at cyclic distance `n` or more from `start`. */
  function FirstFrom(tasks: seq<Task>, cpu: nat, start: nat, n: nat, idle: bool): (r: int)
    requires |tasks| == MAX_TASKS && n <= MAX_TASKS
    ensures r == NONE || 0 <= r < MAX_TASKS
    decreases MAX_TASKS - n
  {
    if n == MAX_TASKS then NONE
    else if Wanted(tasks[Slot(start, n)], cpu, idle) then Slot(start, n)
    else FirstFrom(tasks, cpu, start, n + 1, idle)
  }

  /** Round robin after the last pick; an idle task only when nothing else is eligible. */
  function Pick(tasks: seq<Task>, cpu: nat, last: int): (r: int)
    requires |tasks| == MAX_TASKS && last >= NONE
    ensures r == NONE || 0 <= r < MAX_TASKS
  {
    var start := (last + 1) % MAX_TASKS;
    var busy := FirstFrom(tasks, cpu, start, 0, false);
    if busy != NONE then busy else FirstFrom(tasks, cpu, start, 0, true)
  }

  function Reaped(t: Task): Task
  {
    if t.state == Zombie then t.(state := Unused, runningCpu := NONE, stack := false) else t
  }

  function ReapAll(tasks: seq<Task>): (r: seq<Task>)
    ensures |r| == |tasks| && forall i :: 0 <= i < |tasks| ==> r[i] == Reaped(tasks[i])
  {
    seq(|tasks|, i requires 0 <= i < |tasks| => Reaped(tasks[i]))
  }

  predicate Shaped(s: State)
  {
    && |s.tasks| == MAX_TASKS && |s.current| == |s.lastPick| == |s.idleIndex| == |s.lapic| == MAX_CPUS
    && (forall c :: 0 <= c < MAX_CPUS ==> NONE <= s.current[c] < MAX_TASKS)
    && (forall c :: 0 <= c < MAX_CPUS ==> NONE <= s.lastPick[c] < MAX_TASKS)
  }

  /** The task table when the pick is made: zombies reaped, the interrupted task ready again. */
  function BeforePick(s: State, cpu: nat): (r: seq<Task>)
    requires Shaped(s) && cpu < MAX_CPUS
    ensures |r| == MAX_TASKS
  {
    var reaped := ReapAll(s.tasks);
    var prev := s.current[cpu];
    if prev != NONE && reaped[prev].state == Running
    then reaped[prev := reaped[prev].(state := Ready, runningCpu := NONE)]
    else reaped
  }

  function Start(t: Task, s: State, cpu: nat): Task
    requires Shaped(s) && cpu < MAX_CPUS
  {
    t.(state := Running, runningCpu := s.lapic[cpu])
  }

  /** The scheduling interrupt with the lock obtained. */
  function Schedule(s: State, cpu: nat): (r: State)
    requires Shaped(s) && cpu < MAX_CPUS
    ensures Shaped(r)
  {
    var tasks := BeforePick(s, cpu);
    var next := Pick(tasks, cpu, s.lastPick[cpu]);
    var prev := s.current[cpu];
    if next == NONE then
      if prev == NONE then s.(tasks := tasks) else s.(tasks := tasks[prev := Start(tasks[prev], s, cpu)])
    else
      s.(tasks := tasks[next := Start(tasks[next], s, cpu)],
         current := s.current[cpu := next], lastPick := s.lastPick[cpu := next])
  }

  function Change(s: State, i: nat, t: Task): State
    requires i < |s.tasks|
  {
    s.(tasks := s.tasks[i := t])
  }

  function WokenAll(tasks: seq<Task>, now: nat): (r: seq<Task>)
    ensures |r| == |tasks| && forall i :: 0 <= i < |tasks| ==> r[i] == Woken(tasks[i], now)
  {
    seq(|tasks|, i requires 0 <= i < |tasks| => Woken(tasks[i], now))
  }

  function Woken(t: Task, now: nat): Task
  {
    if t.state == Sleeping && now >= t.wakeTick then t.(state := Ready) else t
  }

  function FirstUnused(tasks: seq<Task>, i: nat): (r: int)
    requires i <= |tasks|
    ensures r != NONE ==> i <= r < |tasks| && tasks[r].state == Unused && forall j :: i <= j < r ==> tasks[j].state != Unused
    ensures r == NONE ==> forall j :: i <= j < |tasks| ==> tasks[j].state != Unused
    decreases |tasks| - i
  {
    if i == |tasks| then NONE else if tasks[i].state == Unused then i else FirstUnused(tasks, i + 1)
  }

  datatype Step =
    | Create(affinity: int)                 // a new task, if the table has room
    | Launch(cpu: nat)                      // a processor starts on its idle task
    | Tick(now: nat)                        // the timer wakes sleepers
    | Preempt(cpu: nat)                     // the scheduling interrupt
    | Sleep(cpu: nat, wake: nat)            // the running task sleeps and yields
    | Exit(cpu: nat)                        // the running task ends and yields

  /** Who may take a step: only running tasks that are not idle tasks sleep or exit, and a processor
      with an idle task starts once. */
  ghost predicate Enabled(s: State, step: Step)
    requires Shaped(s)
  {
    match step
    case Create(_) => true
    case Launch(c) => c < MAX_CPUS && s.current[c] == NONE && s.idleIndex[c] != NONE
    case Tick(_) => true
    case Preempt(c) => c < MAX_CPUS && s.current[c] != NONE
    case Sleep(c, _) => c < MAX_CPUS && s.current[c] != NONE && !s.tasks[s.current[c]].idle
    case Exit(c) => c < MAX_CPUS && s.current[c] != NONE && !s.tasks[s.current[c]].idle
  }

  function Suspend(t: Task, step: Step): Task
    requires step.Sleep? || step.Exit?
  {
    if step.Sleep? then t.(state := Sleeping, wakeTick := step.wake, runningCpu := NONE)
    else t.(state := Zombie, runningCpu := NONE)
  }

  ghost function Next(s: State, step: Step): (r: State)
    requires Inv(s) && Enabled(s, step)
    ensures Shaped(r)
  {
    match step
    case Create(affinity) =>
      var i := FirstUnused(s.tasks, 0);
      if i == NONE then s else Change(s, i, Task(Ready, 0, true, affinity, NONE, false))
    case Launch(c) =>
      var i := s.idleIndex[c];
      assert HasIdle(s, c);
      Change(s, i, Start(s.tasks[i], s, c)).(current := s.current[c := i])
    case Tick(now) => s.(tasks := WokenAll(s.tasks, now))
    case Preempt(c) => Schedule(s, c)
    case Sleep(c, _) => Schedule(Change(s, s.current[c], Suspend(s.tasks[s.current[c]], step)), c)
    case Exit(c) => Schedule(Change(s, s.current[c], Suspend(s.tasks[s.current[c]], step)), c)
  }

  /** Task `i` is what processor `c` runs. */
  predicate Runs(s: State, c: int, i: int)
    requires Shaped(s)
  {
    0 <= c < MAX_CPUS && s.current[c] == i
  }

  predicate Allowed(t: Task, c: int) { t.affinity < 0 || t.affinity == c }

  /** Processor `c`'s current task is running there, and allowed to. */
  predicate RunsProperly(s: State, c: nat)
    requires Shaped(s) && c < MAX_CPUS
  {
    s.current[c] != NONE ==>
      var t := s.tasks[s.current[c]];
      t.state == Running && t.runningCpu == s.lapic[c] && Allowed(t, c)
  }

  /** The idle task of processor `c` is its own, and never sleeps or ends. */
  predicate HasIdle(s: State, c: nat)
    requires Shaped(s) && c < MAX_CPUS
  {
    && NONE <= s.idleIndex[c] < MAX_TASKS
    && (s.current[c] != NONE ==> s.idleIndex[c] != NONE)
    && (s.idleIndex[c] != NONE ==>
         var t := s.tasks[s.idleIndex[c]];
         t.idle && t.affinity == c && (t.state == Ready || t.state == Running))
  }

  /** Task `i` is claimed by a processor exactly while it runs, and has a stack exactly while in use. */
  ghost predicate TaskOk(s: State, i: nat)
    requires Shaped(s) && i < MAX_TASKS
  {
    && (s.tasks[i].state == Running ==> exists c :: Runs(s, c, i))
    && (s.tasks[i].state != Running ==> s.tasks[i].runningCpu == NONE)
    && (s.tasks[i].stack <==> s.tasks[i].state != Unused)
  }

  /** The hardware numbers of the processors are distinct. */
  ghost predicate Wired(s: State)
    requires Shaped(s)
  {
    && (forall c, d :: 0 <= c < d < MAX_CPUS ==> s.lapic[c] != s.lapic[d])
    && (forall c :: 0 <= c < MAX_CPUS ==> s.lapic[c] >= 0)
  }

  /** The invariant, except that the current task of processor `x` may just have been suspended. */
  ghost predicate InvExcept(s: State, x: int)
  {
    && Shaped(s) && Wired(s)
    && (forall c :: 0 <= c < MAX_CPUS && c != x ==> RunsProperly(s, c))
    && (forall c :: 0 <= c < MAX_CPUS ==> HasIdle(s, c))
    && (forall i :: 0 <= i < MAX_TASKS ==> TaskOk(s, i))
    && (forall c :: 0 <= c < MAX_CPUS && c == x && s.current[c] != NONE ==>
          RunsProperly(s, c) || s.tasks[s.current[c]].state == Sleeping || s.tasks[s.current[c]].state == Zombie)
  }

  /** What every reachable state satisfies. */
  ghost predicate Inv(s: State) { InvExcept(s, NONE) }

  /** No task is current on two processors. */
  lemma OneProcessorPerTask(s: State, c: nat, d: nat)
    requires Inv(s) && c < d < MAX_CPUS && s.current[c] != NONE && s.current[d] != NONE
    ensures s.current[c] != s.current[d]
  {
    assert RunsProperly(s, c) && RunsProperly(s, d);
  }

  /** If the search finds nothing, nothing was there. */
  lemma {:induction false} FirstFromNone(tasks: seq<Task>, cpu: nat, start: nat, n: nat, idle: bool, m: nat)
    requires |tasks| == MAX_TASKS && n <= m < MAX_TASKS && FirstFrom(tasks, cpu, start, n, idle) == NONE
    ensures !Wanted(tasks[Slot(start, m)], cpu, idle)
    decreases MAX_TASKS - n
  {
    if n >= m {
    } else {
      FirstFromNone(tasks, cpu, start, n + 1, idle, m);
    }
  }

  /** What the search finds is wanted, and is the nearest such task. */
  lemma {:induction false} FirstFromSome(tasks: seq<Task>, cpu: nat, start: nat, n: nat, idle: bool) returns (m: nat)
    requires |tasks| == MAX_TASKS && n <= MAX_TASKS && FirstFrom(tasks, cpu, start, n, idle) != NONE
    ensures n <= m < MAX_TASKS && FirstFrom(tasks, cpu, start, n, idle) == Slot(start, m)
    ensures Wanted(tasks[Slot(start, m)], cpu, idle)
    ensures forall j :: n <= j < m ==> !Wanted(tasks[Slot(start, j)], cpu, idle)
    decreases MAX_TASKS - n
  {
    if Wanted(tasks[Slot(start, n)], cpu, idle) {
      m := n;
    } else {
      m := FirstFromSome(tasks, cpu, start, n + 1, idle);
    }
  }

  lemma AllReached(tasks: seq<Task>, cpu: nat, start: nat, idle: bool, i: nat)
    requires |tasks| == MAX_TASKS && i < MAX_TASKS && start < MAX_TASKS && Wanted(tasks[i], cpu, idle)
    ensures FirstFrom(tasks, cpu, start, 0, idle) != NONE
  {
    var m := (i + MAX_TASKS - start) % MAX_TASKS;
    assert Slot(start, m) == i;
    if FirstFrom(tasks, cpu, start, 0, idle) == NONE {
      FirstFromNone(tasks, cpu, start, 0, idle, m);
    }
  }

  /** The pick is eligible; it is an idle task only if no other task is eligible. */
  lemma PickFacts(tasks: seq<Task>, cpu: nat, last: int)
    requires |tasks| == MAX_TASKS && NONE <= last < MAX_TASKS
    ensures var p := Pick(tasks, cpu, last);
            && (p != NONE ==> Eligible(tasks[p], cpu))
            && (p == NONE <==> forall i :: 0 <= i < MAX_TASKS ==> !Eligible(tasks[i], cpu))
            && (p != NONE && tasks[p].idle ==> forall i :: 0 <= i < MAX_TASKS && Eligible(tasks[i], cpu) ==> tasks[i].idle)
  {
    var start := (last + 1) % MAX_TASKS;
    forall i | 0 <= i < MAX_TASKS && Eligible(tasks[i], cpu)
      ensures FirstFrom(tasks, cpu, start, 0, tasks[i].idle) != NONE
    {
      AllReached(tasks, cpu, start, tasks[i].idle, i);
    }
    if FirstFrom(tasks, cpu, start, 0, false) != NONE {
      var m := FirstFromSome(tasks, cpu, start, 0, false);
    } else if FirstFrom(tasks, cpu, start, 0, true) != NONE {
      var m := FirstFromSome(tasks, cpu, start, 0, true);
    }
  }

  /** At every pick the processor's own idle task is eligible, so a task is always found. */
  lemma SomethingToRun(s: State, c: nat)
    requires InvExcept(s, c) && c < MAX_CPUS && s.current[c] != NONE
    ensures 0 <= s.idleIndex[c] < MAX_TASKS && Eligible(BeforePick(s, c)[s.idleIndex[c]], c)
    ensures Pick(BeforePick(s, c), c, s.lastPick[c]) != NONE
  {
    var i := s.idleIndex[c];
    assert HasIdle(s, c) && TaskOk(s, i);
    if s.tasks[i].state == Running {
      var d :| Runs(s, d, i);
      assert d != c ==> RunsProperly(s, d);
    }
    PickFacts(BeforePick(s, c), c, s.lastPick[c]);
  }

  /** Another processor's current task is neither the interrupted task nor the one picked. */
  lemma OthersUntouched(s: State, c: nat, d: nat)
    requires InvExcept(s, c) && c < MAX_CPUS && d < MAX_CPUS && d != c && s.current[c] != NONE && s.current[d] != NONE
    ensures s.current[d] != s.current[c]
    ensures BeforePick(s, c)[s.current[d]] == s.tasks[s.current[d]] && s.tasks[s.current[d]].state == Running
  {
    assert RunsProperly(s, d);
    assert c < d ==> s.lapic[c] != s.lapic[d];
    assert d < c ==> s.lapic[d] != s.lapic[c];
  }

  lemma ScheduledTaskOk(s: State, c: nat, i: nat)
    requires InvExcept(s, c) && c < MAX_CPUS && s.current[c] != NONE && i < MAX_TASKS
    ensures TaskOk(Schedule(s, c), i)
  {
    SomethingToRun(s, c);
    PickFacts(BeforePick(s, c), c, s.lastPick[c]);
    var r := Schedule(s, c);
    assert TaskOk(s, i);
    if i == r.current[c] {
      assert Runs(r, c, i);
    } else if r.tasks[i].state == Running {
      var d :| Runs(s, d, i);
      assert d != c && Runs(r, d, i);
    }
  }

  /** The scheduling interrupt restores the invariant, also after the current task was suspended. */
  lemma ScheduleKeeps(s: State, c: nat)
    requires InvExcept(s, c) && c < MAX_CPUS && s.current[c] != NONE
    ensures Inv(Schedule(s, c))
  {
    SomethingToRun(s, c);
    PickFacts(BeforePick(s, c), c, s.lastPick[c]);
    var r := Schedule(s, c);
    forall i | 0 <= i < MAX_TASKS ensures TaskOk(r, i) {
      ScheduledTaskOk(s, c, i);
    }
    forall d | 0 <= d < MAX_CPUS ensures RunsProperly(r, d) {
      if d != c && s.current[d] != NONE {
        OthersUntouched(s, c, d);
        assert RunsProperly(s, d);
      }
    }
    forall d | 0 <= d < MAX_CPUS ensures HasIdle(r, d) {
      assert HasIdle(s, d);
    }
  }

  /** Changing one task that no processor runs, without making it running, keeps the invariant. */
  lemma ChangeKeeps(s: State, x: int, i: nat, t: Task)
    requires InvExcept(s, x) && i < MAX_TASKS
    requires s.tasks[i].state != Running && t.state != Running && t.runningCpu == NONE
    requires t.stack <==> t.state != Unused
    requires forall c :: 0 <= c < MAX_CPUS && s.idleIndex[c] == i ==> t.idle && t.affinity == c && t.state == Ready
    requires forall c :: 0 <= c < MAX_CPUS ==> s.current[c] != i
    ensures InvExcept(Change(s, i, t), x)
  {
    var r := Change(s, i, t);
    forall j | 0 <= j < MAX_TASKS ensures TaskOk(r, j) {
      assert TaskOk(s, j);
      if j != i && s.tasks[j].state == Running {
        var d :| Runs(s, d, j);
        assert Runs(r, d, j);
      }
    }
    forall c | 0 <= c < MAX_CPUS && c != x ensures RunsProperly(r, c) {
      assert RunsProperly(s, c);
    }
    forall c | 0 <= c < MAX_CPUS ensures HasIdle(r, c) {
      assert HasIdle(s, c);
    }
  }

  lemma SuspendKeeps(s: State, c: nat, step: Step)
    requires Inv(s) && (step.Sleep? || step.Exit?) && c < MAX_CPUS && s.current[c] != NONE && !s.tasks[s.current[c]].idle
    ensures InvExcept(Change(s, s.current[c], Suspend(s.tasks[s.current[c]], step)), c)
  {
    var i := s.current[c];
    var r := Change(s, i, Suspend(s.tasks[i], step));
    assert RunsProperly(s, c);
    forall j | 0 <= j < MAX_TASKS ensures TaskOk(r, j) {
      assert TaskOk(s, j);
      if j != i && s.tasks[j].state == Running {
        var d :| Runs(s, d, j);
        assert Runs(r, d, j);
      }
    }
    forall d | 0 <= d < MAX_CPUS && d != c ensures RunsProperly(r, d) {
      assert RunsProperly(s, d);
      assert c < d ==> s.lapic[c] != s.lapic[d];
      assert d < c ==> s.lapic[d] != s.lapic[c];
    }
    forall d | 0 <= d < MAX_CPUS ensures HasIdle(r, d) {
      assert HasIdle(s, d);
    }
  }

  /** Only its own processor runs an idle task. */
  lemma IdleRunsAtHome(s: State, c: nat)
    requires Inv(s) && c < MAX_CPUS && s.idleIndex[c] != NONE
    ensures forall d :: Runs(s, d, s.idleIndex[c]) ==> d == c
  {
    assert HasIdle(s, c);
    forall d | Runs(s, d, s.idleIndex[c]) ensures d == c {
      assert RunsProperly(s, d);
    }
  }

  lemma LaunchKeeps(s: State, c: nat)
    requires Inv(s) && Enabled(s, Launch(c))
    ensures Inv(Next(s, Launch(c)))
  {
    var r := Next(s, Launch(c));
    var i := s.idleIndex[c];
    assert HasIdle(s, c);
    IdleRunsAtHome(s, c);
    assert TaskOk(s, i) && !Runs(s, c, i);
    forall j | 0 <= j < MAX_TASKS ensures TaskOk(r, j) {
      assert TaskOk(s, j);
      if j == i {
        assert Runs(r, c, i);
      } else if s.tasks[j].state == Running {
        var d :| Runs(s, d, j);
        assert Runs(r, d, j);
      }
    }
    forall d | 0 <= d < MAX_CPUS ensures RunsProperly(r, d) && HasIdle(r, d) {
      assert RunsProperly(s, d) && HasIdle(s, d);
    }
  }

  lemma TickKeeps(s: State, now: nat)
    requires Inv(s)
    ensures Inv(Next(s, Tick(now)))
  {
    var r := Next(s, Tick(now));
    forall j | 0 <= j < MAX_TASKS ensures TaskOk(r, j) {
      assert TaskOk(s, j);
      if s.tasks[j].state == Running {
        var d :| Runs(s, d, j);
        assert Runs(r, d, j);
      }
    }
    forall d | 0 <= d < MAX_CPUS ensures RunsProperly(r, d) && HasIdle(r, d) {
      assert RunsProperly(s, d) && HasIdle(s, d);
    }
  }

  lemma CreateKeeps(s: State, affinity: int)
    requires Inv(s)
    ensures Inv(Next(s, Create(affinity)))
  {
    var i := FirstUnused(s.tasks, 0);
    if i != NONE {
      forall c | 0 <= c < MAX_CPUS ensures s.current[c] != i && s.idleIndex[c] != i {
        assert RunsProperly(s, c) && HasIdle(s, c);
      }
      ChangeKeeps(s, NONE, i, Task(Ready, 0, true, affinity, NONE, false));
    }
  }

  /** Every step keeps the invariant. */
  lemma StepKeeps(s: State, step: Step)
    requires Inv(s) && Enabled(s, step)
    ensures Inv(Next(s, step))
  {
    match step
    case Create(affinity) => CreateKeeps(s, affinity);
    case Launch(c) => LaunchKeeps(s, c);
    case Tick(now) => TickKeeps(s, now);
    case Preempt(c) =>
      assert RunsProperly(s, c);
      ScheduleKeeps(s, c);
    case Sleep(c, _) =>
      SuspendKeeps(s, c, step);
      ScheduleKeeps(Change(s, s.current[c], Suspend(s.tasks[s.current[c]], step)), c);
    case Exit(c) =>
      SuspendKeeps(s, c, step);
      ScheduleKeeps(Change(s, s.current[c], Suspend(s.tasks[s.current[c]], step)), c);
  }

  /** The tables after `task_init` on a machine with `cpus` processors. */
  function InitialTasks(cpus: nat): (r: seq<Task>)
    ensures |r| == MAX_TASKS
  {
    seq(MAX_TASKS, i => if 0 <= i < cpus then Task(Ready, 0, true, i, NONE, true) else NoTask)
  }

  function Initial(cpus: nat, lapic: seq<int>): State
  {
    State(InitialTasks(cpus), seq(MAX_CPUS, _ => NONE), seq(MAX_CPUS, _ => NONE),
          seq(MAX_CPUS, c => if 0 <= c < cpus then c else NONE), lapic)
  }

  lemma InitialInv(cpus: nat, lapic: seq<int>)
    requires |lapic| == MAX_CPUS && (forall c, d :: 0 <= c < d < MAX_CPUS ==> lapic[c] != lapic[d])
    requires forall c :: 0 <= c < MAX_CPUS ==> lapic[c] >= 0
    ensures Inv(Initial(cpus, lapic))
  {
    var s := Initial(cpus, lapic);
    forall i | 0 <= i < MAX_TASKS ensures TaskOk(s, i) {}
    forall c | 0 <= c < MAX_CPUS ensures RunsProperly(s, c) && HasIdle(s, c) {}
  }

  /** Every step of a run is enabled where it is taken. */
  ghost predicate CanRun(s: State, steps: seq<Step>)
    requires Inv(s)
    decreases |steps|
  {
    steps == [] || (Enabled(s, steps[0]) && (StepKeeps(s, steps[0]); CanRun(Next(s, steps[0]), steps[1..])))
  }

  ghost function After(s: State, steps: seq<Step>): (r: State)
    requires Inv(s) && CanRun(s, steps)
    ensures Inv(r)
    decreases |steps|
  {
    if steps == [] then s else StepKeeps(s, steps[0]); After(Next(s, steps[0]), steps[1..])
  }

  /** Every reachable state: what is current runs, on one processor only, where it may; what is ready
      is unclaimed; and the next interrupt finds a task. */
  lemma EveryRunIsSafe(cpus: nat, lapic: seq<int>, steps: seq<Step>)
    requires Inv(Initial(cpus, lapic)) && CanRun(Initial(cpus, lapic), steps)
    ensures var s := After(Initial(cpus, lapic), steps);
            && (forall c :: 0 <= c < MAX_CPUS ==> RunsProperly(s, c))
            && (forall c, d :: 0 <= c < d < MAX_CPUS && s.current[c] != NONE ==> s.current[c] != s.current[d])
            && (forall i :: 0 <= i < MAX_TASKS && s.tasks[i].state == Ready ==> s.tasks[i].runningCpu == NONE)
            && (forall c: nat :: c < MAX_CPUS && s.current[c] != NONE ==> Pick(BeforePick(s, c), c, s.lastPick[c]) != NONE)
  {
    var s := After(Initial(cpus, lapic), steps);
    forall c, d | 0 <= c < d < MAX_CPUS && s.current[c] != NONE ensures s.current[c] != s.current[d] {
      if s.current[d] != NONE {
        OneProcessorPerTask(s, c, d);
      }
    }
    forall i | 0 <= i < MAX_TASKS && s.tasks[i].state == Ready ensures s.tasks[i].runningCpu == NONE {
      assert TaskOk(s, i);
    }
    forall c: nat | c < MAX_CPUS && s.current[c] != NONE ensures Pick(BeforePick(s, c), c, s.lastPick[c]) != NONE {
      assert RunsProperly(s, c);
      SomethingToRun(s, c);
    }
  }

  /** How far task `t` is from its turn: the cyclic distance from the slot after the last pick. */
  function Distance(t: nat, last: int): (d: nat)
    requires t < MAX_TASKS && NONE <= last < MAX_TASKS
    ensures d < MAX_TASKS
  {
    (t + MAX_TASKS - (last + 1)) % MAX_TASKS
  }

  lemma DistanceIsSlot(t: nat, last: int)
    requires t < MAX_TASKS && NONE <= last < MAX_TASKS
    ensures Slot((last + 1) % MAX_TASKS, Distance(t, last)) == t
  {
  }

  lemma CloserBy(t: nat, last: int, m: nat)
    requires t < MAX_TASKS && NONE <= last < MAX_TASKS && m < Distance(t, last)
    ensures Distance(t, Slot((last + 1) % MAX_TASKS, m)) == Distance(t, last) - m - 1
  {
    var start := if last + 1 == MAX_TASKS then 0 else last + 1;
    Once(last + 1);
    Once(t + MAX_TASKS - (last + 1));
    var s := if start + m < MAX_TASKS then start + m else start + m - MAX_TASKS;
    Once(start + m);
    Once(t + MAX_TASKS - (s + 1));
  }

  lemma Once(x: nat)
    requires x < 2 * MAX_TASKS
    ensures x % MAX_TASKS == if x < MAX_TASKS then x else x - MAX_TASKS
  {
  }

  /** A waiting task is picked, or moves strictly closer to its turn. */
  lemma PickGetsCloser(tasks: seq<Task>, cpu: nat, last: int, t: nat)
    requires |tasks| == MAX_TASKS && NONE <= last < MAX_TASKS && t < MAX_TASKS
    requires Wanted(tasks[t], cpu, false)
    ensures var p := Pick(tasks, cpu, last);
            p != NONE && (p == t || Distance(t, p) < Distance(t, last))
  {
    var start := (last + 1) % MAX_TASKS;
    AllReached(tasks, cpu, start, false, t);
    var m := FirstFromSome(tasks, cpu, start, 0, false);
    DistanceIsSlot(t, last);
    if m < Distance(t, last) {
      CloserBy(t, last, m);
    }
  }

  predicate PicksOn(step: Step, c: nat)
  {
    match step
    case Preempt(d) => d == c
    case Sleep(d, _) => d == c
    case Exit(d) => d == c
    case _ => false
  }

  /** The state in which a picking step makes its pick. */
  ghost function AtPick(s: State, step: Step, c: nat): (r: State)
    requires Inv(s) && Enabled(s, step) && PicksOn(step, c)
    ensures Shaped(r) && c < MAX_CPUS && r.lastPick == s.lastPick && r.current == s.current
    ensures InvExcept(r, c) && Next(s, step) == Schedule(r, c)
  {
    if step.Preempt? then
      assert RunsProperly(s, c);
      s
    else
      SuspendKeeps(s, c, step);
      Change(s, s.current[c], Suspend(s.tasks[s.current[c]], step))
  }

  function PicksBy(steps: seq<Step>, c: nat): nat
  {
    if steps == [] then 0 else (if PicksOn(steps[0], c) then 1 else 0) + PicksBy(steps[1..], c)
  }

  /** At each of processor `c`'s picks, task `t` is eligible and not an idle task. */
  ghost predicate KeepsWaiting(s: State, steps: seq<Step>, c: nat, t: nat)
    requires Inv(s) && CanRun(s, steps) && t < MAX_TASKS
    decreases |steps|
  {
    steps == [] ||
    (StepKeeps(s, steps[0]);
     && (PicksOn(steps[0], c) ==> Wanted(BeforePick(AtPick(s, steps[0], c), c)[t], c, false))
     && KeepsWaiting(Next(s, steps[0]), steps[1..], c, t))
  }

  /** Some pick of processor `c` is task `t`. */
  ghost predicate IsChosen(s: State, steps: seq<Step>, c: nat, t: nat)
    requires Inv(s) && CanRun(s, steps)
    decreases |steps|
  {
    steps != [] &&
    (StepKeeps(s, steps[0]);
     || (PicksOn(steps[0], c) && Next(s, steps[0]).current[c] == t)
     || IsChosen(Next(s, steps[0]), steps[1..], c, t))
  }

  lemma OnlyPicksMoveTheHand(s: State, step: Step, c: nat)
    requires Inv(s) && Enabled(s, step) && c < MAX_CPUS && !PicksOn(step, c)
    ensures Next(s, step).lastPick[c] == s.lastPick[c]
  {
  }

  /** Round robin is fair: a task that stays eligible is chosen within distance + 1 of the processor's
      picks, hence within 64, whatever the other processors do meanwhile. */
  lemma {:induction false} Fair(s: State, steps: seq<Step>, c: nat, t: nat)
    requires Inv(s) && CanRun(s, steps) && c < MAX_CPUS && t < MAX_TASKS
    requires KeepsWaiting(s, steps, c, t) && PicksBy(steps, c) > Distance(t, s.lastPick[c])
    ensures IsChosen(s, steps, c, t)
    decreases |steps|
  {
    var step := steps[0];
    StepKeeps(s, step);
    var r := Next(s, step);
    if PicksOn(step, c) {
      var q := AtPick(s, step, c);
      PickGetsCloser(BeforePick(q, c), c, s.lastPick[c], t);
      if r.current[c] != t {
        Fair(r, steps[1..], c, t);
      }
    } else {
      OnlyPicksMoveTheHand(s, step, c);
      Fair(r, steps[1..], c, t);
    }
  }

  // ----- What each step does to a task -----

  /** A new task takes the first unused slot; nothing else changes. */
  lemma CreateEffect(s: State, affinity: int)
    requires Inv(s)
    ensures var r := Next(s, Create(affinity));
            && r.current == s.current && r.lastPick == s.lastPick && r.idleIndex == s.idleIndex && r.lapic == s.lapic
            && forall i: nat :: i < MAX_TASKS ==>
                 if s.tasks[i].state == Unused && (forall j :: 0 <= j < i ==> s.tasks[j].state != Unused)
                 then r.tasks[i] == Task(Ready, 0, true, affinity, NONE, false)
                 else r.tasks[i] == s.tasks[i]
  {
  }

  /** The idle task of the processor runs on it; nothing else changes. */
  lemma LaunchEffect(s: State, c: nat)
    requires Inv(s) && Enabled(s, Launch(c))
    ensures var r := Next(s, Launch(c));
            && r.current[c] == s.idleIndex[c] && (forall d :: 0 <= d < MAX_CPUS && d != c ==> r.current[d] == s.current[d])
            && r.lastPick == s.lastPick && r.idleIndex == s.idleIndex && r.lapic == s.lapic
            && forall i: nat :: i < MAX_TASKS ==>
                 if i == s.idleIndex[c] then r.tasks[i] == s.tasks[i].(state := Running, runningCpu := s.lapic[c])
                 else r.tasks[i] == s.tasks[i]
  {
    assert HasIdle(s, c);
  }

  /** Sleepers whose time has come are ready; nothing else changes. */
  lemma TickEffect(s: State, now: nat)
    requires Inv(s)
    ensures var r := Next(s, Tick(now));
            && r.current == s.current && r.lastPick == s.lastPick && r.idleIndex == s.idleIndex && r.lapic == s.lapic
            && forall i: nat :: i < MAX_TASKS ==>
                 if s.tasks[i].state == Sleeping && s.tasks[i].wakeTick <= now then r.tasks[i] == s.tasks[i].(state := Ready)
                 else r.tasks[i] == s.tasks[i]
  {
  }

  /** What a task is after processor `c` has gone from task `prev` to task `next`, having been `t` before. */
  ghost predicate Switched(t: Task, u: Task, lapic: int, isNext: bool) {
    if isNext then u == t.(state := Running, runningCpu := lapic)
    else if t.state == Running || t.state == Ready then u == t.(state := Ready, runningCpu := NONE)
    else if t.state == Zombie || t.state == Unused then u == t.(state := Unused, runningCpu := NONE, stack := false)
    else u == t
  }

  /** What a processor does when it goes to another task, `left` being what its own was left as. */
  ghost predicate Switches(s: State, left: Task, r: State, c: nat)
    requires Shaped(s) && Shaped(r) && c < MAX_CPUS && s.current[c] != NONE
  {
    var prev, next := s.current[c], r.current[c];
    && next != NONE && r.lastPick[c] == next && r.idleIndex == s.idleIndex && r.lapic == s.lapic
    && (forall d :: 0 <= d < MAX_CPUS && d != c ==> r.current[d] == s.current[d] && r.lastPick[d] == s.lastPick[d])
    && forall i: nat :: i < MAX_TASKS ==>
         if i == prev || i == next || s.tasks[i].state == Zombie
         then Switched(if i == prev then left else s.tasks[i], r.tasks[i], s.lapic[c], i == next)
         else r.tasks[i] == s.tasks[i]
  }

  lemma ScheduleSwitches(s: State, q: State, c: nat)
    requires c < MAX_CPUS && Shaped(s) && s.current[c] != NONE && InvExcept(q, c)
    requires q == s.(tasks := s.tasks[s.current[c] := q.tasks[s.current[c]]])
    ensures Switches(s, q.tasks[s.current[c]], Schedule(q, c), c)
  {
    SomethingToRun(q, c);
    PickFacts(BeforePick(q, c), c, q.lastPick[c]);
    assert forall i :: 0 <= i < MAX_TASKS ==> TaskOk(q, i);
  }

  /** The scheduling interrupt goes from the running task, which is ready again, to another or the same. */
  lemma PreemptEffect(s: State, c: nat)
    requires Inv(s) && Enabled(s, Preempt(c))
    ensures Switches(s, s.tasks[s.current[c]], Next(s, Preempt(c)), c)
  {
    ScheduleSwitches(s, s, c);
  }

  /** Sleeping leaves the task asleep until its time, and goes to another. */
  lemma SleepEffect(s: State, c: nat, wake: nat)
    requires Inv(s) && Enabled(s, Sleep(c, wake))
    ensures var t := s.current[c];
            var r := Next(s, Sleep(c, wake));
            && r.current[c] != t && r.tasks[t] == s.tasks[t].(state := Sleeping, wakeTick := wake, runningCpu := NONE)
            && Switches(s, r.tasks[t], r, c)
  {
    var q := Half(s, c, Sleep(c, wake));
    SuspendKeeps(s, c, Sleep(c, wake));
    ScheduleSwitches(s, q, c);
    SomethingToRun(q, c);
    PickFacts(BeforePick(q, c), c, q.lastPick[c]);
  }

  /** Ending leaves an unused slot without a stack, and goes to another task. */
  lemma ExitEffect(s: State, c: nat)
    requires Inv(s) && Enabled(s, Exit(c))
    ensures var t := s.current[c];
            var r := Next(s, Exit(c));
            && r.current[c] != t && r.tasks[t] == s.tasks[t].(state := Unused, runningCpu := NONE, stack := false)
            && Switches(s, s.tasks[t].(state := Zombie, runningCpu := NONE), r, c)
  {
    var q := Half(s, c, Exit(c));
    SuspendKeeps(s, c, Exit(c));
    ScheduleSwitches(s, q, c);
    SomethingToRun(q, c);
    PickFacts(BeforePick(q, c), c, q.lastPick[c]);
  }

  // ----- How long a task sleeps -----

  /** Task `t` sleeps until tick `wake` and no processor runs it. */
  ghost predicate Asleep(s: State, t: nat, wake: nat)
    requires Shaped(s) && t < MAX_TASKS
  {
    s.tasks[t].state == Sleeping && s.tasks[t].wakeTick == wake && forall c :: 0 <= c < MAX_CPUS ==> s.current[c] != t
  }

  /** The step is a tick at which a sleeper of that time wakes. */
  predicate Wakes(step: Step, wake: nat) {
    step.Tick? && step.now >= wake
  }

  lemma FallsAsleep(s: State, c: nat, wake: nat)
    requires Inv(s) && Enabled(s, Sleep(c, wake))
    ensures Asleep(Next(s, Sleep(c, wake)), s.current[c], wake)
  {
    SleepEffect(s, c, wake);
    forall d | 0 <= d < MAX_CPUS && d != c
      ensures s.current[d] != s.current[c]
    {
      assert RunsProperly(s, c) && RunsProperly(s, d);
    }
  }

  /** Every step but such a tick leaves a sleeper asleep. */
  lemma StaysAsleep(s: State, step: Step, t: nat, wake: nat)
    requires Inv(s) && Enabled(s, step) && t < MAX_TASKS && Asleep(s, t, wake) && !Wakes(step, wake)
    ensures Asleep(Next(s, step), t, wake)
  {
    match step
    case Create(affinity) => CreateEffect(s, affinity);
    case Launch(c) =>
      LaunchEffect(s, c);
      assert HasIdle(s, c);
    case Tick(now) => TickEffect(s, now);
    case Preempt(c) =>
      PreemptEffect(s, c);
      NotTheNext(s, step, c, t);
    case Sleep(c, w) =>
      SleepEffect(s, c, w);
      NotTheNext(s, step, c, t);
    case Exit(c) =>
      ExitEffect(s, c);
      NotTheNext(s, step, c, t);
  }

  /** A sleeper of another processor is not what a processor goes to. */
  lemma NotTheNext(s: State, step: Step, c: nat, t: nat)
    requires Inv(s) && Enabled(s, step) && t < MAX_TASKS && s.tasks[t].state == Sleeping && PicksOn(step, c) && c < MAX_CPUS
    ensures Next(s, step).current[c] != t
  {
    var q := AtPick(s, step, c);
    assert RunsProperly(s, c);
    if step.Preempt? {
      SomethingToRun(q, c);
    } else {
      SuspendKeeps(s, c, step);
      SomethingToRun(q, c);
    }
    PickFacts(BeforePick(q, c), c, q.lastPick[c]);
  }

  /**
   * Over every run from a `Sleep(c, wake)` on: the task sleeps and no processor runs it until the first tick at
   * `wake` or later, and that tick makes it ready.
   */
  lemma {:induction false} SleepsUntil(s: State, steps: seq<Step>, t: nat, wake: nat)
    requires Inv(s) && CanRun(s, steps) && t < MAX_TASKS && Asleep(s, t, wake)
    requires forall i :: 0 <= i < |steps| - 1 ==> !Wakes(steps[i], wake)
    ensures var r := After(s, steps);
            if steps != [] && Wakes(steps[|steps| - 1], wake)
            then r.tasks[t].state == Ready && forall c :: 0 <= c < MAX_CPUS ==> r.current[c] != t
            else Asleep(r, t, wake)
    decreases |steps|
  {
    if steps == [] {
    } else {
      StepKeeps(s, steps[0]);
      if Wakes(steps[0], wake) {
        TickEffect(s, steps[0].now);
        assert steps[1..] == [];
      } else {
        StaysAsleep(s, steps[0], t, wake);
        SleepsUntil(Next(s, steps[0]), steps[1..], t, wake);
      }
    }
  }

  lemma SleepLaw(s: State, c: nat, wake: nat, steps: seq<Step>)
    requires Inv(s) && CanRun(s, [Sleep(c, wake)] + steps) && forall i :: 0 <= i < |steps| - 1 ==> !Wakes(steps[i], wake)
    ensures var r, t := After(s, [Sleep(c, wake)] + steps), s.current[c];
            if steps != [] && Wakes(steps[|steps| - 1], wake)
            then r.tasks[t].state == Ready && forall d :: 0 <= d < MAX_CPUS ==> r.current[d] != t
            else Asleep(r, t, wake)
  {
    var run := [Sleep(c, wake)] + steps;
    assert run[0] == Sleep(c, wake) && run[1..] == steps;
    StepKeeps(s, run[0]);
    FallsAsleep(s, c, wake);
    SleepsUntil(Next(s, run[0]), steps, s.current[c], wake);
  }

  // ----- The lock as the code takes it -----

  /** The first half of sleeping or ending: the lock is released before the yield. */
  function Half(s: State, c: nat, step: Step): (r: State)
    requires Shaped(s) && c < MAX_CPUS && s.current[c] != NONE && (step.Sleep? || step.Exit?)
    ensures Shaped(r)
  {
    Change(s, s.current[c], Suspend(s.tasks[s.current[c]], step))
  }

  function HalfSleep(s: State, c: nat, wake: nat): (r: State)
    requires Shaped(s) && c < MAX_CPUS && s.current[c] != NONE
    ensures Shaped(r)
  {
    Half(s, c, Sleep(c, wake))
  }

  /** Task `t` is wanted and comes before every other wanted task, counted from the slot after `last`. */
  ghost predicate ComesFirst(tasks: seq<Task>, cpu: nat, last: int, t: nat)
    requires |tasks| == MAX_TASKS && NONE <= last < MAX_TASKS && t < MAX_TASKS
  {
    && Wanted(tasks[t], cpu, false)
    && forall i: nat :: i < MAX_TASKS && i != t && Wanted(tasks[i], cpu, false) ==> Distance(t, last) < Distance(i, last)
  }

  lemma DistanceOfSlot(last: int, m: nat)
    requires NONE <= last < MAX_TASKS && m < MAX_TASKS
    ensures Distance(Slot((last + 1) % MAX_TASKS, m), last) == m
  {
  }

  /** A task that is not idle is picked exactly when it comes first. */
  lemma PickIsFirst(tasks: seq<Task>, cpu: nat, last: int, t: nat)
    requires |tasks| == MAX_TASKS && NONE <= last < MAX_TASKS && t < MAX_TASKS && !tasks[t].idle
    ensures Pick(tasks, cpu, last) == t <==> ComesFirst(tasks, cpu, last, t)
  {
    PickFacts(tasks, cpu, last);
    var start := (last + 1) % MAX_TASKS;
    if FirstFrom(tasks, cpu, start, 0, false) != NONE {
      var m := FirstFromSome(tasks, cpu, start, 0, false);
      DistanceOfSlot(last, m);
      forall i: nat | i < MAX_TASKS && Wanted(tasks[i], cpu, false)
        ensures i == Slot(start, m) || m < Distance(i, last)
      {
        DistanceIsSlot(i, last);
      }
    } else {
      assert !Wanted(tasks[t], cpu, false) by {
        if Wanted(tasks[t], cpu, false) {
          AllReached(tasks, cpu, start, false, t);
        }
      }
    }
  }

  /** Task `i` could be picked by processor `d` right after a tick at `now`: seen before any of it happens. */
  predicate CouldRun(s: State, i: nat, d: nat, now: nat)
    requires Shaped(s) && i < MAX_TASKS && d < MAX_CPUS
  {
    var t := s.tasks[i];
    !t.idle && Allowed(t, d) && (t.state == Ready || i == s.current[d] || (t.state == Sleeping && now >= t.wakeTick))
  }

  /** Its time has come, it may run on `d`, and it is the nearest to the hand of `d` that could. */
  ghost predicate SleeperTaken(s: State, c: nat, wake: nat, now: nat, d: nat)
    requires Shaped(s) && c < MAX_CPUS && d < MAX_CPUS && s.current[c] != NONE
  {
    var t := s.current[c];
    && now >= wake && Allowed(s.tasks[t], d)
    && forall i: nat :: i < MAX_TASKS && i != t && CouldRun(s, i, d, now) ==>
         Distance(t, s.lastPick[d]) < Distance(i, s.lastPick[d])
  }

  /** When the table is looked at in the gap, exactly those that could run are wanted, and the sleeper if it is due. */
  lemma WantedInGap(s: State, c: nat, wake: nat, now: nat, d: nat, i: nat)
    requires Inv(s) && Enabled(s, Sleep(c, wake)) && d < MAX_CPUS && d != c && s.current[d] != NONE && i < MAX_TASKS
    ensures var gap := HalfSleep(s, c, wake);
            var tasks := BeforePick(gap.(tasks := WokenAll(gap.tasks, now)), d);
            && (i == s.current[c] ==> !tasks[i].idle && (Wanted(tasks[i], d, false) <==> now >= wake && Allowed(s.tasks[i], d)))
            && (i != s.current[c] ==> (Wanted(tasks[i], d, false) <==> CouldRun(s, i, d, now)))
  {
    assert RunsProperly(s, c) && RunsProperly(s, d) && TaskOk(s, i);
    assert c < d ==> s.lapic[c] != s.lapic[d];
    assert d < c ==> s.lapic[d] != s.lapic[c];
    if s.tasks[i].state == Running && i != s.current[d] {
      assert s.tasks[i].runningCpu != NONE by {
        var e :| Runs(s, e, i);
        assert RunsProperly(s, e);
      }
    }
  }

  /**
   * Exactly when a tick and an interrupt of processor `d`, coming between the sleep of processor `c` and
   * its yield, make the sleeping task current on both.
   */
  lemma SleepRaceExactly(s: State, c: nat, wake: nat, now: nat, d: nat)
    requires Inv(s) && Enabled(s, Sleep(c, wake)) && d < MAX_CPUS && d != c && s.current[d] != NONE
    ensures var gap := HalfSleep(s, c, wake);
            var r := Schedule(gap.(tasks := WokenAll(gap.tasks, now)), d);
            r.current[c] == r.current[d] <==> SleeperTaken(s, c, wake, now, d)
  {
    var t: nat := s.current[c];
    var gap := HalfSleep(s, c, wake);
    var woken := gap.(tasks := WokenAll(gap.tasks, now));
    var tasks := BeforePick(woken, d);
    forall i: nat | i < MAX_TASKS
      ensures i == t ==> !tasks[i].idle && (Wanted(tasks[i], d, false) <==> now >= wake && Allowed(s.tasks[i], d))
      ensures i != t ==> (Wanted(tasks[i], d, false) <==> CouldRun(s, i, d, now))
    {
      WantedInGap(s, c, wake, now, d, i);
    }
    PickIsFirst(tasks, d, s.lastPick[d], t);
    OtherCurrent(s, c, d);
  }

  lemma OtherCurrent(s: State, c: nat, d: nat)
    requires Inv(s) && c < MAX_CPUS && d < MAX_CPUS && c != d && s.current[c] != NONE
    ensures s.current[c] != s.current[d]
  {
    if s.current[d] != NONE {
      OneProcessorPerTask(s, if c < d then c else d, if c < d then d else c);
    }
  }

  /**
   * The ended task's slot and stack are given back by any interrupt of another processor that comes
   * before the yield, while processor `c` still runs on that stack.
   */
  lemma ExitRace(s: State, c: nat, d: nat)
    requires Inv(s) && Enabled(s, Exit(c)) && d < MAX_CPUS && d != c && s.current[d] != NONE
    ensures var t := s.current[c];
            var r := Schedule(Half(s, c, Exit(c)), d);
            r.current[c] == t && r.tasks[t].state == Unused && !r.tasks[t].stack && r.current[d] != t
  {
    var gap := Half(s, c, Exit(c));
    var t := s.current[c];
    OtherCurrent(s, c, d);
    PickFacts(BeforePick(gap, d), d, gap.lastPick[d]);
  }

  /** The machine as the code runs it: each step takes the lock once. `gaps` are the processors between two steps. */
  datatype Real = Real(s: State, gaps: set<nat>)

  datatype RealStep =
    | Made(affinity: int)
    | Started(cpu: nat)
    | Ticked(now: nat)
    | Suspended(cpu: nat, how: Step)        // the first half of a sleep or an exit, also by a task whose yield missed the lock
    | Interrupted(cpu: nat)                 // a yield, or an interrupt at any other time

  ghost predicate RealEnabled(r: Real, step: RealStep)
    requires Shaped(r.s)
  {
    match step
    case Made(_) => true
    case Started(c) => Enabled(r.s, Launch(c))
    case Ticked(_) => true
    case Suspended(c, how) => (how.Sleep? || how.Exit?) && how.cpu == c && Enabled(r.s, how)
    case Interrupted(c) => Enabled(r.s, Preempt(c))
  }

  ghost function RealNext(r: Real, step: RealStep): (q: Real)
    requires Shaped(r.s) && RealEnabled(r, step) && forall c :: 0 <= c < MAX_CPUS ==> HasIdle(r.s, c)
    ensures Shaped(q.s)
  {
    match step
    case Made(affinity) =>
      var i := FirstUnused(r.s.tasks, 0);
      if i == NONE then r else r.(s := Change(r.s, i, Task(Ready, 0, true, affinity, NONE, false)))
    case Started(c) =>
      assert HasIdle(r.s, c);
      var i := r.s.idleIndex[c];
      r.(s := Change(r.s, i, Start(r.s.tasks[i], r.s, c)).(current := r.s.current[c := i]))
    case Ticked(now) => r.(s := r.s.(tasks := WokenAll(r.s.tasks, now)))
    case Suspended(c, how) => Real(Half(r.s, c, how), r.gaps + {c})
    case Interrupted(c) => Real(Schedule(r.s, c), r.gaps - {c})
  }

  /** A processor in its gap still runs a task that is no idle task and has its slot. */
  predicate GapOk(s: State, c: nat)
    requires Shaped(s)
  {
    && c < MAX_CPUS && s.current[c] != NONE && !s.tasks[s.current[c]].idle
    && var state := s.tasks[s.current[c]].state; state == Sleeping || state == Ready || state == Zombie
  }

  /** No task is current on two processors, and no processor runs a task whose slot and stack are given back. */
  ghost predicate Exclusive(s: State)
    requires Shaped(s)
  {
    && (forall c, d :: 0 <= c < d < MAX_CPUS && s.current[c] != NONE ==> s.current[c] != s.current[d])
    && (forall c :: 0 <= c < MAX_CPUS && s.current[c] != NONE ==> s.tasks[s.current[c]].state != Unused)
  }

  ghost predicate RealInv(r: Real)
  {
    && Shaped(r.s) && Wired(r.s) && Exclusive(r.s)
    && (forall c :: 0 <= c < MAX_CPUS && c !in r.gaps ==> RunsProperly(r.s, c))
    && (forall c :: c in r.gaps ==> GapOk(r.s, c))
    && (forall c :: 0 <= c < MAX_CPUS ==> HasIdle(r.s, c))
    && (forall i :: 0 <= i < MAX_TASKS ==> TaskOk(r.s, i))
  }

  /** The interrupt of processor `d` comes while another processor is between ending a task and yielding. */
  ghost predicate Frees(r: Real, d: nat, c: nat)
    requires Shaped(r.s)
  {
    c in r.gaps && c != d && GapOk(r.s, c) && r.s.tasks[r.s.current[c]].state == Zombie
  }

  /** Or while another processor's sleeper is due and comes first for `d`. */
  ghost predicate Takes(r: Real, d: nat, c: nat)
    requires Shaped(r.s) && d < MAX_CPUS
  {
    c in r.gaps && c != d && GapOk(r.s, c) && ComesFirst(BeforePick(r.s, d), d, r.s.lastPick[d], r.s.current[c])
  }

  ghost predicate Clashes(r: Real, step: RealStep)
    requires Shaped(r.s) && RealEnabled(r, step)
  {
    step.Interrupted? && exists c :: Frees(r, step.cpu, c) || Takes(r, step.cpu, c)
  }

  /** An interrupt that clashes breaks the exclusion. */
  lemma ClashBreaks(r: Real, d: nat, c: nat)
    requires RealInv(r) && RealEnabled(r, Interrupted(d)) && (Frees(r, d, c) || Takes(r, d, c))
    ensures !Exclusive(RealNext(r, Interrupted(d)).s)
  {
    var t: nat := r.s.current[c];
    var tasks := BeforePick(r.s, d);
    assert r.s.current[if c < d then c else d] != r.s.current[if c < d then d else c];
    PickFacts(tasks, d, r.s.lastPick[d]);
    assert !tasks[t].idle;
    PickIsFirst(tasks, d, r.s.lastPick[d], t);
    var q := RealNext(r, Interrupted(d)).s;
    if Takes(r, d, c) {
      assert q.current[c] == q.current[d] == t;
      assert q.current[if c < d then c else d] == q.current[if c < d then d else c];
    } else {
      assert q.current[c] == t && q.tasks[t].state == Unused;
    }
  }

  /** On a started processor there is always a task to pick. */
  lemma RealSomethingToRun(r: Real, d: nat)
    requires RealInv(r) && RealEnabled(r, Interrupted(d))
    ensures Pick(BeforePick(r.s, d), d, r.s.lastPick[d]) != NONE
  {
    var i := r.s.idleIndex[d];
    assert HasIdle(r.s, d) && TaskOk(r.s, i);
    if r.s.tasks[i].state == Running {
      var e: nat :| Runs(r.s, e, i);
      assert if e in r.gaps then GapOk(r.s, e) else RunsProperly(r.s, e);
      assert e == d;
    }
    assert Eligible(BeforePick(r.s, d)[i], d);
    PickFacts(BeforePick(r.s, d), d, r.s.lastPick[d]);
  }

  /** What another processor runs is not touched by an interrupt of `d` that does not clash. */
  lemma RealOthers(r: Real, d: nat, c: nat)
    requires RealInv(r) && RealEnabled(r, Interrupted(d)) && !Clashes(r, Interrupted(d))
    requires c < MAX_CPUS && c != d && r.s.current[c] != NONE
    ensures var q := RealNext(r, Interrupted(d)).s;
            q.current[c] == r.s.current[c] != q.current[d] && q.tasks[r.s.current[c]] == r.s.tasks[r.s.current[c]]
  {
    var t: nat := r.s.current[c];
    var tasks := BeforePick(r.s, d);
    assert r.s.current[if c < d then c else d] != r.s.current[if c < d then d else c];
    RealSomethingToRun(r, d);
    PickFacts(tasks, d, r.s.lastPick[d]);
    if c in r.gaps {
      assert GapOk(r.s, c) && !Frees(r, d, c) && !Takes(r, d, c);
      assert !tasks[t].idle;
      PickIsFirst(tasks, d, r.s.lastPick[d], t);
    } else {
      assert RunsProperly(r.s, c);
    }
  }

  lemma RealTaskOk(r: Real, d: nat, i: nat)
    requires RealInv(r) && RealEnabled(r, Interrupted(d)) && !Clashes(r, Interrupted(d)) && i < MAX_TASKS
    ensures TaskOk(RealNext(r, Interrupted(d)).s, i)
  {
    RealSomethingToRun(r, d);
    PickFacts(BeforePick(r.s, d), d, r.s.lastPick[d]);
    var q := RealNext(r, Interrupted(d)).s;
    assert TaskOk(r.s, i);
    if i == q.current[d] {
      assert Runs(q, d, i);
    } else if q.tasks[i].state == Running {
      var e :| Runs(r.s, e, i);
      assert e != d && Runs(q, e, i);
    }
  }

  lemma InterruptKeeps(r: Real, d: nat)
    requires RealInv(r) && RealEnabled(r, Interrupted(d)) && !Clashes(r, Interrupted(d))
    ensures RealInv(RealNext(r, Interrupted(d)))
  {
    RealSomethingToRun(r, d);
    PickFacts(BeforePick(r.s, d), d, r.s.lastPick[d]);
    var q := RealNext(r, Interrupted(d));
    forall i | 0 <= i < MAX_TASKS ensures TaskOk(q.s, i) {
      RealTaskOk(r, d, i);
    }
    forall c: nat | c < MAX_CPUS && c != d && r.s.current[c] != NONE
      ensures q.s.current[c] == r.s.current[c] != q.s.current[d] && q.s.tasks[r.s.current[c]] == r.s.tasks[r.s.current[c]]
    {
      RealOthers(r, d, c);
    }
    forall c | 0 <= c < MAX_CPUS && c !in q.gaps ensures RunsProperly(q.s, c) {
      assert c != d ==> RunsProperly(r.s, c);
    }
    forall c | c in q.gaps ensures GapOk(q.s, c) {
      assert GapOk(r.s, c);
    }
    forall c | 0 <= c < MAX_CPUS ensures HasIdle(q.s, c) {
      assert HasIdle(r.s, c);
    }
  }

  lemma HalfKeeps(r: Real, c: nat, how: Step)
    requires RealInv(r) && RealEnabled(r, Suspended(c, how))
    ensures RealInv(RealNext(r, Suspended(c, how)))
  {
    var q := RealNext(r, Suspended(c, how));
    var i := r.s.current[c];
    assert if c in r.gaps then GapOk(r.s, c) else RunsProperly(r.s, c);
    forall j | 0 <= j < MAX_TASKS ensures TaskOk(q.s, j) {
      assert TaskOk(r.s, j);
      if j != i && r.s.tasks[j].state == Running {
        var d :| Runs(r.s, d, j);
        assert Runs(q.s, d, j);
      }
    }
    forall d | 0 <= d < MAX_CPUS && d !in q.gaps ensures RunsProperly(q.s, d) {
      assert RunsProperly(r.s, d);
      assert r.s.current[if c < d then c else d] != NONE ==>
          r.s.current[if c < d then c else d] != r.s.current[if c < d then d else c];
    }
    forall d | d in q.gaps ensures GapOk(q.s, d) {
      assert d != c ==> GapOk(r.s, d);
    }
    forall d | 0 <= d < MAX_CPUS ensures HasIdle(q.s, d) {
      assert HasIdle(r.s, d);
    }
  }

  lemma TickedKeeps(r: Real, now: nat)
    requires RealInv(r)
    ensures RealInv(RealNext(r, Ticked(now)))
  {
    var q := RealNext(r, Ticked(now));
    forall j | 0 <= j < MAX_TASKS ensures TaskOk(q.s, j) {
      assert TaskOk(r.s, j);
      if r.s.tasks[j].state == Running {
        var d :| Runs(r.s, d, j);
        assert Runs(q.s, d, j);
      }
    }
    forall d | 0 <= d < MAX_CPUS ensures (d !in q.gaps ==> RunsProperly(q.s, d)) && HasIdle(q.s, d) {
      assert HasIdle(r.s, d) && (d !in r.gaps ==> RunsProperly(r.s, d));
    }
    forall d | d in q.gaps ensures GapOk(q.s, d) {
      assert GapOk(r.s, d);
    }
  }

  lemma MadeKeeps(r: Real, affinity: int)
    requires RealInv(r)
    ensures RealInv(RealNext(r, Made(affinity)))
  {
    var q := RealNext(r, Made(affinity));
    var i := FirstUnused(r.s.tasks, 0);
    forall j | 0 <= j < MAX_TASKS ensures TaskOk(q.s, j) {
      assert TaskOk(r.s, j);
      if j != i && r.s.tasks[j].state == Running {
        var d :| Runs(r.s, d, j);
        assert Runs(q.s, d, j);
      }
    }
    forall d | 0 <= d < MAX_CPUS ensures (d !in q.gaps ==> RunsProperly(q.s, d)) && HasIdle(q.s, d) {
      assert HasIdle(r.s, d) && (d !in r.gaps ==> RunsProperly(r.s, d));
    }
    forall d | d in q.gaps ensures GapOk(q.s, d) {
      assert GapOk(r.s, d);
    }
  }

  lemma StartedKeeps(r: Real, c: nat)
    requires RealInv(r) && RealEnabled(r, Started(c))
    ensures RealInv(RealNext(r, Started(c)))
  {
    var q := RealNext(r, Started(c));
    var i := r.s.idleIndex[c];
    assert HasIdle(r.s, c);
    assert c in r.gaps ==> GapOk(r.s, c);
    forall d: nat | d < MAX_CPUS && d != c ensures r.s.current[d] != i {
      assert if d in r.gaps then GapOk(r.s, d) else RunsProperly(r.s, d);
    }
    forall j | 0 <= j < MAX_TASKS ensures TaskOk(q.s, j) {
      assert TaskOk(r.s, j);
      if j == i {
        assert Runs(q.s, c, i);
      } else if r.s.tasks[j].state == Running {
        var d :| Runs(r.s, d, j);
        assert Runs(q.s, d, j);
      }
    }
    forall d | 0 <= d < MAX_CPUS ensures (d !in q.gaps ==> RunsProperly(q.s, d)) && HasIdle(q.s, d) {
      assert HasIdle(r.s, d) && (d !in r.gaps ==> RunsProperly(r.s, d));
    }
    forall d | d in q.gaps ensures GapOk(q.s, d) {
      assert GapOk(r.s, d);
    }
  }

  /** One step of the real machine keeps the exclusion exactly when it does not clash. */
  lemma RealStepExactly(r: Real, step: RealStep)
    requires RealInv(r) && RealEnabled(r, step)
    ensures Exclusive(RealNext(r, step).s) <==> !Clashes(r, step)
    ensures !Clashes(r, step) ==> RealInv(RealNext(r, step))
  {
    match step
    case Made(affinity) => MadeKeeps(r, affinity);
    case Started(c) => StartedKeeps(r, c);
    case Ticked(now) => TickedKeeps(r, now);
    case Suspended(c, how) => HalfKeeps(r, c, how);
    case Interrupted(d) =>
      if Clashes(r, step) {
        var c :| Frees(r, d, c) || Takes(r, d, c);
        ClashBreaks(r, d, c);
      } else {
        InterruptKeeps(r, d);
      }
  }

  /** Every state of the run excludes. */
  ghost predicate AlwaysExclusive(r: Real, steps: seq<RealStep>)
    requires Shaped(r.s)
    decreases |steps|
  {
    && Exclusive(r.s)
    && (steps != [] && RealInv(r) && RealEnabled(r, steps[0]) ==> AlwaysExclusive(RealNext(r, steps[0]), steps[1..]))
  }

  /** No step of the run clashes. */
  ghost predicate NeverClashes(r: Real, steps: seq<RealStep>)
    requires Shaped(r.s)
    decreases |steps|
  {
    steps != [] && RealInv(r) && RealEnabled(r, steps[0]) ==>
      !Clashes(r, steps[0]) && NeverClashes(RealNext(r, steps[0]), steps[1..])
  }

  /** Between its critical sections the machine is where the other one is. */
  lemma RealStart(s: State)
    requires Inv(s)
    ensures RealInv(Real(s, {}))
  {
    forall c, d | 0 <= c < d < MAX_CPUS && s.current[c] != NONE ensures s.current[c] != s.current[d] {
      OtherCurrent(s, c, d);
    }
    forall c | 0 <= c < MAX_CPUS && s.current[c] != NONE ensures s.tasks[s.current[c]].state != Unused {
      assert RunsProperly(s, c);
    }
  }

  /** When nothing comes between the two halves of a sleep or an exit, the machine takes the steps of the other one. */
  lemma RealIsOneStep(s: State, step: Step)
    requires Inv(s) && Enabled(s, step)
    ensures RealInv(Real(s, {}))
    ensures match step
            case Create(affinity) => RealNext(Real(s, {}), Made(affinity)) == Real(Next(s, step), {})
            case Launch(c) => RealNext(Real(s, {}), Started(c)) == Real(Next(s, step), {})
            case Tick(now) => RealNext(Real(s, {}), Ticked(now)) == Real(Next(s, step), {})
            case Preempt(c) => RealNext(Real(s, {}), Interrupted(c)) == Real(Next(s, step), {})
            case _ =>
              var gap := RealNext(Real(s, {}), Suspended(step.cpu, step));
              RealInv(gap) && gap.gaps == {step.cpu} && RealNext(gap, Interrupted(step.cpu)) == Real(Next(s, step), {})
  {
    RealStart(s);
    if step.Sleep? || step.Exit? {
      HalfKeeps(Real(s, {}), step.cpu, step);
    }
  }

  /**
   * With the locking of the code, a run keeps every task on one processor, with its slot and stack,
   * exactly as long as no interrupt comes in another processor's gap after an exit, or after a sleep
   * whose task is due and comes first.
   */
  lemma {:induction false} RealRunExactly(r: Real, steps: seq<RealStep>)
    requires RealInv(r)
    ensures AlwaysExclusive(r, steps) <==> NeverClashes(r, steps)
    decreases |steps|
  {
    if steps != [] && RealEnabled(r, steps[0]) {
      RealStepExactly(r, steps[0]);
      if !Clashes(r, steps[0]) {
        RealRunExactly(RealNext(r, steps[0]), steps[1..]);
      }
    }
  }

  /** If the only eligible task that is not an idle task is `p`, it is picked. */
  lemma OnlyChoice(tasks: seq<Task>, cpu: nat, last: int, p: nat)
    requires |tasks| == MAX_TASKS && NONE <= last < MAX_TASKS && p < MAX_TASKS && Wanted(tasks[p], cpu, false)
    requires forall i :: 0 <= i < MAX_TASKS && i != p && Eligible(tasks[i], cpu) ==> tasks[i].idle
    ensures Pick(tasks, cpu, last) == p
  {
    PickFacts(tasks, cpu, last);
  }

  /** Two processors, each on its idle task, and one task that may run anywhere, running on the first. */
  lemma TwoProcessors(lapic: seq<int>) returns (steps: seq<Step>, s: State)
    requires Inv(Initial(2, lapic))
    ensures CanRun(Initial(2, lapic), steps) && s == After(Initial(2, lapic), steps)
    ensures s.current[0] == 2 && s.current[1] == 1 && s.tasks[2] == Task(Running, 0, true, NONE, lapic[0], false)
    ensures forall i :: 0 <= i < MAX_TASKS && i != 2 ==> s.tasks[i].state == Unused || s.tasks[i].idle
  {
    var s2 := BothLaunched(lapic);
    StepKeeps(s2, Create(NONE));
    var s3 := Next(s2, Create(NONE));
    assert FirstUnused(s2.tasks, 0) == FirstUnused(s2.tasks, 1) == FirstUnused(s2.tasks, 2) == 2;
    s := FirstPick(s3, lapic);
    RunMore(s3, Preempt(0), []);
    RunMore(s2, Create(NONE), [Preempt(0)]);
    var s0 := Initial(2, lapic);
    StepKeeps(s0, Launch(0));
    RunMore(Next(s0, Launch(0)), Launch(1), [Create(NONE)] + [Preempt(0)]);
    steps := [Launch(0)] + ([Launch(1)] + ([Create(NONE)] + [Preempt(0)]));
    RunMore(s0, Launch(0), [Launch(1)] + ([Create(NONE)] + [Preempt(0)]));
  }

  lemma RunMore(s: State, step: Step, rest: seq<Step>)
    requires Inv(s) && Enabled(s, step) && Inv(Next(s, step)) && CanRun(Next(s, step), rest)
    ensures CanRun(s, [step] + rest) && After(s, [step] + rest) == After(Next(s, step), rest)
  {
    assert ([step] + rest)[1..] == rest;
  }

  /** Both processors run their idle tasks, in slots 0 and 1. */
  lemma BothLaunched(lapic: seq<int>) returns (s: State)
    requires Inv(Initial(2, lapic))
    ensures Enabled(Initial(2, lapic), Launch(0)) && Inv(Next(Initial(2, lapic), Launch(0)))
    ensures Enabled(Next(Initial(2, lapic), Launch(0)), Launch(1))
    ensures s == Next(Next(Initial(2, lapic), Launch(0)), Launch(1)) && Inv(s)
    ensures s.lapic == lapic && s.current[0] == 0 && s.current[1] == 1
    ensures s.tasks[0].idle && s.tasks[1].idle && s.tasks[0].state == s.tasks[1].state == Running
    ensures forall i :: 2 <= i < MAX_TASKS ==> s.tasks[i] == NoTask
  {
    var s0 := Initial(2, lapic);
    StepKeeps(s0, Launch(0));
    var s1 := Next(s0, Launch(0));
    StepKeeps(s1, Launch(1));
    s := Next(s1, Launch(1));
  }

  /** The only task that is not idle is picked by processor 0. */
  lemma FirstPick(s: State, lapic: seq<int>) returns (r: State)
    requires Inv(s) && s.lapic == lapic && s.current[0] == 0 && s.current[1] == 1
    requires s.tasks[0].idle && s.tasks[1].idle && s.tasks[2] == Task(Ready, 0, true, NONE, NONE, false)
    requires forall i :: 3 <= i < MAX_TASKS ==> s.tasks[i] == NoTask
    ensures Enabled(s, Preempt(0)) && r == Next(s, Preempt(0)) && Inv(r)
    ensures r.current[0] == 2 && r.current[1] == 1 && r.tasks[2] == Task(Running, 0, true, NONE, lapic[0], false)
    ensures forall i :: 0 <= i < MAX_TASKS && i != 2 ==> r.tasks[i].state == Unused || r.tasks[i].idle
  {
    StepKeeps(s, Preempt(0));
    var tasks := BeforePick(s, 0);
    assert tasks[2] == s.tasks[2] && forall i :: 0 <= i < MAX_TASKS && i != 2 ==> tasks[i].idle || tasks[i].state == Unused;
    OnlyChoice(tasks, 0, s.lastPick[0], 2);
    r := Next(s, Preempt(0));
    assert r == Schedule(s, 0) && r.tasks == tasks[2 := tasks[2].(state := Running, runningCpu := lapic[0])];
  }

  /** Why sleeping and yielding must be one step: if a tick and another processor's interrupt come in
      between, one task is current on two processors. */
  lemma SleepRace(lapic: seq<int>)
    requires Inv(Initial(2, lapic))
    ensures exists steps :: CanRun(Initial(2, lapic), steps) &&
              var s := After(Initial(2, lapic), steps);
              && Enabled(s, Sleep(0, 0))
              && (var gap := HalfSleep(s, 0, 0);
                  var r := Schedule(gap.(tasks := WokenAll(gap.tasks, 0)), 1);
                  r.current[0] == r.current[1] != NONE)
  {
    var steps, s := TwoProcessors(lapic);
    var gap := HalfSleep(s, 0, 0);
    var woken := gap.(tasks := WokenAll(gap.tasks, 0));
    assert TaskOk(s, 2);
    OnlyChoice(BeforePick(woken, 1), 1, woken.lastPick[1], 2);
  }

  class Kernel {
    const tasks: array<Task>
    const current: array<int>
    const lastPick: array<int>
    const idleIndex: seq<int>
    const lapic: seq<int>

    ghost predicate Valid()
      reads this, tasks, current, lastPick
    {
      tasks.Length == MAX_TASKS && current.Length == MAX_CPUS && lastPick.Length == MAX_CPUS &&
      current != lastPick && Shaped(View())
    }

    ghost function View(): State
      reads this, tasks, current, lastPick
    {
      State(tasks[..], current[..], lastPick[..], idleIndex, lapic)
    }

    /** `task_init`: one idle task for each processor, bound to it. */
    constructor (cpus: nat, lapicIds: seq<int>)
      requires cpus <= MAX_CPUS && |lapicIds| == MAX_CPUS
      ensures Valid() && View() == Initial(cpus, lapicIds)
      ensures fresh(tasks) && fresh(current) && fresh(lastPick)
    {
      tasks := new Task[MAX_TASKS](i => if 0 <= i < cpus then Task(Ready, 0, true, i, NONE, true) else NoTask);
      current := new int[MAX_CPUS](_ => NONE);
      lastPick := new int[MAX_CPUS](_ => NONE);
      idleIndex := seq(MAX_CPUS, c => if 0 <= c < cpus then c else NONE);
      lapic := lapicIds;
      new;
      assert tasks[..] == InitialTasks(cpus);
      assert current[..] == seq(MAX_CPUS, _ => NONE) == lastPick[..];
    }

    method Cleanup()
      requires Valid()
      modifies tasks
      ensures tasks[..] == ReapAll(old(tasks[..]))
    {
      for i := 0 to MAX_TASKS
        invariant forall j :: 0 <= j < i ==> tasks[j] == Reaped(old(tasks[j]))
        invariant forall j :: i <= j < MAX_TASKS ==> tasks[j] == old(tasks[j])
      {
        if tasks[i].state == Zombie {
          if tasks[i].stack {
            tasks[i] := tasks[i].(stack := false);
          }
          tasks[i] := tasks[i].(state := Unused, runningCpu := NONE);
        }
      }
    }

    method FindFree() returns (i: int)
      requires Valid()
      ensures i == FirstUnused(tasks[..], 0)
    {
      for n := 0 to MAX_TASKS
        invariant FirstUnused(tasks[..], 0) == FirstUnused(tasks[..], n)
      {
        if tasks[n].state == Unused {
          return n;
        }
      }
      i := NONE;
    }

    method PickNext(cpu: nat) returns (next: int)
      requires Valid() && cpu < MAX_CPUS
      modifies lastPick
      ensures next == Pick(tasks[..], cpu, old(lastPick[cpu]))
      ensures lastPick[..] == if next == NONE then old(lastPick[..]) else old(lastPick[..])[cpu := next]
    {
      var idleCandidate := NONE;
      var start := (lastPick[cpu] + 1) % MAX_TASKS;
      for n := 0 to MAX_TASKS
        invariant lastPick[..] == old(lastPick[..])
        invariant FirstFrom(tasks[..], cpu, start, 0, false) == FirstFrom(tasks[..], cpu, start, n, false)
        invariant idleCandidate == NONE ==>
          FirstFrom(tasks[..], cpu, start, 0, true) == FirstFrom(tasks[..], cpu, start, n, true)
        invariant idleCandidate != NONE ==> idleCandidate == FirstFrom(tasks[..], cpu, start, 0, true)
      {
        var i := Slot(start, n);
        var t := tasks[i];
        if t.state == Ready && t.runningCpu == NONE && !(t.affinity >= 0 && t.affinity != cpu) {
          if !t.idle {
            lastPick[cpu] := i;
            return i;
          }
          if idleCandidate == NONE {
            idleCandidate := i;
          }
        }
      }
      if idleCandidate != NONE {
        lastPick[cpu] := idleCandidate;
      }
      next := idleCandidate;
    }

    /** Ended tasks are cleared away, and the task that was running is ready again. */
    method PutBack(cpu: nat) returns (prev: int)
      requires Valid() && cpu < MAX_CPUS
      modifies tasks
      ensures Valid() && prev == current[cpu] && tasks[..] == BeforePick(old(View()), cpu)
    {
      Cleanup();
      prev := current[cpu];
      if prev != NONE && tasks[prev].state == Running {
        tasks[prev] := tasks[prev].(state := Ready, runningCpu := NONE);
      }
    }

    /** The scheduling interrupt, once the lock is obtained. */
    method ScheduleIsr(cpu: nat)
      requires Valid() && cpu < MAX_CPUS
      modifies tasks, current, lastPick
      ensures Valid() && View() == Schedule(old(View()), cpu)
    {
      ghost var s := View();
      var prev := PutBack(cpu);
      var next := PickNext(cpu);
      if next == NONE {
        if prev != NONE {
          tasks[prev] := tasks[prev].(state := Running, runningCpu := lapic[cpu]);
        }
      } else if next != prev {
        tasks[next] := tasks[next].(state := Running, runningCpu := lapic[cpu]);
        current[cpu] := next;
      } else {
        tasks[prev] := tasks[prev].(state := Running, runningCpu := lapic[cpu]);
      }
      assert current[..] == if next == NONE then s.current else s.current[cpu := next];
    }

    method CreateTask(affinity: int, stackAvailable: bool) returns (i: int)
      requires Valid() && Inv(View())
      modifies tasks
      ensures Valid()
      ensures View() == if stackAvailable then Next(old(View()), Create(affinity)) else old(View())
      ensures i == if stackAvailable then FirstUnused(old(tasks[..]), 0) else NONE
    {
      i := FindFree();
      if i == NONE || !stackAvailable {
        i := NONE;
        return;
      }
      tasks[i] := Task(Ready, 0, true, affinity, NONE, false);
    }

    method StartCpu(c: nat)
      requires Valid() && Inv(View()) && Enabled(View(), Launch(c))
      modifies tasks, current
      ensures Valid() && View() == Next(old(View()), Launch(c))
    {
      ghost var s := View();
      assert HasIdle(s, c);
      current[c] := idleIndex[c];
      tasks[current[c]] := tasks[current[c]].(state := Running, runningCpu := lapic[c]);
    }

    method TickAll(now: nat)
      requires Valid() && Inv(View())
      modifies tasks
      ensures Valid() && View() == Next(old(View()), Tick(now))
    {
      for i := 0 to MAX_TASKS
        invariant forall j :: 0 <= j < i ==> tasks[j] == Woken(old(tasks[j]), now)
        invariant forall j :: i <= j < MAX_TASKS ==> tasks[j] == old(tasks[j])
      {
        if tasks[i].state == Sleeping && now >= tasks[i].wakeTick {
          tasks[i] := tasks[i].(state := Ready);
        }
      }
      assert tasks[..] == WokenAll(old(tasks[..]), now);
    }

    /** The running task goes to sleep until `wake` and yields. */
    method SleepAndYield(c: nat, wake: nat)
      requires Valid() && Inv(View()) && Enabled(View(), Sleep(c, wake))
      modifies tasks, current, lastPick
      ensures Valid() && View() == Next(old(View()), Sleep(c, wake))
    {
      var t := current[c];
      tasks[t] := tasks[t].(state := Sleeping, wakeTick := wake, runningCpu := NONE);
      ScheduleIsr(c);
    }

    /** The running task ends and yields. */
    method ExitAndYield(c: nat)
      requires Valid() && Inv(View()) && Enabled(View(), Exit(c))
      modifies tasks, current, lastPick
      ensures Valid() && View() == Next(old(View()), Exit(c))
    {
      var t := current[c];
      tasks[t] := tasks[t].(state := Zombie, runningCpu := NONE);
      ScheduleIsr(c);
    }
  }
}
