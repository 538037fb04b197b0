/** A runner of preloaded tasks: a queue, a bounded number of concurrent runners that never
    give their slot back, a wait count, and cancellation on the first error. */
module PreloadedRunner {
  import opened Common

  type Task = nat

  datatype Error = TaskError(task: Task) | ContextError

  datatype Outcome = Succeeded | FailedWith | Drained

  /** The fields all goroutines share; each operation below runs under the lock. */
  datatype Shared = Shared(tasks: seq<Task>, wait: int, err: Option<Error>, canceled: bool)

  function StoreErrorAndCancel(s: Shared, e: Error): Shared {
    if s.err.None? then s.(err := Some(e), canceled := true) else s
  }

  /** Drops all queued tasks because the context is done. */
  function EmptyForCancel(s: Shared): Shared {
    s.(err := if s.err.None? then Some(ContextError) else s.err, tasks := [], wait := s.wait - |s.tasks|)
  }

  class PreloadedTaskRunner {
    const concurrencyLimit: nat
    var tasks: seq<Task>
    var wait: int
    var err: Option<Error>
    var canceled: bool

    function View(): Shared
      reads this
    {
      Shared(tasks, wait, err, canceled)
    }

    /** At least one runner is allowed, whatever limit is given. */
    constructor (limit: nat)
      ensures View() == Shared([], 0, None, false)
      ensures concurrencyLimit >= 1 && (limit >= 1 ==> concurrencyLimit == limit)
    {
      concurrencyLimit := if limit == 0 then 1 else limit;
      tasks, wait, err, canceled := [], 0, None, false;
    }

    method Add(task: Task)
      modifies this
      ensures View() == old(View()).(tasks := old(tasks) + [task], wait := old(wait) + 1)
    {
      tasks := tasks + [task];
      wait := wait + 1;
    }

    method SelectTask() returns (task: Option<Task>)
      modifies this
      ensures task.None? <==> old(tasks) == []
      ensures task.Some? ==> old(tasks) == [task.value] + tasks
      ensures View() == old(View()).(tasks := if old(tasks) == [] then [] else old(tasks)[1..])
    {
      if |tasks| == 0 {
        return None;
      }
      task := Some(tasks[0]);
      tasks := tasks[1..];
    }

    method StoreError(e: Error)
      modifies this
      ensures View() == StoreErrorAndCancel(old(View()), e)
    {
      if err.None? {
        err := Some(e);
        canceled := true;
      }
    }

    method Empty()
      modifies this
      ensures View() == EmptyForCancel(old(View()))
    {
      if err.None? {
        err := Some(ContextError);
      }
      while |tasks| != 0
        invariant wait - |tasks| == old(wait) - |old(tasks)|
        invariant canceled == old(canceled) && err == if old(err).None? then Some(ContextError) else old(err)
      {
        tasks := tasks[1..];
        wait := wait - 1;
      }
    }
  }

  /** Adding tasks to a new runner gives the state that runs over them start from. */
  method Preload(limit: nat, n: nat) returns (runner: PreloadedTaskRunner)
    ensures fresh(runner) && runner.View() == InitState(n).shared && runner.concurrencyLimit >= 1
  {
    runner := new PreloadedTaskRunner(limit);
    for i := 0 to n
      invariant fresh(runner) && runner.View() == InitState(i).shared && runner.concurrencyLimit >= 1
    {
      runner.Add(i);
      assert runner.tasks == seq(i + 1, k => k);
    }
  }

  // ---- Runners, and every way in which their steps can interleave.

  /** Where a runner is: at the head of its loop, about to drop the queue, about to take a task,
      running it, about to store its error, about to count it done, or gone. */
  datatype Runner =
    | AtHead
    | SawCancel
    | Selecting
    | Executing(task: Task)
    | Failing(task: Task)
    | Ending(task: Task, outcome: Outcome)
    | Exited

  /** The starter attempts one spawn for each task. */
  datatype Starter = Spawning(attempts: nat) | StarterSawCancel(attempts: nat)

  datatype State = State(shared: Shared, runners: seq<Runner>, starter: Starter, settled: seq<(Task, Outcome)>)

  function InitState(n: nat): State {
    State(Shared(seq(n, i => i), n, None, false), [], Spawning(n), [])
  }

  function Tagged(tasks: seq<Task>, outcome: Outcome): seq<(Task, Outcome)> {
    seq(|tasks|, i requires 0 <= i < |tasks| => (tasks[i], outcome))
  }

  function Drop(s: State): State {
    s.(shared := EmptyForCancel(s.shared), settled := s.settled + Tagged(s.shared.tasks, Drained))
  }

  /** One spawn attempt: a free slot and a canceled context may both be chosen when both are
      ready; the attempt is given up only when neither is. */
  ghost predicate Spawn(limit: nat, s: State, s': State) {
    && s.starter.Spawning? && s.starter.attempts > 0
    && var next := Spawning(s.starter.attempts - 1);
       || (|s.runners| < limit && s' == s.(runners := s.runners + [AtHead], starter := next))
       || (s.shared.canceled && s' == s.(starter := StarterSawCancel(s.starter.attempts)))
       || (|s.runners| >= limit && !s.shared.canceled && s' == s.(starter := next))
  }

  ghost predicate StarterDrops(s: State, s': State) {
    && s.starter.StarterSawCancel? && s.starter.attempts > 0
    && s' == Drop(s).(starter := Spawning(s.starter.attempts - 1))
  }

  /** The context given to the runner is canceled from outside. */
  ghost predicate CancelOutside(s: State, s': State) {
    s' == s.(shared := s.shared.(canceled := true))
  }

  ghost predicate RunnerStep(s: State, j: nat, s': State) {
    && j < |s.runners|
    && match s.runners[j]
       case AtHead => s' == s.(runners := s.runners[j := if s.shared.canceled then SawCancel else Selecting])
       case SawCancel => s' == Drop(s).(runners := s.runners[j := Exited])
       case Selecting =>
         if s.shared.tasks == [] then s' == s.(runners := s.runners[j := Exited])
         else s' == s.(shared := s.shared.(tasks := s.shared.tasks[1..]),
                       runners := s.runners[j := Executing(s.shared.tasks[0])])
       case Executing(task) =>
         s' == s.(runners := s.runners[j := Ending(task, Succeeded)])
             || s' == s.(runners := s.runners[j := Failing(task)])
       case Failing(task) =>
         s' == s.(shared := StoreErrorAndCancel(s.shared, TaskError(task)),
                  runners := s.runners[j := Ending(task, FailedWith)])
       case Ending(task, outcome) =>
         s' == s.(shared := s.shared.(wait := s.shared.wait - 1), runners := s.runners[j := AtHead],
                  settled := s.settled + [(task, outcome)])
       case Exited => false
  }

  /** A step of the starter or of a runner. */
  ghost predicate OwnStep(limit: nat, s: State, s': State) {
    Spawn(limit, s, s') || StarterDrops(s, s') || exists j: nat :: RunnerStep(s, j, s')
  }

  ghost predicate Step(limit: nat, s: State, s': State) {
    OwnStep(limit, s, s') || CancelOutside(s, s')
  }

  /** A run over `n` tasks. What follows is stated for a limit above zero, as the program raises
      zero to one. */
  ghost predicate Run(limit: nat, n: nat, trace: seq<State>) {
    && trace != [] && trace[0] == InitState(n)
    && forall k | 0 <= k < |trace| - 1 :: Step(limit, trace[k], trace[k + 1])
  }

  // ---- The invariant.

  ghost predicate Busy(r: Runner) {
    r.Executing? || r.Failing? || r.Ending?
  }

  /** The number of tasks in flight. */
  ghost function InFlight(runners: seq<Runner>): nat {
    if runners == [] then 0 else InFlight(runners[..|runners| - 1]) + if Busy(runners[|runners| - 1]) then 1 else 0
  }

  lemma {:induction false} InFlightUpdate(runners: seq<Runner>, j: nat, r: Runner)
    requires j < |runners|
    ensures InFlight(runners[j := r]) ==
            InFlight(runners) + (if Busy(r) then 1 else 0) - (if Busy(runners[j]) then 1 else 0)
    decreases |runners|
  {
    var front := runners[..|runners| - 1];
    if j == |front| {
      assert runners[j := r][..|front|] == front;
    } else {
      InFlightUpdate(front, j, r);
      assert runners[j := r][..|front|] == front[j := r];
    }
  }

  ghost predicate Logged(log: seq<(Task, Outcome)>, t: Task) {
    exists x <- log :: x.0 == t
  }

  ghost predicate Held(runners: seq<Runner>, t: Task) {
    exists r <- runners :: Busy(r) && r.task == t
  }

  /** The queue is always a final stretch of the tasks, in order. */
  ghost predicate QueueShape(n: nat, tasks: seq<Task>) {
    |tasks| <= n && forall k | 0 <= k < |tasks| :: tasks[k] == n - |tasks| + k
  }

  ghost predicate HeldOnce(runners: seq<Runner>, log: seq<(Task, Outcome)>, taken: nat) {
    && (forall r <- runners | Busy(r) :: r.task < taken && !Logged(log, r.task))
    && (forall i, j | 0 <= i < j < |runners| && Busy(runners[i]) && Busy(runners[j]) ::
        runners[i].task != runners[j].task)
  }

  ghost predicate LoggedOnce(log: seq<(Task, Outcome)>, taken: nat) {
    && (forall x <- log :: x.0 < taken)
    && (forall i, j | 0 <= i < j < |log| :: log[i].0 != log[j].0)
  }

  /** A task taken from the queue is in flight with one runner or settled, and not both; the
      wait count is the number of tasks queued or in flight. */
  ghost predicate Accounted(n: nat, s: State) {
    var taken := n - |s.shared.tasks|;
    && QueueShape(n, s.shared.tasks)
    && HeldOnce(s.runners, s.settled, taken) && LoggedOnce(s.settled, taken)
    && (forall t: Task | t < taken :: Held(s.runners, t) || Logged(s.settled, t))
    && s.shared.wait == |s.shared.tasks| + InFlight(s.runners)
  }

  /** While no error is stored, nothing has failed and nothing was dropped. */
  ghost predicate ErrorsRecorded(s: State) {
    s.shared.err.None? ==>
      && (forall x <- s.settled :: x.1 == Succeeded)
      && (forall r <- s.runners :: r.Ending? ==> r.outcome == Succeeded)
  }

  ghost predicate Live(r: Runner) {
    !r.Exited?
  }

  ghost predicate SomeLive(runners: seq<Runner>) {
    exists r <- runners :: Live(r)
  }

  /** At most `limit` runners; after the first spawn attempt a non-empty queue has a live one. */
  ghost predicate Staffed(limit: nat, n: nat, s: State) {
    && |s.runners| <= limit
    && s.starter.attempts <= n && (s.starter.StarterSawCancel? ==> s.starter.attempts > 0)
    && (s.starter.attempts == n ==> s.runners == [])
    && (s.starter.attempts < n && s.shared.tasks != [] ==> SomeLive(s.runners))
  }

  ghost predicate Inv(limit: nat, n: nat, s: State) {
    Accounted(n, s) && ErrorsRecorded(s) && Staffed(limit, n, s)
  }

  lemma InitInv(limit: nat, n: nat)
    ensures Inv(limit, n, InitState(n))
  {
  }

  /** Dropping the queue settles its tasks and records an error. */
  lemma DropKeeps(n: nat, s: State)
    requires Accounted(n, s) && ErrorsRecorded(s)
    ensures Accounted(n, Drop(s)) && ErrorsRecorded(Drop(s))
  {
    var dropped := Tagged(s.shared.tasks, Drained);
    var log := s.settled + dropped;
    assert forall x :: x in log <==> x in s.settled || x in dropped;
    assert forall x <- dropped :: n - |s.shared.tasks| <= x.0 < n;
    forall t: Task | t < n ensures Held(s.runners, t) || Logged(log, t) {
      var taken := n - |s.shared.tasks|;
      if t >= taken {
        assert dropped[t - taken].0 == t && dropped[t - taken] in log;
      } else if Logged(s.settled, t) {
        var x :| x in s.settled && x.0 == t;
        assert x in log;
      }
    }
    forall r <- s.runners | Busy(r) ensures !Logged(log, r.task) {
    }
    assert LoggedOnce(log, n) by {
      forall i, j | 0 <= i < j < |log| ensures log[i].0 != log[j].0 {
        assert i < |s.settled| ==> log[i] in s.settled;
      }
    }
  }

  lemma SpawnedInv(n: nat, s: State)
    requires Accounted(n, s) && ErrorsRecorded(s)
    ensures Accounted(n, s.(runners := s.runners + [AtHead])) && ErrorsRecorded(s.(runners := s.runners + [AtHead]))
    ensures SomeLive(s.runners + [AtHead])
  {
    var runners := s.runners + [AtHead];
    assert runners[..|s.runners|] == s.runners && runners[|s.runners|] == AtHead;
    assert AtHead in runners && Live(AtHead);
    forall t: Task | Held(s.runners, t) ensures Held(runners, t) {
      var r :| r in s.runners && Busy(r) && r.task == t;
      assert r in runners;
    }
    assert forall r <- runners :: r in s.runners || r == AtHead;
    assert HeldOnce(runners, s.settled, n - |s.shared.tasks|);
  }

  lemma SpawnInv(limit: nat, n: nat, s: State, s': State)
    requires limit > 0 && Inv(limit, n, s) && Spawn(limit, s, s')
    ensures Inv(limit, n, s')
  {
    if |s'.runners| > |s.runners| {
      SpawnedInv(n, s);
      var spawned := s.(runners := s.runners + [AtHead]);
      assert s' == spawned.(starter := s'.starter);
    }
  }

  lemma StarterDropsInv(limit: nat, n: nat, s: State, s': State)
    requires Inv(limit, n, s) && StarterDrops(s, s')
    ensures Inv(limit, n, s')
  {
    DropKeeps(n, s);
  }

  /** A runner moves on without taking or settling a task. */
  lemma RunnerMoves(limit: nat, n: nat, s: State, j: nat, r: Runner)
    requires Inv(limit, n, s) && j < |s.runners| && Live(s.runners[j])
    requires Busy(r) == Busy(s.runners[j]) && (Busy(r) ==> r.task == s.runners[j].task)
    requires r.Ending? && s.shared.err.None? ==> r.outcome == Succeeded
    requires Live(r) || s.shared.tasks == []
    ensures Inv(limit, n, s.(runners := s.runners[j := r]))
  {
    var runners := s.runners[j := r];
    InFlightUpdate(s.runners, j, r);
    assert runners[j] == r && forall x <- runners :: x == r || x in s.runners;
    assert s.runners[j] in s.runners;
    forall t: Task | Held(s.runners, t) ensures Held(runners, t) {
      var i :| 0 <= i < |s.runners| && Busy(s.runners[i]) && s.runners[i].task == t;
      assert Busy(runners[i]) && runners[i].task == t && runners[i] in runners;
    }
    assert HeldOnce(runners, s.settled, n - |s.shared.tasks|);
  }

  lemma TakeInv(limit: nat, n: nat, s: State, j: nat)
    requires Inv(limit, n, s) && j < |s.runners| && s.runners[j].Selecting? && s.shared.tasks != []
    ensures Inv(limit, n,
                s.(shared := s.shared.(tasks := s.shared.tasks[1..]),
                   runners := s.runners[j := Executing(s.shared.tasks[0])]))
  {
    var task := s.shared.tasks[0];
    var r := Executing(task);
    var runners := s.runners[j := r];
    InFlightUpdate(s.runners, j, r);
    assert runners[j] == r && r in runners && forall x <- runners :: x == r || x in s.runners;
    assert !Logged(s.settled, task);
    forall t: Task | Held(s.runners, t) ensures Held(runners, t) {
      var i :| 0 <= i < |s.runners| && Busy(s.runners[i]) && s.runners[i].task == t;
      assert runners[i] == s.runners[i] && runners[i] in runners;
    }
    assert Held(runners, task);
    assert HeldOnce(runners, s.settled, task + 1);
    assert Live(r);
  }

  lemma EndInv(limit: nat, n: nat, s: State, j: nat, task: Task, outcome: Outcome)
    requires Inv(limit, n, s) && j < |s.runners| && s.runners[j] == Ending(task, outcome)
    ensures Inv(limit, n,
                s.(shared := s.shared.(wait := s.shared.wait - 1), runners := s.runners[j := AtHead],
                   settled := s.settled + [(task, outcome)]))
  {
    var runners := s.runners[j := AtHead];
    var log := s.settled + [(task, outcome)];
    InFlightUpdate(s.runners, j, AtHead);
    assert s.runners[j] in s.runners;
    assert runners[j] == AtHead && AtHead in runners && Live(AtHead);
    assert forall x <- runners :: x == AtHead || x in s.runners;
    forall t: Task | t < n - |s.shared.tasks| ensures Held(runners, t) || Logged(log, t) {
      EndedTask(s, j, task, outcome, t);
    }
    EndedOnce(s, j, task, outcome, n - |s.shared.tasks|);
  }

  lemma EndedTask(s: State, j: nat, task: Task, outcome: Outcome, t: Task)
    requires j < |s.runners| && s.runners[j] == Ending(task, outcome) && (Held(s.runners, t) || Logged(s.settled, t))
    ensures Held(s.runners[j := AtHead], t) || Logged(s.settled + [(task, outcome)], t)
  {
    var runners, log := s.runners[j := AtHead], s.settled + [(task, outcome)];
    if Logged(s.settled, t) {
      var x :| x in s.settled && x.0 == t;
      assert x in log;
    } else {
      var i :| 0 <= i < |s.runners| && Busy(s.runners[i]) && s.runners[i].task == t;
      if i == j {
        assert log[|s.settled|] in log;
      } else {
        assert runners[i] == s.runners[i] && runners[i] in runners;
      }
    }
  }

  lemma EndedOnce(s: State, j: nat, task: Task, outcome: Outcome, taken: nat)
    requires j < |s.runners| && s.runners[j] == Ending(task, outcome)
    requires HeldOnce(s.runners, s.settled, taken) && LoggedOnce(s.settled, taken)
    ensures HeldOnce(s.runners[j := AtHead], s.settled + [(task, outcome)], taken)
            && LoggedOnce(s.settled + [(task, outcome)], taken)
  {
  }

  lemma RunnerStepInv(limit: nat, n: nat, s: State, j: nat, s': State)
    requires Inv(limit, n, s) && RunnerStep(s, j, s')
    ensures Inv(limit, n, s')
  {
    match s.runners[j]
    case AtHead => RunnerMoves(limit, n, s, j, s'.runners[j]);
    case SawCancel =>
      DropKeeps(n, s);
      RunnerMoves(limit, n, Drop(s), j, Exited);
    case Selecting =>
      if s.shared.tasks == [] {
        RunnerMoves(limit, n, s, j, Exited);
      } else {
        TakeInv(limit, n, s, j);
      }
    case Executing(task) => RunnerMoves(limit, n, s, j, s'.runners[j]);
    case Failing(task) =>
      RunnerMoves(limit, n, s.(shared := StoreErrorAndCancel(s.shared, TaskError(task))), j, Ending(task, FailedWith));
    case Ending(task, outcome) => EndInv(limit, n, s, j, task, outcome);
  }

  lemma StepInv(limit: nat, n: nat, s: State, s': State)
    requires limit > 0 && Inv(limit, n, s) && Step(limit, s, s')
    ensures Inv(limit, n, s')
  {
    if Spawn(limit, s, s') {
      SpawnInv(limit, n, s, s');
    } else if StarterDrops(s, s') {
      StarterDropsInv(limit, n, s, s');
    } else if !CancelOutside(s, s') {
      var j: nat :| RunnerStep(s, j, s');
      RunnerStepInv(limit, n, s, j, s');
    }
  }

  lemma RunFront(limit: nat, n: nat, trace: seq<State>)
    requires Run(limit, n, trace) && |trace| > 1
    ensures Run(limit, n, trace[..|trace| - 1]) && Step(limit, trace[|trace| - 2], trace[|trace| - 1])
  {
  }

  lemma {:induction false} RunInv(limit: nat, n: nat, trace: seq<State>)
    requires limit > 0 && Run(limit, n, trace)
    ensures Inv(limit, n, trace[|trace| - 1])
    decreases |trace|
  {
    if |trace| == 1 {
      InitInv(limit, n);
    } else {
      RunFront(limit, n, trace);
      RunInv(limit, n, trace[..|trace| - 1]);
      StepInv(limit, n, trace[|trace| - 2], trace[|trace| - 1]);
    }
  }

  /** In every state of every run each task is queued, in flight or settled, once, and the wait
      count is the number not settled; no more runners exist than allowed; and after the first
      spawn attempt a non-empty queue has a live runner. */
  lemma EveryTaskOnce(limit: nat, n: nat, trace: seq<State>)
    requires limit > 0 && Run(limit, n, trace)
    ensures var s := trace[|trace| - 1];
            && Accounted(n, s) && |s.runners| <= limit
            && (s.starter.attempts < n && s.shared.tasks != [] ==> SomeLive(s.runners))
  {
    RunInv(limit, n, trace);
  }

  /** When the wait count has reached zero every task is settled, and if no error is stored every
      task ran and succeeded. */
  lemma WaitNilMeansSuccess(limit: nat, n: nat, trace: seq<State>)
    requires limit > 0 && Run(limit, n, trace)
    ensures var s := trace[|trace| - 1];
            s.shared.wait == 0 ==>
              && (forall t: Task | t < n :: Logged(s.settled, t))
              && (s.shared.err.None? ==> forall t: Task | t < n :: (t, Succeeded) in s.settled)
  {
    RunInv(limit, n, trace);
    var s := trace[|trace| - 1];
    if s.shared.wait == 0 {
      forall t: Task | t < n ensures Logged(s.settled, t) {
        if Held(s.runners, t) {
          var r :| r in s.runners && Busy(r);
          SomeInFlight(s.runners, r);
        }
      }
      forall t: Task | t < n && s.shared.err.None? ensures (t, Succeeded) in s.settled {
        assert Logged(s.settled, t);
        var x :| x in s.settled && x.0 == t;
        assert x == (t, Succeeded);
      }
    }
  }

  lemma {:induction false} SomeInFlight(runners: seq<Runner>, r: Runner)
    requires r in runners && Busy(r)
    ensures InFlight(runners) > 0
  {
    var front, last := runners[..|runners| - 1], runners[|runners| - 1];
    if last != r {
      SomeInFlight(front, r);
    }
  }

  // ---- Errors and cancellation.

  ghost predicate FailedTask(s: State, t: Task) {
    (t, FailedWith) in s.settled || Ending(t, FailedWith) in s.runners
  }

  /** A stored error has canceled the context, and if it is a task's, that task has failed; whoever saw
      the cancellation saw right. */
  ghost predicate ErrorsCancel(s: State) {
    && (s.shared.err.Some? ==> s.shared.canceled)
    && (s.shared.err.Some? && s.shared.err.value.TaskError? ==> FailedTask(s, s.shared.err.value.task))
    && (SawCancel in s.runners || s.starter.StarterSawCancel? ==> s.shared.canceled)
  }

  lemma FailedStays(s: State, j: nat, s': State, t: Task)
    requires RunnerStep(s, j, s') && FailedTask(s, t)
    ensures FailedTask(s', t)
  {
    if (t, FailedWith) in s.settled {
      assert (t, FailedWith) in s'.settled;
    } else {
      var i :| 0 <= i < |s.runners| && s.runners[i] == Ending(t, FailedWith);
      if i == j {
        assert s'.settled[|s.settled|] == (t, FailedWith);
      } else {
        assert s'.runners[i] == s.runners[i];
      }
    }
  }

  lemma RunnerCancels(s: State, j: nat, s': State)
    requires ErrorsCancel(s) && RunnerStep(s, j, s')
    ensures ErrorsCancel(s')
  {
    assert s.runners[j] in s.runners && s'.runners[j] in s'.runners;
    assert forall r <- s'.runners :: r == s'.runners[j] || r in s.runners;
    if s.shared.err.Some? && s.shared.err.value.TaskError? {
      FailedStays(s, j, s', s.shared.err.value.task);
    }
  }

  lemma StepCancels(limit: nat, s: State, s': State)
    requires ErrorsCancel(s) && Step(limit, s, s')
    ensures ErrorsCancel(s')
  {
    if j: nat :| RunnerStep(s, j, s') {
      RunnerCancels(s, j, s');
    } else {
      assert forall r <- s'.runners :: r == AtHead || r in s.runners;
      assert forall r <- s.runners :: r in s'.runners;
      assert forall x <- s.settled :: x in s'.settled;
    }
  }

  /** Where a runner is that will take no task any more once the context is canceled. */
  ghost predicate Idle(r: Runner) {
    r.AtHead? || r.SawCancel? || r.Exited?
  }

  /** What was stored or canceled stays so, and no idle runner takes a task any more. */
  ghost predicate StaysCanceled(s: State, s': State) {
    && (s.shared.err.Some? ==> s'.shared.err == s.shared.err)
    && |s.runners| <= |s'.runners|
    && (s.shared.canceled ==> s'.shared.canceled)
    && (s.shared.canceled ==> forall j | 0 <= j < |s.runners| && Idle(s.runners[j]) :: Idle(s'.runners[j]))
  }

  /** In every run a stored error means that the context is canceled, and a task's error that this task
      has failed. The first error is kept; and once the context is canceled no runner that is at the
      head of its loop takes another task, ever. */
  lemma {:induction false} ErrorsStop(limit: nat, n: nat, trace: seq<State>, k: nat)
    requires Run(limit, n, trace) && k < |trace|
    ensures ErrorsCancel(trace[|trace| - 1]) && StaysCanceled(trace[k], trace[|trace| - 1])
    decreases |trace|
  {
    if |trace| > 1 {
      RunFront(limit, n, trace);
      var front := trace[..|trace| - 1];
      ErrorsStop(limit, n, front, if k < |front| then k else 0);
      StepCancels(limit, trace[|trace| - 2], trace[|trace| - 1]);
      StepStaysCanceled(limit, trace[|trace| - 2], trace[|trace| - 1]);
    }
  }

  /** One task that fails: its error is stored and the wait is over. */
  lemma FailingRunWitness() returns (trace: seq<State>)
    ensures Run(1, 1, trace)
    ensures var s := trace[|trace| - 1];
            s.shared.err == Some(TaskError(0)) && s.shared.wait == 0 && s.settled == [(0, FailedWith)]
  {
    var s0 := InitState(1);
    var s1 := s0.(runners := [AtHead], starter := Spawning(0));
    var s2 := s1.(runners := [Selecting]);
    var s3 := s2.(shared := Shared([], 1, None, false), runners := [Executing(0)]);
    var s4 := s3.(runners := [Failing(0)]);
    var s5 := s4.(shared := Shared([], 1, Some(TaskError(0)), true), runners := [Ending(0, FailedWith)]);
    var s6 := s5.(shared := s5.shared.(wait := 0), runners := [AtHead], settled := [(0, FailedWith)]);
    assert s0.shared.tasks == [0] && s0.runners + [AtHead] == [AtHead];
    assert Spawn(1, s0, s1) && RunnerStep(s1, 0, s2) && RunnerStep(s2, 0, s3) && RunnerStep(s3, 0, s4);
    assert RunnerStep(s4, 0, s5) && RunnerStep(s5, 0, s6);
    trace := [s0, s1, s2, s3, s4, s5, s6];
  }

  lemma StepStaysCanceled(limit: nat, s: State, s': State)
    requires Step(limit, s, s')
    ensures StaysCanceled(s, s')
  {
  }

  // ---- Every step is progress.

  /** The number of steps a runner can take without another task. */
  ghost function StepsLeft(r: Runner): nat {
    match r
    case Executing(_) => 5
    case Failing(_) => 4
    case Ending(_, _) => 3
    case AtHead => 2
    case Exited => 0
    case _ => 1
  }

  ghost function RunnersLeft(runners: seq<Runner>): nat {
    if runners == [] then 0 else RunnersLeft(runners[..|runners| - 1]) + StepsLeft(runners[|runners| - 1])
  }

  lemma {:induction false} RunnersLeftUpdate(runners: seq<Runner>, j: nat, r: Runner)
    requires j < |runners|
    ensures RunnersLeft(runners[j := r]) == RunnersLeft(runners) + StepsLeft(r) - StepsLeft(runners[j])
    decreases |runners|
  {
    var front := runners[..|runners| - 1];
    if j == |front| {
      assert runners[j := r][..|front|] == front;
    } else {
      RunnersLeftUpdate(front, j, r);
      assert runners[j := r][..|front|] == front[j := r];
    }
  }

  ghost function StarterLeft(starter: Starter): nat {
    if starter.StarterSawCancel? && starter.attempts > 0 then 4 * starter.attempts - 1 else 4 * starter.attempts
  }

  /** A bound on the steps left: five for each queued task, and what starter, runners and a
      cancellation from outside can still do. */
  ghost function Left(s: State): nat {
    5 * |s.shared.tasks| + RunnersLeft(s.runners) + StarterLeft(s.starter) + if s.shared.canceled then 0 else 1
  }

  lemma RunnerStepShrinks(s: State, j: nat, s': State)
    requires RunnerStep(s, j, s')
    ensures Left(s') < Left(s)
  {
    RunnersLeftUpdate(s.runners, j, s'.runners[j]);
    assert s'.runners == s.runners[j := s'.runners[j]];
  }

  /** Every step brings the end nearer, except canceling again what is canceled. */
  lemma StepShrinks(limit: nat, s: State, s': State)
    requires Step(limit, s, s')
    ensures s' == s || Left(s') < Left(s)
  {
    if Spawn(limit, s, s') {
      assert |s'.runners| > |s.runners| ==> s'.runners[..|s'.runners| - 1] == s.runners;
    } else if !StarterDrops(s, s') && !CancelOutside(s, s') {
      var j: nat :| RunnerStep(s, j, s');
      RunnerStepShrinks(s, j, s');
    }
  }

  ghost predicate Moving(trace: seq<State>) {
    forall k | 0 <= k < |trace| - 1 :: trace[k] != trace[k + 1]
  }

  lemma {:induction false} RunsAreBounded(limit: nat, n: nat, trace: seq<State>)
    requires Run(limit, n, trace) && Moving(trace)
    ensures |trace| + Left(trace[|trace| - 1]) <= 9 * n + 2
    decreases |trace|
  {
    if |trace| > 1 {
      RunFront(limit, n, trace);
      var front := trace[..|trace| - 1];
      assert Moving(front) by {
        assert forall k | 0 <= k < |front| - 1 :: front[k] == trace[k] && trace[k] != trace[k + 1];
      }
      RunsAreBounded(limit, n, front);
      StepShrinks(limit, trace[|trace| - 2], trace[|trace| - 1]);
    }
  }

  /** Waiting ends unless a task itself does not: until the starter is through and the wait count is
      zero starter or runners can take a step, and there are at most nine for each task, and one
      cancellation, that change anything. */
  lemma WaitEnds(limit: nat, n: nat, trace: seq<State>)
    requires limit > 0 && Run(limit, n, trace)
    ensures var s := trace[|trace| - 1];
            s.starter != Spawning(0) || s.shared.wait > 0 ==> exists s' :: OwnStep(limit, s, s')
    ensures Moving(trace) ==> |trace| <= 9 * n + 2
  {
    RunInv(limit, n, trace);
    var s := trace[|trace| - 1];
    if s.starter != Spawning(0) {
      var s' := StarterMoves(limit, s);
    } else if s.shared.wait > 0 {
      if !SomeLive(s.runners) {
        NoneLiveNoneInFlight(s.runners);
      }
      var r :| r in s.runners && Live(r);
      var j :| 0 <= j < |s.runners| && s.runners[j] == r;
      var s' := AnyStep(s, j);
      assert OwnStep(limit, s, s');
    }
    if Moving(trace) {
      RunsAreBounded(limit, n, trace);
    }
  }

  lemma StarterMoves(limit: nat, s: State) returns (s': State)
    requires s.starter.attempts > 0
    ensures OwnStep(limit, s, s')
  {
    var next := Spawning(s.starter.attempts - 1);
    if s.starter.StarterSawCancel? {
      s' := Drop(s).(starter := next);
      assert StarterDrops(s, s');
    } else {
      s' := if |s.runners| < limit then s.(runners := s.runners + [AtHead], starter := next)
            else if s.shared.canceled then s.(starter := StarterSawCancel(s.starter.attempts))
            else s.(starter := next);
      assert Spawn(limit, s, s');
    }
  }

  lemma {:induction false} NoneLiveNoneInFlight(runners: seq<Runner>)
    requires !SomeLive(runners)
    ensures InFlight(runners) == 0
  {
    if runners != [] {
      assert runners[|runners| - 1] in runners;
      NoneLiveNoneInFlight(runners[..|runners| - 1]);
    }
  }

  lemma AnyStep(s: State, j: nat) returns (s': State)
    requires j < |s.runners| && Live(s.runners[j])
    ensures RunnerStep(s, j, s')
  {
    match s.runners[j]
    case AtHead => s' := s.(runners := s.runners[j := if s.shared.canceled then SawCancel else Selecting]);
    case SawCancel => s' := Drop(s).(runners := s.runners[j := Exited]);
    case Selecting =>
      s' := if s.shared.tasks == [] then s.(runners := s.runners[j := Exited])
            else s.(shared := s.shared.(tasks := s.shared.tasks[1..]),
                    runners := s.runners[j := Executing(s.shared.tasks[0])]);
    case Executing(task) => s' := s.(runners := s.runners[j := Ending(task, Succeeded)]);
    case Failing(task) =>
      s' := s.(shared := StoreErrorAndCancel(s.shared, TaskError(task)),
               runners := s.runners[j := Ending(task, FailedWith)]);
    case Ending(task, outcome) =>
      s' := s.(shared := s.shared.(wait := s.shared.wait - 1), runners := s.runners[j := AtHead],
               settled := s.settled + [(task, outcome)]);
  }
}
