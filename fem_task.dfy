/** Task bookkeeping of the FEM solver framework, `FemTask.py`: a registry
    of running tasks by name, and the flags and times a task keeps while it
    runs. Times are whole numbers supplied by the caller in place of the
    clock. */
module FemTask {
  import opened Wrappers
  import Report

  /** `TaskError`: an unnamed task cannot be registered, nor one whose name
      is already taken. */
  datatype TaskError = Unnamed | AlreadyRunning(name: string)

  /** `registerRunning` on the registry's contents. */
  function Registered<T>(running: map<string, T>, name: Option<string>, task: T): Result<map<string, T>, TaskError> {
    if name.None? then Failure(Unnamed)
    else if name.value in running then Failure(AlreadyRunning(name.value))
    else Success(running[name.value := task])
  }

  /** `removeRunning` on the registry's contents: drops the entry under the
      task's name, if there is one. */
  function Unregistered<T>(running: map<string, T>, name: Option<string>): map<string, T> {
    if name.Some? && name.value in running then running - {name.value} else running
  }

  /** Registration fails for an unnamed task and for a taken name; otherwise
      it adds the name and touches no other entry. */
  lemma RegisteredSpec<T>(running: map<string, T>, name: Option<string>, task: T)
    ensures Registered(running, name, task).Failure? <==> name.None? || name.value in running
    ensures name.None? ==> Registered(running, name, task) == Failure(Unnamed)
    ensures name.Some? && name.value in running ==> Registered(running, name, task) == Failure(AlreadyRunning(name.value))
    ensures Registered(running, name, task).Success? ==>
      var r := Registered(running, name, task).value;
      && r.Keys == running.Keys + {name.value}
      && r[name.value] == task
      && forall n :: n in running ==> r[n] == running[n]
  {
  }

  /** Removal deletes exactly the task's name and is a no-op for an absent one. */
  lemma UnregisteredSpec<T>(running: map<string, T>, name: Option<string>)
    ensures name.Some? ==> Unregistered(running, name).Keys == running.Keys - {name.value}
    ensures name.None? || name.value !in running ==> Unregistered(running, name) == running
    ensures forall n :: n in Unregistered(running, name) ==> n in running && Unregistered(running, name)[n] == running[n]
  {
  }

  /** Removing a task right after registering it restores the registry. */
  lemma RegisterThenRemove<T>(running: map<string, T>, name: Option<string>, task: T)
    requires Registered(running, name, task).Success?
    ensures Unregistered(Registered(running, name, task).value, name) == running
  {
    assert Registered(running, name, task).value - {name.value} == running;
  }

  /** A removed name can be registered again. */
  lemma RemoveThenRegister<T>(running: map<string, T>, name: Option<string>, task: T)
    requires name.Some?
    ensures Registered(Unregistered(running, name), name, task).Success?
  {
  }

  /** The module-level dict `running`. */
  class Registry {
    var running: map<string, Task>

    constructor ()
      ensures running == map[]
    {
      running := map[];
    }

    method Register(task: Task) returns (r: Outcome<TaskError>)
      modifies this
      ensures var reg := Registered(old(running), task.name, task);
        && (r.Fail? <==> reg.Failure?)
        && (r.Fail? ==> r.error == reg.error && running == old(running))
        && (r.Pass? ==> running == reg.value)
    {
      if task.name.None? {
        return Fail(Unnamed);
      }
      if task.name.value in running {
        return Fail(AlreadyRunning(task.name.value));
      }
      running := running[task.name.value := task];
      r := Pass;
    }

    method Remove(task: Task)
      modifies this
      ensures running == Unregistered(old(running), task.name)
    {
      if task.name.Some? && task.name.value in running {
        running := running - {task.name.value};
      }
    }
  }

  /** The fields of a task, as a value. */
  datatype TaskState = TaskState(
    name: Option<string>,
    report: Report.Messages,
    startTime: Option<int>,
    stopTime: Option<int>,
    running: bool,
    aborted: bool,
    failed: bool)

  /** `start`: a new report, outcome flags cleared, running since `now`. */
  function Started(s: TaskState, now: int): TaskState {
    s.(report := Report.NoMessages, aborted := false, failed := false,
       stopTime := None, startTime := Some(now), running := true)
  }

  /** The stopping handler: no longer running since `now`. */
  function Stopped(s: TaskState, now: int): TaskState {
    s.(stopTime := Some(now), running := false)
  }

  /** Starting forgets how an earlier run ended, and a run that is started
      and then stopped records both times and is not running; its outcome
      flags are whatever `abort` and `fail` set in between. */
  lemma LifecycleSpec(s: TaskState, t0: int, t1: int)
    ensures Started(s.(aborted := true), t0) == Started(s, t0)
    ensures Started(s.(failed := true), t0) == Started(s, t0)
    ensures var e := Stopped(Started(s, t0), t1);
      && e.startTime == Some(t0) && e.stopTime == Some(t1) && !e.running
      && !e.aborted && !e.failed && e.name == s.name
    ensures Stopped(Started(s, t0).(aborted := true), t1).aborted
    ensures Stopped(Started(s, t0).(failed := true), t1).failed
  {
  }

  class Task {
    var name: Option<string>
    var report: Report.Messages
    var startTime: Option<int>
    var stopTime: Option<int>
    var running: bool
    var aborted: bool
    var failed: bool

    constructor ()
      ensures State() == TaskState(None, Report.NoMessages, None, None, false, false, false)
    {
      name := None;
      report := Report.NoMessages;
      startTime := None;
      stopTime := None;
      running := false;
      aborted := false;
      failed := false;
    }

    function State(): TaskState
      reads this
    {
      TaskState(name, report, startTime, stopTime, running, aborted, failed)
    }

    /** `start`; a named task is registered, and a registration error is
        raised after the fields have been set. */
    method Start(registry: Registry, now: int) returns (r: Outcome<TaskError>)
      modifies this, registry
      ensures State() == Started(old(State()), now)
      ensures name.None? ==> r == Pass && registry.running == old(registry.running)
      ensures name.Some? ==> var reg := Registered(old(registry.running), name, this);
        && (r.Fail? <==> reg.Failure?)
        && (r.Fail? ==> r.error == reg.error && registry.running == old(registry.running))
        && (r.Pass? ==> registry.running == reg.value)
    {
      report := Report.NoMessages;
      aborted := false;
      failed := false;
      stopTime := None;
      startTime := Some(now);
      running := true;
      r := Pass;
      if name.Some? {
        r := registry.Register(this);
      }
    }

    method Abort()
      modifies this
      ensures State() == old(State()).(aborted := true)
    {
      aborted := true;
    }

    method Fail()
      modifies this
      ensures State() == old(State()).(failed := true)
    {
      failed := true;
    }

    /** `_protector`: whether `run` raised is given; if it did, the task is
        marked failed and the exception is passed on. */
    method Protector(runRaised: bool) returns (raised: bool)
      modifies this
      ensures raised == runRaised
      ensures State() == if runRaised then old(State()).(failed := true) else old(State())
    {
      raised := runRaised;
      if runRaised {
        Fail();
      }
    }

    /** The `stoping` handler that `_connectSelf` installs. */
    method Stopping(registry: Registry, now: int)
      modifies this, registry
      ensures State() == Stopped(old(State()), now)
      ensures registry.running == Unregistered(old(registry.running), name)
    {
      stopTime := Some(now);
      running := false;
      registry.Remove(this);
    }
  }
}
