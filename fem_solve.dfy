/** The solver stage machine of `FemSolve.py`: a machine steps through the
    stages CHECK, PREPARE, SOLVE and RESULTS up to its target, running the
    task of each stage, and stops at the first stage that fails or is
    aborted. A run advances a pending state that is copied to the visible
    state at the end unless a reset intervened. What running a stage's task
    yields is an input (`outcomeOf`) in place of the thread that runs it. */
module FemSolve {
  import opened Wrappers
  import Report
  import FemMisc
  import FemTask
  import FemTempfile

  const CHECK: int := 0
  const PREPARE: int := 1
  const SOLVE: int := 2
  const RESULTS: int := 3
  const DONE: int := 4

  /** The task slots of a machine, one per stage, as a value. */
  datatype Slots<T> = Slots(check: Option<T>, prepare: Option<T>, solve: Option<T>, results: Option<T>)

  /** `_getTask`: the slot of a stage; there is none for any other state. */
  function TaskFor<T>(slots: Slots<T>, state: int): Option<T> {
    if state == CHECK then slots.check
    else if state == PREPARE then slots.prepare
    else if state == SOLVE then slots.solve
    else if state == RESULTS then slots.results
    else None
  }

  /** The slots listed in stage order. */
  function InOrder<T>(slots: Slots<T>): seq<Option<T>> {
    [slots.check, slots.prepare, slots.solve, slots.results]
  }

  /** Stage `i` finds the `i`-th slot in stage order; DONE and anything
      outside the stages find no task. */
  lemma TaskForSpec<T>(slots: Slots<T>, state: int)
    ensures CHECK <= state <= RESULTS ==> TaskFor(slots, state) == InOrder(slots)[state]
    ensures !(CHECK <= state <= RESULTS) ==> TaskFor(slots, state).None?
    ensures TaskFor(slots, DONE).None?
  {
  }

  /** How a stage's task ended: `failed` wins over `aborted`, as `run`
      checks it first. */
  datatype Outcome = Succeeded | Failed | Aborted

  /** What running a stage's task yields: its outcome and its report. */
  datatype StageRun = StageRun(outcome: Outcome, report: Report.Messages)

  /** Why a run ended: the target was passed, a stage failed or was
      aborted, or the stage had no task (`_runTask(None)` raises). */
  datatype Stop = Finished | StageFailed | StageAborted | NoTask

  /** A run as a value: the pending state it ends at, why it ended, and the
      reports of the stages it ran, in order. */
  datatype RunTrace = RunTrace(final: int, stop: Stop, reports: seq<Report.Messages>)

  /** The stages a run starting at `p` goes through. */
  function Trace<T>(slots: Slots<T>, target: int, p: int, outcomeOf: T -> StageRun): RunTrace
    decreases target + 1 - p
  {
    if p > target then RunTrace(p, Finished, [])
    else match TaskFor(slots, p)
      case None => RunTrace(p, NoTask, [])
      case Some(t) =>
        var run := outcomeOf(t);
        match run.outcome
        case Failed => RunTrace(p, StageFailed, [run.report])
        case Aborted => RunTrace(p, StageAborted, [run.report])
        case Succeeded =>
          var rest := Trace(slots, target, p + 1, outcomeOf);
          RunTrace(rest.final, rest.stop, [run.report] + rest.reports)
  }

  /** A run never goes backwards and never passes `target + 1`; it reaches
      `target + 1` exactly when it finishes, and it ran one stage per state
      passed plus the stage it stopped at when that stage failed or was
      aborted. */
  lemma {:induction false} TraceBounds<T>(slots: Slots<T>, target: int, p: int, outcomeOf: T -> StageRun)
    ensures var r := Trace(slots, target, p, outcomeOf);
      && p <= r.final
      && (r.stop == Finished <==> r.final > target)
      && (r.stop == Finished ==> r.final == if p <= target then target + 1 else p)
      && |r.reports| == r.final - p + (if r.stop == StageFailed || r.stop == StageAborted then 1 else 0)
    decreases target + 1 - p
  {
    if p <= target && TaskFor(slots, p).Some? && outcomeOf(TaskFor(slots, p).value).outcome == Succeeded {
      TraceBounds(slots, target, p + 1, outcomeOf);
    }
  }

  /** Every stage before the one a run stops at had a task that succeeded,
      and the reports are theirs, in stage order; the stage it stops at is
      the one that failed, was aborted or had no task. */
  lemma {:induction false} TraceStages<T>(slots: Slots<T>, target: int, p: int, outcomeOf: T -> StageRun)
    ensures var r := Trace(slots, target, p, outcomeOf);
      && (forall i :: p <= i < r.final ==>
            && TaskFor(slots, i).Some?
            && i - p < |r.reports|
            && outcomeOf(TaskFor(slots, i).value) == StageRun(Succeeded, r.reports[i - p]))
      && (r.stop == NoTask ==> TaskFor(slots, r.final).None?)
      && (r.stop == StageFailed ==>
            && TaskFor(slots, r.final).Some?
            && 0 <= r.final - p < |r.reports|
            && outcomeOf(TaskFor(slots, r.final).value) == StageRun(Failed, r.reports[r.final - p]))
      && (r.stop == StageAborted ==>
            && TaskFor(slots, r.final).Some?
            && 0 <= r.final - p < |r.reports|
            && outcomeOf(TaskFor(slots, r.final).value) == StageRun(Aborted, r.reports[r.final - p]))
    decreases target + 1 - p
  {
    var r := Trace(slots, target, p, outcomeOf);
    TraceBounds(slots, target, p, outcomeOf);
    if p <= target && TaskFor(slots, p).Some? && outcomeOf(TaskFor(slots, p).value).outcome == Succeeded {
      var run := outcomeOf(TaskFor(slots, p).value);
      var rest := Trace(slots, target, p + 1, outcomeOf);
      TraceStages(slots, target, p + 1, outcomeOf);
      TraceBounds(slots, target, p + 1, outcomeOf);
      assert r.reports == [run.report] + rest.reports;
      forall i | p <= i < r.final
        ensures TaskFor(slots, i).Some? && i - p < |r.reports|
        ensures outcomeOf(TaskFor(slots, i).value) == StageRun(Succeeded, r.reports[i - p])
      {
        if i > p {
          assert r.reports[i - p] == rest.reports[i - (p + 1)];
        }
      }
      if r.stop != Finished && r.stop != NoTask {
        assert r.reports[r.final - p] == rest.reports[r.final - (p + 1)];
      }
    }
  }

  /** With a task in every slot and every task succeeding, a run from a
      stage up to a target among the stages finishes at `target + 1`. */
  lemma {:induction false} TraceAllSucceed<T>(slots: Slots<T>, target: int, p: int, outcomeOf: T -> StageRun)
    requires CHECK <= p && target <= RESULTS
    requires forall i :: 0 <= i < 4 ==> InOrder(slots)[i].Some? && outcomeOf(InOrder(slots)[i].value).outcome == Succeeded
    ensures Trace(slots, target, p, outcomeOf).stop == Finished
    decreases target + 1 - p
  {
    if p <= target {
      TaskForSpec(slots, p);
      TraceAllSucceed(slots, target, p + 1, outcomeOf);
    }
  }

  /** DONE has no task, so a machine whose target lies at or beyond DONE
      never finishes a run started at or before DONE. */
  lemma {:induction false} TraceStopsAtDone<T>(slots: Slots<T>, target: int, p: int, outcomeOf: T -> StageRun)
    requires p <= DONE <= target
    ensures Trace(slots, target, p, outcomeOf).stop != Finished
    ensures Trace(slots, target, p, outcomeOf).final <= DONE
    decreases DONE - p
  {
    if TaskFor(slots, p).Some? && outcomeOf(TaskFor(slots, p).value).outcome == Succeeded {
      assert p != DONE;
      TraceStopsAtDone(slots, target, p + 1, outcomeOf);
    }
  }

  /** `Machine`, a solver task that runs the tasks of its stages in turn.
      The task part it inherits is `base`, named after the solver. */
  class Machine<T> {
    const base: FemTask.Task
    const solver: FemMisc.DocObject
    const directory: string
    const target: int
    var check: Option<T>
    var prepare: Option<T>
    var solve: Option<T>
    var results: Option<T>
    var state: int
    var pending: int
    var isReset: bool

    constructor (solver: FemMisc.DocObject, directory: string, target: int := SOLVE)
      ensures this.solver == solver && this.directory == directory && this.target == target
      ensures state == CHECK && pending == CHECK && !isReset
      ensures Tasks() == Slots(None, None, None, None)
      ensures fresh(base)
      ensures base.State() == FemTask.TaskState(Some(FemMisc.UniqueName(solver)), Report.NoMessages, None, None, false, false, false)
    {
      var task := new FemTask.Task();
      task.name := Some(FemMisc.UniqueName(solver));
      base := task;
      this.solver := solver;
      this.directory := directory;
      this.target := target;
      check, prepare, solve, results := None, None, None, None;
      state, pending, isReset := CHECK, CHECK, false;
    }

    function Tasks(): Slots<T>
      reads this`check, this`prepare, this`solve, this`results
    {
      Slots(check, prepare, solve, results)
    }

    /** `_getTask` */
    method GetTask(s: int) returns (t: Option<T>)
      ensures t == TaskFor(Tasks(), s)
    {
      if s == CHECK {
        t := check;
      } else if s == PREPARE {
        t := prepare;
      } else if s == SOLVE {
        t := solve;
      } else if s == RESULTS {
        t := results;
      } else {
        t := None;
      }
    }

    /** `reset`: only a state before the pending one is taken, and it is
        marked as a reset. */
    method Reset(newState: int := CHECK)
      modifies this`state, this`isReset
      ensures newState < pending ==> state == newState && isReset
      ensures newState >= pending ==> state == old(state) && isReset == old(isReset)
    {
      if newState < pending {
        isReset := true;
        state := newState;
      }
    }

    /** `_applyPending`: the pending state becomes visible unless a reset
        came first; either way the reset mark is cleared. */
    method ApplyPending()
      modifies this`state, this`isReset
      ensures state == if old(isReset) then old(state) else pending
      ensures !isReset
    {
      if !isReset {
        state := pending;
      }
      isReset := false;
    }

    /** `run`: stages from the current state on, while nothing failed or
        was aborted and the target is not passed. Each stage's report is
        added to the machine's report; a failed or aborted stage fails or
        aborts the machine. `raised` is the AttributeError of a stage
        without a task, which leaves the visible state as it was. */
    method Run(outcomeOf: T -> StageRun) returns (raised: bool)
      modifies this`pending, this`state, this`isReset, base
      ensures var tr := Trace(Tasks(), target, old(state), outcomeOf);
        if old(base.aborted || base.failed) then
          && !raised && state == old(state) && pending == old(state) && !isReset
          && base.State() == old(base.State())
        else
          && raised == (tr.stop == NoTask)
          && pending == tr.final
          && state == (if raised then old(state) else tr.final)
          && !isReset
          && base.State() == old(base.State()).(
               report := Report.ConcatAll([old(base.report)] + tr.reports),
               failed := tr.stop == StageFailed,
               aborted := tr.stop == StageAborted)
    {
      isReset := false;
      pending := state;
      if !base.aborted && !base.failed {
        raised := RunStages(outcomeOf);
        if raised {
          return;
        }
      }
      ApplyPending();
      raised := false;
    }

    /** The loop of `run`, entered with neither flag set: the stages from
        the pending state on, until one fails, is aborted or has no task,
        or the target is passed. */
    method RunStages(outcomeOf: T -> StageRun) returns (raised: bool)
      requires !base.aborted && !base.failed
      modifies this`pending, base
      ensures var tr := Trace(Tasks(), target, old(pending), outcomeOf);
        && raised == (tr.stop == NoTask)
        && pending == tr.final
        && base.State() == old(base.State()).(
             report := Report.ConcatAll([old(base.report)] + tr.reports),
             failed := tr.stop == StageFailed,
             aborted := tr.stop == StageAborted)
    {
      ghost var tr := Trace(Tasks(), target, pending, outcomeOf);
      ghost var done: seq<Report.Messages> := [];
      ghost var r0 := base.report;
      Report.ConcatAllSingle(r0);
      assert done + tr.reports == tr.reports;
      while !base.aborted && !base.failed && pending <= target
        invariant base.State() == old(base.State()).(
          report := Report.ConcatAll([r0] + done), failed := base.failed, aborted := base.aborted)
        invariant !(base.failed && base.aborted)
        invariant tr == After(Tasks(), target, pending, outcomeOf, done, base.failed, base.aborted)
        decreases (if !base.aborted && !base.failed then 1 else 0) + target + 1 - pending
      {
        var task := GetTask(pending);
        if task.None? {
          AfterNoTask(Tasks(), target, pending, outcomeOf, done);
          return true;
        }
        AfterStep(Tasks(), target, pending, outcomeOf, done, task.value);
        Report.ConcatAllSnoc([r0] + done, outcomeOf(task.value).report);
        assert [r0] + done + [outcomeOf(task.value).report] == [r0] + (done + [outcomeOf(task.value).report]);
        var run := RunStage(task.value, outcomeOf);
        done := done + [run.report];
        if run.outcome == Succeeded {
          pending := pending + 1;
        }
      }
      AfterExit(Tasks(), target, pending, outcomeOf, done, base.failed, base.aborted);
      raised := false;
    }

    /** One stage of `run`: the task's report is added to the machine's,
        and a task that failed or was aborted fails or aborts the machine. */
    method RunStage(t: T, outcomeOf: T -> StageRun) returns (run: StageRun)
      modifies base
      ensures run == outcomeOf(t)
      ensures base.State() == old(base.State()).(
        report := Report.Concat(old(base.report), run.report),
        failed := old(base.failed) || run.outcome == Failed,
        aborted := old(base.aborted) || run.outcome == Aborted)
    {
      run := outcomeOf(t);
      base.report := Report.Concat(base.report, run.report);
      if run.outcome == Failed {
        base.Fail();
      } else if run.outcome == Aborted {
        base.Abort();
      }
    }
  }

  /** Where a run ends, given the stages `done` so far and the flags the
      last of them left: the outcome of a stage that failed or was aborted,
      otherwise whatever the rest of the run brings. */
  ghost function After<T>(slots: Slots<T>, target: int, p: int, outcomeOf: T -> StageRun,
                          done: seq<Report.Messages>, failed: bool, aborted: bool): RunTrace
  {
    if failed then RunTrace(p, StageFailed, done)
    else if aborted then RunTrace(p, StageAborted, done)
    else
      var rest := Trace(slots, target, p, outcomeOf);
      RunTrace(rest.final, rest.stop, done + rest.reports)
  }

  /** A run whose next stage has no task ends there, with the reports so far. */
  lemma AfterNoTask<T>(slots: Slots<T>, target: int, p: int, outcomeOf: T -> StageRun, done: seq<Report.Messages>)
    requires p <= target && TaskFor(slots, p).None?
    ensures After(slots, target, p, outcomeOf, done, false, false) == RunTrace(p, NoTask, done)
  {
    assert done + [] == done;
  }

  /** A run that has failed, was aborted or passed its target ends where it
      is, with the reports so far. */
  lemma AfterExit<T>(slots: Slots<T>, target: int, p: int, outcomeOf: T -> StageRun,
                     done: seq<Report.Messages>, failed: bool, aborted: bool)
    requires failed || aborted || p > target
    ensures After(slots, target, p, outcomeOf, done, failed, aborted) ==
      RunTrace(p, if failed then StageFailed else if aborted then StageAborted else Finished, done)
  {
    assert done + [] == done;
  }

  /** One iteration of `run`'s loop keeps where the run will end. */
  lemma AfterStep<T>(slots: Slots<T>, target: int, p: int, outcomeOf: T -> StageRun, done: seq<Report.Messages>, t: T)
    requires p <= target && TaskFor(slots, p) == Some(t)
    ensures var run := outcomeOf(t);
      After(slots, target, p, outcomeOf, done, false, false) ==
        match run.outcome
        case Failed => After(slots, target, p, outcomeOf, done + [run.report], true, false)
        case Aborted => After(slots, target, p, outcomeOf, done + [run.report], false, true)
        case Succeeded => After(slots, target, p + 1, outcomeOf, done + [run.report], false, false)
  {
    var run := outcomeOf(t);
    var rest := Trace(slots, target, p + 1, outcomeOf);
    assert done + [run.report] + rest.reports == done + ([run.report] + rest.reports);
    assert done + [run.report] == done + [run.report] + [];
  }

  /** `_getSolverDir` on the memo's contents: the directory kept for the
      name, or `freshPath` (a new temporary directory) recorded for it. */
  function SolverDir(dirs: map<string, string>, name: string, freshPath: string): (string, map<string, string>) {
    if name in dirs then (dirs[name], dirs) else (freshPath, dirs[name := freshPath])
  }

  /** Once a name has a directory, asking again returns that directory and
      keeps the memo, whatever new directory would have been offered; other
      names' directories are never touched. */
  lemma SolverDirStable(dirs: map<string, string>, name: string, f1: string, f2: string)
    ensures var (p1, d1) := SolverDir(dirs, name, f1);
      && name in d1 && d1[name] == p1
      && SolverDir(d1, name, f2) == (p1, d1)
      && d1.Keys == dirs.Keys + {name}
      && (forall n :: n in dirs ==> d1[n] == dirs[n])
  {
  }

  /** The module dict `_solverDirs`. */
  class SolverDirs {
    var dirs: map<string, string>

    constructor ()
      ensures dirs == map[]
    {
      dirs := map[];
    }

    /** `_getSolverDir`: a solver without a directory gets a new temporary
        one, registered for it in `temp`. */
    method GetSolverDir(solver: FemMisc.DocObject, temp: FemTempfile.TempStore, freshPath: string) returns (path: string)
      requires FemMisc.UniqueName(solver) !in dirs ==> !temp.fs.Exists(freshPath)
      modifies this, temp
      ensures (path, dirs) == SolverDir(old(dirs), FemMisc.UniqueName(solver), freshPath)
      ensures temp.files == old(temp.files)
      ensures FemMisc.UniqueName(solver) in old(dirs) ==>
        temp.directories == old(temp.directories) && temp.fs == old(temp.fs)
      ensures FemMisc.UniqueName(solver) !in old(dirs) ==>
        && temp.directories == FemTempfile.Register(old(temp.directories), FemMisc.UniqueName(solver), freshPath)
        && temp.fs == old(temp.fs).(dirs := old(temp.fs).dirs + {freshPath})
    {
      var name := FemMisc.UniqueName(solver);
      if name !in dirs {
        var p := temp.CreateDir(solver, freshPath);
        dirs := dirs[name := p];
      }
      path := dirs[name];
    }
  }

  const WHITELIST: seq<string> := ["Fem::Constraint", "App::MaterialObject"]
  const BLACKLIST_PROPS: seq<string> := ["Label"]

  /** The object derives from one of `types`. */
  function DerivesFromAny(obj: FemMisc.DocObject, types: seq<string>): (r: bool)
    ensures r <==> exists i :: 0 <= i < |types| && FemMisc.IsDerivedFrom(obj, types[i])
  {
    if |types| == 0 then false
    else if FemMisc.IsDerivedFrom(obj, types[0]) then true
    else
      var rest := DerivesFromAny(obj, types[1..]);
      assert forall i :: 1 <= i < |types| ==> types[i] == types[1..][i - 1];
      rest
  }

  /** `_partOfModel`: a change of a blacklisted property never counts;
      otherwise the object counts when it derives from a whitelisted type. */
  function PartOfModel(obj: FemMisc.DocObject, prop: Option<string>): (r: bool)
    ensures r <==>
      && !(prop.Some? && prop.value in BLACKLIST_PROPS)
      && (FemMisc.IsDerivedFrom(obj, "Fem::Constraint") || FemMisc.IsDerivedFrom(obj, "App::MaterialObject"))
  {
    if prop.Some? && prop.value in BLACKLIST_PROPS then false
    else
      assert WHITELIST[0] == "Fem::Constraint" && WHITELIST[1] == "App::MaterialObject";
      DerivesFromAny(obj, WHITELIST)
  }
}
