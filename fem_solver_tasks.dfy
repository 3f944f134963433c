/** The stage tasks of `FemSolverTasks.py`: the checks a solver's check
    stage performs on its analysis, which report errors or warnings and fail
    the task, and the output buffer of the solve stage. A task's report is a
    `Report.Messages` value whose lists take free text. */
module FemSolverTasks {
  import opened Wrappers
  import Report
  import FemMisc
  import FemTask
  import TextUtil

  const MESH_TYPE: string := "Fem::FemMeshObject"
  const MATERIAL_TYPE: string := "App::MaterialObjectPython"
  const CONSTRAINT_TYPE: string := "Fem::Constraint"

  const MISSING_MESH: string := "Missing a mesh object."
  const TOO_MANY_MESHES: string := "Too many meshes. More than one mesh is not supported."
  const MISSING_MATERIAL: string := "No material object found. At least one material is required."
  const UNSUPPORTED_PREFIX: string := "Ignored unsupported constraint: "

  /** A supported constraint type: a C++ type and, optionally, the type of
      the Python proxy, as `isOfType` takes them. */
  type Spec = (string, Option<string>)

  /** Some entry of `allSupported` matches the object. */
  predicate Supported(m: FemMisc.DocObject, allSupported: seq<Spec>) {
    exists j :: 0 <= j < |allSupported| && FemMisc.IsOfType(m, allSupported[j].0, allSupported[j].1)
  }

  /** A constraint that no entry of `allSupported` matches. */
  predicate Unsupported(m: FemMisc.DocObject, allSupported: seq<Spec>) {
    FemMisc.IsOfType(m, CONSTRAINT_TYPE, None) && !Supported(m, allSupported)
  }

  /** The warnings `checkSupported` issues for the members `ms`, in order. */
  function UnsupportedWarnings(ms: seq<FemMisc.DocObject>, allSupported: seq<Spec>): seq<string> {
    if |ms| == 0 then []
    else
      var init := UnsupportedWarnings(ms[..|ms| - 1], allSupported);
      var m := ms[|ms| - 1];
      if Unsupported(m, allSupported) then init + [UNSUPPORTED_PREFIX + m.labelText] else init
  }

  /** One warning per unsupported constraint and no other: each warning
      names the label of an unsupported constraint among the members, and
      each unsupported constraint is named by one. */
  lemma {:induction false} UnsupportedWarningsSpec(ms: seq<FemMisc.DocObject>, allSupported: seq<Spec>)
    ensures |UnsupportedWarnings(ms, allSupported)| <= |ms|
    ensures forall w :: w in UnsupportedWarnings(ms, allSupported) <==>
      exists i :: 0 <= i < |ms| && Unsupported(ms[i], allSupported) && w == UNSUPPORTED_PREFIX + ms[i].labelText
    ensures (forall i :: 0 <= i < |ms| ==> !Unsupported(ms[i], allSupported)) ==> UnsupportedWarnings(ms, allSupported) == []
  {
    if |ms| > 0 {
      var init := ms[..|ms| - 1];
      UnsupportedWarningsSpec(init, allSupported);
      assert forall i :: 0 <= i < |init| ==> init[i] == ms[i];
      forall w ensures w in UnsupportedWarnings(ms, allSupported) <==>
        exists i :: 0 <= i < |ms| && Unsupported(ms[i], allSupported) && w == UNSUPPORTED_PREFIX + ms[i].labelText
      {
        if exists i :: 0 <= i < |ms| && Unsupported(ms[i], allSupported) && w == UNSUPPORTED_PREFIX + ms[i].labelText {
          var i :| 0 <= i < |ms| && Unsupported(ms[i], allSupported) && w == UNSUPPORTED_PREFIX + ms[i].labelText;
          if i < |init| {
            assert init[i] == ms[i];
          }
        }
      }
    }
  }

  /** `Check`, the task of the check stage. Like every stage task (`Base`)
      it knows its solver and directory; for the analysis lookup it also
      sees the objects of the solver's document. */
  class Check {
    const base: FemTask.Task
    const solver: FemMisc.DocObject
    const directory: string
    const objects: seq<FemMisc.DocObject>

    constructor (solver: FemMisc.DocObject, directory: string, objects: seq<FemMisc.DocObject>)
      ensures this.solver == solver && this.directory == directory && this.objects == objects
      ensures fresh(base)
      ensures base.State() == FemTask.TaskState(None, Report.NoMessages, None, None, false, false, false)
    {
      base := new FemTask.Task();
      this.solver := solver;
      this.directory := directory;
      this.objects := objects;
    }

    /** The `analysis` property: the analysis holding the solver. */
    function Analysis(): Option<FemMisc.DocObject> {
      FemMisc.AnalysisOf(solver, objects)
    }

    /** The members of the analysis of a C++ type. */
    function MembersOf(baseType: string): seq<FemMisc.DocObject>
      requires Analysis().Some?
    {
      FemMisc.MembersOfType(Analysis().value.members, baseType, None)
    }

    /** `checkMesh`: exactly one mesh passes; none, or more than one, is
        an error that fails the task. Without an analysis `getMember`
        raises before anything changes. */
    method CheckMesh() returns (r: Result<bool, FemMisc.MiscError>)
      modifies base
      ensures Analysis().None? ==> r == Failure(FemMisc.AnalysisIsNone) && base.State() == old(base.State())
      ensures Analysis().Some? ==> r.Success? && (r.value <==> |MembersOf(MESH_TYPE)| == 1)
      ensures r == Success(true) ==> base.State() == old(base.State())
      ensures r == Success(false) ==> !Report.IsValidReport(base.report) && base.failed
      ensures Analysis().Some? && |MembersOf(MESH_TYPE)| == 0 ==>
        base.State() == old(base.State()).(report := Report.Added(old(base.report), Report.Error, MISSING_MESH), failed := true)
      ensures Analysis().Some? && |MembersOf(MESH_TYPE)| > 1 ==>
        base.State() == old(base.State()).(report := Report.Added(old(base.report), Report.Error, TOO_MANY_MESHES), failed := true)
    {
      var meshes := FemMisc.GetMember(Analysis(), MESH_TYPE);
      if meshes.Failure? {
        return Failure(meshes.error);
      }
      if |meshes.value| == 0 {
        base.report := Report.Added(base.report, Report.Error, MISSING_MESH);
        base.Fail();
        return Success(false);
      } else if |meshes.value| > 1 {
        base.report := Report.Added(base.report, Report.Error, TOO_MANY_MESHES);
        base.Fail();
        return Success(false);
      }
      r := Success(true);
    }

    /** `checkMaterial`: at least one material is required. */
    method CheckMaterial() returns (r: Result<bool, FemMisc.MiscError>)
      modifies base
      ensures Analysis().None? ==> r == Failure(FemMisc.AnalysisIsNone) && base.State() == old(base.State())
      ensures Analysis().Some? ==> r.Success? && (r.value <==> |MembersOf(MATERIAL_TYPE)| > 0)
      ensures r == Success(true) ==> base.State() == old(base.State())
      ensures r == Success(false) ==>
        base.State() == old(base.State()).(report := Report.Added(old(base.report), Report.Error, MISSING_MATERIAL), failed := true)
    {
      var matObjs := FemMisc.GetMember(Analysis(), MATERIAL_TYPE);
      if matObjs.Failure? {
        return Failure(matObjs.error);
      }
      if |matObjs.value| == 0 {
        base.report := Report.Added(base.report, Report.Error, MISSING_MATERIAL);
        base.Fail();
        return Success(false);
      }
      r := Success(true);
    }

    /** The inner loop of `checkSupported`: whether some entry matches. */
    method IsSupported(m: FemMisc.DocObject, allSupported: seq<Spec>) returns (supported: bool)
      ensures supported <==> Supported(m, allSupported)
    {
      supported := false;
      var j := 0;
      while j < |allSupported|
        invariant 0 <= j <= |allSupported|
        invariant supported <==> exists k :: 0 <= k < j && FemMisc.IsOfType(m, allSupported[k].0, allSupported[k].1)
      {
        if FemMisc.IsOfType(m, allSupported[j].0, allSupported[j].1) {
          supported := true;
        }
        j := j + 1;
      }
    }

    /** `checkSupported`: a warning for each constraint of the analysis
        that nothing in `allSupported` matches; it never fails. Without an
        analysis the member lookup raises AttributeError. */
    method CheckSupported(allSupported: seq<Spec>) returns (r: Result<bool, FemMisc.MiscError>)
      modifies base
      ensures Analysis().None? ==> r == Failure(FemMisc.AnalysisIsNone) && base.State() == old(base.State())
      ensures Analysis().Some? ==> r == Success(true)
      ensures Analysis().Some? ==>
        base.State() == old(base.State()).(report := old(base.report).(
          warnings := old(base.report.warnings) + UnsupportedWarnings(Analysis().value.members, allSupported)))
    {
      var analysis := Analysis();
      if analysis.None? {
        return Failure(FemMisc.AnalysisIsNone);
      }
      var ms := analysis.value.members;
      var i := 0;
      while i < |ms|
        invariant 0 <= i <= |ms|
        invariant base.State() == old(base.State()).(report := old(base.report).(
          warnings := old(base.report.warnings) + UnsupportedWarnings(ms[..i], allSupported)))
      {
        assert ms[..i + 1][..i] == ms[..i];
        if FemMisc.IsOfType(ms[i], CONSTRAINT_TYPE, None) {
          var supported := IsSupported(ms[i], allSupported);
          if !supported {
            base.report := Report.Added(base.report, Report.Warning, UNSUPPORTED_PREFIX + ms[i].labelText);
          }
        }
        i := i + 1;
      }
      assert ms[..i] == ms;
      r := Success(true);
    }
  }

  /** `Solve`: a stage task that collects the solver's output line by line. */
  class Solve {
    const base: FemTask.Task
    const solver: FemMisc.DocObject
    const directory: string
    var outputLines: seq<string>

    constructor (solver: FemMisc.DocObject, directory: string)
      ensures this.solver == solver && this.directory == directory
      ensures fresh(base) && outputLines == []
      ensures base.State() == FemTask.TaskState(None, Report.NoMessages, None, None, false, false, false)
    {
      base := new FemTask.Task();
      this.solver := solver;
      this.directory := directory;
      outputLines := [];
    }

    /** The `output` property: the lines joined together. */
    function Output(): string
      reads this
    {
      TextUtil.Join(outputLines)
    }

    /** `start`: the task's own start, then an empty output buffer; when the
        task's registration raises, the buffer is not reached and keeps the
        old output. */
    method Start(registry: FemTask.Registry, now: int) returns (r: Outcome<FemTask.TaskError>)
      modifies base, registry, this`outputLines
      ensures base.State() == FemTask.Started(old(base.State()), now)
      ensures base.name.None? ==> r == Pass && registry.running == old(registry.running)
      ensures base.name.Some? ==> var reg := FemTask.Registered(old(registry.running), base.name, base);
        && (r.Fail? <==> reg.Failure?)
        && (r.Fail? ==> r.error == reg.error && registry.running == old(registry.running))
        && (r.Pass? ==> registry.running == reg.value)
      ensures r.Pass? ==> outputLines == [] && Output() == ""
      ensures r.Fail? ==> outputLines == old(outputLines)
    {
      r := base.Start(registry, now);
      if r.Pass? {
        outputLines := [];
      }
    }

    /** `appendOutput`: one more line at the end of the output. */
    method AppendOutput(line: string)
      modifies this`outputLines
      ensures outputLines == old(outputLines) + [line]
      ensures Output() == old(Output()) + line
    {
      TextUtil.JoinAppend(outputLines, line);
      outputLines := outputLines + [line];
    }

    /** The `output` setter: the buffer becomes the one given value. */
    method SetOutput(value: string)
      modifies this`outputLines
      ensures outputLines == [value] && Output() == value
    {
      outputLines := [value];
      assert TextUtil.Join([value]) == value + TextUtil.Join([]);
    }
  }
}
