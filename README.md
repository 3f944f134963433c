# FreeCAD FEM solver framework and Elmer SIF writer, modelled in Dafny

This project models the Python core of FreeCAD's FEM workbench that drives the Elmer solver. It covers:

- **`sifio.py`** writes Elmer's Solver Input File (SIF).
  - A section has a name from a fixed list of eleven, and a dict of attributes updated in place.
  - An id manager numbers the sections per name.
  - A writer renders each section as its header, its `key = Type value` lines and `End`.
- **`FemSolve.py` `Machine`** steps through the stages CHECK, PREPARE, SOLVE and RESULTS up to a target.
  - It stops at the first stage that fails, is aborted, or has no task.
  - It keeps a pending state apart from the visible one, so that a `reset` coming in between wins.
  - It also holds the per-solver temporary-directory memo and the document observer's `_partOfModel` test.
- **`FemTask.py`** is the registry of running tasks and each task's flags (`aborted`, `failed`, `running`) and times.
- **`FemSolverTasks.py`** holds the check stage's mesh, material and supported-constraint checks, and the solve stage's output buffer.
- **`Report.py`** is a report of three message lists filled from a template table, and its rendering as coloured lines.
- **`FemToolsElmer.py`** has:
  - the `_Status` error accumulator;
  - the checks of the analysis and the working directory;
  - the error listing built from `err_lookup`.
- **`FemMisc.py`** holds the member queries over document objects and the unique object name.
- **`FemTempfile.py`** is the registry of temporary directories and files per object, and their removal when an object or document is deleted.

## How the model is built

**Module layout.** Each core Python file is one Dafny module: `SifIO`, `FemSolve`, `FemTask`, `FemSolverTasks`, `Report`, `FemToolsElmer`, `FemMisc` and `FemTempfile`. Three small modules carry what those files take from Python or the operating system:
- `Wrappers`: `Option`, `Result` and `Outcome`, standing in for `None` and exceptions;
- `TextUtil`: `str()` of an int, `"".join` and `str.format` with `{}` fields;
- `FileSys`: the environment's file system, given as sets of existing files and directories. `RemoveFile` and `RemoveTree` define what `os.remove` and `shutil.rmtree` do; they are definitions, not models of code in the core. The lemmas beside them state how removals combine.

**Classes and their specifications.** Objects whose fields the source updates become classes:
- `Section`, `IdManager`, `Writer` and `Stream`;
- `Machine` and `SolverDirs`;
- `Task`, `Registry`, `Check` and `Solve`;
- `Data`, `Status` and `TempStore`.

Each method is proved against a function on values:
- `Trace` for a machine run;
- `Sections`/`Body`/`Attribute` for the text written and the numbering afterwards;
- `Registered`/`Unregistered` for the registry;
- `ErrorLines` for the error listing;
- `RmTrees`/`RmFiles` for removals.

Separate lemmas state what the source promises about those functions.

**Inputs in place of I/O and threads.**
- A stage task's outcome is the input `outcomeOf`.
- Clock readings are whole numbers passed in.
- The paths `mkdtemp`/`mkstemp` choose are parameters.
- The `OSError` of `os.mkdir` is a parameter.
- The file system is a value.

**Class inheritance.** `Machine`, `Check` and `Solve` hold their `Task` part as the field `base`.

**Two report types.** The report that tasks carry (`FemReport.Report`, whose source is not part of this model) is the value `Report.Messages`: three free-text lists that `extend` concatenates. `Report.Data` is the separate class of `Report.py`, with key validation against `MSG_LOOKUP`.

## Model

| member | source | states |
|---|---|---|
| SifIO.NumberedValidSections | src/Mod/Fem/sifio.py:55-64 | among the eleven valid names, a section is numbered exactly when it is not Header, Simulation or Constants |
| SifIO.NumberedAreValid | src/Mod/Fem/sifio.py:40-52 | every numbered name is a valid section name |
| SifIO.BoolTaggedIntegerAsWritten | src/Mod/Fem/sifio.py:191-204 | with the source's order of checks, a bool is tagged Integer, not Logical |
| SifIO.SifTypeTable | src/Mod/Fem/sifio.py:191-204 | corrected tag table: section and int are Integer, bool is Logical, float is Real, path is File, str is String; any other type raises UnsupportedType |
| SifIO.SifTypeDiffersOnlyOnBool | src/Mod/Fem/sifio.py:191-204 | the corrected table agrees with the source's on every type except bool |
| SifIO.ArrayTypeFollowsSubclassing | src/Mod/Fem/sifio.py:218-226 | elements are checked with `isinstance` against the first element's type: a bool passes in an int array but not the reverse, and a path passes in a string array but not the reverse |
| SifIO.LookupSome | src/Mod/Fem/sifio.py:97-98 | `s[key]` finds a value exactly when the key is in the dict |
| SifIO.LookupPut | src/Mod/Fem/sifio.py:94-95 | after assignment the key reads as the new value, and every other key reads as before |
| SifIO.PutKeys | src/Mod/Fem/sifio.py:94-95 | assignment keeps keys unique, adds exactly the key, and grows the dict only for a new key |
| SifIO.LookupRemove | src/Mod/Fem/sifio.py:100-101 | after deletion the key is absent, and every other key reads as before |
| SifIO.RemoveKeysUnique | src/Mod/Fem/sifio.py:100-101 | deletion keeps keys unique and removes exactly that key |
| SifIO.Section.constructor | src/Mod/Fem/sifio.py:88-92 | a section built with a valid name has that name and no attributes |
| SifIO.Section.SetItem | src/Mod/Fem/sifio.py:94-95 | `s[key] = v` makes `s[key] == v` and leaves every other key unchanged |
| SifIO.Section.GetItem | src/Mod/Fem/sifio.py:97-98 | returns the value stored under the key, or None (KeyError) when the key is missing |
| SifIO.Section.DelItem | src/Mod/Fem/sifio.py:100-101 | `del s[key]` removes only that key; a missing key reports the KeyError and leaves the dict unchanged |
| SifIO.NewSection | src/Mod/Fem/sifio.py:88-92 | construction succeeds exactly for the eleven valid names; any other name raises InvalidSectionName |
| SifIO.GetIdSpec | src/Mod/Fem/sifio.py:236-245 | asking again for a numbered section returns the same id and changes nothing; a new one gets its name's counter (starting at `firstId`), that counter goes up by one, and other names and sections are untouched |
| SifIO.SetIdKeepsNumbering | src/Mod/Fem/sifio.py:236-240 | numbering a new section keeps the invariant that the sections of a name hold exactly the ids `firstId..pool-1`, one each |
| SifIO.GetIdKeepsNumbering | src/Mod/Fem/sifio.py:242-245 | `getId` keeps that numbering invariant |
| SifIO.ConsecutiveIds | src/Mod/Fem/sifio.py:231-240 | distinct new sections of one name get `firstId, firstId+1, ...` in the order asked, and the counter ends at `firstId + n` |
| SifIO.IdManager.constructor | src/Mod/Fem/sifio.py:231-234 | empty pool and id dicts with the given `firstId`, which satisfy the numbering invariant |
| SifIO.IdManager.SetId | src/Mod/Fem/sifio.py:236-240 | a new section gets its name's next number, and the counter advances; the numbering invariant is kept |
| SifIO.IdManager.GetId | src/Mod/Fem/sifio.py:242-245 | returns the section's id, allocating it on the first request only; the numbering invariant is kept |
| SifIO.StringArrayUnquotedAsWritten | src/Mod/Fem/sifio.py:187-189 | as written, a string inside an array is written without the double quotes a string scalar gets |
| SifIO.ArrayElementsLikeScalars | src/Mod/Fem/sifio.py:179-189 | corrected: a one-element array is written exactly like a scalar attribute whose key carries `(1)`, with the same type, value text and numbering |
| SifIO.BodyStopsAtError | src/Mod/Fem/sifio.py:139-142 | once an attribute raises, no later attribute is written |
| SifIO.SectionsStopAtError | src/Mod/Fem/sifio.py:118-121 | once a section raises, no later section is written |
| SifIO.AttributeSucceedsIff | src/Mod/Fem/sifio.py:144-150 | an attribute is written without error exactly when its type is supported, and, for a collection, the collection is non-empty and homogeneous |
| SifIO.BodySucceedsIff | src/Mod/Fem/sifio.py:139-142 | a body is written without error exactly when all its attributes are well typed |
| SifIO.SectionSucceedsIff | src/Mod/Fem/sifio.py:123-128 | a section is written without error exactly when all its attributes are well typed |
| SifIO.SectionsSucceedIff | src/Mod/Fem/sifio.py:118-121 | writing raises a ValueError exactly when some attribute of some section is ill typed |
| SifIO.ValuesTextAppends | src/Mod/Fem/sifio.py:187-189 | writing array values only appends to the stream |
| SifIO.AttributeAppends | src/Mod/Fem/sifio.py:144-150 | writing an attribute only appends to the stream |
| SifIO.BodyAppends | src/Mod/Fem/sifio.py:139-142 | writing a body only appends to the stream |
| SifIO.SectionsAppend | src/Mod/Fem/sifio.py:118-128 | writing sections only appends; after a successful write the text ends with `End` and a newline |
| SifIO.ValueTextKeepsNumbering | src/Mod/Fem/sifio.py:206-208 | writing a value, including a section reference, keeps the numbering invariant |
| SifIO.ValueTextExtends | src/Mod/Fem/sifio.py:206-208 | writing a value never changes a number already given |
| SifIO.ValuesTextKeepsNumbering | src/Mod/Fem/sifio.py:187-189 | writing array values keeps the numbering invariant |
| SifIO.ValuesTextExtends | src/Mod/Fem/sifio.py:187-189 | writing array values never changes a number already given |
| SifIO.AttributeKeepsNumbering | src/Mod/Fem/sifio.py:144-150 | writing an attribute keeps the numbering invariant |
| SifIO.AttributeExtends | src/Mod/Fem/sifio.py:144-150 | writing an attribute never changes a number already given |
| SifIO.BodyKeepsNumbering | src/Mod/Fem/sifio.py:139-142 | writing a body keeps the numbering invariant |
| SifIO.BodyExtends | src/Mod/Fem/sifio.py:139-142 | writing a body never changes a number already given |
| SifIO.SectionKeepsNumbering | src/Mod/Fem/sifio.py:123-134 | writing a section, header included, keeps the numbering invariant |
| SifIO.SectionExtends | src/Mod/Fem/sifio.py:123-134 | writing a section never changes a number already given, and a numbered section holds a number afterwards |
| SifIO.SectionsKeepNumbering | src/Mod/Fem/sifio.py:118-121 | writing a list of sections keeps the numbering invariant |
| SifIO.SectionsExtend | src/Mod/Fem/sifio.py:118-121 | writing sections never changes a number already given; after success, every numbered section written holds a number |
| SifIO.ArrAttrExample | src/Mod/Fem/sifio.py:179-189 | `[1, 2, 3]` under "Coordinate Mapping" is written as `Coordinate Mapping(3) = Integer 1 2 3` |
| SifIO.ScalarAttrExample | src/Mod/Fem/sifio.py:167-177 | `True` under "Use Mesh Names" is written as `Use Mesh Names = Logical True` |
| SifIO.Stream.Write | src/Mod/Fem/sifio.py:119-121 | the stream's text grows by exactly the written string |
| SifIO.Writer.constructor | src/Mod/Fem/sifio.py:113-116 | keeps the id manager, the sections and the stream it is given |
| SifIO.Writer.Write | src/Mod/Fem/sifio.py:118-121 | stream text, numbering and error are those of `Sections` over the sections in list order, each followed by a newline |
| SifIO.Writer.WriteSection | src/Mod/Fem/sifio.py:123-128 | a section is written as header, newline, body, newline and `End`, as `SectionOut` states |
| SifIO.Writer.WriteSectionHeader | src/Mod/Fem/sifio.py:130-134 | writes the name and a blank, then the id of a numbered section, allocating it if needed |
| SifIO.Writer.WriteSectionFooter | src/Mod/Fem/sifio.py:136-137 | appends `End` |
| SifIO.Writer.WriteSectionBody | src/Mod/Fem/sifio.py:139-142 | writes each attribute followed by a newline, in dict order, up to the first error |
| SifIO.Writer.WriteAttribute | src/Mod/Fem/sifio.py:144-150 | a collection goes to the array form; anything else, a section reference included, to the scalar form |
| SifIO.Writer.WriteScalarAttr | src/Mod/Fem/sifio.py:167-177 | writes `key = Type value`; an unsupported type raises before anything is written |
| SifIO.Writer.WriteArrAttr | src/Mod/Fem/sifio.py:179-189 | writes `key(n) = Type v1 ... vn`; an empty or inhomogeneous collection raises before anything is written |
| SifIO.Writer.Preprocess | src/Mod/Fem/sifio.py:206-213 | a section is written as its id, strings and paths in double quotes, everything else as `str()` |
| SifIO.Writer.GetAttrTypeArr | src/Mod/Fem/sifio.py:218-226 | EmptyCollection for no elements; InhomogeneousCollection when an element is not an instance of the first's type; otherwise the first element's tag |
| SifIO.Write | src/Mod/Fem/sifio.py:77-79 | writing with a fresh id manager that numbers from 1 |
| FemSolve.TaskForSpec | src/Mod/Fem/FemSolve.py:156-165 | CHECK..RESULTS map to the check, prepare, solve and results slots in order; DONE and any other state map to None |
| FemSolve.TraceBounds | src/Mod/Fem/FemSolve.py:120-134 | a run never goes backwards; it ends beyond the target exactly when it finishes, and then at `target + 1`; it runs one stage per state passed, plus the stage that failed or was aborted |
| FemSolve.TraceStages | src/Mod/Fem/FemSolve.py:123-133 | each stage passed had a task that succeeded, with the reports in stage order; the stopping stage had no task, or its task failed or was aborted |
| FemSolve.TraceAllSucceed | src/Mod/Fem/FemSolve.py:123-133 | with every slot filled and every task succeeding, a run up to a stage target finishes |
| FemSolve.TraceStopsAtDone | src/Mod/Fem/FemSolve.py:156-165 | a target at or beyond DONE never finishes a run, because DONE has no task |
| FemSolve.Machine.constructor | src/Mod/Fem/FemSolve.py:103-114 | `state == pending == CHECK`, no reset flag, empty slots, target defaults to SOLVE, and the task is named after the solver's unique name |
| FemSolve.Machine.GetTask | src/Mod/Fem/FemSolve.py:156-165 | returns the slot of the given state, as `TaskFor` states |
| FemSolve.Machine.Reset | src/Mod/Fem/FemSolve.py:136-140 | the state changes and the reset flag is set only when `newState < pending`; otherwise nothing changes |
| FemSolve.Machine.ApplyPending | src/Mod/Fem/FemSolve.py:142-146 | the pending state becomes visible unless a reset came in between, which wins; the reset flag is cleared either way |
| FemSolve.Machine.Run | src/Mod/Fem/FemSolve.py:120-134 | clears the reset flag and starts from `state`; ends where `Trace` does, with the stage reports collected and failed/aborted set by the stopping stage; `state == pending` afterwards unless a stage had no task |
| FemSolve.Machine.RunStages | src/Mod/Fem/FemSolve.py:123-133 | the loop of `run`: pending ends at the trace's final state, the reports are appended in order, and only the stopping stage sets failed or aborted |
| FemSolve.Machine.RunStage | src/Mod/Fem/FemSolve.py:125-133 | one stage's report is appended to the machine's, and a failed or aborted task fails or aborts the machine |
| FemSolve.SolverDirStable | src/Mod/Fem/FemSolve.py:72-77 | once a solver has a directory, asking again returns it and keeps the memo; other solvers' entries are untouched |
| FemSolve.SolverDirs.constructor | src/Mod/Fem/FemSolve.py:44 | the memo starts empty |
| FemSolve.SolverDirs.GetSolverDir | src/Mod/Fem/FemSolve.py:72-77 | the memoised directory, or a new temporary directory registered in `FemTempfile` and recorded |
| FemSolve.DerivesFromAny | src/Mod/Fem/FemSolve.py:211-213 | the whitelist loop returns true exactly when the object derives from some listed type |
| FemSolve.PartOfModel | src/Mod/Fem/FemSolve.py:208-214 | false for a blacklisted property (`Label`); otherwise true exactly when the object derives from `Fem::Constraint` or `App::MaterialObject` |
| FemTask.RegisteredSpec | src/Mod/Fem/FemTask.py:35-40 | raises for an unnamed task and for a taken name; otherwise adds name→task and leaves every other entry unchanged |
| FemTask.UnregisteredSpec | src/Mod/Fem/FemTask.py:43-45 | removes exactly the task's name, and does nothing when the name is absent |
| FemTask.RegisterThenRemove | src/Mod/Fem/FemTask.py:35-45 | removing right after a successful registration restores the registry |
| FemTask.RemoveThenRegister | src/Mod/Fem/FemTask.py:35-45 | after removal a named task can register again |
| FemTask.Registry.constructor | src/Mod/Fem/FemTask.py:32 | the registry starts empty |
| FemTask.Registry.Register | src/Mod/Fem/FemTask.py:35-40 | `registerRunning`: the same error or new registry as `Registered`; the registry is unchanged on error |
| FemTask.Registry.Remove | src/Mod/Fem/FemTask.py:43-45 | `removeRunning`, as `Unregistered` states |
| FemTask.LifecycleSpec | src/Mod/Fem/FemTask.py:83-120 | start forgets an earlier abort or failure; start then stop records both times and leaves the task not running; abort and fail in between persist |
| FemTask.Task.constructor | src/Mod/Fem/FemTask.py:50-63 | no name, no times, not running, not aborted, not failed |
| FemTask.Task.Start | src/Mod/Fem/FemTask.py:83-91 | new report, flags cleared, `stopTime` None, running since `now`; a named task is registered, and a taken name raises after the fields are set |
| FemTask.Task.Abort | src/Mod/Fem/FemTask.py:101-103 | sets only `aborted` |
| FemTask.Task.Fail | src/Mod/Fem/FemTask.py:105-106 | sets only `failed` |
| FemTask.Task.Protector | src/Mod/Fem/FemTask.py:108-113 | an exception from `run` marks the task failed and is passed on; otherwise nothing changes |
| FemTask.Task.Stopping | src/Mod/Fem/FemTask.py:115-120 | records the stop time, clears `running`, and removes the task from the registry |
| FemSolverTasks.UnsupportedWarningsSpec | src/Mod/Fem/FemSolverTasks.py:69-79 | one warning per constraint that no supported spec matches, naming its label, and no other warnings |
| FemSolverTasks.Check.constructor | src/Mod/Fem/FemSolverTasks.py:31-34 | keeps solver and directory; the task part is fresh |
| FemSolverTasks.Check.CheckMesh | src/Mod/Fem/FemSolverTasks.py:43-56 | no mesh: "Missing a mesh object.", failed, False; more than one: "Too many meshes...", failed, False; exactly one: True, with report and flags unchanged; no analysis: ValueError |
| FemSolverTasks.Check.CheckMaterial | src/Mod/Fem/FemSolverTasks.py:58-67 | returns False with the error and the failed flag exactly when there is no material; otherwise True with nothing changed |
| FemSolverTasks.Check.IsSupported | src/Mod/Fem/FemSolverTasks.py:72-75 | true exactly when some supported spec matches the member |
| FemSolverTasks.Check.CheckSupported | src/Mod/Fem/FemSolverTasks.py:69-79 | appends exactly the unsupported-constraint warnings in member order, never fails, and returns True |
| FemSolverTasks.Solve.constructor | src/Mod/Fem/FemSolverTasks.py:84-88 | the output buffer starts empty |
| FemSolverTasks.Solve.Start | src/Mod/Fem/FemSolverTasks.py:90-92 | the task's start, with the same registry result, then an empty output; when the registration raises, the old output is kept |
| FemSolverTasks.Solve.AppendOutput | src/Mod/Fem/FemSolverTasks.py:94-100 | one more line at the end; `output` grows by exactly that line |
| FemSolverTasks.Solve.SetOutput | src/Mod/Fem/FemSolverTasks.py:102-105 | the buffer becomes the single value, and `output` equals it |
| Report.EmptyReports | src/Mod/Fem/Report.py:91-95 | an empty report is valid; a report is empty exactly when it holds no message; a fresh report is both |
| Report.AddedSpec | src/Mod/Fem/Report.py:97-110 | appending adds one message to its own list only; the result is valid exactly when the report was and the message is not an error |
| Report.ConcatSpec | src/Mod/Fem/Report.py:86-89 | `extend` adds the counts; the result is valid or empty exactly when both parts are; the empty report is a unit |
| Report.ConcatAssociative | src/Mod/Fem/Report.py:86-89 | extending is associative |
| Report.ConcatAllValid | src/Mod/Fem/Report.py:86-89 | collected reports are valid exactly when each one is, and the counts add up |
| Report.FormatMessageSucceedsIff | src/Mod/Fem/Report.py:106-110 | a message can be built exactly when its key is known and enough arguments are given; an unknown key is UnknownKey |
| Report.FormatMessageLiteral | src/Mod/Fem/Report.py:109-110 | a template without fields is the message itself |
| Report.Data.constructor | src/Mod/Fem/Report.py:81-84 | three empty lists, so the report is empty and valid |
| Report.Data.Extend | src/Mod/Fem/Report.py:86-89 | each list gets the other report's list appended, in order |
| Report.Data.AppendInfo | src/Mod/Fem/Report.py:97-98 | one formatted message at the end of `infos`, or the error with nothing changed |
| Report.Data.AppendWarning | src/Mod/Fem/Report.py:100-101 | one formatted message at the end of `warnings`, or the error with nothing changed |
| Report.Data.AppendError | src/Mod/Fem/Report.py:103-104 | one formatted message at the end of `errors`, or the error with nothing changed |
| Report.Data.Append | src/Mod/Fem/Report.py:106-110 | an unknown key (ValueError) or a missing argument changes no list; otherwise the formatted message is appended to the chosen list |
| Report.LinesAfterPrefix | src/Mod/Fem/Report.py:128-136 | the accumulated text is the starting text followed by the lines |
| Report.TextInOrder | src/Mod/Fem/Report.py:128-136 | the text is all info lines, then all warning lines, then all error lines |
| Report.ColoredLineSingle | src/Mod/Fem/Report.py:138-139 | a coloured line of single-line text has no newline |
| Report.LinesAfterCount | src/Mod/Fem/Report.py:128-136 | each message adds exactly one newline |
| Report.TextLineCount | src/Mod/Fem/Report.py:128-136 | the text has as many lines as the report has messages |
| Report.GetText | src/Mod/Fem/Report.py:128-136 | the three loops build exactly `Text` of the report |
| FemToolsElmer.ErrorLinesSpec | src/Mod/Fem/FemToolsElmer.py:87-89 | prints one line per error in recording order, up to the first entry it cannot print; stops exactly there, with KeyError or IndexError |
| FemToolsElmer.ErrorLinesComplete | src/Mod/Fem/FemToolsElmer.py:87-89 | the listing gets through exactly when every entry is printable |
| FemToolsElmer.ErrorLinesStopsAtFailure | src/Mod/Fem/FemToolsElmer.py:87-89 | once the listing has raised, later entries print nothing |
| FemToolsElmer.Status.constructor | src/Mod/Fem/FemToolsElmer.py:73-77 | successful, with empty logs and no errors |
| FemToolsElmer.Status.Error | src/Mod/Fem/FemToolsElmer.py:83-85 | success becomes false, and `(err, args)` is appended; success holds exactly when no error is recorded |
| FemToolsElmer.Status.PrintErrorList | src/Mod/Fem/FemToolsElmer.py:87-89 | the lines the loop prints, as `ErrorLines` states |
| FemToolsElmer.AnalysisErrorsSpec | src/Mod/Fem/FemToolsElmer.py:150-156 | `mesh_missing` exactly when the mesh is missing, and first; at most one free-text error: `no_freetext` for none, `freetext_empty` for empty text |
| FemToolsElmer.AnalysisErrorsPrintable | src/Mod/Fem/FemToolsElmer.py:44-54 | every error the analysis check records has a usable template |
| FemToolsElmer.MeshMissingTemplate | src/Mod/Fem/FemToolsElmer.py:51 | `mesh_missing` has a template without fields |
| FemToolsElmer.NoFreeTextTemplate | src/Mod/Fem/FemToolsElmer.py:52 | `no_freetext` has a template without fields |
| FemToolsElmer.FreeTextEmptyTemplate | src/Mod/Fem/FemToolsElmer.py:53 | `freetext_empty` has a template without fields |
| FemToolsElmer.WdNonExistentTemplate | src/Mod/Fem/FemToolsElmer.py:45 | one field, which the working directory fills |
| FemToolsElmer.WdNotDirTemplate | src/Mod/Fem/FemToolsElmer.py:46 | one field, which the working directory fills |
| FemToolsElmer.WdNameConflictTemplate | src/Mod/Fem/FemToolsElmer.py:47 | one field, which the working directory fills |
| FemToolsElmer.CdCreateErrorTemplate | src/Mod/Fem/FemToolsElmer.py:48 | one field, which the OSError text fills |
| FemToolsElmer.CheckAnalysis | src/Mod/Fem/FemToolsElmer.py:150-156 | appends exactly `AnalysisErrors`; success survives only when nothing is recorded |
| FemToolsElmer.CheckedWorkingDirSpec | src/Mod/Fem/FemToolsElmer.py:165-182 | a case directory is returned exactly when no error is recorded; at most one error, naming the first failing check (nonexistent, not a directory, name conflict, mkdir error); the returned directory is `join(wd, label)` and exists |
| FemToolsElmer.CheckedWorkingDirPrintable | src/Mod/Fem/FemToolsElmer.py:44-54 | every error the working-directory check records has a usable template |
| FemToolsElmer.CheckWorkingDir | src/Mod/Fem/FemToolsElmer.py:165-182 | result, errors and file system are those `CheckedWorkingDir` states |
| FemToolsElmer.ChecksAreListed | src/Mod/Fem/FemToolsElmer.py:109-113 | the errors of both checks, in `run`'s order, are all printed, one line each |
| FemMisc.IsOfTypeCases | src/Mod/Fem/FemMisc.py:62-68 | without a Python type only derivation matters; with one, a proxy of that type is also needed |
| FemMisc.MembersOfTypeSpec | src/Mod/Fem/FemMisc.py:38-45 | the filter keeps exactly the members of the type |
| FemMisc.MembersOfTypeConcat | src/Mod/Fem/FemMisc.py:41-45 | the filter keeps member order |
| FemMisc.GetMember | src/Mod/Fem/FemMisc.py:38-45 | ValueError exactly for no analysis; otherwise the members satisfying `isOfType`, in order |
| FemMisc.GetSingleMember | src/Mod/Fem/FemMisc.py:48-50 | the first matching member, None when there is none; ValueError for no analysis |
| FemMisc.AnalysisOfSpec | src/Mod/Fem/FemMisc.py:28-35 | the result is the first analysis in document order that holds the member; None exactly when none does |
| FemMisc.FindAnalysisOfMember | src/Mod/Fem/FemMisc.py:28-35 | ValueError exactly for a None member; otherwise `AnalysisOf` |
| FemMisc.UniqueNameInjective | src/Mod/Fem/FemMisc.py:71-75 | `Doc.Name` tells apart objects of different names or documents when names hold no dot |
| FemTempfile.RegisterSpec | src/Mod/Fem/FemTempfile.py:65-70 | adds the path to the name's set (creating it), leaves other names unchanged, and is idempotent |
| FemTempfile.RmTreesSpec | src/Mod/Fem/FemTempfile.py:52-53 | removal only removes; a run without error removed all the trees, which were distinct existing directories; an error names one of the paths |
| FemTempfile.RmTreesSucceeds | src/Mod/Fem/FemTempfile.py:52-53 | distinct, unnested existing directories are all removed without error |
| FemTempfile.RmFilesSpec | src/Mod/Fem/FemTempfile.py:61-62 | a run succeeds exactly when the paths are distinct existing files, and then removes them; removal only removes |
| FemTempfile.RmTreesStopsAtError | src/Mod/Fem/FemTempfile.py:52-53 | after the first `rmtree` error, later paths change nothing |
| FemTempfile.RmFilesStopsAtError | src/Mod/Fem/FemTempfile.py:61-62 | after the first `os.remove` error, later paths change nothing |
| FemTempfile.TempStore.constructor | src/Mod/Fem/FemTempfile.py:32-33 | both registries start empty |
| FemTempfile.TempStore.CreateDir | src/Mod/Fem/FemTempfile.py:36-39 | registers the new directory under the object's name only in `_directories`, and creates it |
| FemTempfile.TempStore.CreateFile | src/Mod/Fem/FemTempfile.py:42-45 | registers the new file under the object's name only in `_files`, and creates it |
| FemTempfile.TempStore.RemoveTreeSeq | src/Mod/Fem/FemTempfile.py:52-53 | the loop over explicit paths, as `RmTrees` states |
| FemTempfile.TempStore.RemoveTreeSet | src/Mod/Fem/FemTempfile.py:50-53 | over the registered set: after success all those trees are gone; existing, unnested directories always succeed |
| FemTempfile.TempStore.RemoveFileSeq | src/Mod/Fem/FemTempfile.py:61-62 | the loop over explicit paths, as `RmFiles` states |
| FemTempfile.TempStore.RemoveFileSet | src/Mod/Fem/FemTempfile.py:59-62 | over the registered set: succeeds exactly when all are existing files, and then removes them |
| FemTempfile.TempStore.RemoveDirs | src/Mod/Fem/FemTempfile.py:48-53 | no-op for an unregistered name; no paths means all registered directories; registries unchanged |
| FemTempfile.TempStore.RemoveFiles | src/Mod/Fem/FemTempfile.py:56-62 | no-op for an unregistered name; no paths means all registered files; explicit paths exactly those; registries unchanged |
| FemTempfile.TempStore.SlotDeleteObject | src/Mod/Fem/FemTempfile.py:83-85 | the object's directories, then its files, are removed; after success nothing registered for it exists; an error names one of its registered paths |
| FemTempfile.ObjectsDeletedExactly | src/Mod/Fem/FemTempfile.py:83-92 | deleting objects removes exactly the directories that are, or lie inside, one of their registered directories, and exactly the files that do so or are registered as their files; every other path survives |
| FemTempfile.TempStore.SlotDeleteDocument | src/Mod/Fem/FemTempfile.py:87-92 | after success the file system is that of deleting each object in order and then the document, and nothing registered for any of them exists; after an error the objects before the failing one are cleared, and the error names a path registered for the failing object (or the document) |
| FileSys.Join | src/Mod/Fem/FemToolsElmer.py:173 | the joined path ends with the second component |
| FileSys.RemovalKeepsWellFormed | src/Mod/Fem/FemTempfile.py:53 | `rmtree` and `os.remove` keep a consistent tree consistent: no path is both a file and a directory, and nothing lies inside a file |
| FileSys.RemoveFileIsRemoveTree | src/Mod/Fem/FemTempfile.py:62 | in a consistent tree, `os.remove` of a regular file leaves what `rmtree` of that path would |
| FileSys.RemoveTreeCommutes | src/Mod/Fem/FemTempfile.py:52-53 | two trees removed one after the other leave the same in either order, so the iteration order of a registered set does not change the result |
| FileSys.RemoveTreeAbsorbsNested | src/Mod/Fem/FemTempfile.py:52-53 | removing a directory inside `p` and then `p` leaves what removing `p` alone leaves |
| TextUtil.IntToStringRoundTrip | src/Mod/Fem/sifio.py:208 | the decimal text of a section id reads back as that id |
| TextUtil.IntToStringHasNoSeparators | src/Mod/Fem/sifio.py:208 | an id's text holds no blank and no newline |
| TextUtil.JoinAppend | src/Mod/Fem/FemSolverTasks.py:100 | joining one more line appends it |
| TextUtil.FormatDefinedIff | src/Mod/Fem/Report.py:110 | `str.format` fails exactly when there are fewer arguments than `{}` fields |
| TextUtil.FormatLiteral | src/Mod/Fem/Report.py:110 | a template without fields formats to itself |

## Left out

- `FemInputWriterElmer.py`, `FemElmerTasks.py`, and `run`/`start_elmer`/`get_working_dir`/`write_input_files`/`load_results` of `FemToolsElmer.py` are not part of this model. They spawn processes, read preferences, and write files through FreeCAD.
- The GUI files, `Linear.py`, `_FemElmerFreeText.py`, `FemEquation.py`, the `ReportDialog` widget layout, and the Qt translation catalogue hold no logic to state.
- `FemTask.Thread`, the `time` property and the signal sets (`FemSignal.notify`) are left out. Threads, wall-clock arithmetic and observer callbacks become caller-supplied numbers and sequential calls.
- The concurrency around `Machine.reset` is left out. The document observer calls it from other threads; here every call is sequential.
- `getMachine`, `getDefaultDir`, `_getBesideDir` and `_getCustomDir` of `FemSolve.py` are left out. They depend on settings and on `os.makedirs`.
- `_DocObserver.slotChangedObject` and `_docChanged` of `FemSolve.py` are left out. They iterate the machines registry and print; only their `_partOfModel` test is modelled.
- `FemMisc.wipeDir` is left out. It iterates a real directory listing.
- FemSolve.Machine.Run: `_runTask(None)` raises AttributeError when a stage has no task. This is the `raised` result, and the visible state is left as it was. Starting and joining the stage task's thread is the input `outcomeOf`.
- FemSolve.Machine.RunStages: the loop of `run`, taken out as a method of its own. `Run` calls it only when neither flag is set.
- FemSolverTasks.Check.CheckMesh: the report of a stage task is `FemReport.Report`, whose source is not part of this model. It is modelled as `Report.Messages` with free-text appends.
- `_check_elmer_binary` is left out. `find_elmer_binary` always returns a name, so the branch that calls the nonexistent `status.failed` cannot be taken.
- FemToolsElmer.CheckWorkingDir: the `OSError` of `os.mkdir` is an input (`mkdirError`), not a property of the file system.
- FemToolsElmer.CheckWorkingDir: paths are compared as plain strings, without `os.path`'s normalisation. With an empty label, `join(wd, "")` is `wd/`, which `os.path.exists` treats as `wd` but the model treats as a new path, so the model records a directory `wd/` beside `wd`. A working directory given with a trailing `/` differs in the same way.
- FemTask.Task.constructor: the report starts as an empty `Report.Messages`, where `FemTask.py:52` sets `None` until `start` (`FemTask.py:84`). In the source a check or a `run` before `start` raises AttributeError on the missing report; the model appends to the empty report instead. The `Check`, `Solve` and `Machine` constructors share this.
- FemSolverTasks.Check.CheckSupported: the source raises AttributeError when the analysis is `None`; the model returns this as the result `AnalysisIsNone`, like `getMember`'s ValueError in `CheckMesh` and `CheckMaterial`.
- FemTempfile.TempStore.CreateDir and FemTempfile.TempStore.CreateFile: they take the path `mkdtemp`/`mkstemp` chose as a parameter. They require that it did not exist, which is what those calls promise. `mkstemp` returns a `(fd, path)` tuple that the source registers as a whole; the model registers the path.
- FemSolve.SolverDirs.GetSolverDir: it requires the offered temporary directory to be new, which is what `mkdtemp` promises.
- FemTempfile.TempStore.RemoveDirs: the source reads the undefined `name` at `FemTempfile.py:49`. The model takes it as `getUniqueName(obj)`, as in `removeFiles`.
- FemTempfile.TempStore.RemoveTreeSet: a weaker contract. A set is iterated in an order Python does not fix, so on an error the contract says only that the failing path is one of the set. It guarantees success only for existing, unnested directories, since removing a parent first would make a nested one fail.
- FemTempfile.TempStore.SlotDeleteObject: a weaker contract. After an error it states only that the file system lost entries and gained none, not which ones.
- The defects in `sifio.py` are modelled as evidently intended, not as the crashes they cause:
  - methods missing `self`;
  - the stray `)` at `sifio.py:141`;
  - `write` building `_IDManager()` while the class is `_IdManager`, whose constructor also takes unused `sections, stream` arguments;
  - `_getId` calling `setId` for `_setId`;
  - `self.sections`/`self.stream` for the fields `_sections`/`_stream`;
  - `isNumbered(s)` given the section object rather than its name;
  - `"(" + len(data) + ")"` concatenating an int, modelled as `str(len(data))`;
  - the header writing an int id to the stream, modelled as its decimal text;
  - `for key, data in s` iterating dict keys, modelled as iterating items in insertion order;
  - `_writeSectionAttr`, which does not exist: a section-valued attribute is written as a scalar, that is, as the section's id;
  - `section.Section`, `section.Path` and `section.isNumbered` (`sifio.py:133`, `145`, `192`, `200`, `207`, `209`), which refer to a module `section` that is never imported: they are read as this file's own `Section`, `PathAttr` and `isNumbered`;
  - `def _writeSection(self)` at `sifio.py:123`, which lacks the parameter `s` that `write` passes and the body uses;
  - `getId` called at `sifio.py:134` and `208`, where `_IdManager` defines only `_getId`, and `self.ids` at `sifio.py:208` for the field `_ids`;
  - the `raise ValueError(... % type(data))` at `sifio.py:204`, which reads a name `data` that is not defined there and so raises NameError; the model reports the intended ValueError as `UnsupportedType`.
- `basestring` and `it.next()` are Python 2 idioms in `sifio.py`. The model reads them as "a string" and "the first element"; `_isCollection` becomes the `One`/`Many` split of `SifIO.Value`.
- The unused `_checkScalar` of `sifio.py` is left out.
- SifIO.Writer.Preprocess: float formatting is not modelled. `str()` of a float, and of a value of an unsupported type, is carried as the text it gives (`RealS`, `OtherS`).
- SifIO.Section.DelItem and SifIO.Section.GetItem: they report Python's KeyError as a result (`found == false`, `None`), not as an exception.
- Report.Data.Extend: `extend` at `Report.py:86` lacks `self`; the evidently intended method is modelled.
- `Report.py`'s `display`, `displayGui` and `displayLog` are left out. They are console and dialog output; `_getText` is modelled as the text it returns.

## Findings

| source | as written | input that shows it | evidently intended | confidence | as-written member | corrected member |
|---|---|---|---|---|---|---|
| src/Mod/Fem/sifio.py:194-199 | the `int` test comes before the `bool` test, and Python's `bool` is a subclass of `int` | the attribute `True` is tagged `Integer True` | `Logical True`, as the sample at `src/Mod/Fem/TestElmerSolver.py:153` shows | not executed | SifIO.BoolTaggedIntegerAsWritten | SifIO.SifTypeTable |
| src/Mod/Fem/sifio.py:189 | each array element is preprocessed with the collection's type, `type(data)`, which is neither a section, a path nor a string | the array `["a"]` is written as `a`, without quotes, and a section inside an array as its object text rather than its id | `_preprocess(val, type(val))`: elements written as scalars write them | not executed | SifIO.StringArrayUnquotedAsWritten | SifIO.ArrayElementsLikeScalars |
