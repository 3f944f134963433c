/** The checks `FemToolsElmer.py` runs before starting Elmer: a status
    object that collects errors by id and remembers whether any occurred,
    the checks of the analysis and of the working directory, and the error
    listing built from the `err_lookup` templates. */
module FemToolsElmer {
  import opened Wrappers
  import TextUtil
  import FileSys

  const WD_NON_EXISTENT: string := "wd_non_existent"
  const WD_NOT_DIR: string := "wd_not_dir"
  const WD_NAME_CONFLICT: string := "wd_name_conflict"
  const CD_CREATE_ERROR: string := "cd_create_error"
  const CREATE_INP_FAILED: string := "create_inp_failed"
  const EXEC_SOLVER_FAILED: string := "exec_solver_failed"
  const MESH_MISSING: string := "mesh_missing"
  const NO_FREETEXT: string := "no_freetext"
  const FREETEXT_EMPTY: string := "freetext_empty"

  /** `err_lookup`: the message template of each error id. A template with
      a field is written as the text before `{}`, the field and the text
      after it; the longest plain one is written in two halves. */
  const ERR_LOOKUP: map<string, string> := map[
    WD_NON_EXISTENT := "Working directory " + "{}" + " doesn't exist.",
    WD_NOT_DIR := "Working directory " + "{}" + " is not a directory.",
    WD_NAME_CONFLICT := "Working directory " + "{}" + " invalid",
    CD_CREATE_ERROR := "Error creating case directory: " + "{}" + "",
    CREATE_INP_FAILED := "Failed to create input files: " + "{}" + "",
    EXEC_SOLVER_FAILED := "Solver execution failed with exit code: " + "{}" + "",
    MESH_MISSING := "Mesh object missing.",
    NO_FREETEXT := "Analysis without FreeText" + " not jet supported!",
    FREETEXT_EMPTY := "FreeText must not be empty."
  ]

  /** A recorded error: its id and the arguments for its template. */
  type ErrorEntry = (string, seq<string>)

  /** An entry the listing can print with `lookup`: the id is known and
      there are enough arguments for its template. */
  predicate Printable(lookup: map<string, string>, e: ErrorEntry) {
    e.0 in lookup && TextUtil.Placeholders(lookup[e.0]) <= |e.1|
  }

  /** What stops the listing: a KeyError for an unknown id, or an
      IndexError for a template with more fields than arguments. */
  datatype PrintFailure = UnknownId(id: string) | MissingArgument(id: string)

  /** The lines the listing printed, and what stopped it, if anything. */
  datatype Printed = Printed(lines: seq<string>, failure: Option<PrintFailure>)

  /** `printErrorList(lookup)`: each entry's template filled with its
      arguments, one line per entry, until an entry cannot be printed. */
  function ErrorLines(lookup: map<string, string>, errors: seq<ErrorEntry>): Printed {
    if |errors| == 0 then Printed([], None)
    else
      var r := ErrorLines(lookup, errors[..|errors| - 1]);
      var e := errors[|errors| - 1];
      if r.failure.Some? then r
      else if e.0 !in lookup then Printed(r.lines, Some(UnknownId(e.0)))
      else match TextUtil.Format(lookup[e.0], e.1)
        case None => Printed(r.lines, Some(MissingArgument(e.0)))
        case Some(text) => Printed(r.lines + [text + "\n"], None)
  }

  /** The listing prints the entries in recording order, one line each,
      up to the first entry it cannot print, and it stops exactly there. */
  lemma {:induction false} ErrorLinesSpec(lookup: map<string, string>, errors: seq<ErrorEntry>)
    ensures var r := ErrorLines(lookup, errors);
      && |r.lines| <= |errors|
      && (forall i :: 0 <= i < |r.lines| ==>
            && Printable(lookup, errors[i])
            && TextUtil.Format(lookup[errors[i].0], errors[i].1).Some?
            && r.lines[i] == TextUtil.Format(lookup[errors[i].0], errors[i].1).value + "\n")
      && (r.failure.None? <==> |r.lines| == |errors|)
      && (r.failure.Some? ==>
            var e := errors[|r.lines|];
            && !Printable(lookup, e)
            && r.failure.value == if e.0 !in lookup then UnknownId(e.0) else MissingArgument(e.0))
  {
    if |errors| > 0 {
      var init, e := errors[..|errors| - 1], errors[|errors| - 1];
      ErrorLinesSpec(lookup, init);
      assert forall i :: 0 <= i < |init| ==> init[i] == errors[i];
      if e.0 in lookup {
        TextUtil.FormatDefinedIff(lookup[e.0], e.1);
      }
    }
  }

  /** The listing gets through exactly when every entry is printable. */
  lemma ErrorLinesComplete(lookup: map<string, string>, errors: seq<ErrorEntry>)
    ensures ErrorLines(lookup, errors).failure.None? <==> forall i :: 0 <= i < |errors| ==> Printable(lookup, errors[i])
  {
    ErrorLinesSpec(lookup, errors);
    var r := ErrorLines(lookup, errors);
    if r.failure.Some? {
      assert !Printable(lookup, errors[|r.lines|]);
    }
  }

  /** `_Status`: success until the first error, and the errors in order. */
  class Status {
    var success: bool
    var meshLog: string
    var solverLog: string
    var errorList: seq<ErrorEntry>

    /** The success flag says that no error was recorded. */
    ghost predicate Valid()
      reads this
    {
      success <==> errorList == []
    }

    constructor ()
      ensures success && meshLog == "" && solverLog == "" && errorList == []
      ensures Valid()
    {
      success := true;
      meshLog := "";
      solverLog := "";
      errorList := [];
    }

    /** `error(err, *args)`: success is lost for good. */
    method Error(err: string, args: seq<string>)
      modifies this`success, this`errorList
      ensures !success && errorList == old(errorList) + [(err, args)]
      ensures Valid()
    {
      success := false;
      errorList := errorList + [(err, args)];
    }

    /** `printErrorList(lookup)`: the lines it writes to the console. */
    method PrintErrorList(lookup: map<string, string>) returns (lines: seq<string>, failure: Option<PrintFailure>)
      ensures Printed(lines, failure) == ErrorLines(lookup, errorList)
    {
      lines := [];
      var i := 0;
      while i < |errorList|
        invariant 0 <= i <= |errorList|
        invariant ErrorLines(lookup, errorList[..i]) == Printed(lines, None)
      {
        assert errorList[..i + 1][..i] == errorList[..i];
        var (errId, args) := errorList[i];
        if errId !in lookup {
          ErrorLinesStopsAtFailure(lookup, errorList, i + 1);
          return lines, Some(UnknownId(errId));
        }
        var text := TextUtil.Format(lookup[errId], args);
        if text.None? {
          ErrorLinesStopsAtFailure(lookup, errorList, i + 1);
          return lines, Some(MissingArgument(errId));
        }
        lines := lines + [text.value + "\n"];
        i := i + 1;
      }
      assert errorList[..i] == errorList;
      failure := None;
    }
  }

  /** Once the listing has stopped, later entries print nothing. */
  lemma {:induction false} ErrorLinesStopsAtFailure(lookup: map<string, string>, errors: seq<ErrorEntry>, n: nat)
    requires n <= |errors|
    requires ErrorLines(lookup, errors[..n]).failure.Some?
    ensures ErrorLines(lookup, errors) == ErrorLines(lookup, errors[..n])
    decreases |errors| - n
  {
    if n < |errors| {
      assert errors[..n + 1][..n] == errors[..n];
      ErrorLinesStopsAtFailure(lookup, errors, n + 1);
    } else {
      assert errors[..n] == errors;
    }
  }

  /** The errors `_check_analysis` records: a missing mesh, then a missing
      or empty free text. `freeText` is the `Text` of the free-text object,
      None when there is no such object. */
  function AnalysisErrors(hasMesh: bool, freeText: Option<string>): seq<ErrorEntry> {
    (if hasMesh then [] else [(MESH_MISSING, [])])
    + (if freeText.None? then [(NO_FREETEXT, [])] else if freeText.value == "" then [(FREETEXT_EMPTY, [])] else [])
  }

  /** `mesh_missing` is recorded exactly when the mesh is missing, and first;
      at most one free-text error is recorded, `no_freetext` exactly when
      there is no free text and `freetext_empty` exactly when it is empty. */
  lemma AnalysisErrorsSpec(hasMesh: bool, freeText: Option<string>)
    ensures var errs := AnalysisErrors(hasMesh, freeText);
      && ((MESH_MISSING, []) in errs <==> !hasMesh)
      && (!hasMesh ==> errs[0] == (MESH_MISSING, []))
      && ((NO_FREETEXT, []) in errs <==> freeText.None?)
      && ((FREETEXT_EMPTY, []) in errs <==> freeText == Some(""))
      && |errs| == (if hasMesh then 0 else 1) + (if freeText.None? || freeText == Some("") then 1 else 0)
  {
  }

  /** Each error `_check_analysis` records can be listed. */
  lemma AnalysisErrorsPrintable(hasMesh: bool, freeText: Option<string>)
    ensures forall e :: e in AnalysisErrors(hasMesh, freeText) ==> Printable(ERR_LOOKUP, e)
  {
    MeshMissingTemplate();
    NoFreeTextTemplate();
    FreeTextEmptyTemplate();
  }

  /** The templates of the errors the checks record have as many fields as
      the checks pass arguments; these are the lines the listing shows. */
  lemma MeshMissingTemplate()
    ensures MESH_MISSING in ERR_LOOKUP && TextUtil.Placeholders(ERR_LOOKUP[MESH_MISSING]) == 0
  {
    var t := "Mesh object missing.";
    assert MESH_MISSING in ERR_LOOKUP && ERR_LOOKUP[MESH_MISSING] == t;
    TextUtil.PlaceholdersNone(t);
  }

  lemma NoFreeTextTemplate()
    ensures NO_FREETEXT in ERR_LOOKUP && TextUtil.Placeholders(ERR_LOOKUP[NO_FREETEXT]) == 0
  {
    var a, b := "Analysis without FreeText", " not jet supported!";
    assert NO_FREETEXT in ERR_LOOKUP && ERR_LOOKUP[NO_FREETEXT] == a + b;
    assert '{' !in a && '{' !in b;
    TextUtil.PlaceholdersNone(a + b);
  }

  lemma FreeTextEmptyTemplate()
    ensures FREETEXT_EMPTY in ERR_LOOKUP && TextUtil.Placeholders(ERR_LOOKUP[FREETEXT_EMPTY]) == 0
  {
    var t := "FreeText must not be empty.";
    assert FREETEXT_EMPTY in ERR_LOOKUP && ERR_LOOKUP[FREETEXT_EMPTY] == t;
    TextUtil.PlaceholdersNone(t);
  }

  lemma WdNonExistentTemplate(a: string)
    ensures WD_NON_EXISTENT in ERR_LOOKUP && TextUtil.Placeholders(ERR_LOOKUP[WD_NON_EXISTENT]) == 1
    ensures TextUtil.Format(ERR_LOOKUP[WD_NON_EXISTENT], [a]) == Some("Working directory " + a + " doesn't exist.")
  {
    TextUtil.FormatOne("Working directory ", " doesn't exist.", [a]);
  }

  lemma WdNotDirTemplate(a: string)
    ensures WD_NOT_DIR in ERR_LOOKUP && TextUtil.Placeholders(ERR_LOOKUP[WD_NOT_DIR]) == 1
    ensures TextUtil.Format(ERR_LOOKUP[WD_NOT_DIR], [a]) == Some("Working directory " + a + " is not a directory.")
  {
    TextUtil.FormatOne("Working directory ", " is not a directory.", [a]);
  }

  lemma WdNameConflictTemplate(a: string)
    ensures WD_NAME_CONFLICT in ERR_LOOKUP && TextUtil.Placeholders(ERR_LOOKUP[WD_NAME_CONFLICT]) == 1
    ensures TextUtil.Format(ERR_LOOKUP[WD_NAME_CONFLICT], [a]) == Some("Working directory " + a + " invalid")
  {
    TextUtil.FormatOne("Working directory ", " invalid", [a]);
  }

  lemma CdCreateErrorTemplate(a: string)
    ensures CD_CREATE_ERROR in ERR_LOOKUP && TextUtil.Placeholders(ERR_LOOKUP[CD_CREATE_ERROR]) == 1
    ensures TextUtil.Format(ERR_LOOKUP[CD_CREATE_ERROR], [a]) == Some("Error creating case directory: " + a)
  {
    TextUtil.FormatOne("Error creating case directory: ", "", [a]);
    assert "Error creating case directory: " + a + "" == "Error creating case directory: " + a;
  }

  /** `_check_analysis` */
  method CheckAnalysis(status: Status, hasMesh: bool, freeText: Option<string>)
    modifies status`success, status`errorList
    ensures status.errorList == old(status.errorList) + AnalysisErrors(hasMesh, freeText)
    ensures status.success == (old(status.success) && AnalysisErrors(hasMesh, freeText) == [])
    ensures old(status.Valid()) ==> status.Valid()
  {
    if !hasMesh {
      status.Error(MESH_MISSING, []);
    }
    if freeText.None? {
      status.Error(NO_FREETEXT, []);
    } else if freeText.value == "" {
      status.Error(FREETEXT_EMPTY, []);
    }
  }

  /** What `_check_working_dir` leaves behind: the case directory it
      returns, the errors it records and the file system afterwards. */
  datatype DirCheck = DirCheck(caseDir: Option<string>, errors: seq<ErrorEntry>, fs: FileSys.FileSystem)

  /** `_check_working_dir` on the working directory `wd` and the label of
      the analysis; `mkdirError` is the `strerror` of the OSError `os.mkdir`
      raises, None when it succeeds. */
  function CheckedWorkingDir(wd: string, analysisLabel: string, fs: FileSys.FileSystem, mkdirError: Option<string>): DirCheck {
    if !fs.Exists(wd) then DirCheck(None, [(WD_NON_EXISTENT, [wd])], fs)
    else if !fs.IsDir(wd) then DirCheck(None, [(WD_NOT_DIR, [wd])], fs)
    else
      var caseDir := FileSys.Join(wd, analysisLabel);
      if fs.Exists(caseDir) && !fs.IsDir(caseDir) then DirCheck(None, [(WD_NAME_CONFLICT, [wd])], fs)
      else if fs.Exists(caseDir) then DirCheck(Some(caseDir), [], fs)
      else if mkdirError.Some? then DirCheck(None, [(CD_CREATE_ERROR, [mkdirError.value])], fs)
      else DirCheck(Some(caseDir), [], fs.(dirs := fs.dirs + {caseDir}))
  }

  /** A case directory comes back exactly when no error is recorded, and
      then it is the label's directory inside the working directory and
      exists as a directory; at most one error is recorded, and its id
      names the first check that failed; only a created case directory
      changes the file system. */
  lemma CheckedWorkingDirSpec(wd: string, analysisLabel: string, fs: FileSys.FileSystem, mkdirError: Option<string>)
    ensures var r := CheckedWorkingDir(wd, analysisLabel, fs, mkdirError);
      && (r.caseDir.Some? <==> r.errors == [])
      && |r.errors| <= 1
      && (r.caseDir.Some? ==>
            && fs.IsDir(wd)
            && r.caseDir.value == FileSys.Join(wd, analysisLabel)
            && r.fs.IsDir(r.caseDir.value)
            && r.fs == fs.(dirs := fs.dirs + {r.caseDir.value}))
      && (r.caseDir.None? ==> r.fs == fs)
      && (!fs.Exists(wd) ==> r.errors == [(WD_NON_EXISTENT, [wd])])
      && (fs.Exists(wd) && !fs.IsDir(wd) ==> r.errors == [(WD_NOT_DIR, [wd])])
      && (fs.IsDir(wd) && r.errors != [] ==>
            r.errors[0].0 == (if fs.Exists(FileSys.Join(wd, analysisLabel)) then WD_NAME_CONFLICT else CD_CREATE_ERROR))
  {
  }

  /** Each error `_check_working_dir` records can be listed. */
  lemma CheckedWorkingDirPrintable(wd: string, analysisLabel: string, fs: FileSys.FileSystem, mkdirError: Option<string>)
    ensures forall e :: e in CheckedWorkingDir(wd, analysisLabel, fs, mkdirError).errors ==> Printable(ERR_LOOKUP, e)
  {
    WdNonExistentTemplate(wd);
    WdNotDirTemplate(wd);
    WdNameConflictTemplate(wd);
    if mkdirError.Some? {
      CdCreateErrorTemplate(mkdirError.value);
    }
  }

  /** `_check_working_dir` as it runs: the errors go to `status`, and a
      created case directory is added to the file system it returns. */
  method CheckWorkingDir(status: Status, wd: string, analysisLabel: string, fs: FileSys.FileSystem, mkdirError: Option<string>)
    returns (caseDir: Option<string>, fs': FileSys.FileSystem)
    modifies status`success, status`errorList
    ensures var r := CheckedWorkingDir(wd, analysisLabel, fs, mkdirError);
      && caseDir == r.caseDir && fs' == r.fs
      && status.errorList == old(status.errorList) + r.errors
      && status.success == (old(status.success) && r.errors == [])
    ensures old(status.Valid()) ==> status.Valid()
  {
    fs' := fs;
    if !fs.Exists(wd) {
      status.Error(WD_NON_EXISTENT, [wd]);
      return None, fs';
    }
    if !fs.IsDir(wd) {
      status.Error(WD_NOT_DIR, [wd]);
      return None, fs';
    }
    var dir := FileSys.Join(wd, analysisLabel);
    if fs.Exists(dir) && !fs.IsDir(dir) {
      status.Error(WD_NAME_CONFLICT, [wd]);
      return None, fs';
    }
    if !fs.Exists(dir) {
      if mkdirError.Some? {
        status.Error(CD_CREATE_ERROR, [mkdirError.value]);
        return None, fs';
      }
      fs' := fs.(dirs := fs.dirs + {dir});
    }
    caseDir := Some(dir);
  }

  /** In `run` the working-directory check comes before the analysis
      check; every error the two record has its template in `err_lookup`,
      so the listing prints one line for each of them, in that order. */
  lemma ChecksAreListed(wd: string, analysisLabel: string, fs: FileSys.FileSystem, mkdirError: Option<string>,
                        hasMesh: bool, freeText: Option<string>)
    ensures var errors := CheckedWorkingDir(wd, analysisLabel, fs, mkdirError).errors + AnalysisErrors(hasMesh, freeText);
      && ErrorLines(ERR_LOOKUP, errors).failure.None?
      && |ErrorLines(ERR_LOOKUP, errors).lines| == |errors|
  {
    var errors := CheckedWorkingDir(wd, analysisLabel, fs, mkdirError).errors + AnalysisErrors(hasMesh, freeText);
    CheckedWorkingDirPrintable(wd, analysisLabel, fs, mkdirError);
    AnalysisErrorsPrintable(hasMesh, freeText);
    assert forall i :: 0 <= i < |errors| ==> errors[i] in CheckedWorkingDir(wd, analysisLabel, fs, mkdirError).errors || errors[i] in AnalysisErrors(hasMesh, freeText);
    ErrorLinesComplete(ERR_LOOKUP, errors);
    ErrorLinesSpec(ERR_LOOKUP, errors);
  }
}
