/** Report containers of the FEM workbench, `Report.py`: three lists of
    messages (infos, warnings, errors) filled from a table of message
    templates, and their rendering as coloured text lines. */
module Report {
  import opened Wrappers
  import TextUtil

  const ERROR_COLOR: string := "red"
  const WARNING_COLOR: string := "yellow"
  const INFO_COLOR: string := "blue"

  /** The message templates, by key; `{}` marks where an argument goes. */
  const MSG_LOOKUP: map<string, string> := map[
    "wd_not_existent" := "Working directory {} doesn't exist.",
    "wd_not_directory" := "Working directory {} is not a directory.",
    "cd_not_directory" := "Case directory {} is not a directory.",
    "cd_not_created" := "Failed to creade case directory {}: {}",
    "elmersolver_not_found" := "ElmerSolver binary not found (required).",
    "elmergrid_not_found" := "ElmerGrid binary not found (required).",
    "elmer_failed" := "ElmerSolver failed with error code: ",
    "create_inp_failed" := "Failed to create input files: {}",
    "exec_solver_failed" := "Solver execution failed with exit code: {}",
    "mesh_missing" := "Mesh object missing.",
    "no_freetext" := "Analysis without FreeText not jet supported!",
    "freetext_empty" := "FreeText must not be empty."
  ]

  datatype Level = Info | Warning | Error

  /** The three message lists of a report. */
  datatype Messages = Messages(infos: seq<string>, warnings: seq<string>, errors: seq<string>)

  const NoMessages: Messages := Messages([], [], [])

  /** Why appending a message failed: an unknown key (ValueError), or a
      template with more fields than arguments (IndexError). */
  datatype ReportError = UnknownKey(key: string) | MissingArgument(key: string)

  function Count(m: Messages): nat {
    |m.infos| + |m.warnings| + |m.errors|
  }

  /** `isValid`: no errors. */
  predicate IsValidReport(m: Messages) {
    |m.errors| == 0
  }

  /** `isEmpty`: no messages at all. */
  predicate IsEmptyReport(m: Messages) {
    !(|m.infos| > 0 || |m.warnings| > 0 || |m.errors| > 0)
  }

  /** An empty report has no errors, and a report is empty exactly when it
      holds no message. */
  lemma EmptyReports(m: Messages)
    ensures IsEmptyReport(m) ==> IsValidReport(m)
    ensures IsEmptyReport(m) <==> Count(m) == 0
    ensures IsEmptyReport(NoMessages) && IsValidReport(NoMessages)
  {
  }

  /** `m` with `text` appended to the list of `level`. */
  function Added(m: Messages, level: Level, text: string): Messages {
    match level
    case Info => m.(infos := m.infos + [text])
    case Warning => m.(warnings := m.warnings + [text])
    case Error => m.(errors := m.errors + [text])
  }

  /** `a.extend(b)`: each of `b`'s lists appended to `a`'s. */
  function Concat(a: Messages, b: Messages): Messages {
    Messages(a.infos + b.infos, a.warnings + b.warnings, a.errors + b.errors)
  }

  /** The reports of several steps, collected in order. */
  function ConcatAll(ms: seq<Messages>): Messages {
    if |ms| == 0 then NoMessages else Concat(ConcatAll(ms[..|ms| - 1]), ms[|ms| - 1])
  }

  /** Appending a message adds one to its own list and nothing elsewhere;
      only an error makes a report invalid. */
  lemma AddedSpec(m: Messages, level: Level, text: string)
    ensures Count(Added(m, level, text)) == Count(m) + 1
    ensures !IsEmptyReport(Added(m, level, text))
    ensures IsValidReport(Added(m, level, text)) <==> IsValidReport(m) && level != Error
    ensures level != Info ==> Added(m, level, text).infos == m.infos
    ensures level != Warning ==> Added(m, level, text).warnings == m.warnings
    ensures level != Error ==> Added(m, level, text).errors == m.errors
  {
  }

  lemma ConcatSpec(a: Messages, b: Messages)
    ensures Count(Concat(a, b)) == Count(a) + Count(b)
    ensures IsValidReport(Concat(a, b)) <==> IsValidReport(a) && IsValidReport(b)
    ensures IsEmptyReport(Concat(a, b)) <==> IsEmptyReport(a) && IsEmptyReport(b)
    ensures Concat(a, NoMessages) == a && Concat(NoMessages, b) == b
  {
  }

  lemma ConcatAssociative(a: Messages, b: Messages, c: Messages)
    ensures Concat(Concat(a, b), c) == Concat(a, Concat(b, c))
  {
  }

  /** Collecting reports loses no error: the result is valid exactly when
      every report is. */
  lemma {:induction false} ConcatAllValid(ms: seq<Messages>)
    ensures IsValidReport(ConcatAll(ms)) <==> forall i :: 0 <= i < |ms| ==> IsValidReport(ms[i])
    ensures Count(ConcatAll(ms)) == CountAll(ms)
  {
    if |ms| > 0 {
      var init := ms[..|ms| - 1];
      ConcatAllValid(init);
      ConcatSpec(ConcatAll(init), ms[|ms| - 1]);
      assert forall i :: 0 <= i < |init| ==> init[i] == ms[i];
    }
  }

  /** Collecting one more report appends it to what was collected. */
  lemma ConcatAllSnoc(ms: seq<Messages>, m: Messages)
    ensures ConcatAll(ms + [m]) == Concat(ConcatAll(ms), m)
  {
    assert (ms + [m])[..|ms|] == ms;
  }

  /** Collecting a single report yields that report. */
  lemma ConcatAllSingle(m: Messages)
    ensures ConcatAll([m]) == m
  {
    assert [m][..0] == [];
    ConcatSpec(NoMessages, m);
  }

  function CountAll(ms: seq<Messages>): nat {
    if |ms| == 0 then 0 else CountAll(ms[..|ms| - 1]) + Count(ms[|ms| - 1])
  }

  /** `MSG_LOOKUP[key].format(*args)`: the key is looked up first, then the
      template is filled. */
  function FormatMessage(key: string, args: seq<string>): Result<string, ReportError> {
    if key !in MSG_LOOKUP then Failure(UnknownKey(key))
    else match TextUtil.Format(MSG_LOOKUP[key], args)
      case None => Failure(MissingArgument(key))
      case Some(text) => Success(text)
  }

  /** A message can be built exactly when its key is known and enough
      arguments are given for the template's fields. */
  lemma FormatMessageSucceedsIff(key: string, args: seq<string>)
    ensures FormatMessage(key, args).Success? <==>
      key in MSG_LOOKUP && TextUtil.Placeholders(MSG_LOOKUP[key]) <= |args|
    ensures key !in MSG_LOOKUP ==> FormatMessage(key, args) == Failure(UnknownKey(key))
  {
    if key in MSG_LOOKUP {
      TextUtil.FormatDefinedIff(MSG_LOOKUP[key], args);
    }
  }

  /** A template without fields is the message itself. */
  lemma FormatMessageLiteral(key: string, args: seq<string>)
    requires key in MSG_LOOKUP && TextUtil.Placeholders(MSG_LOOKUP[key]) == 0
    ensures FormatMessage(key, args) == Success(MSG_LOOKUP[key])
  {
    TextUtil.FormatLiteral(MSG_LOOKUP[key], args);
  }

  /** `Data`: a report whose lists are appended to in place. */
  class Data {
    var infos: seq<string>
    var warnings: seq<string>
    var errors: seq<string>

    constructor ()
      ensures Value() == NoMessages
      ensures IsEmpty() && IsValid()
    {
      infos := [];
      warnings := [];
      errors := [];
    }

    function Value(): Messages
      reads this
    {
      Messages(infos, warnings, errors)
    }

    predicate IsValid()
      reads this
    {
      |errors| == 0
    }

    predicate IsEmpty()
      reads this
    {
      !(|infos| > 0 || |warnings| > 0 || |errors| > 0)
    }

    /** `extend(report)`; the argument may be this report itself. */
    method Extend(report: Data)
      modifies this
      ensures Value() == Concat(old(Value()), old(report.Value()))
    {
      var i, w, e := report.infos, report.warnings, report.errors;
      infos := infos + i;
      warnings := warnings + w;
      errors := errors + e;
    }

    method AppendInfo(info: string, args: seq<string>) returns (r: Outcome<ReportError>)
      modifies this
      ensures r.Fail? <==> FormatMessage(info, args).Failure?
      ensures r.Fail? ==> r.error == FormatMessage(info, args).error && Value() == old(Value())
      ensures r.Pass? ==> Value() == Added(old(Value()), Info, FormatMessage(info, args).value)
    {
      r := Append(Info, info, args);
    }

    method AppendWarning(warning: string, args: seq<string>) returns (r: Outcome<ReportError>)
      modifies this
      ensures r.Fail? <==> FormatMessage(warning, args).Failure?
      ensures r.Fail? ==> r.error == FormatMessage(warning, args).error && Value() == old(Value())
      ensures r.Pass? ==> Value() == Added(old(Value()), Warning, FormatMessage(warning, args).value)
    {
      r := Append(Warning, warning, args);
    }

    method AppendError(error: string, args: seq<string>) returns (r: Outcome<ReportError>)
      modifies this
      ensures r.Fail? <==> FormatMessage(error, args).Failure?
      ensures r.Fail? ==> r.error == FormatMessage(error, args).error && Value() == old(Value())
      ensures r.Pass? ==> Value() == Added(old(Value()), Error, FormatMessage(error, args).value)
    {
      r := Append(Error, error, args);
    }

    /** `_append`: an unknown key or a missing argument raises before any
        list is touched. */
    method Append(level: Level, msgKey: string, args: seq<string>) returns (r: Outcome<ReportError>)
      modifies this
      ensures r.Fail? <==> FormatMessage(msgKey, args).Failure?
      ensures r.Fail? ==> r.error == FormatMessage(msgKey, args).error && Value() == old(Value())
      ensures r.Pass? ==> Value() == Added(old(Value()), level, FormatMessage(msgKey, args).value)
    {
      if msgKey !in MSG_LOOKUP {
        return Fail(UnknownKey(msgKey));
      }
      var textFormatStr := MSG_LOOKUP[msgKey];
      var text := TextUtil.Format(textFormatStr, args);
      if text.None? {
        return Fail(MissingArgument(msgKey));
      }
      match level {
        case Info => infos := infos + [text.value];
        case Warning => warnings := warnings + [text.value];
        case Error => errors := errors + [text.value];
      }
      r := Pass;
    }
  }

  // ---------------------------------------------------------------------
  // Rendering, `ReportDialog._getText`
  // ---------------------------------------------------------------------

  /** `_getColoredLine` */
  function ColoredLine(text: string, color: string): string {
    "<font color=\"" + color + "\">" + text + "</font>"
  }

  /** `text` followed by one coloured line per message, each ended by a newline. */
  function LinesAfter(text: string, msgs: seq<string>, color: string): string {
    if |msgs| == 0 then text
    else LinesAfter(text, msgs[..|msgs| - 1], color) + ColoredLine(msgs[|msgs| - 1], color) + "\n"
  }

  function Lines(msgs: seq<string>, color: string): string {
    LinesAfter("", msgs, color)
  }

  /** The dialog's text: all infos, then all warnings, then all errors. */
  function Text(m: Messages): string {
    LinesAfter(LinesAfter(LinesAfter("", m.infos, INFO_COLOR), m.warnings, WARNING_COLOR), m.errors, ERROR_COLOR)
  }

  lemma {:induction false} LinesAfterPrefix(text: string, msgs: seq<string>, color: string)
    ensures LinesAfter(text, msgs, color) == text + Lines(msgs, color)
  {
    if |msgs| > 0 {
      LinesAfterPrefix(text, msgs[..|msgs| - 1], color);
    }
  }

  /** The text is the infos' lines, then the warnings', then the errors'. */
  lemma TextInOrder(m: Messages)
    ensures Text(m) == Lines(m.infos, INFO_COLOR) + Lines(m.warnings, WARNING_COLOR) + Lines(m.errors, ERROR_COLOR)
  {
    LinesAfterPrefix(Lines(m.infos, INFO_COLOR), m.warnings, WARNING_COLOR);
    LinesAfterPrefix(LinesAfter(Lines(m.infos, INFO_COLOR), m.warnings, WARNING_COLOR), m.errors, ERROR_COLOR);
  }

  predicate SingleLine(msgs: seq<string>) {
    forall i :: 0 <= i < |msgs| ==> '\n' !in msgs[i]
  }

  lemma ColoredLineSingle(text: string, color: string)
    requires '\n' !in text && '\n' !in color
    ensures TextUtil.Occurrences(ColoredLine(text, color), '\n') == 0
  {
    TextUtil.OccurrencesAbsent(ColoredLine(text, color), '\n');
  }

  lemma {:induction false} LinesAfterCount(text: string, msgs: seq<string>, color: string)
    requires SingleLine(msgs) && '\n' !in color
    ensures TextUtil.Occurrences(LinesAfter(text, msgs, color), '\n') == TextUtil.Occurrences(text, '\n') + |msgs|
  {
    if |msgs| > 0 {
      var init := msgs[..|msgs| - 1];
      assert SingleLine(init) by {
        assert forall i :: 0 <= i < |init| ==> init[i] == msgs[i];
      }
      LinesAfterCount(text, init, color);
      var prev := LinesAfter(text, init, color);
      var line := ColoredLine(msgs[|msgs| - 1], color);
      ColoredLineSingle(msgs[|msgs| - 1], color);
      TextUtil.OccurrencesConcat(prev, line, '\n');
      TextUtil.OccurrencesConcat(prev + line, "\n", '\n');
    }
  }

  /** One line per message: when no message spans several lines, the text
      has exactly as many newlines as the report has messages. */
  lemma TextLineCount(m: Messages)
    requires SingleLine(m.infos) && SingleLine(m.warnings) && SingleLine(m.errors)
    ensures TextUtil.Occurrences(Text(m), '\n') == Count(m)
  {
    LinesAfterCount("", m.infos, INFO_COLOR);
    LinesAfterCount(LinesAfter("", m.infos, INFO_COLOR), m.warnings, WARNING_COLOR);
    LinesAfterCount(LinesAfter(LinesAfter("", m.infos, INFO_COLOR), m.warnings, WARNING_COLOR), m.errors, ERROR_COLOR);
  }

  /** `_getText`: accumulates the lines in three loops. */
  method GetText(report: Data) returns (text: string)
    ensures text == Text(report.Value())
  {
    text := "";
    var i := 0;
    while i < |report.infos|
      invariant 0 <= i <= |report.infos|
      invariant text == LinesAfter("", report.infos[..i], INFO_COLOR)
    {
      assert report.infos[..i + 1][..i] == report.infos[..i];
      text := text + ColoredLine(report.infos[i], INFO_COLOR) + "\n";
      i := i + 1;
    }
    assert report.infos[..i] == report.infos;
    ghost var afterInfos := text;
    i := 0;
    while i < |report.warnings|
      invariant 0 <= i <= |report.warnings|
      invariant text == LinesAfter(afterInfos, report.warnings[..i], WARNING_COLOR)
    {
      assert report.warnings[..i + 1][..i] == report.warnings[..i];
      text := text + ColoredLine(report.warnings[i], WARNING_COLOR) + "\n";
      i := i + 1;
    }
    assert report.warnings[..i] == report.warnings;
    ghost var afterWarnings := text;
    i := 0;
    while i < |report.errors|
      invariant 0 <= i <= |report.errors|
      invariant text == LinesAfter(afterWarnings, report.errors[..i], ERROR_COLOR)
    {
      assert report.errors[..i + 1][..i] == report.errors[..i];
      text := text + ColoredLine(report.errors[i], ERROR_COLOR) + "\n";
      i := i + 1;
    }
    assert report.errors[..i] == report.errors;
  }
}
