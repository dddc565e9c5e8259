/** `runJestAgainstGeneratedCode` (src/validators/generatedCodeJestValidator.js):
    compile the generated code to JavaScript, stop on a blocking diagnostic,
    otherwise write the module and the predefined test (its placeholder
    `require` pointed at the module) into a fresh directory, run Jest, read
    its verdict, and remove the directory whatever happened. */
module GeneratedCodeValidator {
  import opened Maybe
  import opened Text
  import opened Compiler
  import opened Diagnostics
  import opened JestReport
  import opened Workspaces
  import RequireRewrite

  /** `{ success, message, details? }` */
  datatype GenVerdict = GenVerdict(success: bool, message: string, details: Option<string>)

  /** Reading the predefined test file: its text, or the error thrown. */
  datatype FileRead = Read(text: string) | ReadFailed(error: JsError)

  const CompileFailurePrefix := "TypeScript compilation " + "of generated code failed:\n"
  const NoResultsMessage := "Jest did not create an output " + "results file. "
                            + "This often indicates a critical " + "Jest setup error "
                            + "or an unhandled exception within Jest."
  const NoTestsMessage := "Jest ran 0 tests. "
                          + "Ensure test files are correctly " + "picked up and tests are defined."
  const NoDetailsText := "No specific failure messages " + "reported by Jest. "
                         + "Check for critical errors in test " + "suite or generated code."
  const ModuleFile := "codeUnderTest.js"
  const TestSuiteFile := "testSuite.test.js"

  // ---------------------------------------------------------------------
  // File names

  function SourceFileName(isReactCode: bool): string {
    if isReactCode then "codeUnderTest.tsx" else "codeUnderTest.ts"
  }

  /** The name of the transpiled module: a final `.ts` or `.tsx` becomes `.js`. */
  function TranspiledName(name: string): (r: string)
    ensures EndsWith(name, ".ts") ==> r == name[..|name| - 3] + ".js"
    ensures !EndsWith(name, ".ts") && EndsWith(name, ".tsx") ==> r == name[..|name| - 4] + ".js"
    ensures !EndsWith(name, ".ts") && !EndsWith(name, ".tsx") ==> r == name
  {
    if EndsWith(name, ".ts") then name[..|name| - 3] + ".js"
    else if EndsWith(name, ".tsx") then name[..|name| - 4] + ".js"
    else name
  }

  /** Whichever source name the React flag picks, the module written is
      `codeUnderTest.js`. */
  lemma ModuleFileAlwaysJs(isReactCode: bool)
    ensures TranspiledName(SourceFileName(isReactCode)) == ModuleFile
  {
    if isReactCode {
      assert "codeUnderTest.tsx"[13..] == ".tsx";
      assert !EndsWith("codeUnderTest.tsx", ".ts");
      assert "codeUnderTest.tsx"[..13] + ".js" == ModuleFile;
    } else {
      assert "codeUnderTest.ts"[13..] == ".ts";
      assert "codeUnderTest.ts"[..13] + ".js" == ModuleFile;
    }
  }

  // ---------------------------------------------------------------------
  // Compilation

  /** The transpile request: the generated code alone, diagnostics not asked for. */
  function GenRequest(code: string, isReactCode: bool): TranspileRequest {
    TranspileRequest(code, OptionsFor(isReactCode), false)
  }

  /** The early return on blocking diagnostics, if there is one. */
  function CompileFailure(ds: seq<Diag>): Option<GenVerdict> {
    var critical := Critical(ds);
    if |critical| > 0 then
      Some(GenVerdict(false, CompileFailurePrefix + Join(FlattenAllOneLevel(critical), "\n"), None))
    else None
  }

  // ---------------------------------------------------------------------
  // The verdict

  /** `Test: <ancestors joined by " > "> > <title>` and the cleaned messages. */
  function EntryText(a: Assertion): string {
    "Test: " + Join(a.ancestorTitles, " > ") + " > " + a.title + "\n" + CleanMessage(a)
  }

  function Entries(xs: seq<Assertion>): (r: seq<string>)
    ensures |r| == |xs|
    ensures forall i :: 0 <= i < |xs| ==> r[i] == EntryText(xs[i])
  {
    seq(|xs|, i requires 0 <= i < |xs| => EntryText(xs[i]))
  }

  /** The details: the joined entries, or the fixed fallback text when they are empty. */
  function Details(failureMessages: string): string {
    if failureMessages != "" then failureMessages else NoDetailsText
  }

  function PassedMessage(total: nat): string {
    "All " + NatToString(total) + " predefined tests passed against the generated code."
  }

  function FailedSummary(r: Report): string {
    "Jest tests failed. " + NatToString(r.numFailedTests) + "/" + NatToString(r.numTotalTests)
    + " predefined tests failed."
  }

  /** The ladder on a parsed report: no tests, success, failure. */
  function ReportVerdict(r: Report): GenVerdict {
    if r.numTotalTests == 0 then GenVerdict(false, NoTestsMessage, None)
    else if r.success then GenVerdict(true, PassedMessage(r.numTotalTests), None)
    else GenVerdict(false, FailedSummary(r),
                    Some(Details(Join(Entries(FailedAssertions(r.testResults)), EntrySeparator))))
  }

  /** The `catch` block. */
  function CriticalVerdict(e: JsError): GenVerdict {
    GenVerdict(false, CriticalPrefix + e.message, Some(e.stack))
  }

  /** The verdict on whatever Jest left behind. */
  function OutcomeVerdict(o: JestOutcome): GenVerdict {
    match o
    case Threw(e) => CriticalVerdict(e)
    case Finished(Missing, _) => GenVerdict(false, NoResultsMessage, None)
    case Finished(Malformed(e), _) => CriticalVerdict(e)
    case Finished(Parsed(r), _) => ReportVerdict(r)
  }

  /** The two files Jest is shown. */
  function GenFiles(jsCode: string, testCode: string): map<string, string> {
    map[ModuleFile := jsCode, TestSuiteFile := RequireRewrite.RewriteRequires(testCode)]
  }

  /** `runJestAgainstGeneratedCode(generatedCode, path, isReactCode)`, given
      the compiler, the test file read from `path`, and how Jest behaves on
      the files it is shown. */
  function GenCheck(code: string, testFile: FileRead, isReactCode: bool,
                    transpile: TranspileRequest -> TranspileOutput,
                    run: map<string, string> -> JestOutcome): GenVerdict
  {
    var out := transpile(GenRequest(code, isReactCode));
    match CompileFailure(out.diagnostics)
    case Some(v) => v
    case None =>
      match testFile
      case ReadFailed(e) => CriticalVerdict(e)
      case Read(text) => OutcomeVerdict(run(GenFiles(out.outputText, text)))
  }

  /** What happens to the directory. */
  ghost function GenLog(code: string, testFile: FileRead, isReactCode: bool,
                        transpile: TranspileRequest -> TranspileOutput): seq<Event>
  {
    var out := transpile(GenRequest(code, isReactCode));
    if CompileFailure(out.diagnostics).Some? then [Created, Removed]
    else match testFile
      case ReadFailed(_) => [Created, Wrote(ModuleFile, out.outputText), Removed]
      case Read(text) =>
        [Created, Wrote(ModuleFile, out.outputText),
         Wrote(TestSuiteFile, RequireRewrite.RewriteRequires(text)),
         RanJest(GenFiles(out.outputText, text)), Removed]
  }

  // ---------------------------------------------------------------------
  // What the verdict says

  /** A blocking diagnostic (any code but 2792 and 2686) fails the check
      with the one-level-flattened messages, before any file is written
      and without running Jest; allow-listed diagnostics alone never fail it. */
  lemma CompileFailureFirst(code: string, testFile: FileRead, isReactCode: bool,
                            transpile: TranspileRequest -> TranspileOutput,
                            run: map<string, string> -> JestOutcome)
    ensures var ds := transpile(GenRequest(code, isReactCode)).diagnostics;
            var v := GenCheck(code, testFile, isReactCode, transpile, run);
            && ((exists i :: 0 <= i < |ds| && !IsSuppressed(ds[i]))
                ==> v == GenVerdict(false, CompileFailurePrefix + Join(FlattenAllOneLevel(Critical(ds)), "\n"), None)
                    && GenLog(code, testFile, isReactCode, transpile) == [Created, Removed])
            && ((forall i :: 0 <= i < |ds| ==> IsSuppressed(ds[i]))
                ==> CompileFailure(ds).None?)
  {
    var ds := transpile(GenRequest(code, isReactCode)).diagnostics;
    if exists i :: 0 <= i < |ds| && !IsSuppressed(ds[i]) {
      var i :| 0 <= i < |ds| && !IsSuppressed(ds[i]);
      assert ds[i] in Critical(ds);
    }
    if |Critical(ds)| > 0 {
      assert Critical(ds)[0] in Critical(ds);
    }
  }

  /** A missing results file gives the fixed message whatever else holds,
      before the results are read. */
  lemma MissingResultsFile(cf: CoverageFile)
    ensures OutcomeVerdict(Finished(Missing, cf)) == GenVerdict(false, NoResultsMessage, None)
  {
  }

  /** A report of zero tests fails even when it says `success`. */
  lemma ZeroTestsFail(r: Report, cf: CoverageFile)
    requires r.numTotalTests == 0
    ensures OutcomeVerdict(Finished(Parsed(r), cf)) == GenVerdict(false, NoTestsMessage, None)
  {
  }

  /** The check succeeds exactly when the code compiles, the test file is
      read, Jest leaves a parsed report with at least one test, and the
      report says `success`; the message then gives the test count. */
  lemma SuccessIff(code: string, testFile: FileRead, isReactCode: bool,
                   transpile: TranspileRequest -> TranspileOutput,
                   run: map<string, string> -> JestOutcome)
    ensures var out := transpile(GenRequest(code, isReactCode));
            var v := GenCheck(code, testFile, isReactCode, transpile, run);
            && (v.success
                <==> CompileFailure(out.diagnostics).None? && testFile.Read?
                     && var o := run(GenFiles(out.outputText, testFile.text));
                        o.Finished? && o.results.Parsed? && o.results.report.numTotalTests > 0
                        && o.results.report.success)
            && (v.success ==> exists n :: n > 0 && v.message == PassedMessage(n) && v.details.None?)
  {
    var out := transpile(GenRequest(code, isReactCode));
    var v := GenCheck(code, testFile, isReactCode, transpile, run);
    if v.success {
      var o := run(GenFiles(out.outputText, testFile.text));
      assert v.message == PassedMessage(o.results.report.numTotalTests);
    }
  }

  /** When tests ran and some failed, the message is the summary and the
      details list one entry per failed assertion, in suite order,
      separated by `---` lines; the fixed fallback text appears exactly
      when no assertion failed. */
  lemma FailureDetails(r: Report, cf: CoverageFile)
    requires r.numTotalTests > 0 && !r.success
    ensures var v := OutcomeVerdict(Finished(Parsed(r), cf));
            var failed := FailedAssertions(r.testResults);
            && !v.success && v.message == FailedSummary(r)
            && (failed != [] ==> v.details == Some(Join(Entries(failed), EntrySeparator)))
            && (v.details == Some(NoDetailsText) <==> failed == [])
  {
    var failed := FailedAssertions(r.testResults);
    if failed != [] {
      EntriesNotEmpty(failed);
    }
  }

  /** Joined entries start with `Test: `, so they are neither empty nor the fallback. */
  lemma EntriesNotEmpty(failed: seq<Assertion>)
    requires failed != []
    ensures var joined := Join(Entries(failed), EntrySeparator);
            joined != "" && joined != NoDetailsText
  {
    var joined := Join(Entries(failed), EntrySeparator);
    JoinStartsWithFirst(Entries(failed), EntrySeparator);
    EntryStartsWithTest(failed[0]);
    assert joined[0] == 'T';
    assert NoDetailsText[0] == 'N';
  }

  lemma EntryStartsWithTest(a: Assertion)
    ensures EntryText(a)[0] == 'T'
  {
    assert EntryText(a) == "Test: " + (Join(a.ancestorTitles, " > ") + " > " + a.title + "\n" + CleanMessage(a));
  }

  /** Every exception — from Jest, from parsing its results, from reading
      the test file — gives the critical-error prefix with the error's
      message and its stack as details. */
  lemma ErrorsAreCritical(e: JsError, cf: CoverageFile)
    ensures OutcomeVerdict(Threw(e)) == GenVerdict(false, CriticalPrefix + e.message, Some(e.stack))
    ensures OutcomeVerdict(Finished(Malformed(e), cf)) == OutcomeVerdict(Threw(e))
    ensures StartsWith(OutcomeVerdict(Threw(e)).message, CriticalPrefix)
  {
    StartsWithConcat(CriticalPrefix, e.message);
  }

  /** Jest sees the compiled module under its `.js` name and the test with
      its placeholder `require`s pointed at that module. */
  lemma JestSeesModuleAndTest(jsCode: string, testCode: string)
    ensures GenFiles(jsCode, testCode).Keys == {ModuleFile, TestSuiteFile}
    ensures GenFiles(jsCode, testCode)[ModuleFile] == jsCode
    ensures GenFiles(jsCode, testCode)[TestSuiteFile] == RequireRewrite.RewriteRequires(testCode)
  {
    assert ModuleFile[0] != TestSuiteFile[0];
  }

  /** The directory is created and removed in every case, and Jest runs at
      most once, only after both files are written. */
  lemma LogShape(code: string, testFile: FileRead, isReactCode: bool,
                 transpile: TranspileRequest -> TranspileOutput)
    ensures var log := GenLog(code, testFile, isReactCode, transpile);
            && |log| >= 2 && log[0] == Created && log[|log| - 1] == Removed
            && (forall i :: 0 <= i < |log| && log[i].RanJest? ==> i == 3 && log[1].Wrote? && log[2].Wrote?)
  {
  }

  // ---------------------------------------------------------------------
  // The procedure

  /** The `else` branch on failed tests. */
  method FailedVerdict(r: Report) returns (v: GenVerdict)
    requires r.numTotalTests > 0 && !r.success
    ensures v == ReportVerdict(r)
  {
    var failureMessages := Join(Entries(FailedAssertions(r.testResults)), EntrySeparator);
    var summary := FailedSummary(r);
    var details := if failureMessages != "" then failureMessages else NoDetailsText;
    v := GenVerdict(false, summary, Some(details));
  }

  /** The part of the `try` block after Jest has run. */
  method Interpret(o: JestOutcome) returns (v: GenVerdict)
    ensures v == OutcomeVerdict(o)
  {
    if o.Threw? {
      return CriticalVerdict(o.error);
    }
    if o.results.Missing? {
      return GenVerdict(false, NoResultsMessage, None);
    }
    if o.results.Malformed? {
      return CriticalVerdict(o.results.error);
    }
    var results := o.results.report;
    if results.numTotalTests == 0 {
      return GenVerdict(false, NoTestsMessage, None);
    }
    if results.success {
      return GenVerdict(true, PassedMessage(results.numTotalTests), None);
    }
    v := FailedVerdict(results);
  }

  /** The compile step: options, the request and the early return. */
  method Compile(code: string, isReactCode: bool, transpile: TranspileRequest -> TranspileOutput)
    returns (out: TranspileOutput, failure: Option<GenVerdict>)
    ensures out == transpile(GenRequest(code, isReactCode))
    ensures failure == CompileFailure(out.diagnostics)
  {
    var compilerOptions := BaseOptions;
    if isReactCode {
      compilerOptions := compilerOptions.(jsx := Some(ReactJsx));
    }
    out := transpile(TranspileRequest(code, compilerOptions, false));
    failure := None;
    if |out.diagnostics| > 0 {
      var criticalDiagnostics := Critical(out.diagnostics);
      if |criticalDiagnostics| > 0 {
        var errors := Join(FlattenAllOneLevel(criticalDiagnostics), "\n");
        failure := Some(GenVerdict(false, CompileFailurePrefix + errors, None));
      }
    }
  }

  /** The rest of the `try` block once the code compiled. */
  method RunCompiled(jsCode: string, transpiledName: string, testFile: FileRead,
                     run: map<string, string> -> JestOutcome, ws: Workspace)
    returns (v: GenVerdict)
    requires ws.Valid() && ws.present && ws.files == map[] && transpiledName == ModuleFile
    modifies ws
    ensures ws.Valid() && ws.present
    ensures v == (match testFile
                  case ReadFailed(e) => CriticalVerdict(e)
                  case Read(text) => OutcomeVerdict(run(GenFiles(jsCode, text))))
    ensures ws.log == old(ws.log) + (match testFile
                  case ReadFailed(_) => [Wrote(ModuleFile, jsCode)]
                  case Read(text) =>
                    [Wrote(ModuleFile, jsCode), Wrote(TestSuiteFile, RequireRewrite.RewriteRequires(text)),
                     RanJest(GenFiles(jsCode, text))])
  {
    ws.Write(transpiledName, jsCode);
    if testFile.ReadFailed? {
      v := CriticalVerdict(testFile.error);
    } else {
      var testCode := RequireRewrite.RewriteRequires(testFile.text);
      ws.Write(TestSuiteFile, testCode);
      assert ws.files == GenFiles(jsCode, testFile.text);
      var outcome := ws.RunJest(run);
      v := Interpret(outcome);
    }
  }

  /** `runJestAgainstGeneratedCode`: the verdict is `GenCheck`'s, the
      directory goes through `GenLog`, and it is gone afterwards. */
  method RunJestAgainstGeneratedCode(code: string, testFile: FileRead, isReactCode: bool,
                                     transpile: TranspileRequest -> TranspileOutput,
                                     run: map<string, string> -> JestOutcome, ws: Workspace)
    returns (v: GenVerdict)
    requires ws.Valid() && !ws.present
    modifies ws
    ensures ws.Valid() && !ws.present
    ensures v == GenCheck(code, testFile, isReactCode, transpile, run)
    ensures ws.log == old(ws.log) + GenLog(code, testFile, isReactCode, transpile)
  {
    ws.Create();
    var generatedCodeFileName := SourceFileName(isReactCode);
    var transpiledName := TranspiledName(generatedCodeFileName);
    ModuleFileAlwaysJs(isReactCode);
    var out, failure := Compile(code, isReactCode, transpile);
    if failure.Some? {
      v := failure.value;
    } else {
      v := RunCompiled(out.outputText, transpiledName, testFile, run, ws);
    }
    ws.Teardown();
  }
}
