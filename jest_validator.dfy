/** `validateWithJest` (src/validators/jestValidator.js): write the code and
    the generated test into a fresh directory, point the test's relative
    imports at the code, run Jest there, turn its report into a verdict, and
    remove the directory whatever happened. */
module JestValidator {
  import opened Maybe
  import opened Text
  import opened JestReport
  import opened Workspaces
  import ImportRewrite
  import Ansi

  /** `{ success, message, coverage }` */
  datatype JestVerdict = JestVerdict(success: bool, message: string, coverage: Option<CoverageTotal>)

  /** The error thrown when Jest wrote no results file. */
  const NoOutputError := "Jest did not create an output file."
  const CrashHeader := "Jest test suite " + "failed to run due to a critical error "
                       + "(e.g., syntax or import error).\n\nDetails:\n"
  const UnknownSuiteError := "Unknown suite error"
  const NoCoverageNote := "\n(Coverage data not available.)"
  /** The specifier every relative import is pointed at. */
  const ImportPath := "./codeToTest"

  // ---------------------------------------------------------------------
  // File names

  /** The React heuristic over the test code. */
  predicate IsReactCode(testCode: string) {
    Contains(testCode, "React") || Contains(testCode, "@testing-library/react")
  }

  function Extension(isReact: bool): string {
    if isReact then ".tsx" else ".ts"
  }

  function CodeFileName(testCode: string): string {
    "codeToTest" + Extension(IsReactCode(testCode))
  }

  function TestFileName(testCode: string): string {
    "codeToTest.test" + Extension(IsReactCode(testCode))
  }

  /** The position of the last `.` of a file name, if any. */
  function LastDot(s: string): (r: Option<nat>)
    ensures r.Some? ==> r.value < |s| && s[r.value] == '.'
                        && forall k :: r.value < k < |s| ==> s[k] != '.'
    ensures r.None? ==> forall k :: 0 <= k < |s| ==> s[k] != '.'
    decreases |s|
  {
    if |s| == 0 then None
    else if s[|s| - 1] == '.' then Some(|s| - 1)
    else LastDot(s[..|s| - 1])
  }

  /** `path.parse(base).name`: the file name without its extension, the
      extension running from the last `.` that is not the first character;
      `..` has no extension. */
  function ParsedName(base: string): (name: string)
    ensures |name| <= |base| && base[..|name|] == name
    ensures var ext := base[|name|..];
            && (ext == [] || (ext[0] == '.' && forall k :: 0 < k < |ext| ==> ext[k] != '.'))
            && (ext == [] <==> base == ".." || forall k :: 0 < k < |base| ==> base[k] != '.')
  {
    if base == ".." then base
    else match LastDot(base)
      case Some(i) => if i == 0 then base else base[..i]
      case None => base
  }

  /** The two files the validator writes, by name. */
  function TestFiles(testCode: string, codeToTest: string): map<string, string> {
    map[CodeFileName(testCode) := codeToTest,
        TestFileName(testCode) := ImportRewrite.RewriteImports(testCode, ImportPath)]
  }

  /** Both files are `.tsx` exactly when the test code mentions `React` or
      `@testing-library/react`, and `.ts` otherwise. */
  lemma FileKind(testCode: string)
    ensures CodeFileName(testCode) == "codeToTest.tsx" && TestFileName(testCode) == "codeToTest.test.tsx"
            <==> Contains(testCode, "React") || Contains(testCode, "@testing-library/react")
    ensures CodeFileName(testCode) == "codeToTest.ts" && TestFileName(testCode) == "codeToTest.test.ts"
            <==> !Contains(testCode, "React") && !Contains(testCode, "@testing-library/react")
  {
    assert "codeToTest" + ".tsx" == "codeToTest.tsx";
    assert "codeToTest" + ".ts" == "codeToTest.ts";
    assert "codeToTest.test" + ".tsx" == "codeToTest.test.tsx";
    assert "codeToTest.test" + ".ts" == "codeToTest.test.ts";
  }

  /** The code file and the test file never collide, and the import path
      is the code file's name without its extension: a specifier the
      rewrite leaves as it is. */
  lemma ImportPathOfCodeFile(testCode: string)
    ensures CodeFileName(testCode) != TestFileName(testCode)
    ensures "./" + ParsedName(CodeFileName(testCode)) == ImportPath
    ensures ImportRewrite.ValidTarget(ImportPath)
  {
    FileNamesDiffer(IsReactCode(testCode));
    CodeFileParsedName(Extension(IsReactCode(testCode)));
    ImportPathValid();
  }

  /** The two names part at the character after `codeToTest.t`. */
  lemma FileNamesDiffer(isReact: bool)
    ensures "codeToTest" + Extension(isReact) != "codeToTest.test" + Extension(isReact)
  {
    var c := "codeToTest" + Extension(isReact);
    var t := "codeToTest.test" + Extension(isReact);
    assert c[12] == 's' && t[12] == 'e';
  }

  /** The import path holds only letters after its `./`. */
  lemma ImportPathValid()
    ensures ImportRewrite.ValidTarget(ImportPath)
  {
    forall k | 2 <= k < |ImportPath|
      ensures !ImportRewrite.IsStop(ImportPath[k])
    {
      assert 'A' <= ImportPath[k] <= 'z';
    }
  }

  /** The code file's name, whichever its extension, parses to `codeToTest`. */
  lemma CodeFileParsedName(e: string)
    requires e == ".ts" || e == ".tsx"
    ensures ParsedName("codeToTest" + e) == "codeToTest"
  {
    var c := "codeToTest" + e;
    assert c[10] == '.';
    assert forall k :: 10 < k < |c| ==> c[k] == e[k - 10];
    LastDotAt(c, 10);
    assert c[..10] == "codeToTest";
  }

  /** `LastDot` finds a dot after which no dot follows. */
  lemma {:induction false} LastDotAt(s: string, i: nat)
    requires i < |s| && s[i] == '.'
    requires forall k :: i < k < |s| ==> s[k] != '.'
    ensures LastDot(s) == Some(i)
    decreases |s|
  {
    if i < |s| - 1 {
      var t := s[..|s| - 1];
      assert forall k :: i < k < |t| ==> t[k] == s[k];
      LastDotAt(t, i);
    }
  }

  // ---------------------------------------------------------------------
  // The verdict

  /** What a crashed suite reports: its failure message, else its execution
      error's message, else a fixed text (empty texts count as absent). */
  function SuiteErrorText(s: Suite): string {
    if s.failureMessage != "" then s.failureMessage
    else if s.execError.Some? && s.execError.value != "" then s.execError.value
    else UnknownSuiteError
  }

  function SuccessMessage(total: nat, cov: Option<CoverageTotal>): string {
    "All " + NatToString(total) + " generated tests passed!"
    + (match LinesPct(cov) case Some(p) => " Coverage: " + p + "% lines." case None => "")
  }

  function FailureSummary(r: Report): string {
    "Jest tests failed. " + NatToString(r.numFailedTests) + "/" + NatToString(r.numTotalTests) + " failed."
  }

  /** Each failed assertion's messages, cleaned. */
  function FailureTexts(xs: seq<Assertion>): (r: seq<string>)
    ensures |r| == |xs|
    ensures forall i :: 0 <= i < |xs| ==> r[i] == CleanMessage(xs[i])
  {
    seq(|xs|, i requires 0 <= i < |xs| => CleanMessage(xs[i]))
  }

  /** Note appended to every failure message. */
  function CoverageNote(cov: Option<CoverageTotal>): string {
    match LinesPct(cov)
    case Some(p) => "\n(Coverage was " + p + "% lines.)"
    case None => NoCoverageNote
  }

  /** A run with no tests and at least one suite is a suite that crashed. */
  predicate SuiteCrashed(r: Report) {
    r.numTotalTests == 0 && |r.testResults| > 0
  }

  function FailureMessage(r: Report, cov: Option<CoverageTotal>): string {
    (if SuiteCrashed(r) then CrashHeader + Ansi.Strip(SuiteErrorText(r.testResults[0]))
     else FailureSummary(r) + "\n\n" + Join(FailureTexts(FailedAssertions(r.testResults)), EntrySeparator))
    + CoverageNote(cov)
  }

  /** The verdict on a parsed report and the coverage read beside it. */
  function ReportVerdict(r: Report, cov: Option<CoverageTotal>): JestVerdict {
    if r.success then JestVerdict(true, SuccessMessage(r.numTotalTests, cov), cov)
    else JestVerdict(false, FailureMessage(r, cov), cov)
  }

  /** What the `catch` block returns. */
  function CriticalVerdict(message: string): JestVerdict {
    JestVerdict(false, CriticalPrefix + message, None)
  }

  /** The verdict on whatever Jest left behind. */
  function OutcomeVerdict(o: JestOutcome): JestVerdict {
    match o
    case Threw(e) => CriticalVerdict(e.message)
    case Finished(Missing, _) => CriticalVerdict(NoOutputError)
    case Finished(Malformed(e), _) => CriticalVerdict(e.message)
    case Finished(Parsed(r), cf) => ReportVerdict(r, CoverageData(cf))
  }

  /** `validateWithJest(testCode, codeToTest)`, given how Jest behaves on
      the files it is shown. */
  function JestCheck(testCode: string, codeToTest: string, run: map<string, string> -> JestOutcome): JestVerdict {
    OutcomeVerdict(run(TestFiles(testCode, codeToTest)))
  }

  // ---------------------------------------------------------------------
  // What the verdict says

  /** A successful report gives `All N generated tests passed!`, followed by
      ` Coverage: P% lines.` exactly when line coverage is present (P as
      reported), and returns the coverage data it read. */
  lemma SuccessVerdict(r: Report, cf: CoverageFile)
    requires r.success
    ensures var v := OutcomeVerdict(Finished(Parsed(r), cf));
            var head := "All " + NatToString(r.numTotalTests) + " generated tests passed!";
            && v.success && v.coverage == CoverageData(cf)
            && StartsWith(v.message, head)
            && (forall p :: LinesPct(CoverageData(cf)) == Some(p) ==> v.message == head + (" Coverage: " + p + "% lines."))
            && (LinesPct(CoverageData(cf)).None? ==> v.message == head)
            && (LinesPct(CoverageData(cf)).Some? <==> cf.Summary? && cf.total.Some? && cf.total.value.lines.Some?)
  {
    var head := "All " + NatToString(r.numTotalTests) + " generated tests passed!";
    var m := OutcomeVerdict(Finished(Parsed(r), cf)).message;
    match LinesPct(CoverageData(cf))
    case Some(p) =>
      assert m == head + (" Coverage: " + p + "% lines.");
      StartsWithConcat(head, " Coverage: " + p + "% lines.");
    case None =>
      assert m == head + "";
      StartsWithConcat(head, "");
  }

  /** Every failure message built from a report ends with the coverage
      note: the percentage when line coverage was read, otherwise
      `(Coverage data not available.)`. */
  lemma FailureEndsWithCoverageNote(r: Report, cf: CoverageFile)
    requires !r.success
    ensures var v := OutcomeVerdict(Finished(Parsed(r), cf));
            && !v.success && v.coverage == CoverageData(cf)
            && EndsWith(v.message, CoverageNote(CoverageData(cf)))
            && (forall p :: LinesPct(CoverageData(cf)) == Some(p) ==> EndsWith(v.message, "\n(Coverage was " + p + "% lines.)"))
            && (LinesPct(CoverageData(cf)).None? ==> EndsWith(v.message, NoCoverageNote))
  {
    var cov := CoverageData(cf);
    var body := if SuiteCrashed(r) then CrashHeader + Ansi.Strip(SuiteErrorText(r.testResults[0]))
                else FailureSummary(r) + "\n\n" + Join(FailureTexts(FailedAssertions(r.testResults)), EntrySeparator);
    EndsWithConcat(body, CoverageNote(cov));
  }

  lemma EndsWithConcat(a: string, b: string)
    ensures EndsWith(a + b, b)
  {
    assert (a + b)[|a + b| - |b|..] == b;
  }

  /** When tests ran and some failed, the message is the summary
      `Jest tests failed. F/N failed.` and the cleaned messages of the failed
      assertions, in suite order, separated by `---` lines; an assertion
      appears exactly when its status is `failed` and its suite reported
      assertion results. */
  lemma AssertionFailureVerdict(r: Report, cf: CoverageFile, a: Assertion)
    requires !r.success && !SuiteCrashed(r)
    ensures var v := OutcomeVerdict(Finished(Parsed(r), cf));
            var failed := FailedAssertions(r.testResults);
            && v.message == FailureSummary(r) + "\n\n" + Join(FailureTexts(failed), EntrySeparator)
                            + CoverageNote(CoverageData(cf))
            && (a in failed <==> a.status == "failed"
                                 && (exists i :: 0 <= i < |r.testResults|
                                       && r.testResults[i].assertionResults.Some?
                                       && a in r.testResults[i].assertionResults.value))
  {
    FailedAssertionsMembers(r.testResults, a);
  }

  /** A failed run with no tests and a first suite reports that suite's
      crash: its failure message, else its execution error, else
      `Unknown suite error`, cleaned of control sequences. */
  lemma SuiteCrashVerdict(r: Report, cf: CoverageFile)
    requires !r.success && SuiteCrashed(r)
    ensures var v := OutcomeVerdict(Finished(Parsed(r), cf));
            var s := r.testResults[0];
            && !v.success
            && v.message == CrashHeader + Ansi.Strip(SuiteErrorText(s)) + CoverageNote(CoverageData(cf))
            && (s.failureMessage != "" ==> SuiteErrorText(s) == s.failureMessage)
            && (s.failureMessage == "" && s.execError.Some? && s.execError.value != ""
                ==> SuiteErrorText(s) == s.execError.value)
            && (s.failureMessage == "" && (s.execError.None? || s.execError.value == "")
                ==> SuiteErrorText(s) == UnknownSuiteError)
  {
  }

  /** The verdict carries the critical-error prefix and no coverage exactly
      when Jest did not leave a report that parses: it threw, wrote no
      results file, or wrote one that is not JSON. */
  lemma CriticalIffNoReport(o: JestOutcome)
    ensures var v := OutcomeVerdict(o);
            && (StartsWith(v.message, CriticalPrefix) <==> !(o.Finished? && o.results.Parsed?))
            && (!(o.Finished? && o.results.Parsed?) ==> !v.success && v.coverage == None)
            && (o.Finished? && o.results.Missing? ==> v.message == CriticalPrefix + NoOutputError)
  {
    if o.Finished? && o.results.Parsed? {
      ReportVerdictNotCritical(o.results.report, CoverageData(o.coverage));
    } else {
      var v := OutcomeVerdict(o);
      CriticalVerdictPrefix(v.message[|CriticalPrefix|..]);
    }
  }

  lemma ReportVerdictNotCritical(r: Report, cov: Option<CoverageTotal>)
    ensures !StartsWith(ReportVerdict(r, cov).message, CriticalPrefix)
  {
    var m := ReportVerdict(r, cov).message;
    if r.success {
      assert m[1] == 'l';
    } else {
      assert m[0] == 'J';
    }
    assert CriticalPrefix[0] == 'A' && CriticalPrefix[1] == ' ';
  }

  lemma CriticalVerdictPrefix(e: string)
    ensures StartsWith(CriticalVerdict(e).message, CriticalPrefix)
  {
    StartsWithConcat(CriticalPrefix, e);
  }

  /** Success requires a parsed report that says so; it is never claimed
      on an exception or a missing or unreadable results file. */
  lemma SuccessOnlyFromReport(testCode: string, codeToTest: string, run: map<string, string> -> JestOutcome)
    ensures var o := run(TestFiles(testCode, codeToTest));
            JestCheck(testCode, codeToTest, run).success
            <==> o.Finished? && o.results.Parsed? && o.results.report.success
  {
  }

  // ---------------------------------------------------------------------
  // The source as written

  /** The `ReferenceError` the suite-crash branch throws: it reads
      `testSuite`, a name bound only inside the later `reduce` callback. */
  const UnboundSuiteError := "testSuite is not defined"

  /** The verdict exactly as src/validators/jestValidator.js:107-116 is
      written: the crash branch throws, and the `catch` block answers. */
  function OutcomeVerdictAsWritten(o: JestOutcome): JestVerdict {
    match o
    case Finished(Parsed(r), _) =>
      if !r.success && SuiteCrashed(r) then CriticalVerdict(UnboundSuiteError)
      else OutcomeVerdict(o)
    case _ => OutcomeVerdict(o)
  }

  /** A suite that fails to load (a syntax error in the generated test)
      never has its failure message reported as written: the verdict is a
      critical error about `testSuite` and the coverage is dropped. The
      corrected verdict reports the suite's own message. */
  lemma CrashBranchAsWritten(r: Report, cf: CoverageFile)
    requires !r.success && SuiteCrashed(r)
    ensures OutcomeVerdictAsWritten(Finished(Parsed(r), cf))
         == JestVerdict(false, CriticalPrefix + UnboundSuiteError, None)
    ensures StartsWith(OutcomeVerdict(Finished(Parsed(r), cf)).message, CrashHeader)
    ensures OutcomeVerdict(Finished(Parsed(r), cf)) != OutcomeVerdictAsWritten(Finished(Parsed(r), cf))
  {
    var m := OutcomeVerdict(Finished(Parsed(r), cf)).message;
    var rest := Ansi.Strip(SuiteErrorText(r.testResults[0])) + CoverageNote(CoverageData(cf));
    assert m == CrashHeader + rest;
    StartsWithConcat(CrashHeader, rest);
    assert m[0] == 'J';
  }

  /** Apart from that branch the two agree. */
  lemma AsWrittenAgreesElsewhere(o: JestOutcome)
    requires !(o.Finished? && o.results.Parsed? && !o.results.report.success && SuiteCrashed(o.results.report))
    ensures OutcomeVerdictAsWritten(o) == OutcomeVerdict(o)
  {
  }

  // ---------------------------------------------------------------------
  // The procedure

  /** The branch on the report's `success` flag, building `message` and
      `failureMessage` step by step. */
  method BuildVerdict(r: Report, coverageData: Option<CoverageTotal>) returns (v: JestVerdict)
    ensures v == ReportVerdict(r, coverageData)
  {
    if r.success {
      var message := "All " + NatToString(r.numTotalTests) + " generated tests passed!";
      if coverageData.Some? && coverageData.value.lines.Some? {
        message := message + (" Coverage: " + coverageData.value.lines.value.pct + "% lines.");
      } else {
        message := message + "";
      }
      return JestVerdict(true, message, coverageData);
    }
    var failureMessage := "";
    if r.numTotalTests == 0 && |r.testResults| > 0 {
      failureMessage := Ansi.Strip(SuiteErrorText(r.testResults[0]));
      failureMessage := CrashHeader + failureMessage;
    } else {
      var individualFailureMessages := Join(FailureTexts(FailedAssertions(r.testResults)), EntrySeparator);
      var summary := FailureSummary(r);
      failureMessage := summary + "\n\n" + individualFailureMessages;
    }
    if coverageData.Some? && coverageData.value.lines.Some? {
      failureMessage := failureMessage + ("\n(Coverage was " + coverageData.value.lines.value.pct + "% lines.)");
    } else {
      failureMessage := failureMessage + NoCoverageNote;
    }
    v := JestVerdict(false, failureMessage, coverageData);
  }

  /** The `try` body after Jest has run, with the `catch` block answering
      for every error it throws. */
  method Interpret(o: JestOutcome) returns (v: JestVerdict)
    ensures v == OutcomeVerdict(o)
  {
    if o.Threw? {
      return CriticalVerdict(o.error.message);
    }
    if o.results.Missing? {
      return CriticalVerdict(NoOutputError);
    }
    if o.results.Malformed? {
      return CriticalVerdict(o.results.error.message);
    }
    var coverageData: Option<CoverageTotal> := None;
    if o.coverage.Summary? && o.coverage.total.Some? {
      coverageData := o.coverage.total;
    }
    v := BuildVerdict(o.results.report, coverageData);
  }

  /** `validateWithJest`: Jest sees exactly the code file and the rewritten
      test, the verdict is `JestCheck`'s, and the directory is gone
      afterwards. */
  method ValidateWithJest(testCode: string, codeToTest: string,
                          run: map<string, string> -> JestOutcome, ws: Workspace)
    returns (v: JestVerdict)
    requires ws.Valid() && !ws.present
    modifies ws
    ensures ws.Valid() && !ws.present
    ensures v == JestCheck(testCode, codeToTest, run)
    ensures ws.log == old(ws.log) + [
              Created,
              Wrote(CodeFileName(testCode), codeToTest),
              Wrote(TestFileName(testCode), ImportRewrite.RewriteImports(testCode, ImportPath)),
              RanJest(TestFiles(testCode, codeToTest)),
              Removed]
  {
    WriteInputs(testCode, codeToTest, ws);
    var outcome := ws.RunJest(run);
    v := Interpret(outcome);
    ws.Teardown();
  }

  /** The start of the `try` block: the directory, the code file and the
      rewritten test. */
  method WriteInputs(testCode: string, codeToTest: string, ws: Workspace)
    requires ws.Valid() && !ws.present
    modifies ws
    ensures ws.Valid() && ws.present && ws.files == TestFiles(testCode, codeToTest)
    ensures ws.log == old(ws.log) + [
              Created,
              Wrote(CodeFileName(testCode), codeToTest),
              Wrote(TestFileName(testCode), ImportRewrite.RewriteImports(testCode, ImportPath))]
  {
    ws.Create();
    var isReactCode := Contains(testCode, "React") || Contains(testCode, "@testing-library/react");
    var codeFileExt := if isReactCode then ".tsx" else ".ts";
    var codeFileName := "codeToTest" + codeFileExt;
    var testFileName := "codeToTest.test" + codeFileExt;
    ws.Write(codeFileName, codeToTest);
    ImportPathOfCodeFile(testCode);
    var importPathName := "./" + ParsedName(codeFileName);
    var finalTestCode := ImportRewrite.RewriteImports(testCode, importPathName);
    ws.Write(testFileName, finalTestCode);
  }
}
