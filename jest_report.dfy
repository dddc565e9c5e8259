/** What a Jest run leaves behind, as the two Jest validators read it: the
    JSON results file (`--json --outputFile`), the optional coverage summary
    (`coverage-summary.json`), or an exception from `jest.runCLI`. File
    contents are given already parsed; a file that does not parse is its own
    case, because `JSON.parse` throws on it. */
module JestReport {
  import opened Maybe
  import opened Text
  import Ansi

  /** A thrown JavaScript error: its `message` and its `stack`. */
  datatype JsError = JsError(message: string, stack: string)

  /** One entry of a suite's `assertionResults`. */
  datatype Assertion = Assertion(
    status: string,
    title: string,
    ancestorTitles: seq<string>,
    failureMessages: seq<string>)

  /** One entry of `testResults`. `failureMessage` is `""` when Jest left it
      null; `execError` is the `testExecError.message`, when there is one. */
  datatype Suite = Suite(
    assertionResults: Option<seq<Assertion>>,
    failureMessage: string,
    execError: Option<string>)

  datatype Report = Report(
    success: bool,
    numTotalTests: nat,
    numFailedTests: nat,
    testResults: seq<Suite>)

  /** `total.lines`, of which only `pct` is read; the percentage is copied
      into messages as JavaScript prints it, so it is kept as that text. */
  datatype LineCoverage = LineCoverage(pct: string)

  /** `coverageSummary.total` (`lines` may be absent). */
  datatype CoverageTotal = CoverageTotal(lines: Option<LineCoverage>)

  /** The coverage summary file: not written, written but unreadable or not
      JSON, or parsed (its `total` possibly absent). */
  datatype CoverageFile = NoSummary | BadSummary | Summary(total: Option<CoverageTotal>)

  /** The results file: not written, not JSON, or parsed. */
  datatype ResultsFile = Missing | Malformed(error: JsError) | Parsed(report: Report)

  /** What `await jest.runCLI(...)` leads to. */
  datatype JestOutcome =
    | Threw(error: JsError)
    | Finished(results: ResultsFile, coverage: CoverageFile)

  const FailedStatus := "failed"
  /** What both validators' `catch` blocks put before the error message.
      Long texts are written as concatenations of short literals, which the
      verifier can read character by character. */
  const CriticalPrefix := "A critical error " + "occurred during Jest execution: "
  /** What separates the rendered failures in both validators. */
  const EntrySeparator := "\n\n---\n\n"

  predicate IsFailed(a: Assertion) {
    a.status == FailedStatus
  }

  /** The assertions whose status is `failed`, in order. */
  function FilterFailed(xs: seq<Assertion>): (r: seq<Assertion>)
    ensures forall a :: a in r <==> a in xs && IsFailed(a)
    ensures |r| <= |xs|
    decreases |xs|
  {
    if |xs| == 0 then []
    else (if IsFailed(xs[0]) then [xs[0]] else []) + FilterFailed(xs[1..])
  }

  /** What one suite contributes to the fold: nothing without `assertionResults`. */
  function SuiteFailures(s: Suite): (r: seq<Assertion>)
    ensures s.assertionResults.None? ==> r == []
    ensures forall a :: a in r <==> s.assertionResults.Some? && a in s.assertionResults.value && IsFailed(a)
  {
    if s.assertionResults.None? then [] else FilterFailed(s.assertionResults.value)
  }

  /** The `reduce` over `testResults` with `acc.concat(suiteFailures)`. */
  function FailedAssertions(suites: seq<Suite>): (r: seq<Assertion>)
    ensures forall a :: a in r ==> IsFailed(a)
    decreases |suites|
  {
    if |suites| == 0 then [] else SuiteFailures(suites[0]) + FailedAssertions(suites[1..])
  }

  /** An assertion reaches the failure report exactly when it failed and
      belongs to a suite that has `assertionResults`. */
  lemma {:induction false} FailedAssertionsMembers(suites: seq<Suite>, a: Assertion)
    ensures a in FailedAssertions(suites)
        <==> IsFailed(a) && exists i :: 0 <= i < |suites| && suites[i].assertionResults.Some?
                                     && a in suites[i].assertionResults.value
    decreases |suites|
  {
    if |suites| > 0 {
      FailedAssertionsMembers(suites[1..], a);
      if a in FailedAssertions(suites[1..]) {
        var i :| 0 <= i < |suites[1..]| && suites[1..][i].assertionResults.Some?
                 && a in suites[1..][i].assertionResults.value;
        assert suites[i + 1] == suites[1..][i];
      }
      if IsFailed(a) && exists i :: 0 <= i < |suites| && suites[i].assertionResults.Some?
                                   && a in suites[i].assertionResults.value {
        var i :| 0 <= i < |suites| && suites[i].assertionResults.Some?
                 && a in suites[i].assertionResults.value;
        if i > 0 {
          assert suites[1..][i - 1] == suites[i];
        }
      }
    }
  }

  /** The fold keeps suite order: it distributes over concatenation. */
  lemma {:induction false} FailedAssertionsConcat(a: seq<Suite>, b: seq<Suite>)
    ensures FailedAssertions(a + b) == FailedAssertions(a) + FailedAssertions(b)
    decreases |a|
  {
    if |a| == 0 {
      assert a + b == b;
    } else {
      assert (a + b)[1..] == a[1..] + b;
      FailedAssertionsConcat(a[1..], b);
    }
  }

  /** A suite without `assertionResults` (one that crashed) is skipped
      wherever it stands, and the fold does not fail on it. */
  lemma CrashedSuiteSkipped(a: seq<Suite>, s: Suite, b: seq<Suite>)
    requires s.assertionResults.None?
    ensures FailedAssertions(a + [s] + b) == FailedAssertions(a + b)
  {
    var sb := [s] + b;
    assert a + [s] + b == a + sb;
    assert sb[1..] == b;
    FailedAssertionsConcat(a, sb);
    FailedAssertionsConcat(a, b);
  }

  /** Suites whose assertions all passed contribute nothing. */
  lemma {:induction false} AllPassedNoFailures(suites: seq<Suite>)
    requires forall i, a :: (0 <= i < |suites| && suites[i].assertionResults.Some?
                             && a in suites[i].assertionResults.value) ==> !IsFailed(a)
    ensures FailedAssertions(suites) == []
  {
    if |FailedAssertions(suites)| > 0 {
      var a := FailedAssertions(suites)[0];
      FailedAssertionsMembers(suites, a);
    }
  }

  /** A joined list begins with its first element. */
  lemma JoinStartsWithFirst(parts: seq<string>, sep: string)
    requires |parts| > 0
    ensures StartsWith(Join(parts, sep), parts[0])
  {
    if |parts| > 1 {
      assert Join(parts, sep) == parts[0] + (sep + Join(parts[1..], sep));
      StartsWithConcat(parts[0], sep + Join(parts[1..], sep));
    }
  }

  /** An assertion's failure messages, one per line, with control sequences removed. */
  function CleanMessage(a: Assertion): string {
    Ansi.Strip(Join(a.failureMessages, "\n"))
  }

  /** On messages without ESC or CSI characters the two patterns agree: the
      cleaned message is the joined text, as the pattern as written leaves it. */
  lemma CleanAgreesOnPlainText(a: Assertion)
    requires forall i :: 0 <= i < |Join(a.failureMessages, "\n")|
               ==> !Ansi.IsIntroducer(Join(a.failureMessages, "\n")[i])
    ensures CleanMessage(a) == Ansi.StripAsWritten(Join(a.failureMessages, "\n"))
    ensures CleanMessage(a) == Join(a.failureMessages, "\n")
  {
    Ansi.NoControlUnchanged(Ansi.Intended, Join(a.failureMessages, "\n"));
    Ansi.NoControlUnchanged(Ansi.AsWritten, Join(a.failureMessages, "\n"));
  }

  /** `coverageData`: `coverageSummary.total` when the summary was read and
      parsed and has a `total`; `null` otherwise (a read error is swallowed). */
  function CoverageData(f: CoverageFile): (c: Option<CoverageTotal>)
    ensures c.Some? <==> f.Summary? && f.total.Some?
    ensures c.Some? ==> c == f.total
  {
    match f
    case Summary(Some(t)) => Some(t)
    case _ => None
  }

  /** `coverageData.lines.pct`, when `coverageData && coverageData.lines`. */
  function LinesPct(c: Option<CoverageTotal>): (p: Option<string>)
    ensures p.Some? <==> c.Some? && c.value.lines.Some?
    ensures p.Some? ==> p.value == c.value.lines.value.pct
  {
    if c.Some? && c.value.lines.Some? then Some(c.value.lines.value.pct) else None
  }
}
