/** The test runner (main.js): for each selected test it asks the model for
    code, extracts the code block, runs the test's validator and records a
    PASSED, FAILED or ERROR result; then it tallies the results. The model
    server's reply, the code extractor and the validators are parameters;
    console output, argument parsing and the summary table's layout are not
    modelled. */
module Runner {
  import opened Maybe
  import opened Text

  /** An entry of the test registry; its `validate` is given separately. */
  datatype TestCase = TestCase(id: string, description: string, prompt: string)

  /** `client.generate(...)`: the raw reply, or the error it was rejected with. */
  datatype Generation = Generated(raw: string) | GenerateThrew(message: string)

  /** `test.validate(code)`: a `{ success, message }` verdict, or the error
      it was rejected with. */
  datatype Validation = Verdict(success: bool, message: string) | ValidateThrew(message: string)

  datatype Status = Passed | Failed | Errored

  /** The `result` object `runTest` returns. */
  datatype TestResult = TestResult(id: string, description: string, status: Status, message: string)

  const UnknownError := "An unknown error occurred."
  const NoCodeMessage := "LLM returned an empty response " + "or no code block was found."

  /** What `runTest` returns for one test, given the model's reply, the
      extractor and the validators. */
  function Outcome(test: TestCase, gen: Generation, extract: string -> string,
                   validate: (TestCase, string) -> Validation): TestResult
  {
    match gen
    case GenerateThrew(m) => TestResult(test.id, test.description, Errored, m)
    case Generated(raw) =>
      var code := extract(raw);
      if code == "" then TestResult(test.id, test.description, Failed, NoCodeMessage)
      else match validate(test, code)
        case ValidateThrew(m) => TestResult(test.id, test.description, Errored, m)
        case Verdict(ok, msg) => TestResult(test.id, test.description, if ok then Passed else Failed, msg)
  }

  /** `runTest`: the result starts as an ERROR with the generic message and
      is updated field by field; a thrown error lands in the `catch`. */
  method RunTest(test: TestCase, gen: Generation, extract: string -> string,
                 validate: (TestCase, string) -> Validation) returns (result: TestResult)
    ensures result == Outcome(test, gen, extract, validate)
  {
    result := TestResult(test.id, test.description, Errored, UnknownError);
    if gen.GenerateThrew? {
      result := result.(status := Errored, message := gen.message);
      return;
    }
    var code := extract(gen.raw);
    if code == "" {
      result := result.(status := Failed, message := NoCodeMessage);
      return;
    }
    var verdict := validate(test, code);
    if verdict.ValidateThrew? {
      result := result.(status := Errored, message := verdict.message);
    } else if verdict.success {
      result := result.(status := Passed, message := verdict.message);
    } else {
      result := result.(status := Failed, message := verdict.message);
    }
  }

  /** The result names its test, and its status and message are decided as
      follows: an error from the model server or from the validator gives
      ERROR with that error's message; no code gives FAILED with the fixed
      message; otherwise the verdict gives PASSED or FAILED with its message. */
  lemma OutcomeCases(test: TestCase, gen: Generation, extract: string -> string,
                     validate: (TestCase, string) -> Validation)
    ensures var r := Outcome(test, gen, extract, validate);
            && r.id == test.id && r.description == test.description
            && (gen.GenerateThrew? ==> r.status == Errored && r.message == gen.message)
            && (gen.Generated? && extract(gen.raw) == "" ==>
                  r.status == Failed && r.message == NoCodeMessage)
            && (gen.Generated? && extract(gen.raw) != "" ==>
                  var v := validate(test, extract(gen.raw));
                  && r.message == v.message
                  && (v.ValidateThrew? ==> r.status == Errored)
                  && (v.Verdict? ==> (r.status == Passed <==> v.success)))
  {
  }

  /** PASSED means the validator accepted non-empty code; ERROR means
      something was thrown. */
  lemma StatusMeaning(test: TestCase, gen: Generation, extract: string -> string,
                      validate: (TestCase, string) -> Validation)
    ensures var r := Outcome(test, gen, extract, validate);
            && (r.status == Passed <==>
                  gen.Generated? && extract(gen.raw) != ""
                  && validate(test, extract(gen.raw)) == Verdict(true, r.message))
            && (r.status == Errored <==>
                  gen.GenerateThrew? ||
                  (extract(gen.raw) != "" && validate(test, extract(gen.raw)).ValidateThrew?))
  {
  }

  /** Without code, the validator is never consulted: any two validators
      give the same result. */
  lemma EmptyCodeSkipsValidation(test: TestCase, raw: string, extract: string -> string,
                                 v1: (TestCase, string) -> Validation,
                                 v2: (TestCase, string) -> Validation)
    requires extract(raw) == ""
    ensures Outcome(test, Generated(raw), extract, v1) == Outcome(test, Generated(raw), extract, v2)
  {
  }

  // ---------------------------------------------------------------------
  // Selecting the tests (`--test`)

  function Ids(tests: seq<TestCase>): (r: seq<string>)
    ensures |r| == |tests| && forall i :: 0 <= i < |tests| ==> r[i] == tests[i].id
  {
    seq(|tests|, i requires 0 <= i < |tests| => tests[i].id)
  }

  /** The registry entries whose id is `id`, in registry order. */
  function WithId(tests: seq<TestCase>, id: string): (r: seq<TestCase>)
    ensures forall t :: t in r <==> t in tests && t.id == id
    ensures |r| <= |tests|
    decreases |tests|
  {
    if |tests| == 0 then []
    else (if tests[0].id == id then [tests[0]] else []) + WithId(tests[1..], id)
  }

  /** What `main` goes on to run: the tests, or the requested id and the
      list of available ids when nothing matched. */
  datatype Selection = Run(tests: seq<TestCase>) | NotFound(requested: string, available: string)

  /** The `--test` option is absent, or present as text; an empty text is
      falsy and applies no filter. */
  function Select(allTests: seq<TestCase>, test: Option<string>): Selection {
    if test.None? || test.value == "" then Run(allTests)
    else
      var chosen := WithId(allTests, test.value);
      if |chosen| == 0 then NotFound(test.value, Join(Ids(allTests), ", ")) else Run(chosen)
  }

  /** Without an id every test runs; with one, exactly the tests bearing it
      run, and none of them when no test bears it. */
  lemma SelectRunsMatching(allTests: seq<TestCase>, test: Option<string>)
    ensures test.None? || test.value == "" ==> Select(allTests, test) == Run(allTests)
    ensures test.Some? && test.value != "" ==>
              match Select(allTests, test)
              case Run(chosen) =>
                |chosen| > 0 && forall t :: t in chosen <==> t in allTests && t.id == test.value
              case NotFound(requested, available) =>
                requested == test.value && available == Join(Ids(allTests), ", ")
                && forall i :: 0 <= i < |allTests| ==> allTests[i].id != test.value
  {
    if test.Some? && test.value != "" {
      var chosen := WithId(allTests, test.value);
      if |chosen| == 0 {
        forall i | 0 <= i < |allTests|
          ensures allTests[i].id != test.value
        {
          assert allTests[i] in allTests;
        }
      }
    }
  }

  /** The filter keeps registry order: it distributes over concatenation. */
  lemma {:induction false} WithIdConcat(a: seq<TestCase>, b: seq<TestCase>, id: string)
    ensures WithId(a + b, id) == WithId(a, id) + WithId(b, id)
    decreases |a|
  {
    if |a| == 0 {
      assert a + b == b;
    } else {
      assert (a + b)[1..] == a[1..] + b;
      WithIdConcat(a[1..], b, id);
    }
  }

  /** Registry ids are distinct in practice; then an id selects one test. */
  lemma {:induction false} UniqueIdSelectsOne(allTests: seq<TestCase>, k: nat)
    requires k < |allTests|
    requires forall i :: 0 <= i < |allTests| && i != k ==> allTests[i].id != allTests[k].id
    ensures WithId(allTests, allTests[k].id) == [allTests[k]]
  {
    var id := allTests[k].id;
    var before, after := allTests[..k], allTests[k + 1..];
    assert allTests == before + [allTests[k]] + after;
    WithIdConcat(before + [allTests[k]], after, id);
    WithIdConcat(before, [allTests[k]], id);
    assert [allTests[k]][1..] == [];
    NoneWithId(before, id);
    NoneWithId(after, id);
  }

  lemma NoneWithId(tests: seq<TestCase>, id: string)
    requires forall i :: 0 <= i < |tests| ==> tests[i].id != id
    ensures WithId(tests, id) == []
  {
    if |WithId(tests, id)| > 0 {
      assert WithId(tests, id)[0] in WithId(tests, id);
    }
  }

  // ---------------------------------------------------------------------
  // Running and tallying

  /** The `for (const test of testsToRun)` loop: one result per test, in order. */
  method RunAll(tests: seq<TestCase>, generate: TestCase -> Generation, extract: string -> string,
                validate: (TestCase, string) -> Validation) returns (results: seq<TestResult>)
    ensures |results| == |tests|
    ensures forall i :: 0 <= i < |tests| ==>
              results[i] == Outcome(tests[i], generate(tests[i]), extract, validate)
  {
    results := [];
    for i := 0 to |tests|
      invariant |results| == i
      invariant forall k :: 0 <= k < i ==>
                  results[k] == Outcome(tests[k], generate(tests[k]), extract, validate)
    {
      var r := RunTest(tests[i], generate(tests[i]), extract, validate);
      results := results + [r];
    }
  }

  /** How many results have status `s`. */
  function Count(results: seq<TestResult>, s: Status): (n: nat)
    ensures n <= |results|
    decreases |results|
  {
    if |results| == 0 then 0
    else Count(results[..|results| - 1], s) + (if results[|results| - 1].status == s then 1 else 0)
  }

  /** Every result falls in exactly one of the three counts. */
  lemma {:induction false} CountsAddUp(results: seq<TestResult>)
    ensures Count(results, Passed) + Count(results, Failed) + Count(results, Errored) == |results|
    decreases |results|
  {
    if |results| > 0 {
      CountsAddUp(results[..|results| - 1]);
    }
  }

  /** The tally counts each status exactly where it occurs. */
  lemma {:induction false} CountZeroIffAbsent(results: seq<TestResult>, s: Status)
    ensures Count(results, s) == 0 <==> forall i :: 0 <= i < |results| ==> results[i].status != s
    decreases |results|
  {
    if |results| > 0 {
      var front := results[..|results| - 1];
      CountZeroIffAbsent(front, s);
      assert forall i :: 0 <= i < |front| ==> front[i] == results[i];
    }
  }

  /** The totals `printSummary` prints. */
  datatype Summary = Summary(total: nat, passed: nat, failed: nat, errors: nat)

  /** `printSummary`'s counters, incremented in the `forEach` by status. */
  method Summarize(results: seq<TestResult>) returns (summary: Summary)
    ensures summary == Summary(|results|, Count(results, Passed), Count(results, Failed),
                               Count(results, Errored))
    ensures summary.passed + summary.failed + summary.errors == summary.total
  {
    var passedCount, failedCount, errorCount := 0, 0, 0;
    for i := 0 to |results|
      invariant passedCount == Count(results[..i], Passed)
      invariant failedCount == Count(results[..i], Failed)
      invariant errorCount == Count(results[..i], Errored)
    {
      assert results[..i + 1][..i] == results[..i];
      match results[i].status
      case Passed => passedCount := passedCount + 1;
      case Failed => failedCount := failedCount + 1;
      case Errored => errorCount := errorCount + 1;
    }
    assert results[..|results|] == results;
    CountsAddUp(results);
    summary := Summary(|results|, passedCount, failedCount, errorCount);
  }

  /** What `main` ends with after creating the client. */
  datatype RunReport = TestNotFound(requested: string, available: string)
                     | Completed(results: seq<TestResult>, summary: Summary)

  /** Select, run each selected test in order, then tally. */
  method RunSuite(allTests: seq<TestCase>, test: Option<string>, generate: TestCase -> Generation,
                  extract: string -> string, validate: (TestCase, string) -> Validation)
    returns (report: RunReport)
    ensures Select(allTests, test).NotFound? <==> report.TestNotFound?
    ensures report.TestNotFound? ==>
              report.requested == Select(allTests, test).requested
              && report.available == Select(allTests, test).available
    ensures report.Completed? ==>
              var chosen := Select(allTests, test).tests;
              && |report.results| == |chosen|
              && (forall i :: 0 <= i < |chosen| ==>
                    report.results[i] == Outcome(chosen[i], generate(chosen[i]), extract, validate))
              && report.summary.total == |chosen|
              && report.summary.passed + report.summary.failed + report.summary.errors == |chosen|
    ensures report.Completed? ==>
              report.summary == Summary(|report.results|, Count(report.results, Passed),
                                        Count(report.results, Failed), Count(report.results, Errored))
  {
    var selection := Select(allTests, test);
    if selection.NotFound? {
      return TestNotFound(selection.requested, selection.available);
    }
    var results := RunAll(selection.tests, generate, extract, validate);
    var summary := Summarize(results);
    report := Completed(results, summary);
  }
}
