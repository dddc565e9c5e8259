# A verified model of the validation core of an LLM front-end test suite

The repository is a test suite for language models that write front-end
code. For each task it sends a prompt to a model server and extracts the code
block from the reply. It then runs the test's validator and records PASSED,
FAILED or ERROR. There are three validators:

- **TypeScript check** (`validateTypeScript`): transpiles the code after an
  optional context. It fails when any diagnostic other than 2792 or 2686 is
  reported.
- **Jest over generated tests** (`validateWithJest`): writes a trusted module
  and the generated test into a fresh directory. It points the test's relative
  `from './…'` imports at the module, runs Jest, and turns Jest's JSON report
  and coverage summary into a verdict.
- **Jest against generated code** (`runJestAgainstGeneratedCode`): transpiles
  the generated module and writes it as `codeUnderTest.js`. It points the
  predefined suite's `require(…generatedDebounce)` calls at that module, runs
  Jest, and reports a summary plus per-failure details.

The model also covers:

- two task validators that run structural checks after the TypeScript check:
  a typed mock object, and a Storybook story;
- two reference artefacts: `slugify`, and the `debounce` implementation with
  the behaviour its Jest suite pins down;
- the runner's status decisions, its `--test` filter and its summary tallies.

The model is written so that:

- pure code (string rewriting, verdict building, the structural checks,
  `slugify`) is made of functions and lemmas;
- imperative code is written as methods with loops;
- the temporary directory and the debounced function are classes whose
  methods update their fields;
- each method is tied by its postcondition to a specifying function, and the
  lemmas state the source's promises about those functions.

External pieces become parameters or inputs:

- the TypeScript compiler: functions from a request to diagnostics and output;
- Jest: a function from the files it is shown to what it leaves behind;
- the model server, the code extractor and each task's `validate`: inputs of
  the runner.

Three behaviours of the code that a reader may not expect are modelled as
written:

- **Suite crashes.** The Jest validator treats any failed run with zero tests
  and a first suite as a suite crash, whether or not that suite carries an
  execution error.
- **Zero tests.** The generated-code validator answers "Jest ran 0 tests"
  before it looks at the success flag.
- **Reference rewriting.** Each validator rewrites only its own convention.
  The Jest validator rewrites relative `from './…'` specifiers. The
  generated-code validator rewrites `require` paths ending in
  `generatedDebounce`.

Files:

| file | contents |
|---|---|
| `maybe.dfy`, `text.dfy` | `Option`; strings (prefix, containment, `join`, JavaScript whitespace) |
| `compiler.dfy` | the TypeScript compiler's requests, options, diagnostics and syntax trees |
| `diagnostics.dfy` | the 2792/2686 allow-list and both ways the validators flatten a diagnostic message |
| `ts_validator.dfy` | `validateTypeScript` |
| `ansi.dfy` | the control-sequence regular expression as written and as intended, with ECMAScript backtracking |
| `import_rewrite.dfy` | the `from './…'` rewrite of the Jest validator |
| `require_rewrite.dfy` | the `require(…generatedDebounce)` rewrite of the generated-code validator |
| `jest_report.dfy` | Jest's JSON report, the coverage summary, the failed-assertion fold |
| `workspace.dfy` | the temporary directory (`Workspace` class) |
| `jest_validator.dfy` | `validateWithJest` |
| `generated_code_validator.dfy` | `runJestAgainstGeneratedCode` |
| `content_checks.dfy` | `includes` tests and the quoted-value regular expressions, run in order |
| `create_ts_mock.dfy`, `storybook_story.dfy` | the two tasks' `validate` functions |
| `slugify.dfy` | `slugify` |
| `debounce.dfy` | `debounce` (`Debounced` class) and the four cases of its suite |
| `runner.dfy` | `runTest`, the `--test` selection, the run loop and `printSummary`'s counts |

## Model

| member | source | states |
|---|---|---|
| Ansi.MatchLength | src/validators/generatedCodeJestValidator.js:124 | a control-sequence match at the start of the text is non-empty and lies within the text |
| Ansi.NoControlUnchanged | src/validators/jestValidator.js:126-129 | text without ESC or CSI characters is left unchanged by either pattern |
| Ansi.StripNeverLonger | src/validators/generatedCodeJestValidator.js:124 | stripping never lengthens the text nor introduces a character |
| Ansi.SgrRemovedExactly | src/validators/jestValidator.js:126-129 | with the intended pattern a colour code `ESC[<1-4 digits>m` is removed and what follows survives |
| Ansi.AsWrittenEatsFollowingDigit | src/validators/jestValidator.js:113 | the pattern as written turns a green `5` into the empty string; the intended one keeps `5` |
| Diagnostics.Critical | src/validators/tsValidator.js:55-57 | a diagnostic is kept exactly when its code is neither 2792 nor 2686 |
| Diagnostics.CriticalConcat | src/validators/tsValidator.js:55-57 | the filter keeps diagnostic order (distributes over concatenation) |
| Diagnostics.CriticalKeepsBlocking | src/validators/generatedCodeJestValidator.js:35-37 | a list of blocking diagnostics passes the filter unchanged |
| Diagnostics.FlattenFindsLeaf | src/validators/tsValidator.js:63-67 | the `while` flattening reaches the innermost string of a chain when that string is non-empty |
| Diagnostics.OneLevelAgreesOnShallowChains | src/validators/generatedCodeJestValidator.js:39 | the one-level flattening agrees with the full one on a string or a one-level chain |
| Diagnostics.OneLevelStopsEarly | src/validators/generatedCodeJestValidator.js:39 | on a two-level chain the one-level flattening yields `[object Object]`, the full one the string |
| Compiler.OptionsFor | src/validators/tsValidator.js:35-44 | CommonJS, ESNext and `esModuleInterop`, plus `jsx: react-jsx` exactly when JSX is allowed; the generated-code validator builds the same options (src/validators/generatedCodeJestValidator.js:25-32) |
| TsValidator.CheckRequest | src/validators/tsValidator.js:14 | the compiled text is the context, a newline, then the code, with diagnostics requested |
| TsValidator.FailsIffBlockingDiagnostic | src/validators/tsValidator.js:52-74 | failure exactly when some diagnostic is not allow-listed, with the flattened messages one per line after the fixed prefix |
| TsValidator.SuppressedOnlySucceeds | src/validators/tsValidator.js:52-81 | only allow-listed diagnostics: success, the fixed message and the transpiled output |
| TsValidator.AstOnlyWhenRequested | src/validators/tsValidator.js:16-31 | the syntax tree is returned exactly when asked for, the code is valid and parsing did not throw; it is the tree of the full text, TSX exactly with JSX |
| TsValidator.DependsOnlyOnFullText | src/validators/tsValidator.js:47-50 | the verdict depends on the compiler only through its answer to the one request |
| TsValidator.FlattenMessage | src/validators/tsValidator.js:63-67 | the `while` loop computes the full flattening, the innermost string when it is non-empty |
| TsValidator.ValidateTypeScript | src/validators/tsValidator.js:13-82 | the step-by-step function returns the verdict the lemmas above describe |
| ImportRewrite.RewritesRelativeSpecifier | src/validators/jestValidator.js:31-32 | a `from` clause with a `./` specifier gets the target, keeping `from`, whitespace and both quotes |
| ImportRewrite.PackageSpecifierUntouched | src/validators/jestValidator.js:31-32 | a `from` clause whose specifier does not start with `./` and contains no `from` is left byte for byte, and the rewrite goes on after it |
| ImportRewrite.NoFromUnchanged | src/validators/jestValidator.js:31-32 | text without `from` passes through unchanged |
| ImportRewrite.RewriteIdempotent | src/validators/jestValidator.js:31-32 | rewriting twice equals rewriting once |
| RequireRewrite.CallAtIff | src/validators/generatedCodeJestValidator.js:50 | the matcher finds a call at a position exactly when the text there has the call's shape |
| RequireRewrite.RewritesRequireCall | src/validators/generatedCodeJestValidator.js:50-57 | a `require` path is replaced by `./codeUnderTest` exactly when it ends with `generatedDebounce`, layout kept; other calls are copied |
| RequireRewrite.NoRequireUnchanged | src/validators/generatedCodeJestValidator.js:50-57 | text without `require` (every `import` form) passes through unchanged |
| RequireRewrite.ReplacementShape | src/validators/generatedCodeJestValidator.js:53-56 | a replacement is again a whole call whose path does not end with the placeholder |
| RequireRewrite.RewriteIdempotent | src/validators/generatedCodeJestValidator.js:50-57 | rewriting twice equals rewriting once |
| JestReport.CleanAgreesOnPlainText | src/validators/jestValidator.js:123-130 | on failure messages without ESC or CSI characters, the cleaning the model uses and the pattern as written both leave the joined text unchanged |
| JestReport.FilterFailed | src/validators/jestValidator.js:121-122 | an assertion is kept exactly when its status is `failed` |
| JestReport.SuiteFailures | src/validators/jestValidator.js:120-122 | a suite without `assertionResults` contributes nothing; otherwise exactly its failed assertions |
| JestReport.FailedAssertions | src/validators/jestValidator.js:118-132 | every collected assertion has failed |
| JestReport.FailedAssertionsMembers | src/validators/generatedCodeJestValidator.js:117-128 | an assertion is collected exactly when it failed and belongs to a suite with assertion results |
| JestReport.FailedAssertionsConcat | src/validators/jestValidator.js:118-132 | the fold keeps suite order |
| JestReport.CrashedSuiteSkipped | src/validators/jestValidator.js:120 | a crashed suite is skipped wherever it stands |
| JestReport.AllPassedNoFailures | src/validators/jestValidator.js:118-132 | suites whose assertions all passed contribute nothing |
| JestReport.CoverageData | src/validators/jestValidator.js:80-93 | coverage data is the summary's `total` exactly when the summary was read, parsed and has one |
| JestReport.LinesPct | src/validators/jestValidator.js:97-98 | the line percentage is shown exactly when coverage data has `lines` |
| Workspaces.Workspace.Create | src/validators/jestValidator.js:14 | a fresh, empty directory |
| Workspaces.Workspace.Write | src/validators/jestValidator.js:26 | the file is set to the contents, other files unchanged |
| Workspaces.Workspace.RunJest | src/validators/jestValidator.js:62-71 | Jest's outcome is a function of the files present; files unchanged |
| Workspaces.Workspace.Teardown | src/validators/jestValidator.js:156-160 | the directory is gone, removed only if it existed |
| JestValidator.ParsedName | src/validators/jestValidator.js:30 | the name is the file name up to its extension, which starts at the last `.` after the first character; there is no extension exactly when no such `.` exists or the name is `..` |
| JestValidator.FileKind | src/validators/jestValidator.js:17-21 | both files are `.tsx` exactly when the test code mentions `React` or `@testing-library/react`, `.ts` otherwise |
| JestValidator.ImportPathOfCodeFile | src/validators/jestValidator.js:20-30 | the two file names differ and `./` plus the code file's parsed name is `./codeToTest` |
| JestValidator.FailureTexts | src/validators/jestValidator.js:123-130 | one cleaned message per failed assertion, in order |
| JestValidator.SuccessVerdict | src/validators/jestValidator.js:95-104 | success message `All N generated tests passed!` plus the coverage sentence exactly when line coverage is present; the coverage read is returned |
| JestValidator.FailureEndsWithCoverageNote | src/validators/jestValidator.js:138-148 | every failure from a report ends with the coverage sentence or `(Coverage data not available.)` |
| JestValidator.AssertionFailureVerdict | src/validators/jestValidator.js:117-135 | summary `F/N failed` then the failed assertions' cleaned messages in suite order, separated by `---`; membership both ways |
| JestValidator.SuiteCrashVerdict | src/validators/jestValidator.js:107-116 | (corrected) a crashed run reports the first suite's failure message, else its execution error, else `Unknown suite error`, cleaned |
| JestValidator.CriticalIffNoReport | src/validators/jestValidator.js:74-78 | the critical prefix appears exactly when Jest threw or left no parsable report; then no success and no coverage |
| JestValidator.SuccessOnlyFromReport | src/validators/jestValidator.js:95-104 | success exactly when Jest left a parsed report that says so |
| JestValidator.CrashBranchAsWritten | src/validators/jestValidator.js:107-116 | as written, a crashed run ends in the `catch` with `testSuite is not defined` and no coverage, unlike the corrected verdict |
| JestValidator.AsWrittenAgreesElsewhere | src/validators/jestValidator.js:105-149 | outside that branch the written and corrected verdicts agree |
| JestValidator.BuildVerdict | src/validators/jestValidator.js:95-149 | the message built step by step is the verdict function's |
| JestValidator.Interpret | src/validators/jestValidator.js:74-93 | every outcome (exception, missing file, bad JSON, report) gets the verdict function's answer |
| JestValidator.WriteInputs | src/validators/jestValidator.js:14-34 | the directory holds exactly the code file and the rewritten test |
| JestValidator.ValidateWithJest | src/validators/jestValidator.js:13-161 | the verdict is `JestCheck`'s; Jest runs once on the two files; the directory is removed afterwards |
| GeneratedCodeValidator.TranspiledName | src/validators/generatedCodeJestValidator.js:20 | a final `.ts` or `.tsx` becomes `.js`; other names are unchanged |
| GeneratedCodeValidator.ModuleFileAlwaysJs | src/validators/generatedCodeJestValidator.js:17-20 | either source name becomes `codeUnderTest.js` |
| GeneratedCodeValidator.Entries | src/validators/generatedCodeJestValidator.js:122-126 | one `Test: …` entry per failed assertion, in order |
| GeneratedCodeValidator.CompileFailureFirst | src/validators/generatedCodeJestValidator.js:33-42 | a blocking diagnostic fails the check with the one-level messages, before any file is written or Jest runs |
| GeneratedCodeValidator.MissingResultsFile | src/validators/generatedCodeJestValidator.js:101-103 | no results file gives the fixed message |
| GeneratedCodeValidator.ZeroTestsFail | src/validators/generatedCodeJestValidator.js:107-109 | zero tests fails even when the report says success |
| GeneratedCodeValidator.SuccessIff | src/validators/generatedCodeJestValidator.js:111-115 | success exactly when the code compiles, the test file is read, and the report has tests and says success |
| GeneratedCodeValidator.FailureDetails | src/validators/generatedCodeJestValidator.js:116-135 | the summary, then the entries as details; the fallback text exactly when nothing failed |
| GeneratedCodeValidator.ErrorsAreCritical | src/validators/generatedCodeJestValidator.js:137-144 | each exception gives the critical prefix, its message, and its stack as details |
| GeneratedCodeValidator.JestSeesModuleAndTest | src/validators/generatedCodeJestValidator.js:43-61 | Jest sees exactly `codeUnderTest.js` with the output and `testSuite.test.js` with the rewritten test |
| GeneratedCodeValidator.LogShape | src/validators/generatedCodeJestValidator.js:145-149 | the directory is created and removed on every path; Jest runs at most once, after both writes |
| GeneratedCodeValidator.FailedVerdict | src/validators/generatedCodeJestValidator.js:116-135 | the failure branch computes the verdict function's answer |
| GeneratedCodeValidator.Interpret | src/validators/generatedCodeJestValidator.js:101-111 | every outcome gets the verdict function's answer |
| GeneratedCodeValidator.Compile | src/validators/generatedCodeJestValidator.js:25-42 | the one request and the early return on blocking diagnostics |
| GeneratedCodeValidator.RunCompiled | src/validators/generatedCodeJestValidator.js:43-99 | writes the module and the rewritten test, runs Jest once, interprets |
| GeneratedCodeValidator.RunJestAgainstGeneratedCode | src/validators/generatedCodeJestValidator.js:15-150 | the verdict is `GenCheck`'s; the directory goes through `GenLog` and is gone afterwards |
| ContentChecks.FirstFailure | src/tests/2_0_createTsMock.js:46-76 | no failure reported exactly when every check of the chain passes |
| ContentChecks.FirstFailureIs | src/tests/2_0_createTsMock.js:46-76 | the first failing check's message is the one reported, whatever later checks say |
| ContentChecks.QuotedAccepts | src/tests/2_0_createTsMock.js:52 | `<key>'<one-line text>'` passes the quoted-value check |
| ContentChecks.QuotedWithAtAccepts | src/tests/2_0_createTsMock.js:58 | `<key>'<text>@<text>'` on one line passes the email check |
| ContentChecks.QuotedWithAtRejectsBrokenLine | src/tests/2_0_createTsMock.js:58 | a line break before the `@` defeats the email check at that key |
| CreateTsMock.CompileFirst | src/tests/2_0_createTsMock.js:36-43 | the code is compiled after the two interfaces, without JSX; a failed compile is returned as it is |
| CreateTsMock.FirstFailingCheckReported | src/tests/2_0_createTsMock.js:46-76 | after a good compile, the first failing check of the five decides the message |
| CreateTsMock.MissingDeclaration | src/tests/2_0_createTsMock.js:46-51 | a missing `const mockUser: User =` is reported whatever else is missing |
| CreateTsMock.SuccessIff | src/tests/2_0_createTsMock.js:36-81 | success exactly when the code compiles and all five checks pass, with the fixed message |
| StorybookStory.CompileAsTsxFirst | src/tests/10_generateStorybookStory.js:18-21 | the code is compiled alone with JSX; a failed compile is returned as it is |
| StorybookStory.MissingPrimaryFirst | src/tests/10_generateStorybookStory.js:24-26 | a missing `Primary` export is reported first |
| StorybookStory.MissingTypeImport | src/tests/10_generateStorybookStory.js:27-29 | with `Primary` present, a missing type import is reported |
| StorybookStory.SuccessIff | src/tests/10_generateStorybookStory.js:18-31 | success exactly when the code compiles as TSX and holds both texts |
| Slugify.Lower | src/mocks/4_slugify.ts:8 | same length, no upper-case letter, other characters kept |
| Slugify.Trim | src/mocks/4_slugify.ts:9 | the result neither starts nor ends with whitespace |
| Slugify.DashSpaces | src/mocks/4_slugify.ts:10 | only non-whitespace characters of the input and `-` appear |
| Slugify.KeepWordChars | src/mocks/4_slugify.ts:11 | a character survives exactly when it is a word character or `-` |
| Slugify.CollapseDashes | src/mocks/4_slugify.ts:12 | no two dashes in a row; the first character is kept |
| Slugify.NonStringEmpty | src/mocks/4_slugify.ts:2-4 | a non-string gives the empty string |
| Slugify.ResultIsSlug | src/mocks/4_slugify.ts:6-12 | every result holds only `a-z`, `0-9`, `_` and `-`, no whitespace and never `--` |
| Slugify.SlugFixed | src/mocks/4_slugify.ts:6-12 | a slug is its own slug |
| Slugify.Idempotent | src/mocks/4_slugify.ts:6-12 | slugifying a result changes nothing |
| Slugify.DashSpacesOneSpace | src/mocks/4_slugify.ts:10 | one space between spaceless texts becomes one dash |
| Slugify.TwoWords | src/mocks/4_slugify.ts:8-12 | two letter words with a space come out lowered and joined by `-` |
| Slugify.HelloWorld | src/mocks/4_slugify.ts:8-12 | `Hello World` gives `hello-world` |
| Debounce.CallReplacesTimer | src/test-assets/staticDebounce.ts:12-19 | a call cancels any pending timer; only its own remains, due `delay` later; nothing is invoked |
| Debounce.FiresExactlyAtDelay | src/test-assets/staticDebounce.ts:16-19 | before `delay` nothing fires; at `delay` one invocation with that call's `this` and arguments, then idle |
| Debounce.IdleStaysIdle | src/test-assets/staticDebounce.ts:18 | once idle, advancing the clock invokes nothing |
| Debounce.RapidCallsCoalesce | src/test-assets/staticDebounce.ts:12-19 | calls closer than `delay` invoke nothing and leave only the last call's timer |
| Debounce.RapidBurstFiresOnce | src/test-assets/staticDebounce.ts:10-19 | a rapid burst then `delay`: exactly one invocation, with the last call's `this` and arguments |
| Debounce.SpreadCallsAllFire | src/test-assets/staticDebounce.ts:12-19 | calls at least `delay` apart are each passed on, in order |
| Debounce.Debounced.Invoke | src/test-assets/staticDebounce.ts:8-20 | the new state is the call step of the old one |
| Debounce.Debounced.Tick | src/test-assets/staticDebounce.ts:16-19 | the new state is the tick step of the old one |
| Debounce.OnlyOnceAfterDelay | src/test-assets/debounce.test.js:23-38 | three calls: nothing at 0 ms or 50 ms, exactly one invocation at 100 ms |
| Debounce.LastArgumentsWin | src/test-assets/debounce.test.js:40-50 | calls with 1, 2, 3: one invocation, with 3 |
| Debounce.ContextPreserved | src/test-assets/debounce.test.js:52-73 | a call with a bound `this`: one invocation with that `this` |
| Debounce.IndependentInstances | src/test-assets/debounce.test.js:75-94 | two instances keep separate timers: counts 0,1,1 and 0,0,1 at 50, 100 and 150 ms |
| Runner.RunTest | main.js:60-131 | the field-by-field updates give the outcome function's result |
| Runner.OutcomeCases | main.js:67-128 | errors give ERROR with their message; no code gives FAILED with the fixed message; a verdict gives PASSED exactly on success, with its message |
| Runner.StatusMeaning | main.js:91-128 | PASSED exactly when non-empty code was accepted; ERROR exactly when something was thrown |
| Runner.EmptyCodeSkipsValidation | main.js:91-101 | without code the validator is never consulted |
| Runner.WithId | main.js:195 | a test is kept exactly when its id matches |
| Runner.WithIdConcat | main.js:195 | the filter keeps registry order |
| Runner.UniqueIdSelectsOne | main.js:195 | with distinct ids, an id selects exactly its test |
| Runner.SelectRunsMatching | main.js:193-202 | no id (or an empty one) runs every test; an id runs exactly the matching tests, or nothing with the list of ids |
| Runner.RunAll | main.js:205-209 | one result per selected test, in order, each the outcome function's |
| Runner.CountsAddUp | main.js:145-166 | passed + failed + errors equals the number of results |
| Runner.CountZeroIffAbsent | main.js:149-164 | a count is zero exactly when no result has that status |
| Runner.Summarize | main.js:145-175 | the `forEach` counters are the status counts and add up to the total |
| Runner.RunSuite | main.js:193-212 | a missing id stops the run; otherwise every selected test runs once, in order, and the tally counts each status (passed, failed, errors) and adds up to the number run |

## Left out

- File-system I/O: directory names, reading and writing files, and JSON parsing. A results file is given already parsed, or as "not JSON". A JSON value of the wrong shape (`null`, missing fields) is not modelled.
- Workspaces.Workspace.Write: a failing write is not modelled; the write never fails. This affects both Jest validators. For `validateWithJest`, such an error would reach its `catch` as a critical error. For `runJestAgainstGeneratedCode` (src/validators/generatedCodeJestValidator.js:45,61), its `catch` would also report the error's stack.
- Jest itself (`jest.runCLI` and its configuration) is an input function from the files it is shown to its outcome.
- The TypeScript compiler (`transpileModule`, `createSourceFile`) is modelled as input functions.
- The model servers (`OllamaClient`, `LMStudioClient`, `createClient`) and the code extractor are not part of this model. The runner takes their results as inputs.
- Console output, colours, the summary table's layout and command-line parsing are not modelled; an `--test` value that is not text is not modelled either.
- The remaining tasks (`6_createReactComponentTest.js`, `9_migrateAngularJsToReact.js`), the registry `src/tests/index.js`, the React mocks and payloads, and `jest.config.js` are configuration, prompts or UI, and are left out.
- Coverage percentages are kept as the text JavaScript prints, not as numbers.
- Errors are modelled as `JsError(message, stack)`. A thrown value without those fields is not modelled.
- The verdicts of both Jest validators clean messages with the corrected control-sequence pattern (`Ansi.Strip`, the corrected half of the first "## Findings" row), not the pattern as written. On a message holding a colour code followed by a digit or one of the pattern's final characters (for example `ESC[32m5`), the source also drops that character and the model keeps it. `Ansi.AsWrittenEatsFollowingDigit` shows the difference. Where no message holds an ESC or CSI character the two agree (`JestReport.CleanAgreesOnPlainText`, `Ansi.NoControlUnchanged`). The members this affects follow, each on its own line.
- Ansi.StripAsWritten: a Dafny string is a sequence of Unicode scalar values, while a JavaScript regular expression without the `u` flag matches UTF-16 code units. The pattern's `.` therefore differs on a character outside the Basic Multilingual Plane right after ESC: on `ESC😀5m` the source's `.?` takes only the high surrogate, finds no match and keeps the text, while the model's `.?` takes the whole 😀 and strips `ESC😀5m`. The corrected pattern has no `.`, and the content checks' `.*` tests accept the same texts either way.
- JestReport.CleanMessage: uses the corrected pattern, not the one at src/validators/jestValidator.js:127 and src/validators/generatedCodeJestValidator.js:124.
- JestValidator.FailureTexts: its messages are cleaned with the corrected pattern, so on coloured text it keeps characters the source drops.
- JestValidator.AssertionFailureVerdict: the itemised messages are cleaned with the corrected pattern, not the one the source runs.
- JestValidator.SuiteCrashVerdict: the corrected crash text is cleaned with the corrected pattern, not the one at src/validators/jestValidator.js:113.
- JestValidator.ValidateWithJest: it is proved equal to `JestCheck`, whose failure texts use the corrected pattern, so on coloured messages it differs from `validateWithJest`. It also uses the corrected crash branch (second "## Findings" row): on a failed run with zero tests and a first suite, `validateWithJest` as written ends in its `catch` with `A critical error … testSuite is not defined` and null coverage, while the model returns the first suite's cleaned message plus the coverage note.
- GeneratedCodeValidator.Entries: the `Test: …` entries carry messages cleaned with the corrected pattern, not the one at src/validators/generatedCodeJestValidator.js:124.
- GeneratedCodeValidator.FailureDetails: the details are entries cleaned with the corrected pattern, so on coloured messages they differ from the source's.
- GeneratedCodeValidator.RunJestAgainstGeneratedCode: it is proved equal to `GenCheck`, whose failure details use the corrected pattern, so on coloured messages it differs from the source.
- Slugify.Lower: only ASCII letters are lowered. Full Unicode case mapping (for example the Kelvin sign becoming `k`) is not modelled. Whitespace is the full ECMAScript set.
- Debounce.Debounced.Tick: timers fire when the clock is advanced past them, not at their exact instant. The order of invocations across different debounced functions is not modelled, and neither is the clamping of non-positive or huge delays by `setTimeout`. `delay` is a natural number.

## Findings

| source | as written | input that shows it | evidently intended | confidence | as-written member | corrected member |
|---|---|---|---|---|---|---|
| src/validators/jestValidator.js:113 | the control-sequence pattern has `.?` before the digits and before the final character, so it can swallow the character after a colour code | `ESC[32m5` (a green `5`) becomes the empty string | the usual pattern with an optional parameter list, which removes `ESC[32m` and keeps `5` | not executed | Ansi.AsWrittenEatsFollowingDigit | Ansi.SgrRemovedExactly |
| src/validators/jestValidator.js:107-116 | the suite-crash branch reads `testSuite`, a name bound only inside the later `reduce` callback, so it throws a `ReferenceError` | a failed report with zero tests and one suite whose `failureMessage` is a syntax error: the verdict is the critical error `testSuite is not defined` and the coverage is dropped | read the first suite, `results.testResults[0]` | not executed | JestValidator.CrashBranchAsWritten | JestValidator.SuiteCrashVerdict |
