/** The `validate` of the Storybook task (src/tests/10_generateStorybookStory.js):
    the code must compile as TSX, export a `Primary` story and import the
    Storybook types, checked in that order. */
module StorybookStory {
  import opened Maybe
  import opened Text
  import opened Compiler
  import opened TsValidator
  import opened ContentChecks

  const StoryOptions := TsOptions(true, "", false)

  const TypeImport := "import type { Meta, StoryObj } " + "from '@storybook/react'"

  const PrimaryRule := Rule(Includes("export const Primary"), "Missing \"Primary\" story export.")
  const ImportRule := Rule(Includes(TypeImport), "Missing Storybook type imports.")
  const StoryRules := [PrimaryRule, ImportRule]

  const StoryValid := "Valid Storybook file generated."

  /** `validate(code)`, given the compiler's behaviour. */
  function Validate(code: string, transpile: TranspileRequest -> TranspileOutput,
                    parses: (string, ScriptKind) -> bool): TsResult
  {
    var ts := TypeScriptCheck(code, StoryOptions, transpile, parses);
    if !ts.success then ts
    else match FirstFailure(StoryRules, code)
      case Some(m) => TsResult(false, m, None, None)
      case None => TsResult(true, StoryValid, None, None)
  }

  /** The code is compiled alone with JSX allowed, and a failed compile is
      returned as it is. */
  lemma CompileAsTsxFirst(code: string, transpile: TranspileRequest -> TranspileOutput,
                          parses: (string, ScriptKind) -> bool)
    ensures CheckRequest(code, StoryOptions).fileText == "\n" + code
    ensures CheckRequest(code, StoryOptions).options.jsx == Some(ReactJsx)
    ensures !TypeScriptCheck(code, StoryOptions, transpile, parses).success
            ==> Validate(code, transpile, parses) == TypeScriptCheck(code, StoryOptions, transpile, parses)
  {
  }

  /** A compiling file without `export const Primary` is reported for that,
      whether or not the type import is there. */
  lemma MissingPrimaryFirst(code: string, transpile: TranspileRequest -> TranspileOutput,
                            parses: (string, ScriptKind) -> bool)
    requires TypeScriptCheck(code, StoryOptions, transpile, parses).success
    requires !Contains(code, "export const Primary")
    ensures Validate(code, transpile, parses) == TsResult(false, "Missing \"Primary\" story export.", None, None)
  {
    FirstFailureIs(StoryRules, code, 0);
  }

  /** With `Primary` exported, a missing exact type import is reported. */
  lemma MissingTypeImport(code: string, transpile: TranspileRequest -> TranspileOutput,
                          parses: (string, ScriptKind) -> bool)
    requires TypeScriptCheck(code, StoryOptions, transpile, parses).success
    requires Contains(code, "export const Primary")
    requires !Contains(code, TypeImport)
    ensures Validate(code, transpile, parses) == TsResult(false, ImportRule.failure, None, None)
  {
    assert StoryRules[0] == PrimaryRule && StoryRules[1] == ImportRule;
    FirstFailureIs(StoryRules, code, 1);
  }

  /** Success exactly when the code compiles as TSX and holds both texts. */
  lemma SuccessIff(code: string, transpile: TranspileRequest -> TranspileOutput,
                   parses: (string, ScriptKind) -> bool)
    ensures var r := Validate(code, transpile, parses);
            && (r.success <==> TypeScriptCheck(code, StoryOptions, transpile, parses).success
                               && Contains(code, "export const Primary")
                               && Contains(code, TypeImport))
            && (r.success ==> r.message == StoryValid)
  {
    assert StoryRules[0].check == Includes("export const Primary");
    assert StoryRules[1].check == Includes(TypeImport);
  }
}
